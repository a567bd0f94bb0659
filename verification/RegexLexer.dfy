/**
 Pattern text between the lexer (`internal/vm/parser/lexer.go`, lexRegex) and
 the unparser (`internal/vm/parser/unparser.go`, PatternLit): what the lexer
 can produce, and what survives being printed and lexed again.
 */
module RegexLexer {
  import opened Common

  const SLASH: char := '/'
  const BACKSLASH: char := '\\'
  const NEWLINE: char := '\n'

  // ---- what lexing computes ----

  /** How many characters were used, and the text; the closing slash is left for the next token. */
  datatype Lexed = Regex(text: string, used: nat) | Unterminated(text: string, used: nat)

  /** Lexing the rest `s` of the input, with `text` and `used` so far. */
  function LexFrom(s: string, text: string, used: nat): Lexed
    decreases |s|
  {
    if s == "" then Unterminated(text, used)
    else if s[0] == SLASH then Regex(text, used)
    else if s[0] == NEWLINE then Unterminated(text, used + 1)
    else if s[0] != BACKSLASH then LexFrom(s[1..], text + [s[0]], used + 1)
    else if |s| == 1 then Unterminated(text, used + 1)
    else if s[1] == NEWLINE then Unterminated(text, used + 2)
    else if s[1] == SLASH then LexFrom(s[2..], text + [SLASH], used + 2)
    else LexFrom(s[2..], text + [BACKSLASH, s[1]], used + 2)
  }

  function Lex(s: string): Lexed { LexFrom(s, "", 0) }

  /** The unparser puts a backslash before every slash. */
  function Escape(t: string): string {
    if t == "" then ""
    else if t[0] == SLASH then [BACKSLASH, SLASH] + Escape(t[1..])
    else [t[0]] + Escape(t[1..])
  }

  // ---- what the lexer can produce ----

  /** No newline, and every backslash that is not itself escaped is followed by something other than a slash. */
  predicate Producible(t: string)
    decreases |t|
  {
    if t == "" then true
    else if t[0] == NEWLINE then false
    else if t[0] != BACKSLASH then Producible(t[1..])
    else |t| > 1 && t[1] != NEWLINE && t[1] != SLASH && Producible(t[2..])
  }

  lemma {:induction false} ProducibleJoin(a: string, b: string)
    requires Producible(a) && Producible(b)
    ensures Producible(a + b)
    decreases |a|
  {
    if a == "" {
      assert a + b == b;
    } else if a[0] != BACKSLASH {
      assert (a + b)[1..] == a[1..] + b;
      ProducibleJoin(a[1..], b);
    } else {
      assert (a + b)[2..] == a[2..] + b;
      ProducibleJoin(a[2..], b);
    }
  }

  /** Whatever the lexer accepts, the text it gives is producible. */
  lemma {:induction false} LexedProducible(s: string, text: string, used: nat)
    requires Producible(text)
    ensures LexFrom(s, text, used).Regex? ==> Producible(LexFrom(s, text, used).text)
    decreases |s|
  {
    if s == "" || s[0] == SLASH || s[0] == NEWLINE {
    } else if s[0] != BACKSLASH {
      assert [s[0]][1..] == "";
      ProducibleJoin(text, [s[0]]);
      LexedProducible(s[1..], text + [s[0]], used + 1);
    } else if |s| == 1 || s[1] == NEWLINE {
    } else if s[1] == SLASH {
      assert [SLASH][1..] == "";
      ProducibleJoin(text, [SLASH]);
      LexedProducible(s[2..], text + [SLASH], used + 2);
    } else {
      assert [BACKSLASH, s[1]][2..] == "";
      ProducibleJoin(text, [BACKSLASH, s[1]]);
      LexedProducible(s[2..], text + [BACKSLASH, s[1]], used + 2);
    }
  }

  // ---- printing and lexing again ----

  /** Escaped producible text lexes to itself, up to the closing slash, whatever follows. */
  lemma {:induction false} EscapeLexes(t: string, rest: string, text: string, used: nat)
    requires Producible(t)
    ensures LexFrom(Escape(t) + [SLASH] + rest, text, used) == Regex(text + t, used + |Escape(t)|)
    decreases |t|
  {
    var s := Escape(t) + [SLASH] + rest;
    if t == "" {
      assert s[0] == SLASH && text + t == text;
    } else if t[0] == SLASH {
      assert s[2..] == Escape(t[1..]) + [SLASH] + rest && s[0] == BACKSLASH && s[1] == SLASH;
      EscapeLexes(t[1..], rest, text + [SLASH], used + 2);
      assert text + [SLASH] + t[1..] == text + t;
    } else if t[0] != BACKSLASH {
      assert s[1..] == Escape(t[1..]) + [SLASH] + rest && s[0] == t[0];
      EscapeLexes(t[1..], rest, text + [t[0]], used + 1);
      assert text + [t[0]] + t[1..] == text + t;
    } else {
      assert t[1..][0] == t[1] && t[1..][1..] == t[2..];
      assert Escape(t) == [t[0]] + ([t[1]] + Escape(t[2..]));
      assert s[2..] == Escape(t[2..]) + [SLASH] + rest && s[0] == BACKSLASH && s[1] == t[1];
      EscapeLexes(t[2..], rest, text + [BACKSLASH, t[1]], used + 2);
      assert text + [BACKSLASH, t[1]] + t[2..] == text + t;
    }
  }

  /** Lexing only ever adds to the text it has. */
  lemma {:induction false} LexExtends(s: string, text: string, used: nat)
    ensures text <= LexFrom(s, text, used).text
    decreases |s|
  {
    if s == "" || s[0] == SLASH || s[0] == NEWLINE {
    } else if s[0] != BACKSLASH {
      LexExtends(s[1..], text + [s[0]], used + 1);
    } else if |s| == 1 || s[1] == NEWLINE {
    } else if s[1] == SLASH {
      LexExtends(s[2..], text + [SLASH], used + 2);
    } else {
      LexExtends(s[2..], text + [BACKSLASH, s[1]], used + 2);
    }
  }

  /** Text the lexer cannot produce does not survive. */
  lemma {:induction false} EscapeBreaks(t: string, rest: string, text: string, used: nat)
    requires !Producible(t)
    ensures var r := LexFrom(Escape(t) + [SLASH] + rest, text, used);
            r.Regex? ==> r.text != text + t
    decreases |t|
  {
    var s := Escape(t) + [SLASH] + rest;
    if t[0] == SLASH {
      assert s[2..] == Escape(t[1..]) + [SLASH] + rest && s[0] == BACKSLASH && s[1] == SLASH;
      EscapeBreaks(t[1..], rest, text + [SLASH], used + 2);
      assert text + [SLASH] + t[1..] == text + t;
    } else if t[0] == NEWLINE {
      assert s[0] == NEWLINE;
    } else if t[0] != BACKSLASH {
      assert s[1..] == Escape(t[1..]) + [SLASH] + rest && s[0] == t[0];
      EscapeBreaks(t[1..], rest, text + [t[0]], used + 1);
      assert text + [t[0]] + t[1..] == text + t;
    } else {
      EscapeBreaksAtBackslash(t, rest, text, used);
    }
  }

  lemma TwoBackslashes(s: string, text: string, used: nat)
    requires |s| > 2 && s[0] == BACKSLASH && s[1] == BACKSLASH && s[2] == SLASH
    ensures LexFrom(s, text, used) == Regex(text + [BACKSLASH, BACKSLASH], used + 2)
  {
    assert s[2..][0] == SLASH;
    assert LexFrom(s[2..], text + [BACKSLASH, s[1]], used + 2) == Regex(text + [BACKSLASH, s[1]], used + 2);
  }

  /** The backslash takes the one meant for the slash, and the slash ends the text. */
  lemma EscapeBreaksAtSlash(t: string, rest: string, text: string, used: nat)
    requires |t| > 1 && t[0] == BACKSLASH && t[1] == SLASH
    ensures LexFrom(Escape(t) + [SLASH] + rest, text, used).text != text + t
  {
    var s := Escape(t) + [SLASH] + rest;
    assert t[1..][0] == SLASH;
    assert Escape(t) == [BACKSLASH] + ([BACKSLASH, SLASH] + Escape(t[1..][1..]));
    TwoBackslashes(s, text, used);
    hide LexFrom;
    hide Escape;
    var r := text + [BACKSLASH, BACKSLASH];
    assert r[|text| + 1] == BACKSLASH;
    assert (text + t)[|text| + 1] == SLASH;
  }

  /** The closing slash is taken for an escaped one. */
  lemma EscapeBreaksAtEnd(rest: string, text: string, used: nat)
    ensures LexFrom([BACKSLASH, SLASH] + rest, text, used).text != text + [BACKSLASH]
  {
    var s := [BACKSLASH, SLASH] + rest;
    assert LexFrom(s, text, used) == LexFrom(s[2..], text + [SLASH], used + 2);
    LexExtends(s[2..], text + [SLASH], used + 2);
    hide LexFrom;
    assert (text + [SLASH])[|text|] == SLASH;
    assert (text + [BACKSLASH])[|text|] == BACKSLASH;
  }

  lemma {:induction false} EscapeBreaksAtBackslash(t: string, rest: string, text: string, used: nat)
    requires t != "" && t[0] == BACKSLASH && !Producible(t)
    ensures var r := LexFrom(Escape(t) + [SLASH] + rest, text, used);
            r.Regex? ==> r.text != text + t
    decreases |t|, 0
  {
    if |t| == 1 {
      assert t == [BACKSLASH] && t[1..] == "";
      assert Escape(t) == [BACKSLASH] + Escape("");
      assert Escape(t) + [SLASH] + rest == [BACKSLASH, SLASH] + rest;
      EscapeBreaksAtEnd(rest, text, used);
    } else if t[1] == SLASH {
      EscapeBreaksAtSlash(t, rest, text, used);
    } else {
      EscapePair(t, rest, text, used);
      if t[1] != NEWLINE {
        EscapeBreaks(t[2..], rest, text + [BACKSLASH, t[1]], used + 2);
        assert text + [BACKSLASH, t[1]] + t[2..] == text + t;
      }
    }
  }

  /** A backslash and what it escapes go through together. */
  lemma EscapePair(t: string, rest: string, text: string, used: nat)
    requires |t| > 1 && t[0] == BACKSLASH && t[1] != SLASH
    ensures LexFrom(Escape(t) + [SLASH] + rest, text, used) ==
            if t[1] == NEWLINE then Unterminated(text, used + 2)
            else LexFrom(Escape(t[2..]) + [SLASH] + rest, text + [BACKSLASH, t[1]], used + 2)
  {
    var s := Escape(t) + [SLASH] + rest;
    assert t[1..][0] == t[1] && t[1..][1..] == t[2..];
    assert Escape(t) == [t[0]] + ([t[1]] + Escape(t[2..]));
    assert s[0] == BACKSLASH && s[1] == t[1] && s[2..] == Escape(t[2..]) + [SLASH] + rest;
  }

  /**
   Printing a pattern and lexing it again gives the same text, ending at the
   closing slash, if and only if the text is one the lexer can produce.
   */
  lemma RoundTrip(t: string, rest: string)
    ensures Lex(Escape(t) + [SLASH] + rest) == Regex(t, |Escape(t)|) <==> Producible(t)
  {
    if Producible(t) {
      EscapeLexes(t, rest, "", 0);
    } else {
      EscapeBreaks(t, rest, "", 0);
    }
  }

  /** The texts the lexer produces are exactly the producible ones; so every one of them survives printing. */
  lemma Range(t: string)
    ensures Producible(t) <==> exists s :: Lex(s).Regex? && Lex(s).text == t
  {
    if Producible(t) {
      EscapeLexes(t, "", "", 0);
      assert Lex(Escape(t) + [SLASH] + "").Regex?;
    }
    forall s | Lex(s).Regex?
      ensures Producible(Lex(s).text)
    {
      LexedProducible(s, "", 0);
    }
  }

  // ---- the state function ----

  datatype Kind = REGEX | INVALID

  datatype Token = Token(kind: Kind, spelling: string)

  function TokenOf(r: Lexed): Token {
    match r
    case Regex(text, _) => Token(REGEX, text)
    case Unterminated(text, _) => Token(INVALID, "Unterminated regular expression: \"/" + text + "\"")
  }

  class Lexer {
    const input: string
    var pos: nat
    /** The rune last read; None is end of file. */
    var rune: Option<char>
    var text: string
    var tokens: seq<Token>
    var inRegex: bool

    constructor (input: string)
      ensures this.input == input && pos == 0 && text == "" && tokens == [] && inRegex
    {
      this.input := input;
      pos, rune, text, tokens, inRegex := 0, None, "", [], true;
    }

    method Next() returns (r: Option<char>)
      requires pos <= |input|
      modifies `pos, `rune
      ensures rune == r
      ensures if old(pos) < |input| then r == Some(input[old(pos)]) && pos == old(pos) + 1 else r == None && pos == old(pos)
    {
      if pos < |input| {
        rune := Some(input[pos]);
        pos := pos + 1;
      } else {
        rune := None;
      }
      r := rune;
    }

    method Backup()
      requires rune.Some? ==> pos > 0
      modifies `pos
      ensures pos == if rune.Some? then old(pos) - 1 else old(pos)
    {
      if rune.Some? {
        pos := pos - 1;
      }
    }

    method Accept()
      requires rune.Some?
      modifies `text
      ensures text == old(text) + [rune.value]
    {
      text := text + [rune.value];
    }

    method Emit(kind: Kind)
      modifies `text, `tokens
      ensures tokens == old(tokens) + [Token(kind, old(text))] && text == ""
    {
      tokens := tokens + [Token(kind, text)];
      text := "";
    }

    /** Lex from the opening slash on; the token and the new position are those Lex computes. */
    method LexRegex()
      requires pos <= |input| && text == ""
      modifies this
      ensures var r := LexFrom(input[old(pos)..], "", old(pos));
              tokens == old(tokens) + [TokenOf(r)] && pos == r.used && pos <= |input|
      ensures text == "" && !inRegex
    {
      ghost var want := LexFrom(input[pos..], "", pos);
      inRegex := false;
      var open := true;
      while open
        invariant pos <= |input| && tokens == old(tokens) && !inRegex
        invariant if open then LexFrom(input[pos..], text, pos) == want else want == Regex(text, pos)
        decreases open, |input| - pos
      {
        ghost var rest, sofar := input[pos..], text;
        var r := Next();
        if r == Some(BACKSLASH) {
          assert rest[1..] == input[pos..];
          r := Next();
          if r.None? || r.value == NEWLINE {
            assert want == Unterminated(text, pos);
            Error();
            return;
          }
          assert rest[1] == r.value && rest[2..] == input[pos..];
          if r.value != SLASH {
            text := text + [BACKSLASH];
          }
          Accept();
          assert text == if r.value == SLASH then sofar + [SLASH] else sofar + [BACKSLASH, r.value];
        } else if r.None? || r.value == NEWLINE {
          assert want == Unterminated(text, pos);
          Error();
          return;
        } else if r.value == SLASH {
          Backup();
          open := false;
        } else {
          assert rest[1..] == input[pos..];
          Accept();
        }
      }
      Emit(REGEX);
    }

    method Error()
      modifies `text, `tokens
      ensures tokens == old(tokens) + [Token(INVALID, "Unterminated regular expression: \"/" + old(text) + "\"")]
      ensures text == ""
    {
      tokens := tokens + [Token(INVALID, "Unterminated regular expression: \"/" + text + "\"")];
      text := "";
    }
  }
}
