/**
 Cutting a byte stream into lines (`internal/tailer/logstream/decode.go`):
 the loop over one read, and what any number of pieces amounts to.
 */
module LineDecoder {
  import opened Utf8

  const NEWLINE: Byte := 0x0A

  /** Lines sent so far, and the line being accumulated. */
  datatype State = State(lines: seq<Bytes>, partial: Bytes)

  function Take(st: State, r: int): State
    requires Scalar(r)
  {
    if r != NEWLINE then st.(partial := st.partial + EncodeRune(r))
    else State(st.lines + [st.partial], [])
  }

  /** One read. */
  function Feed(st: State, b: Bytes): State
    decreases |b|
  {
    if b == [] then st
    else
      DecodeGrammar(b);
      var d := DecodeRune(b);
      Feed(Take(st, d.r), b[d.width..])
  }

  function FeedAll(st: State, pieces: seq<Bytes>): State
    decreases |pieces|
  {
    if pieces == [] then st else FeedAll(Feed(st, pieces[0]), pieces[1..])
  }

  function Joined(pieces: seq<Bytes>): Bytes {
    if pieces == [] then [] else pieces[0] + Joined(pieces[1..])
  }

  // ---- the number of lines ----

  function Newlines(b: Bytes): nat {
    if b == [] then 0 else (if b[0] == NEWLINE then 1 else 0) + Newlines(b[1..])
  }

  lemma {:induction false} NewlinesJoin(a: Bytes, b: Bytes)
    ensures Newlines(a + b) == Newlines(a) + Newlines(b)
  {
    if a == [] {
      assert a + b == b;
    } else {
      assert (a + b)[1..] == a[1..] + b;
      NewlinesJoin(a[1..], b);
    }
  }

  /** A newline byte is never part of another character. */
  lemma NewlineAlone(b: Bytes)
    requires b != []
    ensures var d := DecodeRune(b);
            1 <= d.width <= |b| && (d.r == NEWLINE <==> b[0] == NEWLINE)
            && Newlines(b[..d.width]) == if d.r == NEWLINE then 1 else 0
  {
    DecodeGrammar(b);
    var d := DecodeRune(b);
    var head := b[..d.width];
    assert head[0] == b[0];
    TailsFollow(b);
    assert forall i :: 0 <= i < |head[1..]| ==> head[1..][i] == b[i + 1];
    NoNewlines(head[1..]);
  }

  /** Behind the first byte of a character come tail bytes only. */
  lemma TailsFollow(b: Bytes)
    requires b != []
    ensures var d := DecodeRune(b);
            d.width <= |b| && (forall i :: 0 < i < d.width ==> Tail(b[i]))
            && (d.width > 1 ==> StartsWell(b) && First(b[0]).Multi? && First(b[0]).size == d.width)
  {
    DecodeGrammar(b);
  }

  lemma {:induction false} NoNewlines(b: Bytes)
    ensures (forall i :: 0 <= i < |b| ==> b[i] != NEWLINE) ==> Newlines(b) == 0
  {
    if b != [] {
      NoNewlines(b[1..]);
    }
  }

  lemma {:induction false} FeedLines(st: State, b: Bytes)
    ensures |Feed(st, b).lines| == |st.lines| + Newlines(b)
    decreases |b|
  {
    if b != [] {
      DecodeGrammar(b);
      NewlineAlone(b);
      var d := DecodeRune(b);
      NewlinesJoin(b[..d.width], b[d.width..]);
      assert b[..d.width] + b[d.width..] == b;
      FeedLines(Take(st, d.r), b[d.width..]);
    }
  }

  /** For every byte string, valid or not, and every cut into reads: one line per newline byte. */
  lemma {:induction false} LinesCounted(st: State, pieces: seq<Bytes>)
    ensures |FeedAll(st, pieces).lines| == |st.lines| + Newlines(Joined(pieces))
    decreases |pieces|
  {
    if pieces != [] {
      FeedLines(st, pieces[0]);
      LinesCounted(Feed(st, pieces[0]), pieces[1..]);
      NewlinesJoin(pieces[0], Joined(pieces[1..]));
    }
  }

  // ---- cuts ----

  /** Decoding `b` from its start comes to position `i`. */
  predicate Boundary(b: Bytes, i: nat)
    decreases |b|
  {
    i == 0 || (i <= |b| && b != [] && (DecodeGrammar(b); var w := DecodeRune(b).width; w <= i && Boundary(b[w..], i - w)))
  }

  /** Every cut between two pieces falls between two characters. */
  predicate OnBoundaries(pieces: seq<Bytes>) {
    pieces != [] ==> Boundary(Joined(pieces), |pieces[0]|) && OnBoundaries(pieces[1..])
  }

  /** Bytes written for `b`, wherever they end up. */
  function Written(b: Bytes): nat
    decreases |b|
  {
    if b == [] then 0
    else
      DecodeGrammar(b);
      var d := DecodeRune(b);
      (if d.r == NEWLINE then 0 else |EncodeRune(d.r)|) + Written(b[d.width..])
  }

  function WrittenAll(pieces: seq<Bytes>): nat {
    if pieces == [] then 0 else Written(pieces[0]) + WrittenAll(pieces[1..])
  }

  function TotalLines(lines: seq<Bytes>): nat {
    if lines == [] then 0 else TotalLines(lines[..|lines| - 1]) + |lines[|lines| - 1]|
  }

  function Total(st: State): nat { TotalLines(st.lines) + |st.partial| }

  lemma {:induction false} FeedTotal(st: State, b: Bytes)
    ensures Total(Feed(st, b)) == Total(st) + Written(b)
    decreases |b|
  {
    if b != [] {
      DecodeGrammar(b);
      var d := DecodeRune(b);
      var next := Take(st, d.r);
      if d.r == NEWLINE {
        assert next.lines[..|st.lines|] == st.lines;
      }
      FeedTotal(next, b[d.width..]);
    }
  }

  lemma {:induction false} FeedAllTotal(st: State, pieces: seq<Bytes>)
    ensures Total(FeedAll(st, pieces)) == Total(st) + WrittenAll(pieces)
    decreases |pieces|
  {
    if pieces != [] {
      FeedTotal(st, pieces[0]);
      FeedAllTotal(Feed(st, pieces[0]), pieces[1..]);
    }
  }

  /** A cut between two characters changes nothing. */
  lemma {:induction false} FeedCut(st: State, a: Bytes, b: Bytes)
    requires Boundary(a + b, |a|)
    ensures Feed(Feed(st, a), b) == Feed(st, a + b)
    ensures Written(a) + Written(b) == Written(a + b)
    decreases |a|
  {
    if a == [] {
      assert a + b == b;
    } else {
      DecodeGrammar(a + b);
      DecodeGrammar(a);
      var d := DecodeRune(a + b);
      DecodePrefix(a, b);
      assert (a + b)[d.width..] == a[d.width..] + b;
      FeedCut(Take(st, d.r), a[d.width..], b);
    }
  }

  /** A stretch of bytes that each become a replacement character of three bytes. */
  lemma {:induction false} WrittenBroken(b: Bytes, k: nat)
    requires k <= |b|
    requires forall i :: 0 <= i < k ==> Tail(b[i]) || (i == 0 && First(b[0]).Multi? && |b| < First(b[0]).size)
    ensures Written(b) == 3 * k + Written(b[k..])
    decreases k
  {
    if k > 0 {
      DecodeBroken(b);
      assert |EncodeRune(REPLACEMENT)| == 3;
      WrittenBroken(b[1..], k - 1);
      assert b[1..][k - 1..] == b[k..];
    } else {
      assert b[0..] == b;
    }
  }

  /** A cut inside a character breaks it: each of its bytes is written as a replacement character. */
  lemma {:induction false} WrittenCut(a: Bytes, b: Bytes)
    ensures Written(a) + Written(b) >= Written(a + b)
    ensures Written(a) + Written(b) == Written(a + b) <==> Boundary(a + b, |a|)
    decreases |a|
  {
    if a == [] {
      assert a + b == b;
    } else {
      DecodeGrammar(a + b);
      DecodeGrammar(a);
      var d := DecodeRune(a + b);
      if d.width <= |a| {
        DecodePrefix(a, b);
        assert (a + b)[d.width..] == a[d.width..] + b;
        WrittenCut(a[d.width..], b);
      } else {
        WrittenInside(a, b);
      }
    }
  }

  lemma {:induction false} WrittenInside(a: Bytes, b: Bytes)
    requires a != [] && DecodeRune(a + b).width > |a|
    ensures Written(a) + Written(b) > Written(a + b) && !Boundary(a + b, |a|)
  {
    hide DecodeRune;
    hide First;
    hide EncodeRune;
    var c := a + b;
    var w := DecodeRune(c).width;
    TailsFollow(c);
    assert c[0] == a[0];
    assert forall i :: 0 < i < |a| ==> c[i] == a[i];
    assert forall i :: 0 <= i < w - |a| ==> c[|a| + i] == b[i];
    WrittenBroken(a, |a|);
    WrittenBroken(b, w - |a|);
    assert a[|a|..] == [];
    assert c[w..] == b[w - |a|..];
    WrittenWhole(c);
  }

  lemma WrittenWhole(c: Bytes)
    requires c != [] && DecodeRune(c).width > 1
    ensures var w := DecodeRune(c).width;
            w <= |c| && Written(c) == w + Written(c[w..])
  {
    TailsFollow(c);
    EncodeDecode(c);
    NewlineAlone(c);
  }

  lemma {:induction false} WrittenAllCuts(pieces: seq<Bytes>)
    ensures WrittenAll(pieces) >= Written(Joined(pieces))
    ensures WrittenAll(pieces) == Written(Joined(pieces)) <==> OnBoundaries(pieces)
  {
    if pieces != [] {
      WrittenAllCuts(pieces[1..]);
      WrittenCut(pieces[0], Joined(pieces[1..]));
    }
  }

  lemma {:induction false} FeedAllCuts(st: State, pieces: seq<Bytes>)
    requires OnBoundaries(pieces)
    ensures FeedAll(st, pieces) == Feed(st, Joined(pieces))
    decreases |pieces|
  {
    if pieces != [] {
      FeedCut(st, pieces[0], Joined(pieces[1..]));
      FeedAllCuts(Feed(st, pieces[0]), pieces[1..]);
    }
  }

  /**
   Reading in pieces gives the same lines and the same leftover as reading
   at once if and only if no piece ends inside a character.
   */
  lemma PiecesAgree(st: State, pieces: seq<Bytes>)
    ensures FeedAll(st, pieces) == Feed(st, Joined(pieces)) <==> OnBoundaries(pieces)
  {
    if OnBoundaries(pieces) {
      FeedAllCuts(st, pieces);
    } else {
      WrittenAllCuts(pieces);
      FeedAllTotal(st, pieces);
      FeedTotal(st, Joined(pieces));
    }
  }

  // ---- faithfulness ----

  /** Well-formed UTF-8 throughout. */
  predicate WellFormed(b: Bytes)
    decreases |b|
  {
    b == [] || (StartsWell(b) && (DecodeGrammar(b); WellFormed(b[DecodeRune(b).width..])))
  }

  /** Splitting at newline bytes, with no decoding at all. */
  function Split(st: State, b: Bytes): State
    decreases |b|
  {
    if b == [] then st
    else if b[0] == NEWLINE then Split(State(st.lines + [st.partial], []), b[1..])
    else Split(st.(partial := st.partial + [b[0]]), b[1..])
  }

  lemma {:induction false} SplitJoin(st: State, a: Bytes, b: Bytes)
    ensures Split(Split(st, a), b) == Split(st, a + b)
    decreases |a|
  {
    if a == [] {
      assert a + b == b;
    } else {
      assert (a + b)[1..] == a[1..] + b;
      SplitJoin(if a[0] == NEWLINE then State(st.lines + [st.partial], []) else st.(partial := st.partial + [a[0]]), a[1..], b);
    }
  }

  lemma {:induction false} SplitPlain(st: State, a: Bytes)
    requires forall i :: 0 <= i < |a| ==> a[i] != NEWLINE
    ensures Split(st, a) == st.(partial := st.partial + a)
    decreases |a|
  {
    if a == [] {
      assert st.partial + a == st.partial;
    } else {
      SplitPlain(st.(partial := st.partial + [a[0]]), a[1..]);
      assert st.partial + [a[0]] + a[1..] == st.partial + a;
    }
  }

  /** On well-formed UTF-8, decoding and re-encoding leaves every byte of every line as it was. */
  lemma {:induction false} Faithful(st: State, b: Bytes)
    requires WellFormed(b)
    ensures Feed(st, b) == Split(st, b)
    decreases |b|
  {
    if b != [] {
      DecodeGrammar(b);
      EncodeDecode(b);
      NewlineAlone(b);
      var d := DecodeRune(b);
      var head, rest := b[..d.width], b[d.width..];
      if d.r != NEWLINE {
        assert forall i :: 0 <= i < |head| ==> head[i] != NEWLINE;
        SplitPlain(st, head);
        assert Take(st, d.r) == Split(st, head);
      } else {
        assert head == [NEWLINE] && head[1..] == [];
        assert Take(st, d.r) == Split(st, head);
      }
      SplitJoin(st, head, rest);
      assert head + rest == b;
      Faithful(Take(st, d.r), rest);
    }
  }

  // ---- the loop ----

  class Decoder {
    /** What has gone down the channel. */
    var lines: seq<Bytes>
    var partial: Bytes

    function View(): State
      reads this
    {
      State(lines, partial)
    }

    constructor ()
      ensures View() == State([], [])
    {
      lines, partial := [], [];
    }

    method SendLine()
      modifies this
      ensures View() == State(old(lines) + [old(partial)], [])
    {
      lines := lines + [partial];
      partial := [];
    }

    /** `n` is the count the read returned, `b` the buffer cut to that length. */
    method DecodeAndSend(n: nat, b: Bytes)
      requires n == |b|
      modifies this
      ensures View() == Feed(old(View()), b)
    {
      hide EncodeRune;
      hide First;
      var i := 0;
      while i < |b| && i < n
        invariant i <= n && Feed(View(), b[i..]) == Feed(old(View()), b)
      {
        DecodeGrammar(b[i..]);
        var d := DecodeRune(b[i..]);
        assert b[i..][d.width..] == b[i + d.width..];
        if d.r != NEWLINE {
          partial := partial + EncodeRune(d.r);
        } else {
          SendLine();
        }
        i := i + d.width;
      }
    }
  }
}
