/**
 Abstract syntax of checked mtail programs, restricted to Int and String
 expressions over Int and String metrics (`internal/vm/ast/ast.go`).

 A pattern carries an identity.  In a program as parsed it is the identity of
 the AST node; after numbering it is the slot of the compiled regular
 expression, so the same type serves both stages.
 */
module Syntax {
  import opened Common

  datatype Typ = TInt | TString

  datatype IntOp = Add | Sub | Mul | Div | Mod | Pow | Shl | Shr | BitAnd | BitOr | BitXor

  datatype BinOp = IntBin(op: IntOp) | Concat

  datatype UnOp = BitNot | ToLower | Length | IntToStr | StrToInt

  datatype Rel = LT | GT | LE | GE | EQ | NE

  /**
   What the generator knows of the left operand of a comparison: a type, or a
   type variable, whatever it has been bound to since.
   */
  datatype Left = Typed(typ: Typ) | Untyped

  /** A metric, indexed by one expression per key. */
  datatype LValue = LValue(metric: nat, args: seq<Expr>)

  datatype Term =
    | IntLit(i: int)
    | StrLit(text: string, slot: nat)
    | Capref(pat: nat, group: nat)
    | FileName
    | Pattern(re: string, id: nat)
    | Otherwise

  /** How an expression uses a metric: read it, `++` it or `--` it. */
  datatype Access = Get(typ: Typ) | Inc | Dec

  datatype Expr =
    | Leaf(t: Term)
    | Use(lv: LValue, how: Access)
    | Unary(uop: UnOp, e: Expr)
    | Binary(bop: BinOp, l: Expr, r: Expr)
    | Compare(rel: Rel, left: Left, l: Expr, r: Expr)
    | Logic(conj: bool, l: Expr, r: Expr)
    | StrMatch(e: Expr, re: string, id: nat, negated: bool)
    /** What a String `+=` assigns: the text of its own cell with `e` behind it. */
    | Joined(lv: LValue, e: Expr)

  /** `=` and the Int form of `+=`; the String form sets a `Joined`. */
  datatype Update = SetTo(typ: Typ) | AddTo

  /**
   Statements after decorators have been expanded.  `Instance` marks the
   body of an applied decorator and the block its `next` ran; it has no code
   of its own.  `Remove` is `del`, with the duration of `del ... after`.
   */
  datatype Stmt =
    | ExprStmt(e: Expr)
    | Store(lv: LValue, e: Expr, how: Update)
    | Cond(c: Expr, truth: Stmt, els: Option<Stmt>)
    | Block(stmts: seq<Stmt>)
    | Instance(body: Stmt)
    | Stop
    | Remove(lv: LValue, after: Option<int>)
}
