/** The shape of an expression, after crates/xript-expr/src/ast.rs, and its tokens. */
module Expressions {
  import opened Prelude

  datatype UnaryOp = Not | Neg | Pos
  datatype BinaryOp = Eq | Ne | Lt | Le | Gt | Ge | Add | Sub | Mul | Div | Rem
  datatype LogicalOp = And | Or | Nullish

  /** There is no node for a parenthesised group. */
  datatype Ast =
    | Num(number: real)
    | Str(text: string)
    | Bool(yes: bool)
    | Null
    | Name(name: string)
    | Member(obj: Ast, member: string)
    | Index(obj: Ast, index: Ast)
    | Unary(unary: UnaryOp, arg: Ast)
    | Binary(binary: BinaryOp, left: Ast, right: Ast)
    | Logical(logical: LogicalOp, left: Ast, right: Ast)
    | Cond(test: Ast, cons: Ast, alt: Ast)
    | Call(name: string, args: Args)

  datatype Args = NoArgs | Arg(head: Ast, tail: Args)

  datatype Sym =
    | EqEq | NotEq | LessEq | MoreEq | AndAnd | OrOr | QueryQuery
    | Less | More | Plus | Minus | Star | Slash | Percent | Bang | Query | Colon
    | OpenParen | CloseParen | OpenBracket | CloseBracket | Comma | Dot

  /** A token; the end of the expression is the end of the list. */
  datatype Tok = NumTok(number: real) | StrTok(text: string) | Word(name: string) | Punct(sym: Sym)

  // ----- What an expression holds -----

  function Size(a: Ast): (n: nat)
    ensures n >= 1
  {
    match a
    case Member(obj, _) => 1 + Size(obj)
    case Index(obj, index) => 1 + Size(obj) + Size(index)
    case Unary(_, arg) => 1 + Size(arg)
    case Binary(_, left, right) => 1 + Size(left) + Size(right)
    case Logical(_, left, right) => 1 + Size(left) + Size(right)
    case Cond(test, cons, alt) => 1 + Size(test) + Size(cons) + Size(alt)
    case Call(_, args) => 1 + ArgsSize(args)
    case _ => 1
  }

  function ArgsSize(args: Args): nat {
    match args
    case NoArgs => 0
    case Arg(head, tail) => Size(head) + ArgsSize(tail)
  }

  function Count(args: Args): nat {
    match args
    case NoArgs => 0
    case Arg(_, tail) => 1 + Count(tail)
  }

  /** Every identifier the expression reads, in the order it is written, repetitions included. */
  function Identifiers(a: Ast): seq<string> {
    match a
    case Name(name) => [name]
    case Member(obj, _) => Identifiers(obj)
    case Index(obj, index) => Identifiers(obj) + Identifiers(index)
    case Unary(_, arg) => Identifiers(arg)
    case Binary(_, left, right) => Identifiers(left) + Identifiers(right)
    case Logical(_, left, right) => Identifiers(left) + Identifiers(right)
    case Cond(test, cons, alt) => Identifiers(test) + Identifiers(cons) + Identifiers(alt)
    case Call(_, args) => ArgsIdentifiers(args)
    case _ => []
  }

  function ArgsIdentifiers(args: Args): seq<string> {
    match args
    case NoArgs => []
    case Arg(head, tail) => Identifiers(head) + ArgsIdentifiers(tail)
  }

  // ----- First appearances -----

  function Noted(names: seq<string>, name: string): seq<string> {
    if name in names then names else names + [name]
  }

  /** `names`, with each further identifier noted where it first appears. */
  function AllNoted(names: seq<string>, ids: seq<string>): seq<string>
    decreases |ids|
  {
    if ids == [] then names else AllNoted(Noted(names, ids[0]), ids[1..])
  }

  lemma {:induction false} NotedInTurn(names: seq<string>, a: seq<string>, b: seq<string>)
    ensures AllNoted(AllNoted(names, a), b) == AllNoted(names, a + b)
    decreases |a|
  {
    if a == [] {
      assert a + b == b;
    } else {
      assert (a + b)[1..] == a[1..] + b;
      NotedInTurn(Noted(names, a[0]), a[1..], b);
    }
  }

  /** `name` is noted before `other` exactly when it first appears before it. */
  ghost predicate Before(s: seq<string>, name: string, other: string) {
    exists i :: 0 <= i < |s| && s[i] == name && other !in s[..i]
  }

  /** What noting all identifiers gives: each of them once, and none besides. */
  lemma {:induction false} NotedAreTheIdentifiers(names: seq<string>, ids: seq<string>)
    requires Distinct(names)
    ensures Distinct(AllNoted(names, ids))
    ensures forall x :: x in AllNoted(names, ids) <==> x in names || x in ids
    ensures |names| <= |AllNoted(names, ids)| && AllNoted(names, ids)[..|names|] == names
    decreases |ids|
  {
    hide Noted, Distinct;
    if ids != [] {
      var noted, rest := Noted(names, ids[0]), ids[1..];
      NotedOnce(names, ids[0]);
      NotedAreTheIdentifiers(noted, rest);
      assert forall x :: x in ids <==> x == ids[0] || x in rest;
      assert AllNoted(names, ids)[..|names|] == AllNoted(names, ids)[..|noted|][..|names|];
    }
  }

  lemma NotedOnce(names: seq<string>, name: string)
    requires Distinct(names)
    ensures Distinct(Noted(names, name))
    ensures forall x :: x in Noted(names, name) <==> x in names || x == name
    ensures |names| <= |Noted(names, name)| && Noted(names, name)[..|names|] == names
  {
  }

  /** ... in the order of their first appearances. */
  lemma {:induction false} NotedInOrder(ids: seq<string>, x: string, y: string)
    requires x != y && x in ids && y in ids
    ensures Before(AllNoted([], ids), x, y) <==> Before(ids, x, y)
    decreases |ids|
  {
    hide Before;
    var front, last := ids[..|ids| - 1], ids[|ids| - 1];
    assert ids == front + [last];
    NotedInTurn([], front, [last]);
    var noted := AllNoted([], front);
    NotedAreTheIdentifiers([], front);
    OneNoted(noted, last);
    if x in front && y in front {
      NotedInOrder(front, x, y);
      BeforeStays(front, last, x, y);
      BeforeStays(noted, last, x, y);
    } else if x in front {
      LaterIsAfter(front, y, x);
      LaterIsAfter(noted, y, x);
    } else {
      LaterIsAfter(front, x, y);
      LaterIsAfter(noted, x, y);
    }
  }

  lemma OneNoted(names: seq<string>, x: string)
    ensures AllNoted(names, [x]) == Noted(names, x)
  {
    assert [x][1..] == [];
  }

  lemma BeforeStays(s: seq<string>, last: string, x: string, y: string)
    requires x in s && y in s
    ensures Before(s + [last], x, y) <==> Before(s, x, y)
  {
    var t := s + [last];
    if Before(s, x, y) {
      var i :| 0 <= i < |s| && s[i] == x && y !in s[..i];
      assert t[..i] == s[..i] && t[i] == x;
    }
    if Before(t, x, y) {
      var i :| 0 <= i < |t| && t[i] == x && y !in t[..i];
      assert t[..|s|] == s;
      assert t[..i] == s[..i];
    }
  }

  /** A name added at the end comes after every other. */
  lemma LaterIsAfter(s: seq<string>, x: string, y: string)
    requires x !in s && y in s
    ensures !Before(s + [x], x, y) && Before(s + [x], y, x)
  {
    var t := s + [x];
    forall i | 0 <= i < |t| && t[i] == x ensures y in t[..i] {
      assert t[..|s|] == s;
    }
    var k :| 0 <= k < |s| && s[k] == y;
    assert t[..k] == s[..k] && t[k] == y;
  }
}
