/** Query expressions and their truth value. */
module Expressions {

  datatype Expr =
    | Pred(attr: string, op: string, value: string)
    | And(children: seq<Expr>)
    | Or(children: seq<Expr>)
    | Not(child: Expr)

  /** Truth value of each predicate. */
  type Env = (string, string, string) -> bool

  predicate Eval(e: Expr, v: Env) {
    match e
    case Pred(a, op, x) => v(a, op, x)
    case And(cs) => forall i :: 0 <= i < |cs| ==> Eval(cs[i], v)
    case Or(cs) => exists i :: 0 <= i < |cs| && Eval(cs[i], v)
    case Not(c) => !Eval(c, v)
  }

  predicate NoNot(e: Expr) {
    match e
    case Pred(_, _, _) => true
    case And(cs) => forall i :: 0 <= i < |cs| ==> NoNot(cs[i])
    case Or(cs) => forall i :: 0 <= i < |cs| ==> NoNot(cs[i])
    case Not(_) => false
  }

  /** Every AND and OR node has a child. */
  predicate NoBareNode(e: Expr) {
    match e
    case Pred(_, _, _) => true
    case And(cs) => cs != [] && forall i :: 0 <= i < |cs| ==> NoBareNode(cs[i])
    case Or(cs) => cs != [] && forall i :: 0 <= i < |cs| ==> NoBareNode(cs[i])
    case Not(c) => NoBareNode(c)
  }

  /** Why a query has no answer; each but the last stands for one parse_exception message. */
  datatype Error =
    | UnexpectedToken | MissingRight | MissingOperator | MissingOperand | TrailingInput
    | InvalidOperator | NotDnf | InvalidIndex | BadPredicate | BadCharacter
    | OutsideIndex   // no exception: the program reads past the keys of an index

  datatype Result<+T> = Ok(value: T) | Err(error: Error)
}
