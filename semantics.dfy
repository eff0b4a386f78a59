/**
 * What the emitted function computes. The bodies of the program's functions are
 * not modelled: a `Program` says, for every function name, which predicate of
 * the receiver and argument values it computes; an environment gives the value
 * bound to each parameter pattern.
 */
module Semantics {

  import opened Wrappers
  import opened Syntax
  import opened Generator
  import opened Macro

  /** The receiver (absent for a free function) and the argument values of a call. */
  datatype Actuals<V> = Actuals(receiver: Option<V>, values: seq<V>)

  type Program<!V> = string -> Actuals<V> -> bool

  /** The values of the patterns, each used as an expression. */
  function Values<V>(env: Pat -> V, pats: seq<Pat>): (vs: seq<V>)
    ensures |vs| == |pats|
    ensures forall i :: 0 <= i < |pats| ==> vs[i] == env(pats[i])
  {
    if |pats| == 0 then [] else [env(pats[0])] + Values(env, pats[1..])
  }

  /** The patterns of the typed (non-receiver) parameters, in order. */
  function TypedPatterns(inputs: seq<FnArg>): (ps: seq<Pat>)
    ensures |ps| <= |inputs|
  {
    if |inputs| == 0 then []
    else (if inputs[0].Typed? then [inputs[0].pat] else []) + TypedPatterns(inputs[1..])
  }

  /** When every parameter is typed, the typed patterns are all the patterns. */
  lemma {:induction false} TypedPatternsAllTyped(inputs: seq<FnArg>)
    requires forall i :: 0 <= i < |inputs| ==> inputs[i].Typed?
    ensures TypedPatterns(inputs) == Patterns(inputs)
  {
    if |inputs| > 0 {
      TypedPatternsAllTyped(inputs[1..]);
    }
  }

  /**
   * The actuals with which a function of signature `sig` is called, given the
   * receiver and the values of its parameters: the receiver counts only for an
   * associated function.
   */
  function ActualsOf<V>(sig: Signature, recv: Option<V>, env: Pat -> V): (a: Actuals<V>)
    ensures !IsAssociatedFunction(sig) ==> a.receiver == None
  {
    Actuals(if IsAssociatedFunction(sig) then recv else None, Values(env, TypedPatterns(sig.inputs)))
  }

  /** The value of an emitted expression; `self` denotes `recv`. */
  function Eval<V>(e: Expr, recv: Option<V>, env: Pat -> V, prog: Program<V>): (b: bool)
  {
    match e
    case Not(operand) => !Eval(operand, recv, env, prog)
    case Call(f, args) => prog(f)(Actuals(None, Values(env, args)))
    case SelfMethodCall(m, args) => prog(m)(Actuals(recv, Values(env, args)))
  }

  /**
   * A pattern whose tokens, used as an argument expression, denote the value it
   * binds: a plain identifier other than `self`, or a tuple of such patterns.
   * `_`, `mut x`, `ref x` and a typed `self` are not: the call emitted for them
   * does not compile.
   */
  predicate Forwardable(p: Pat)
  {
    match p
    case PatIdent(byRef, mutable, name) => !byRef && !mutable && name != "self"
    case PatTuple(elems) => forall i :: 0 <= i < |elems| ==> Forwardable(elems[i])
    case PatWild => false
    case PatOther(_) => false
  }

  /** Every typed parameter of `sig` has a forwardable pattern. */
  predicate ForwardableParameters(sig: Signature)
  {
    forall i :: 0 <= i < |sig.inputs| && sig.inputs[i].Typed? ==> Forwardable(sig.inputs[i].pat)
  }

  /**
   * The emitted function, called on a receiver and with its parameters bound,
   * passes the original function the same receiver and the same arguments and
   * returns the negation of its result.
   */
  lemma NegatedFunctionNegates<V>(attribArgs: seq<NestedMeta>, item: Item, prog: Program<V>, recv: Option<V>, env: Pat -> V)
    requires item.Fn? ==> WellFormed(item.f.sig) && ForwardableParameters(item.f.sig)
    requires Negate(attribArgs, item).Success?
    ensures var x := Negate(attribArgs, item).value;
      && ActualsOf(x.negated.sig, recv, env) == ActualsOf(x.original.sig, recv, env)
      && Eval(x.negated.body, recv, env, prog) == !prog(x.original.sig.ident)(ActualsOf(x.original.sig, recv, env))
  {
    var sig := item.f.sig;
    if IsAssociatedFunction(sig) {
      ReceiverIsFirst(sig);
      TypedPatternsAllTyped(sig.inputs[1..]);
      assert TypedPatterns(sig.inputs) == TypedPatterns(sig.inputs[1..]);
    } else {
      TypedPatternsAllTyped(sig.inputs);
    }
  }
}
