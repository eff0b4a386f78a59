/**
 * Construction of the negated function (src/generator.rs): the `bool` check,
 * the derived name, the doc string, and the forwarding call for free and
 * associated functions.
 */
module Generator {

  import opened Wrappers
  import opened Syntax
  import opened ArgsParsing

  /** The binding pattern of a typed parameter (`x` in `x: i32`). */
  function PatternFromArg(arg: FnArg): (p: Pat)
    requires arg.Typed?
    ensures arg == Typed(p, arg.ty)
  {
    arg.pat
  }

  /** The binding patterns of the parameters, in order. */
  function Patterns(args: seq<FnArg>): (ps: seq<Pat>)
    requires forall i :: 0 <= i < |args| ==> args[i].Typed?
    ensures |ps| == |args|
    ensures forall i :: 0 <= i < |args| ==> args[i] == Typed(ps[i], args[i].ty)
  {
    if |args| == 0 then [] else [PatternFromArg(args[0])] + Patterns(args[1..])
  }

  /** Some parameter is a receiver (the iterator `any` over the inputs). */
  function AnyReceiver(args: seq<FnArg>): (r: bool)
    ensures r <==> exists i :: 0 <= i < |args| && args[i].Receiver?
  {
    if |args| == 0 then false
    else args[0].Receiver? || AnyReceiver(args[1..])
  }

  /** A function is associated iff one of its parameters is a receiver. */
  function IsAssociatedFunction(sig: Signature): (r: bool)
    ensures r <==> exists i :: 0 <= i < |sig.inputs| && sig.inputs[i].Receiver?
  {
    AnyReceiver(sig.inputs)
  }

  /** In a well-formed signature, an associated function's receiver is its first parameter. */
  lemma ReceiverIsFirst(sig: Signature)
    requires WellFormed(sig)
    ensures IsAssociatedFunction(sig) <==> |sig.inputs| > 0 && sig.inputs[0].Receiver?
  {
  }

  const BoolType := "bool"

  /** True iff the return type is written as the path type `bool`; an omitted return type is not. */
  function ReturnsBool(output: ReturnType): (r: bool)
    ensures r <==> output == Type(TyPath(BoolType))
  {
    match output
    case Default => false
    case Type(ty) => ty.TyPath? && ty.tokens == BoolType
  }

  const Prefix := "is_"
  const NegatedPrefix := "is_not_"

  /** The adjective of an identifier `is_<adjective>`, or `None` without that prefix. */
  function GetAdjective(identifier: string): (r: Option<string>)
    ensures r.Some? <==> Prefix <= identifier
    ensures r.Some? ==> identifier == Prefix + r.value
  {
    if !(Prefix <= identifier) then None else Some(identifier[|Prefix|..])
  }

  /** `is_<adjective>` becomes `is_not_<adjective>`; any other identifier is invalid. */
  function NegateIdentifier(ident: string): (r: Result<string, Error>)
    ensures r.Failure? <==> !(Prefix <= ident)
    ensures r.Failure? ==> r.error == InvalidIdentifier
    ensures r.Success? ==> NegatedPrefix <= r.value && r.value[|NegatedPrefix|..] == ident[|Prefix|..]
  {
    match GetAdjective(ident)
    case None => Failure(InvalidIdentifier)
    case Some(adjective) => Success(NegatedPrefix + adjective)
  }

  /** With no override an identifier `is_X` derives exactly `is_not_X`, also when `X` is empty. */
  lemma DerivedName(adjective: string)
    ensures NegateIdentifier(Prefix + adjective) == Success(NegatedPrefix + adjective)
  {
  }

  /** Recovers the original identifier from a derived one: `is_not_X` gives `is_X`. */
  function Denied(negated: string): (r: Option<string>)
  {
    if NegatedPrefix <= negated then Some(Prefix + negated[|NegatedPrefix|..]) else None
  }

  /** Deriving a name loses nothing: the original identifier can be read back from it. */
  lemma DeniedRoundTrip(ident: string)
    requires NegateIdentifier(ident).Success?
    ensures Denied(NegateIdentifier(ident).value) == Some(ident)
  {
  }

  /** The override name if one was given (used verbatim), else the derived name. */
  function BuildIdentifier(maybeName: Option<string>, original: ItemFn): (r: Result<string, Error>)
    ensures maybeName.Some? ==> r == Success(maybeName.value)
    ensures maybeName.None? ==> r == NegateIdentifier(original.sig.ident)
  {
    if maybeName.Some? then Success(maybeName.value) else NegateIdentifier(original.sig.ident)
  }

  const DocHead := "This is an automatically generated function that denies [`"
  const DocTail := "`].\nConsult the original function for more information."

  /** The user's docs verbatim, else the generated line referring to the original function. */
  function BuildDocstring(maybeDocs: Option<string>, original: ItemFn): (d: string)
    ensures maybeDocs.Some? ==> d == maybeDocs.value
    ensures maybeDocs.None? ==> d == DocHead + original.sig.ident + DocTail
  {
    match maybeDocs
    case Some(docs) => docs
    case None => DocHead + original.sig.ident + DocTail
  }

  /** The identifier a generated doc string refers to. */
  function DocSubject(doc: string): (r: Option<string>)
  {
    if |DocHead| + |DocTail| <= |doc| && DocHead <= doc && doc[|doc| - |DocTail|..] == DocTail
    then Some(doc[|DocHead|..|doc| - |DocTail|])
    else None
  }

  /** A generated doc string names exactly the original function. */
  lemma DocNamesOriginal(original: ItemFn)
    ensures DocSubject(BuildDocstring(None, original)) == Some(original.sig.ident)
  {
  }

  /** `self.<original>(p2, ..., pn)` negated: the receiver is not forwarded. */
  function GenerateAssociatedFn(original: ItemFn, newSignature: Signature, doc: string): (r: Expansion)
    requires forall i :: 1 <= i < |newSignature.inputs| ==> newSignature.inputs[i].Typed?
    ensures r.original == original
    ensures r.negated.doc == doc && r.negated.vis == original.vis && r.negated.sig == newSignature
    ensures r.negated.body.Not? && r.negated.body.operand.SelfMethodCall?
    ensures r.negated.body.operand.name == original.sig.ident
    ensures var params := if |newSignature.inputs| == 0 then [] else newSignature.inputs[1..];
      |r.negated.body.operand.args| == |params| &&
      forall i :: 0 <= i < |params| ==> params[i] == Typed(r.negated.body.operand.args[i], params[i].ty)
  {
    var arguments := Patterns(if |newSignature.inputs| == 0 then [] else newSignature.inputs[1..]);
    Expansion(original, NegatedFn(doc, original.vis, newSignature, Not(SelfMethodCall(original.sig.ident, arguments))))
  }

  /** `<original>(p1, ..., pn)` negated: every parameter is forwarded. */
  function GenerateNonAssociatedFn(original: ItemFn, newSignature: Signature, doc: string): (r: Expansion)
    requires forall i :: 0 <= i < |newSignature.inputs| ==> newSignature.inputs[i].Typed?
    ensures r.original == original
    ensures r.negated.doc == doc && r.negated.vis == original.vis && r.negated.sig == newSignature
    ensures r.negated.body.Not? && r.negated.body.operand.Call?
    ensures r.negated.body.operand.func == original.sig.ident
    ensures var params := newSignature.inputs;
      |r.negated.body.operand.args| == |params| &&
      forall i :: 0 <= i < |params| ==> params[i] == Typed(r.negated.body.operand.args[i], params[i].ty)
  {
    var arguments := Patterns(newSignature.inputs);
    Expansion(original, NegatedFn(doc, original.vis, newSignature, Not(Call(original.sig.ident, arguments))))
  }

  /** The name the negated function gets, when it gets one. */
  function NewName(func: ItemFn, args: Config): (n: string)
    requires args.name.Some? || Prefix <= func.sig.ident
    ensures args.name.Some? ==> n == args.name.value
    ensures args.name.None? ==> NegateIdentifier(func.sig.ident) == Success(n)
  {
    if args.name.Some? then args.name.value else NegatedPrefix + func.sig.ident[|Prefix|..]
  }

  /** A derived name is an identifier exactly when the original identifier is one. */
  lemma {:induction false} DerivedIsIdentifier(adjective: string)
    ensures IsIdentifier(NegatedPrefix + adjective) <==> IsIdentifier(Prefix + adjective)
  {
    var original, derived := Prefix + adjective, NegatedPrefix + adjective;
    assert forall i :: 0 <= i < |adjective| ==> original[i + 3] == adjective[i] == derived[i + 7];
    if IsIdentifier(original) {
      forall i | 1 <= i < |derived| ensures IsIdentContinue(derived[i]) {
        if i >= 7 {
          assert derived[i] == original[i - 4];
        }
      }
    }
    if IsIdentifier(derived) {
      forall i | 1 <= i < |original| ensures IsIdentContinue(original[i]) {
        if i >= 3 {
          assert original[i] == derived[i + 4];
        }
      }
    }
  }

  /** The new name is an identifier iff the override is one, or, with no override, iff the original is one. */
  lemma NewNameIsIdentifier(func: ItemFn, args: Config)
    requires args.name.Some? || Prefix <= func.sig.ident
    ensures IsIdentifier(NewName(func, args)) <==>
      if args.name.Some? then IsIdentifier(args.name.value) else IsIdentifier(func.sig.ident)
  {
    if args.name.None? {
      var adjective := func.sig.ident[|Prefix|..];
      assert func.sig.ident == Prefix + adjective;
      DerivedIsIdentifier(adjective);
    }
  }

  /**
   * `gen_negated_function`: reject a non-`bool` return type first, then an
   * underivable name; `Ident::new` panics on a name that is not an identifier;
   * otherwise emit the original and its negation under the cloned signature
   * with only the identifier replaced.
   */
  function GenNegatedFunction(func: ItemFn, args: Config): (r: Result<Expansion, Abort>)
    requires WellFormed(func.sig)
    ensures !ReturnsBool(func.sig.output) ==> r == Failure(Diagnostic(DoesNotReturnBool))
    ensures ReturnsBool(func.sig.output) && args.name.None? && !(Prefix <= func.sig.ident) ==>
      r == Failure(Diagnostic(InvalidIdentifier))
    ensures ReturnsBool(func.sig.output) && args.name.Some? && !IsIdentifier(args.name.value) ==>
      r == Failure(IdentPanic(args.name.value))
    ensures r.Success? <==>
      && ReturnsBool(func.sig.output)
      && (if args.name.Some? then IsIdentifier(args.name.value)
          else Prefix <= func.sig.ident && IsIdentifier(func.sig.ident))
    ensures r.Success? ==>
      && r.value.original == func
      && r.value.negated.vis == func.vis
      && r.value.negated.sig == func.sig.(ident := NewName(func, args))
      && r.value.negated.doc == BuildDocstring(args.docs, func)
    ensures r.Success? ==>
      r.value.negated.body ==
        if IsAssociatedFunction(func.sig)
        then Not(SelfMethodCall(func.sig.ident, Patterns(func.sig.inputs[1..])))
        else Not(Call(func.sig.ident, Patterns(func.sig.inputs)))
  {
    if !ReturnsBool(func.sig.output) then Failure(Diagnostic(DoesNotReturnBool))
    else
      match BuildIdentifier(args.name, func)
      case Failure(e) => Failure(Diagnostic(e))
      case Success(negatedIdentifier) =>
        NewNameIsIdentifier(func, args);
        if !IsIdentifier(negatedIdentifier) then Failure(IdentPanic(negatedIdentifier))
        else
          var newSignature := func.sig.(ident := negatedIdentifier);
          var doc := BuildDocstring(args.docs, func);
          assert newSignature.inputs == func.sig.inputs;
          if IsAssociatedFunction(newSignature) then Success(GenerateAssociatedFn(func, newSignature, doc))
          else Success(GenerateNonAssociatedFn(func, newSignature, doc))
  }
}
