/** The macro entry point (src/lib.rs): parse the configuration, then dispatch on the item kind. */
module Macro {

  import opened Wrappers
  import opened Syntax
  import opened ArgsParsing
  import opened Generator

  /**
   * `negate`: a configuration error wins over everything else; a non-function
   * item is rejected; a function is handed, with its configuration, to the generator.
   */
  function Negate(attribArgs: seq<NestedMeta>, item: Item): (r: Result<Expansion, Abort>)
    requires item.Fn? ==> WellFormed(item.f.sig)
    ensures Parsed(attribArgs).Failure? ==> r == Failure(Diagnostic(Parsed(attribArgs).error))
    ensures Parsed(attribArgs).Success? && !item.Fn? ==> r == Failure(Diagnostic(NotAppliedToAFunction))
    ensures Parsed(attribArgs).Success? && item.Fn? ==> r == GenNegatedFunction(item.f, Parsed(attribArgs).value)
  {
    match Parsed(attribArgs)
    case Failure(e) => Failure(Diagnostic(e))
    case Success(args) =>
      match item
      case Fn(f) => GenNegatedFunction(f, args)
      case OtherItem(_) => Failure(Diagnostic(NotAppliedToAFunction))
  }

  /** Some entry of the argument list is `name = "..."`. */
  predicate HasNameEntry(attribArgs: seq<NestedMeta>)
  {
    exists i :: 0 <= i < |attribArgs| && ParseMetaIntoStringLiteral(attribArgs[i]).Success? &&
      ParseMetaIntoStringLiteral(attribArgs[i]).value.Name?
  }

  /** Every `name = "..."` entry names an identifier. */
  predicate NameEntriesAreIdentifiers(attribArgs: seq<NestedMeta>)
  {
    forall i :: 0 <= i < |attribArgs| ==>
      var k := ParseMetaIntoStringLiteral(attribArgs[i]);
      k.Success? && k.value.Name? ==> IsIdentifier(k.value.value)
  }

  /**
   * The expansion succeeds exactly when the arguments are a valid configuration,
   * the item is a function returning `bool`, and the configuration overrides the
   * name with an identifier, or the function is named `is_...`.
   */
  lemma NegateSucceedsIff(attribArgs: seq<NestedMeta>, item: Item)
    requires item.Fn? ==> WellFormed(item.f.sig)
    ensures Negate(attribArgs, item).Success? <==>
      && AllWellFormed(attribArgs) && |attribArgs| <= 2
      && !(exists i, j :: 0 <= i < j < |attribArgs| && SameKey(attribArgs, i, j))
      && item.Fn? && ReturnsBool(item.f.sig.output)
      && NameEntriesAreIdentifiers(attribArgs)
      && (HasNameEntry(attribArgs) || (Prefix <= item.f.sig.ident && IsIdentifier(item.f.sig.ident)))
  {
    ParsedSucceedsIff(attribArgs);
    if Parsed(attribArgs).Success? {
      ParsedValues(attribArgs, NameKey);
    }
  }
}
