/** The crate's documented usages, as concrete expansions. */
module Examples {

  import opened Wrappers
  import opened Syntax
  import opened ArgsParsing
  import opened Generator
  import opened Macro
  import opened Semantics

  const BoolOutput := Type(TyPath("bool"))
  const X := PatIdent(false, false, "x")

  /** `pub fn is_even(x: i32) -> bool { x % 2 == 0 }` */
  const IsEven := ItemFn([], Public, Signature([], "is_even", "", [Typed(X, TyPath("i32"))], false, BoolOutput), "x % 2 == 0")

  /** A program in which `is_even` tests an integer for evenness. */
  function EvenProgram(f: string): Actuals<int> -> bool
  {
    (a: Actuals<int>) => f == "is_even" && |a.values| == 1 && a.values[0] % 2 == 0
  }

  /** `#[negate]` on `is_even` emits `is_even` unchanged and `pub fn is_not_even(x: i32) -> bool { !is_even(x) }`. */
  lemma IsEvenExpansion()
    ensures Negate([], Fn(IsEven)) == Success(Expansion(IsEven, NegatedFn(
      DocHead + "is_even" + DocTail,
      Public, IsEven.sig.(ident := "is_not_even"), Not(Call("is_even", [X])))))
  {
    assert IsEven.sig.ident == Prefix + "even";
    DerivedName("even");
    assert Patterns(IsEven.sig.inputs) == [X];
    assert NegatedPrefix + "even" == "is_not_even";
    assert NewName(IsEven, DefaultConfig) == "is_not_even";
    assert Parsed([]) == Success(DefaultConfig);
    assert !IsAssociatedFunction(IsEven.sig);
  }

  /** `is_not_even(3)` holds and `is_not_even(4)` does not. */
  lemma IsNotEvenValues()
    ensures var body := Negate([], Fn(IsEven)).value.negated.body;
      Eval(body, None, (p: Pat) => 3, EvenProgram) && !Eval(body, None, (p: Pat) => 4, EvenProgram)
  {
  }

  /** `#[negate(name = "is_odd", docs = "...")]` on `is_even` emits `is_odd` with those docs, and `is_odd(5)` holds. */
  lemma IsOddExample()
    ensures var docs := "returns true if the given number is odd";
      var r := Negate([Entry(Name("is_odd")), Entry(Docs(docs))], Fn(IsEven));
      && r.Success?
      && r.value.negated.sig == IsEven.sig.(ident := "is_odd")
      && r.value.negated.doc == docs
      && Eval(r.value.negated.body, None, (p: Pat) => 5, EvenProgram)
  {
  }

  /** `pub fn is_ready(&self, id: usize) -> bool { ... }` */
  const IsReady := ItemFn([], Public, Signature([], "is_ready", "",
    [Receiver(ByReference(None, false)), Typed(PatIdent(false, false, "id"), TyPath("usize"))], false, BoolOutput), "...")

  /** `#[negate(name = "is_finished")]` on the method `is_ready` emits `is_finished(&self, id)` calling `!self.is_ready(id)`. */
  lemma IsFinishedExample()
    ensures var r := Negate([Entry(Name("is_finished"))], Fn(IsReady));
      && r.Success?
      && r.value.negated.sig == IsReady.sig.(ident := "is_finished")
      && r.value.negated.body == Not(SelfMethodCall("is_ready", [PatIdent(false, false, "id")]))
  {
  }

  /** `pub fn is_uppercase(&self) -> bool` */
  const IsUppercase := ItemFn([], Public, Signature([], "is_uppercase", "", [Receiver(ByReference(None, false))], false, BoolOutput), "...")

  /** `#[negate]` on a method without other parameters emits `is_not_uppercase(&self) -> bool { !self.is_uppercase() }`. */
  lemma IsNotUppercaseExample()
    ensures var r := Negate([], Fn(IsUppercase));
      && r.Success?
      && r.value.negated.sig == IsUppercase.sig.(ident := "is_not_uppercase")
      && r.value.negated.body == Not(SelfMethodCall("is_uppercase", []))
  {
    DerivedName("uppercase");
  }

  /** `fn is_equal<T>(x: T, y: T) -> bool where T: Eq` */
  const IsEqual := ItemFn([], Inherited, Signature([], "is_equal", "<T> where T: Eq",
    [Typed(X, TyPath("T")), Typed(PatIdent(false, false, "y"), TyPath("T"))], false, BoolOutput), "x == y")

  /** The generic `is_equal` gives `is_not_equal` with the same generics, forwarding `x` and `y`. */
  lemma IsNotEqualExample()
    ensures var r := Negate([], Fn(IsEqual));
      && r.Success?
      && r.value.negated.vis == Inherited
      && r.value.negated.sig == IsEqual.sig.(ident := "is_not_equal")
      && r.value.negated.body == Not(Call("is_equal", [X, PatIdent(false, false, "y")]))
  {
    DerivedName("equal");
  }

  /** The entry `color = "blue"`. */
  const Color := NestedMetaItem(NameValue(IdentPath("color"), LitStr("blue")))

  /** Each configuration mistake is reported with its own error. */
  lemma ConfigurationErrors()
    ensures Negate([Entry(Name("a")), Entry(Docs("b")), Entry(Docs("c"))], Fn(IsEven)) == Failure(Diagnostic(TooManyArgsSupplied))
    ensures Negate([Entry(Name("a")), Entry(Name("b"))], Fn(IsEven)) == Failure(Diagnostic(ConflictingArgs))
    ensures Negate([Color], Fn(IsEven)) == Failure(Diagnostic(UnexpectedName))
    ensures Negate([Entry(Name("a")), Color, Entry(Docs("c"))], Fn(IsEven)) == Failure(Diagnostic(UnexpectedName))
    ensures Negate([Color], OtherItem("struct Word(&'static str);")) == Failure(Diagnostic(UnexpectedName))
  {
    FirstMalformedIsReported([Entry(Name("a")), Color, Entry(Docs("c"))], 1);
  }

  /** A function returning `i32` is rejected, even when named `is_...` or when its name is not derivable. */
  lemma NonBoolErrors()
    ensures Negate([], Fn(IsEven.(sig := IsEven.sig.(output := Type(TyPath("i32")))))) == Failure(Diagnostic(DoesNotReturnBool))
    ensures Negate([], Fn(IsEven.(sig := IsEven.sig.(ident := "even", output := Default)))) == Failure(Diagnostic(DoesNotReturnBool))
    ensures Negate([], Fn(IsEven.(sig := IsEven.sig.(ident := "even")))) == Failure(Diagnostic(InvalidIdentifier))
    ensures Negate([], OtherItem("struct Word(&'static str);")) == Failure(Diagnostic(NotAppliedToAFunction))
  {
    assert "even"[0] != Prefix[0];
  }

  /** An override that is not an identifier makes `Ident::new` panic: `is odd`, the empty name, `1x`. */
  lemma NonIdentifierOverrides()
    ensures Negate([Entry(Name("is odd"))], Fn(IsEven)) == Failure(IdentPanic("is odd"))
    ensures Negate([Entry(Name(""))], Fn(IsEven)) == Failure(IdentPanic(""))
    ensures Negate([Entry(Name("1x"))], Fn(IsEven)) == Failure(IdentPanic("1x"))
  {
    assert !IsIdentContinue("is odd"[2]);
  }

  /** `fn is_even(mut x: i32)`: the emitted call repeats the pattern verbatim, as `!is_even(mut x)`. */
  lemma MutPatternForwardedVerbatim()
    ensures var mutX := PatIdent(false, true, "x");
      var r := Negate([], Fn(IsEven.(sig := IsEven.sig.(inputs := [Typed(mutX, TyPath("i32"))]))));
      && r.Success?
      && r.value.negated.body == Not(Call("is_even", [mutX]))
      && !Forwardable(mutX)
  {
    DerivedName("even");
  }
}
