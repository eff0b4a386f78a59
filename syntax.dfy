/**
 * The fragment of the Rust syntax tree (as seen through the `syn` parser) that the
 * macro inspects or emits, together with the macro's error taxonomy.
 * Token streams that the macro only copies are kept as opaque strings.
 */
module Syntax {

  import opened Wrappers

  /** The error kinds of src/error.rs; their diagnostic messages are presentation only. */
  datatype Error =
    | DoesNotReturnBool
    | InvalidIdentifier
    | StringLiteralExpected
    | TooManyArgsSupplied
    | NestedMetaExpected
    | NameValueExpected
    | UnexpectedName
    | ConflictingArgs
    | NotAppliedToAFunction

  // ---------------------------------------------------------------------------
  // Attribute arguments: `#[negate(name = "...", docs = "...")]`
  // ---------------------------------------------------------------------------

  /** A literal; a string literal carries its already unescaped value. */
  datatype Lit =
    | LitStr(value: string)
    | LitInt(digits: string)
    | LitBool(b: bool)
    | LitOther(tokens: string)

  datatype PathSegment = PathSegment(ident: string, hasArguments: bool)

  /** A path such as `name`, `a::b` or `::name`. */
  datatype Path = Path(leadingColon: bool, segments: seq<PathSegment>)

  /** True iff the path is exactly the single identifier `s` (syn's `Path::is_ident`). */
  predicate IsIdent(p: Path, s: string)
  {
    !p.leadingColon && |p.segments| == 1 && !p.segments[0].hasArguments && p.segments[0].ident == s
  }

  /** A structured attribute item: `path`, `path(...)` or `path = lit`. */
  datatype Meta =
    | MetaPath(path: Path)
    | MetaList(path: Path, nested: seq<NestedMeta>)
    | NameValue(path: Path, lit: Lit)

  /** One comma-separated entry of the attribute's argument list. */
  datatype NestedMeta = NestedMetaItem(meta: Meta) | NestedLit(lit: Lit)

  /** The single-identifier path `s`. */
  function IdentPath(s: string): (p: Path)
    ensures IsIdent(p, s)
  {
    Path(false, [PathSegment(s, false)])
  }

  // ---------------------------------------------------------------------------
  // Items: the annotated function and what is emitted
  // ---------------------------------------------------------------------------

  datatype Visibility = Public | Crate | Restricted(path: Path) | Inherited

  /** `self`, `mut self`, `&self` or `&mut self` (with an optional lifetime). */
  datatype ReceiverKind = ByValue(mutable: bool) | ByReference(lifetime: Option<string>, mutable: bool)

  /** A type; a path type keeps the text of its token stream (`bool`, `std :: primitive :: bool`). */
  datatype Ty = TyPath(tokens: string) | TyOther(tokens: string)

  /** A binding pattern: `x`, `mut x`, `ref x`, `_`, a tuple of patterns, or any other pattern. */
  datatype Pat =
    | PatIdent(byRef: bool, mutable: bool, name: string)
    | PatWild
    | PatTuple(elems: seq<Pat>)
    | PatOther(tokens: string)

  datatype FnArg = Receiver(kind: ReceiverKind) | Typed(pat: Pat, ty: Ty)

  /** `Default` is an omitted return type; `Type(ty)` is `-> ty`. */
  datatype ReturnType = Default | Type(ty: Ty)

  /**
   * A function signature. `qualifiers` (const/async/unsafe/extern ABI), `generics` (with the
   * where clause) and `variadic` are copied and never inspected, so they stay opaque.
   */
  datatype Signature = Signature(
    qualifiers: seq<string>,
    ident: string,
    generics: string,
    inputs: seq<FnArg>,
    variadic: bool,
    output: ReturnType)

  /** A free-standing or associated function: attributes, visibility, signature and body. */
  datatype ItemFn = ItemFn(attrs: seq<string>, vis: Visibility, sig: Signature, block: string)

  /** A parsed item: a function, or anything else (struct, impl, use, ...). */
  datatype Item = Fn(f: ItemFn) | OtherItem(tokens: string)

  /**
   * The expressions the macro emits: `!e`, `f(p1, ..., pn)` and `self.m(p1, ..., pn)`,
   * where each argument is a parameter's binding pattern used as an expression.
   */
  datatype Expr =
    | Not(operand: Expr)
    | Call(func: string, args: seq<Pat>)
    | SelfMethodCall(name: string, args: seq<Pat>)

  /** The emitted function: `#[doc = doc] vis sig { body }`. */
  datatype NegatedFn = NegatedFn(doc: string, vis: Visibility, sig: Signature, body: Expr)

  /** Why an expansion yields no replacement: a compile-error diagnostic, or a panic of the macro. */
  datatype Abort = Diagnostic(error: Error) | IdentPanic(ident: string)

  /** The replacement token stream: the original function followed by the negated one. */
  datatype Expansion = Expansion(original: ItemFn, negated: NegatedFn)

  /** A character that may start an identifier; non-ASCII characters are all admitted. */
  predicate IsIdentStart(c: char)
  {
    ('a' <= c <= 'z') || ('A' <= c <= 'Z') || c == '_' || c as int >= 128
  }

  /** A character that may continue an identifier. */
  predicate IsIdentContinue(c: char)
  {
    IsIdentStart(c) || ('0' <= c <= '9')
  }

  /** The strings `Ident::new` accepts: a start character followed by continue characters. */
  predicate IsIdentifier(s: string)
  {
    |s| > 0 && IsIdentStart(s[0]) && forall i :: 1 <= i < |s| ==> IsIdentContinue(s[i])
  }

  /**
   * What the parser guarantees about a signature: a receiver can only be the first
   * parameter (syn rejects `self` anywhere else and a second receiver).
   */
  predicate WellFormed(sig: Signature)
  {
    forall i :: 0 < i < |sig.inputs| ==> sig.inputs[i].Typed?
  }
}
