# negate — a Dafny model

`negate` is a Rust attribute macro. Applied to a predicate `fn is_X(...) -> bool`, it emits the
function unchanged and then a sibling function. The sibling is named `is_not_X`, or a name the user
supplies. It carries a doc string and its body is `!is_X(args)`, or `!self.is_X(args)` for a method.
This project models the macro's logic on a small replacement for the `syn` syntax tree and proves
what the expansion is.

- `wrappers.dfy` (`Wrappers`): `Option`, `Result`, `Outcome`.
- `syntax.dfy` (`Syntax`): attribute entries (`NestedMeta`, `Meta`, `Lit`, `Path`), function items
  (`ItemFn`, `Signature`, `FnArg`, `ReturnType`, `Ty`, `Pat`, `Visibility`), the emitted
  expressions (`Expr`) and function (`NegatedFn`), the output (`Expansion`), the `Error` enum, and
  `Abort`, which is either a diagnostic or the panic of `Ident::new` on a string that is not an
  identifier.
- `args.dfy` (`ArgsParsing`, src/args.rs): the mutable `Args` record with `SetName`/`SetDocs`, and
  the entry classifier. `ParseArgs` is written as the source's loop over a fresh `Args` and is proved
  equal to `Parsed`. `Parsed` is a declarative definition: the first malformed entry's error, else
  more than two entries, else a repeated option, else each option's value.
- `generator.dfy` (`Generator`, src/generator.rs): the `bool` check, name derivation, the doc string,
  receiver detection, the forwarded patterns, and the cloned signature with only the name replaced.
- `macro.dfy` (`Macro`, src/lib.rs): `Negate`, which parses the configuration first and then
  dispatches on the item kind.
- `semantics.dfy` (`Semantics`): what the emitted body computes, given a `Program` that says which
  predicate each function name denotes and an environment that gives each parameter's value.
- `examples.dfy` (`Examples`): the crate's documented usages as concrete expansions.

The generated doc template (src/generator.rs:158) has a line break before "Consult"; the model
keeps it.

## Model

| member | source | states |
|---|---|---|
| `ArgsParsing.Args.constructor` | src/args.rs:5-11 | the default record has neither a name nor docs |
| `ArgsParsing.Args.SetName` | src/args.rs:14-21 | with a name already set: `ConflictingArgs` and the name is unchanged; otherwise the name becomes `Some(n)`; docs are never touched |
| `ArgsParsing.Args.SetDocs` | src/args.rs:23-30 | the same, for docs, leaving the name untouched |
| `ArgsParsing.LiteralIntoStringLiteral` | src/args.rs:38-44 | succeeds exactly on a string literal, giving its value; any other literal gives `StringLiteralExpected` |
| `ArgsParsing.ParseMetaIntoStringLiteral` | src/args.rs:46-64 | bare literal → `NestedMetaExpected`; a meta that is not `path = lit` → `NameValueExpected`; a key other than the single identifiers `docs`/`name` → `UnexpectedName` whatever the literal; `docs`/`name` with a non-string literal → `StringLiteralExpected`; else `Docs(v)`/`Name(v)` |
| `ArgsParsing.ClassifyAll` | src/args.rs:73-78 | succeeds iff every entry classifies, with the kinds in order; otherwise fails with the error of the first malformed entry |
| `ArgsParsing.ParseArgs` | src/args.rs:66-92 | the loop over a fresh `Args` returns the default for no entries, and in general exactly `Parsed` (first entry error, then the count limit of 2, then a repeated option, else each option's value) |
| `ArgsParsing.FirstMalformedIsReported` | src/args.rs:73-82 | a malformed entry is reported before the count check: the result is the first malformed entry's error, however many entries there are |
| `ArgsParsing.TooManyWellFormed` | src/args.rs:80-82 | more than two well-formed entries give `TooManyArgsSupplied` |
| `ArgsParsing.ConflictIffRepeated` | src/args.rs:84-89 | with at most two well-formed entries, the result is `ConflictingArgs` exactly when two entries set the same option |
| `ArgsParsing.ParsedSucceedsIff` | src/args.rs:66-92 | parsing succeeds iff every entry is well-formed, there are at most two, and no option repeats |
| `ArgsParsing.ParsedValues` | src/args.rs:84-91 | on success an option is `None` iff no entry sets it, and otherwise holds the value of an entry that sets it |
| `ArgsParsing.Entry` | src/args.rs:57-60 | the entry `docs = "v"` / `name = "v"` classifies as `Docs(v)` / `Name(v)` |
| `ArgsParsing.ParseRender` | src/args.rs:46-92 | every configuration, written as `name = ..., docs = ...`, parses back to itself |
| `Generator.PatternFromArg` | src/generator.rs:16-21 | defined only for a typed parameter, and gives its binding pattern |
| `Generator.Patterns` | src/generator.rs:138 | maps typed parameters to their patterns, one for one in order |
| `Generator.AnyReceiver` | src/generator.rs:25-29 | true iff some parameter is a receiver |
| `Generator.IsAssociatedFunction` | src/generator.rs:24-30 | a signature is associated iff some input is a receiver |
| `Generator.ReceiverIsFirst` | src/generator.rs:104 | in a parser-produced signature, being associated means the first input is the receiver, which is what `skip(1)` assumes |
| `Generator.ReturnsBool` | src/generator.rs:182-191 | true iff the return type is written `-> bool` as a path type; an omitted return type is not `bool` |
| `Generator.GetAdjective` | src/generator.rs:193-201 | `Some(a)` iff the identifier is `"is_" + a` |
| `Generator.NegateIdentifier` | src/generator.rs:203-209 | fails with `InvalidIdentifier` iff the identifier lacks the prefix `is_`; otherwise gives `is_not_` followed by the rest |
| `Generator.DerivedName` | src/generator.rs:203-209 | `"is_" + X` derives exactly `"is_not_" + X`, also for empty `X` |
| `Generator.DeniedRoundTrip` | src/generator.rs:203-209 | the original identifier can be recovered from the derived one |
| `Generator.BuildIdentifier` | src/generator.rs:166-176 | an override name is used verbatim with no prefix check; otherwise the name is derived |
| `Generator.BuildDocstring` | src/generator.rs:153-162 | user docs are used verbatim; otherwise the fixed template with the original identifier inserted |
| `Generator.DocNamesOriginal` | src/generator.rs:156-159 | a generated doc string refers to exactly the original function's identifier |
| `Generator.GenerateAssociatedFn` | src/generator.rs:98-117 | the original comes first and unchanged; the new function has the original's visibility, the given signature and docs, and body `!self.<orig>(p2..pn)` forwarding every input after the first |
| `Generator.GenerateNonAssociatedFn` | src/generator.rs:132-151 | the same with body `!<orig>(p1..pn)` forwarding every input |
| `Generator.DerivedIsIdentifier` | src/generator.rs:65 | `is_not_X` is an identifier exactly when `is_X` is one, so a derived name never makes `Ident::new` panic |
| `Generator.NewNameIsIdentifier` | src/generator.rs:50-65 | the new name is an identifier iff the override is one or, with no override, iff the original identifier is one |
| `Generator.GenNegatedFunction` | src/generator.rs:32-74 | a non-`bool` return gives `DoesNotReturnBool` before any name check; then `InvalidIdentifier`; an override that is not an identifier makes `Ident::new` panic (`IdentPanic`). It succeeds iff it returns `bool` and either the override is an identifier or the identifier is an `is_` identifier. On success: original unchanged, same visibility, signature equal to the original's except `ident`, the selected docs, and a body that depends on whether there is a receiver |
| `Macro.Negate` | src/lib.rs:116-132 | a configuration error is reported before the item kind is looked at; a non-function gives `NotAppliedToAFunction`; a function gives exactly the generator's result for the parsed configuration |
| `Macro.NegateSucceedsIff` | src/lib.rs:123-131 | the expansion succeeds iff the entries are a valid configuration, every `name` entry is an identifier, the item is a function returning `bool`, and it has a `name` entry or an `is_` identifier |
| `Semantics.NegatedFunctionNegates` | src/generator.rs:98-151 | for every interpretation of the program's functions, when each typed parameter's pattern can be forwarded as an expression, the emitted function passes the original the same receiver and arguments and returns the negation of its result |
| `Examples.IsEvenExpansion` | src/lib.rs:14-31 | `#[negate]` on `is_even` emits it unchanged plus `pub fn is_not_even(x: i32) -> bool { !is_even(x) }` with the generated docs |
| `Examples.IsNotEvenValues` | tests/test.rs:21-27 | `is_not_even(3)` holds and `is_not_even(4)` does not |
| `Examples.IsOddExample` | src/lib.rs:63-70 | with `name = "is_odd", docs = ...` on `is_even`, the new function is `is_odd`, has those docs, and `is_odd(5)` holds |
| `Examples.IsFinishedExample` | src/lib.rs:50-59 | `name = "is_finished"` on the method `is_ready(&self, id)` gives `is_finished(&self, id)` with body `!self.is_ready(id)` |
| `Examples.IsNotUppercaseExample` | src/lib.rs:98-113 | a method with only a receiver gives `is_not_uppercase(&self)` with body `!self.is_uppercase()` |
| `Examples.IsNotEqualExample` | tests/test.rs:8-19 | the generic `is_equal<T>` gives `is_not_equal` with the same generics and where clause, forwarding `x, y` |
| `Examples.ConfigurationErrors` | src/args.rs:66-92 | three entries → `TooManyArgsSupplied`; `name` twice → `ConflictingArgs`; `color = "blue"` → `UnexpectedName`, also among three entries and on a non-function item |
| `Examples.NonIdentifierOverrides` | src/generator.rs:65 | `name = "is odd"`, `name = ""` and `name = "1x"` make `Ident::new` panic instead of expanding |
| `Examples.MutPatternForwardedVerbatim` | src/generator.rs:138-146 | `fn is_even(mut x: i32)` gives the call `!is_even(mut x)`: a pattern is forwarded token for token |
| `Examples.NonBoolErrors` | src/generator.rs:46-55 | `-> i32` and a missing return type give `DoesNotReturnBool` even with a bad name; a `bool` function named `even` gives `InvalidIdentifier`; a struct gives `NotAppliedToAFunction` |

## Left out

- Token streams, `quote!`/`quote_spanned!` and `syn` parsing: the model starts from the parsed entries and item. The `expect` on an unparseable item (src/lib.rs:119) and the error for an unparseable argument list (src/lib.rs:117) are parser behaviour, not modelled.
- src/error.rs is not part of this model: each `Error` variant becomes a fixed `compile_error!` message at a span. Messages and spans are presentation only.
- Type resolution: `-> bool` is recognised only as the path type whose token text is `bool`, as in the source. An alias, or `std::primitive::bool` (token text `std :: primitive :: bool`), is not `bool`.
- `GenNegatedFunction` and `Negate` require a `WellFormed` signature, meaning only the first parameter may be a receiver. `syn` rejects any other placement. Without this, `pattern_from_arg` would reach its `unreachable!`.
- The bodies of the original functions are not evaluated. `Semantics` treats each function name as an uninterpreted predicate of its receiver and argument values. A tuple pattern forwarded as an expression is taken to rebuild the value it bound.
- Semantics.NegatedFunctionNegates: requires every typed parameter's pattern to be a plain identifier other than `self`, or a tuple of such. The emitted code does not compile for `_`, `mut x`, `ref x` or `self: Box<Self>`. A typed `self` is not a receiver for syn, so the macro emits the free call `!is_x(self)`. Such ill-formed output is not represented.
- Semantics.NegatedFunctionNegates: free functions and methods share one name space in `Program`. An associated function without a receiver inside an `impl` gets the free call `!is_x(...)`. That call does not resolve to `Self::is_x`, and the model does not represent the failure.
- Generator.GenNegatedFunction: `IsIdentifier` follows the ASCII rules exactly and admits every non-ASCII character. It does not apply Unicode's identifier (XID) properties, so a non-ASCII name that `Ident::new` rejects is expanded here. Keywords are accepted by both `Ident::new` and the model.
- Applying the macro a second time to the emitted function is not modelled: the emitted function's body is an expression, not an opaque `ItemFn` block.
- `String` contents are `seq<char>`. The `get(3..)` in `get_adjective` cannot fail once the ASCII prefix `is_` is present, so the model has no UTF-8 boundary case.
