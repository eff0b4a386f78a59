/**
 * The macro's own configuration (src/args.rs): the attribute's argument list
 * becomes a `Config` (an optional override name and optional override docs)
 * or one error.
 */
module ArgsParsing {

  import opened Wrappers
  import opened Syntax

  /** The two configuration options. */
  datatype Key = NameKey | DocsKey

  /** A well-formed entry: `docs = "..."` or `name = "..."`. */
  datatype ArgKind = Docs(value: string) | Name(value: string)
  {
    function Key(): Key
    {
      if Docs? then DocsKey else NameKey
    }
  }

  /** The value of the parsed configuration, as handed to the generator. */
  datatype Config = Config(name: Option<string>, docs: Option<string>)

  /** `Args::default()`: no override at all. */
  const DefaultConfig := Config(None, None)

  /** The mutable record that `parse_args` fills in. */
  class Args {
    var name: Option<string>
    var docs: Option<string>

    /** `Args::default()` */
    constructor ()
      ensures name == None && docs == None
    {
      name := None;
      docs := None;
    }

    function Value(): Config
      reads this
    {
      Config(name, docs)
    }

    /** Sets the override name, unless one was set before. */
    method SetName(n: string) returns (r: Outcome<Error>)
      modifies this
      ensures old(name).Some? ==> r == Fail(ConflictingArgs) && name == old(name)
      ensures old(name).None? ==> r == Pass && name == Some(n)
      ensures docs == old(docs)
    {
      if name.Some? {
        r := Fail(ConflictingArgs);
      } else {
        name := Some(n);
        r := Pass;
      }
    }

    /** Sets the override docs, unless they were set before. */
    method SetDocs(d: string) returns (r: Outcome<Error>)
      modifies this
      ensures old(docs).Some? ==> r == Fail(ConflictingArgs) && docs == old(docs)
      ensures old(docs).None? ==> r == Pass && docs == Some(d)
      ensures name == old(name)
    {
      if docs.Some? {
        r := Fail(ConflictingArgs);
      } else {
        docs := Some(d);
        r := Pass;
      }
    }
  }

  /** A string literal gives its value; any other literal is rejected. */
  function LiteralIntoStringLiteral(lit: Lit): (r: Result<string, Error>)
    ensures r.Success? <==> lit.LitStr?
    ensures r.Success? ==> r.value == lit.value
    ensures r.Failure? ==> r.error == StringLiteralExpected
  {
    if lit.LitStr? then Success(lit.value) else Failure(StringLiteralExpected)
  }

  /**
   * Classifies one entry. The shape is checked first (a bare literal, then a meta
   * that is not `path = lit`), then the key, and only then the literal.
   */
  function ParseMetaIntoStringLiteral(entry: NestedMeta): (r: Result<ArgKind, Error>)
    ensures entry.NestedLit? ==> r == Failure(NestedMetaExpected)
    ensures entry.NestedMetaItem? && !entry.meta.NameValue? ==> r == Failure(NameValueExpected)
    ensures entry.NestedMetaItem? && entry.meta.NameValue? ==>
      var path, lit := entry.meta.path, entry.meta.lit;
      if !IsIdent(path, "docs") && !IsIdent(path, "name") then r == Failure(UnexpectedName)
      else if !lit.LitStr? then r == Failure(StringLiteralExpected)
      else r == Success(if IsIdent(path, "docs") then Docs(lit.value) else Name(lit.value))
  {
    match entry
    case NestedLit(_) => Failure(NestedMetaExpected)
    case NestedMetaItem(meta) =>
      if !meta.NameValue? then Failure(NameValueExpected)
      else if IsIdent(meta.path, "docs") then
        match LiteralIntoStringLiteral(meta.lit)
        case Success(s) => Success(Docs(s))
        case Failure(e) => Failure(e)
      else if IsIdent(meta.path, "name") then
        match LiteralIntoStringLiteral(meta.lit)
        case Success(s) => Success(Name(s))
        case Failure(e) => Failure(e)
      else Failure(UnexpectedName)
  }

  /** Entry `i` is malformed and every entry before it is well-formed. */
  predicate FirstMalformed(entries: seq<NestedMeta>, i: int)
  {
    0 <= i < |entries| && ParseMetaIntoStringLiteral(entries[i]).Failure? &&
    forall j :: 0 <= j < i ==> ParseMetaIntoStringLiteral(entries[j]).Success?
  }

  /**
   * Classifies every entry, stopping at the first malformed one
   * (collecting an iterator of results into a `Result<Vec<_>, _>`).
   */
  function ClassifyAll(entries: seq<NestedMeta>): (r: Result<seq<ArgKind>, Error>)
    ensures r.Success? <==> forall i :: 0 <= i < |entries| ==> ParseMetaIntoStringLiteral(entries[i]).Success?
    ensures r.Success? ==> |r.value| == |entries|
    ensures r.Success? ==>
      forall i :: 0 <= i < |entries| ==> ParseMetaIntoStringLiteral(entries[i]) == Success(r.value[i])
    ensures r.Failure? ==>
      exists i :: FirstMalformed(entries, i) && ParseMetaIntoStringLiteral(entries[i]) == Failure(r.error)
  {
    if |entries| == 0 then Success([])
    else
      match ParseMetaIntoStringLiteral(entries[0])
      case Failure(e) => Failure(e)
      case Success(k) =>
        match ClassifyAll(entries[1..])
        case Failure(e) =>
          Failure(e)
        case Success(ks) => Success([k] + ks)
  }

  /** The value of the first entry with the given key, if there is one. */
  function Lookup(kinds: seq<ArgKind>, key: Key): (r: Option<string>)
    ensures r.Some? <==> exists i :: 0 <= i < |kinds| && kinds[i].Key() == key
  {
    if |kinds| == 0 then None
    else if kinds[0].Key() == key then Some(kinds[0].value)
    else Lookup(kinds[1..], key)
  }

  /** Two entries set the same option. */
  predicate DuplicateKey(kinds: seq<ArgKind>)
  {
    exists i, j :: 0 <= i < j < |kinds| && kinds[i].Key() == kinds[j].Key()
  }

  /**
   * The configuration an argument list denotes: the first malformed entry's error;
   * else too many entries; else a repeated option; else each option's value.
   */
  function Parsed(attribArgs: seq<NestedMeta>): (r: Result<Config, Error>)
    ensures r.Success? ==> |attribArgs| <= 2
  {
    match ClassifyAll(attribArgs)
    case Failure(e) => Failure(e)
    case Success(kinds) =>
      if |kinds| > 2 then Failure(TooManyArgsSupplied)
      else if DuplicateKey(kinds) then Failure(ConflictingArgs)
      else Success(Config(Lookup(kinds, NameKey), Lookup(kinds, DocsKey)))
  }

  /** Looking up a key in a longer list finds the earlier entry first. */
  lemma {:induction false} LookupSnoc(kinds: seq<ArgKind>, k: ArgKind, key: Key)
    ensures Lookup(kinds + [k], key) ==
      if Lookup(kinds, key).Some? then Lookup(kinds, key)
      else if k.Key() == key then Some(k.value)
      else None
  {
    if |kinds| > 0 {
      assert (kinds + [k])[1..] == kinds[1..] + [k];
      LookupSnoc(kinds[1..], k, key);
    } else {
      assert kinds + [k] == [k];
    }
  }

  /**
   * `parse_args`: classify every entry, reject more than two, then fold the
   * entries into a fresh `Args` with `SetDocs`/`SetName`, stopping at the first conflict.
   */
  method ParseArgs(attribArgs: seq<NestedMeta>) returns (r: Result<Config, Error>)
    ensures |attribArgs| == 0 ==> r == Success(DefaultConfig)
    ensures r == Parsed(attribArgs)
  {
    var args := new Args();
    if |attribArgs| == 0 {
      return Success(args.Value());
    }
    var literals := ClassifyAll(attribArgs);
    if literals.Failure? {
      return Failure(literals.error);
    }
    var kinds := literals.value;
    if |kinds| > 2 {
      return Failure(TooManyArgsSupplied);
    }
    for i := 0 to |kinds|
      invariant !DuplicateKey(kinds[..i])
      invariant args.name == Lookup(kinds[..i], NameKey)
      invariant args.docs == Lookup(kinds[..i], DocsKey)
    {
      assert kinds[..i + 1] == kinds[..i] + [kinds[i]];
      LookupSnoc(kinds[..i], kinds[i], NameKey);
      LookupSnoc(kinds[..i], kinds[i], DocsKey);
      var outcome: Outcome<Error>;
      match kinds[i] {
        case Docs(d) => outcome := args.SetDocs(d);
        case Name(n) => outcome := args.SetName(n);
      }
      if outcome.Fail? {
        assert DuplicateKey(kinds) by {
          var j :| 0 <= j < i && kinds[..i][j].Key() == kinds[i].Key();
          assert kinds[j].Key() == kinds[i].Key();
        }
        return Failure(outcome.error);
      }
    }
    assert kinds[..|kinds|] == kinds;
    return Success(args.Value());
  }

  // ---------------------------------------------------------------------------
  // Properties of the parsed configuration
  // ---------------------------------------------------------------------------

  /** Every entry is `docs = "..."` or `name = "..."`. */
  predicate AllWellFormed(entries: seq<NestedMeta>)
  {
    forall i :: 0 <= i < |entries| ==> ParseMetaIntoStringLiteral(entries[i]).Success?
  }

  /** Entries `i` and `j` (both well-formed) set the same option. */
  predicate SameKey(entries: seq<NestedMeta>, i: int, j: int)
    requires 0 <= i < |entries| && 0 <= j < |entries|
  {
    ParseMetaIntoStringLiteral(entries[i]).Success? && ParseMetaIntoStringLiteral(entries[j]).Success? &&
    ParseMetaIntoStringLiteral(entries[i]).value.Key() == ParseMetaIntoStringLiteral(entries[j]).value.Key()
  }

  /**
   * A malformed entry is reported before the count is checked, and it is the
   * error of the first malformed entry, however many entries there are.
   */
  lemma FirstMalformedIsReported(entries: seq<NestedMeta>, i: int)
    requires FirstMalformed(entries, i)
    ensures Parsed(entries) == Failure(ParseMetaIntoStringLiteral(entries[i]).error)
  {
  }

  /** More than two well-formed entries are too many. */
  lemma TooManyWellFormed(entries: seq<NestedMeta>)
    requires AllWellFormed(entries) && |entries| > 2
    ensures Parsed(entries) == Failure(TooManyArgsSupplied)
  {
  }

  /** With at most two well-formed entries, parsing conflicts exactly when an option is repeated. */
  lemma ConflictIffRepeated(entries: seq<NestedMeta>)
    requires AllWellFormed(entries) && |entries| <= 2
    ensures Parsed(entries) == Failure(ConflictingArgs) <==>
      exists i, j :: 0 <= i < j < |entries| && SameKey(entries, i, j)
  {
    var kinds := ClassifyAll(entries).value;
    assert forall i :: 0 <= i < |entries| ==> ParseMetaIntoStringLiteral(entries[i]).value == kinds[i];
    if DuplicateKey(kinds) {
      var i, j :| 0 <= i < j < |kinds| && kinds[i].Key() == kinds[j].Key();
      assert SameKey(entries, i, j);
    }
  }

  /** Parsing succeeds exactly when every entry is well-formed, there are at most two, and none repeats an option. */
  lemma {:induction false} ParsedSucceedsIff(entries: seq<NestedMeta>)
    ensures Parsed(entries).Success? <==>
      AllWellFormed(entries) && |entries| <= 2 &&
      !exists i, j :: 0 <= i < j < |entries| && SameKey(entries, i, j)
  {
    if AllWellFormed(entries) && |entries| <= 2 {
      ConflictIffRepeated(entries);
    }
  }

  /** On success each option holds the value of the entry that sets it, and is `None` when no entry does. */
  lemma ParsedValues(entries: seq<NestedMeta>, key: Key)
    requires Parsed(entries).Success?
    ensures var c := Parsed(entries).value;
      var v := if key == NameKey then c.name else c.docs;
      (v.None? <==> forall i :: 0 <= i < |entries| ==> ParseMetaIntoStringLiteral(entries[i]).value.Key() != key) &&
      (v.Some? ==>
        exists i :: 0 <= i < |entries| && ParseMetaIntoStringLiteral(entries[i]).value == (if key == NameKey then Name(v.value) else Docs(v.value)))
  {
    var kinds := ClassifyAll(entries).value;
    assert forall i :: 0 <= i < |entries| ==> ParseMetaIntoStringLiteral(entries[i]).value == kinds[i];
    LookupFindsEntry(kinds, key);
  }

  /** A found value belongs to an entry with that key. */
  lemma {:induction false} LookupFindsEntry(kinds: seq<ArgKind>, key: Key)
    ensures Lookup(kinds, key).Some? ==>
      exists i :: 0 <= i < |kinds| && kinds[i].Key() == key && kinds[i].value == Lookup(kinds, key).value
  {
    if |kinds| > 0 && kinds[0].Key() != key {
      LookupFindsEntry(kinds[1..], key);
      if Lookup(kinds, key).Some? {
        var i :| 0 <= i < |kinds[1..]| && kinds[1..][i].Key() == key && kinds[1..][i].value == Lookup(kinds, key).value;
        assert kinds[i + 1] == kinds[1..][i];
      }
    }
  }

  /** The attribute entry `docs = "..."` or `name = "..."` that denotes `k`. */
  function Entry(k: ArgKind): (e: NestedMeta)
    ensures ParseMetaIntoStringLiteral(e) == Success(k)
  {
    NestedMetaItem(NameValue(IdentPath(if k.Docs? then "docs" else "name"), LitStr(k.value)))
  }

  /** The attribute entries that denote `kinds`, in order. */
  function Entries(kinds: seq<ArgKind>): (es: seq<NestedMeta>)
    ensures |es| == |kinds|
  {
    if |kinds| == 0 then [] else [Entry(kinds[0])] + Entries(kinds[1..])
  }

  /** Classifying the entries written for `kinds` gives `kinds` back. */
  lemma {:induction false} ClassifyEntries(kinds: seq<ArgKind>)
    ensures ClassifyAll(Entries(kinds)) == Success(kinds)
  {
    if |kinds| > 0 {
      ClassifyEntries(kinds[1..]);
      assert Entries(kinds)[1..] == Entries(kinds[1..]);
      assert [kinds[0]] + kinds[1..] == kinds;
    }
  }

  /** The options of `c` in the order they are written: `name` first, then `docs`. */
  function Kinds(c: Config): (ks: seq<ArgKind>)
    ensures |ks| <= 2
  {
    (if c.name.Some? then [Name(c.name.value)] else []) + (if c.docs.Some? then [Docs(c.docs.value)] else [])
  }

  /** Every configuration can be written as an argument list that parses back to it. */
  lemma ParseRender(c: Config)
    ensures Parsed(Entries(Kinds(c))) == Success(c)
  {
    var kinds := Kinds(c);
    ClassifyEntries(kinds);
    assert !DuplicateKey(kinds) by {
      assert forall i, j :: 0 <= i < j < |kinds| ==> kinds[i] == Name(c.name.value) && kinds[j] == Docs(c.docs.value);
    }
    assert Lookup(kinds, NameKey) == c.name;
    if c.name.Some? {
      assert kinds[1..] == if c.docs.Some? then [Docs(c.docs.value)] else [];
    }
    assert Lookup(kinds, DocsKey) == c.docs;
  }
}
