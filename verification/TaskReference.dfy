/**
 * Task references: `todo://repository/id` URIs, bare local IDs, and the one
 * canonical spelling every stored dependency edge is compared by.
 */
module TaskReference {
  import opened Wrappers
  import opened Decimal

  /** What a reference denotes: a repository alias and a task ID in it. */
  datatype TaskRef = TaskRef(alias: string, id: nat)

  const SCHEME := "todo://"
  const LOCAL := "local"
  const LOCAL_PREFIX := "todo://local/"

  /** `strings.Split(s, "/")`. */
  function SplitSlash(s: string): seq<string> {
    if s == "" then [""]
    else if s[0] == '/' then [""] + SplitSlash(s[1..])
    else
      var rest := SplitSlash(s[1..]);
      [[s[0]] + rest[0]] + rest[1..]
  }

  predicate IsAliasChar(c: char) {
    'a' <= c <= 'z' || 'A' <= c <= 'Z' || '0' <= c <= '9' || c == '.' || c == '_' || c == '-'
  }

  predicate IsAlias(s: string) {
    s != "" && forall c | c in s :: IsAliasChar(c)
  }

  function ParseTaskURI(uri: string): Option<TaskRef> {
    if !(SCHEME <= uri) then None
    else
      var parts := SplitSlash(uri[|SCHEME|..]);
      if |parts| != 2 || parts[0] == "" || parts[1] == "" || !IsAlias(parts[0]) then None
      else
        var id := ParseUint(parts[1]);
        if id.None? || id.value == 0 then None else Some(TaskRef(parts[0], id.value))
  }

  function ParseLocalID(uri: string): Option<nat> {
    var local := if LOCAL_PREFIX <= uri then ParseTaskURI(uri) else None;
    if local.Some? && local.value.alias == LOCAL then Some(local.value.id)
    else
      var id := ParseUint(uri);
      if id.Some? && id.value > 0 then id else None
  }

  function FormatRef(ref: TaskRef): string {
    SCHEME + ref.alias + "/" + FormatUint(ref.id)
  }

  function LocalUri(id: nat): string {
    FormatRef(TaskRef(LOCAL, id))
  }

  function CanonicalDependency(reference: string): Option<string> {
    var local := ParseLocalID(reference);
    if local.Some? then Some(LocalUri(local.value))
    else
      var ref := ParseTaskURI(reference);
      if ref.None? then None else Some(FormatRef(ref.value))
  }

  /** Canonical spelling where there is one; a reference no build can read is kept as it is. */
  function CanonicalOrSelf(reference: string): string {
    var c := CanonicalDependency(reference);
    if c.Some? then c.value else reference
  }

  /** The (alias, id) pair a reference denotes, independent of its spelling. */
  function Denotation(reference: string): Option<TaskRef> {
    var local := ParseLocalID(reference);
    if local.Some? then Some(TaskRef(LOCAL, local.value)) else ParseTaskURI(reference)
  }

  // ----- splitting -----

  lemma {:induction false} SplitNoSlash(s: string)
    requires '/' !in s
    ensures SplitSlash(s) == [s]
  {
    if s != "" {
      SplitNoSlash(s[1..]);
      assert [s[0]] + s[1..] == s;
    }
  }

  lemma {:induction false} SplitOneSlash(a: string, b: string)
    requires '/' !in a && '/' !in b
    ensures SplitSlash(a + "/" + b) == [a, b]
  {
    var s := a + "/" + b;
    if a == "" {
      SplitNoSlash(b);
      assert s[1..] == b;
    } else {
      SplitOneSlash(a[1..], b);
      assert s[1..] == a[1..] + "/" + b;
      assert [a[0]] + a[1..] == a;
    }
  }

  lemma {:induction false} SplitJoin(s: string)
    ensures |SplitSlash(s)| == 1 ==> SplitSlash(s)[0] == s
    ensures |SplitSlash(s)| == 2 ==> s == SplitSlash(s)[0] + "/" + SplitSlash(s)[1]
  {
    if s != "" {
      SplitJoin(s[1..]);
      assert [s[0]] + s[1..] == s;
    }
  }

  // ----- what the parsers accept -----

  /** A URI is accepted exactly when it is `todo://alias/digits` with a legal alias and 0 < id < 2^64. */
  lemma ParseTaskURIAccepts(uri: string, ref: TaskRef)
    ensures ParseTaskURI(uri) == Some(ref) <==>
            IsAlias(ref.alias) && ref.id > 0 &&
            exists digits :: uri == SCHEME + ref.alias + "/" + digits && ParseUint(digits) == Some(ref.id)
  {
    if ParseTaskURI(uri) == Some(ref) {
      var rest := uri[|SCHEME|..];
      SplitJoin(rest);
      var digits := SplitSlash(rest)[1];
      assert uri == SCHEME + rest;
      assert uri == SCHEME + ref.alias + "/" + digits;
    }
    if digits :|
      IsAlias(ref.alias) && ref.id > 0 && uri == SCHEME + ref.alias + "/" + digits && ParseUint(digits) == Some(ref.id)
    {
      var rest := ref.alias + "/" + digits;
      assert uri == SCHEME + rest;
      assert uri[|SCHEME|..] == rest;
      SplitOneSlash(ref.alias, digits);
    }
  }

  lemma FormatRefParses(ref: TaskRef)
    requires IsAlias(ref.alias) && 0 < ref.id < UINT64_LIMIT
    ensures ParseTaskURI(FormatRef(ref)) == Some(ref)
  {
    ParseFormatRoundTrip(ref.id);
    ParseTaskURIAccepts(FormatRef(ref), ref);
  }

  lemma ParsedRefInRange(uri: string)
    ensures ParseTaskURI(uri).Some? ==>
              IsAlias(ParseTaskURI(uri).value.alias) && 0 < ParseTaskURI(uri).value.id < UINT64_LIMIT
    ensures ParseLocalID(uri).Some? ==> 0 < ParseLocalID(uri).value < UINT64_LIMIT
  {
  }

  lemma SchemeIsNotANumber(uri: string)
    requires SCHEME <= uri
    ensures ParseUint(uri).None?
  {
    assert uri[0] == 't' && uri[0] in uri;
  }

  /** The two parsers agree on local references: `todo://local/id` is local whichever one reads it. */
  lemma LocalParsersAgree(uri: string)
    ensures SCHEME <= uri ==>
              (ParseLocalID(uri).Some? <==> ParseTaskURI(uri).Some? && ParseTaskURI(uri).value.alias == LOCAL)
    ensures SCHEME <= uri && ParseLocalID(uri).Some? ==>
            ParseTaskURI(uri) == Some(TaskRef(LOCAL, ParseLocalID(uri).value))
  {
    if SCHEME <= uri {
      SchemeIsNotANumber(uri);
      var ref := ParseTaskURI(uri);
      if ref.Some? && ref.value.alias == LOCAL {
        ParseTaskURIAccepts(uri, ref.value);
        var digits :| uri == SCHEME + LOCAL + "/" + digits && ParseUint(digits) == Some(ref.value.id);
        assert uri == LOCAL_PREFIX + digits;
      }
    }
  }

  // ----- the canonical form -----

  lemma FormatRefDenotes(ref: TaskRef)
    requires IsAlias(ref.alias) && 0 < ref.id < UINT64_LIMIT
    ensures Denotation(FormatRef(ref)) == Some(ref)
    ensures CanonicalDependency(FormatRef(ref)) == Some(FormatRef(ref))
    ensures ParseLocalID(FormatRef(ref)) == if ref.alias == LOCAL then Some(ref.id) else None
  {
    FormatRefParses(ref);
    assert SCHEME <= FormatRef(ref);
    LocalParsersAgree(FormatRef(ref));
  }

  lemma LocalUriParses(id: nat)
    requires 0 < id < UINT64_LIMIT
    ensures ParseLocalID(LocalUri(id)) == Some(id)
    ensures CanonicalDependency(LocalUri(id)) == Some(LocalUri(id))
  {
    FormatRefDenotes(TaskRef(LOCAL, id));
  }

  /**
   * The canonical form exists exactly for references that denote something, denotes the same
   * pair, is its own canonical form, and round-trips through both parsers.
   */
  lemma CanonicalRoundTrip(reference: string)
    ensures CanonicalDependency(reference).Some? <==> Denotation(reference).Some?
    ensures CanonicalDependency(reference).Some? ==>
              var c := CanonicalDependency(reference).value;
              && c == FormatRef(Denotation(reference).value)
              && Denotation(c) == Denotation(reference)
              && CanonicalDependency(c) == Some(c)
              && ParseTaskURI(c) == Denotation(reference)
              && ParseLocalID(c) == ParseLocalID(reference)
  {
    ParsedRefInRange(reference);
    if Denotation(reference).Some? {
      var ref := Denotation(reference).value;
      FormatRefDenotes(ref);
      FormatRefParses(ref);
      if ParseLocalID(reference).None? {
        LocalParsersAgree(reference);
      }
    }
  }

  lemma AliasDelimited(a: string, x: string, b: string, y: string)
    requires '/' !in a && '/' !in b
    requires a + "/" + x == b + "/" + y
    ensures a == b && x == y
  {
    var s := a + "/" + x;
    assert forall k :: 0 <= k < |a| ==> s[k] == a[k] && a[k] in a;
    assert s[|a|] == '/' && s[|b|] == '/';
    assert forall k :: 0 <= k < |b| ==> s[k] == b[k] && b[k] in b;
    assert |a| == |b|;
    assert a == s[..|a|] == b;
    assert x == s[|a| + 1..] == y;
  }

  lemma FormatRefInjective(a: TaskRef, b: TaskRef)
    requires IsAlias(a.alias) && IsAlias(b.alias)
    requires FormatRef(a) == FormatRef(b)
    ensures a == b
  {
    assert FormatRef(a)[|SCHEME|..] == a.alias + "/" + FormatUint(a.id);
    assert FormatRef(b)[|SCHEME|..] == b.alias + "/" + FormatUint(b.id);
    AliasDelimited(a.alias, FormatUint(a.id), b.alias, FormatUint(b.id));
    FormatUintInjective(a.id, b.id);
  }

  /** Two accepted references get one canonical string exactly when they denote the same task. */
  lemma CanonicalIffSameTask(a: string, b: string)
    requires CanonicalDependency(a).Some? && CanonicalDependency(b).Some?
    ensures CanonicalDependency(a) == CanonicalDependency(b) <==> Denotation(a) == Denotation(b)
  {
    CanonicalRoundTrip(a);
    CanonicalRoundTrip(b);
    ParsedRefInRange(a);
    ParsedRefInRange(b);
    if CanonicalDependency(a) == CanonicalDependency(b) {
      FormatRefInjective(Denotation(a).value, Denotation(b).value);
    }
  }

  /** The total form used on stored edges is idempotent and never changes what an edge denotes. */
  lemma CanonicalOrSelfStable(reference: string)
    ensures CanonicalOrSelf(CanonicalOrSelf(reference)) == CanonicalOrSelf(reference)
    ensures Denotation(CanonicalOrSelf(reference)) == Denotation(reference)
    ensures ParseLocalID(CanonicalOrSelf(reference)) == ParseLocalID(reference)
  {
    CanonicalRoundTrip(reference);
  }
}
