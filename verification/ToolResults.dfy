/**
 * The locators inside a tool result: `_remember_citation_locators` of src/agentic_lab/tools/registry.py walks
 * the dumped result, and src/agentic_lab/tools/snapshot.py defines what a result looks like when dumped.
 */
module ToolResults {
  import opened Wrappers
  import opened Snapshots

  /** A dumped value; keys of an object are distinct, so the first one found is the one. */
  datatype Json = Text(text: string) | Number(n: int) | Boolean(b: bool) | Null | Object(fields: seq<(string, Json)>) | Array(items: seq<Json>)

  function Lookup(fields: seq<(string, Json)>, key: string): Json {
    if fields == [] then Null else if fields[0].0 == key then fields[0].1 else Lookup(fields[1..], key)
  }

  /** The locator an object is, if its three parts are text. */
  function Own(fields: seq<(string, Json)>): seq<SourceLocator> {
    var locator, sha, hash := Lookup(fields, "locator"), Lookup(fields, "pinned_sha"), Lookup(fields, "content_hash");
    if locator.Text? && sha.Text? && hash.Text? then [SourceLocator(locator.text, sha.text, hash.text)] else []
  }

  /** All locators of a value, an object's own before those of its fields. */
  function Found(value: Json): seq<SourceLocator>
    decreases value, 1, 0
  {
    match value
    case Array(items) => FoundInItems(value, |items|)
    case Object(fields) => Own(fields) + FoundInFields(value, |fields|)
    case _ => []
  }

  function FoundInItems(value: Json, n: nat): seq<SourceLocator>
    requires value.Array? && n <= |value.items|
    decreases value, 0, n
  {
    if n == 0 then [] else FoundInItems(value, n - 1) + Found(value.items[n - 1])
  }

  function FoundInFields(value: Json, n: nat): seq<SourceLocator>
    requires value.Object? && n <= |value.fields|
    decreases value, 0, n
  {
    if n == 0 then [] else FoundInFields(value, n - 1) + Found(value.fields[n - 1].1)
  }

  /** The inner function `visit`, which appends to `discovered`. */
  method Visit(value: Json, discovered: seq<SourceLocator>) returns (more: seq<SourceLocator>)
    ensures more == discovered + Found(value)
    decreases value
  {
    more := discovered;
    if value.Array? {
      for k := 0 to |value.items|
        invariant more == discovered + FoundInItems(value, k)
      {
        more := Visit(value.items[k], more);
      }
      return;
    }
    if !value.Object? { return; }
    var locator, sha, hash := Lookup(value.fields, "locator"), Lookup(value.fields, "pinned_sha"), Lookup(value.fields, "content_hash");
    if locator.Text? && sha.Text? && hash.Text? {
      more := more + [SourceLocator(locator.text, sha.text, hash.text)];
    }
    for k := 0 to |value.fields|
      invariant more == discovered + (Own(value.fields) + FoundInFields(value, k))
    {
      more := Visit(value.fields[k].1, more);
    }
  }

  // ---- What the snapshot's results dump to ---------------------------------------------------------------

  function DumpLocator(l: SourceLocator): Json {
    Object([("locator", Text(l.locator)), ("pinned_sha", Text(l.pinnedSha)), ("content_hash", Text(l.contentHash)), ("untrusted", Boolean(true))])
  }

  function DumpRead(r: FileReadResult): Json {
    Object([("text", Text(r.text)), ("locator", DumpLocator(r.locator)), ("truncated", Boolean(r.truncated))])
  }

  function DumpMatch(m: TextMatch): Json {
    Object([("path", Text(m.path)), ("line", Number(m.line)), ("text", Text(m.text)), ("locator", DumpLocator(m.locator)),
            ("truncated", Boolean(m.truncated))])
  }

  function DumpMatches(matches: seq<TextMatch>): Json {
    Array(seq(|matches|, i requires 0 <= i < |matches| => DumpMatch(matches[i])))
  }

  lemma LocatorIsFound(l: SourceLocator)
    ensures Found(DumpLocator(l)) == [l]
  {
    var value := DumpLocator(l);
    LocatorLookup(value.fields, l);
    hide Lookup;
    assert FoundInFields(value, 1) == [];
    assert FoundInFields(value, 2) == [];
    assert FoundInFields(value, 3) == [];
    assert FoundInFields(value, 4) == [];
  }

  lemma LocatorLookup(fields: seq<(string, Json)>, l: SourceLocator)
    requires Object(fields) == DumpLocator(l)
    ensures Own(fields) == [l]
  {
    assert fields[1..][0] == fields[1] && fields[1..][1..][0] == fields[2];
    assert Lookup(fields[1..][1..], "content_hash") == Text(l.contentHash);
    assert Lookup(fields[1..], "content_hash") == Text(l.contentHash);
    assert Lookup(fields[1..], "pinned_sha") == Text(l.pinnedSha);
  }

  /** The text parts of a result hide no locator, and its `locator` field is an object, so only that is found. */
  lemma ReadIsFound(r: FileReadResult)
    ensures Found(DumpRead(r)) == [r.locator]
  {
    LocatorIsFound(r.locator);
    var value := DumpRead(r);
    assert value.fields[1..][0].0 == "locator";
    assert Lookup(value.fields, "locator") == DumpLocator(r.locator);
    hide DumpLocator, Lookup;
    assert FoundInFields(value, 1) == [];
    assert FoundInFields(value, 2) == [] + [r.locator] == [r.locator];
    assert FoundInFields(value, 3) == [r.locator] + [] == [r.locator];
  }

  lemma MatchIsFound(m: TextMatch)
    ensures Found(DumpMatch(m)) == [m.locator]
  {
    LocatorIsFound(m.locator);
    var value := DumpMatch(m);
    MatchLookup(value.fields, m);
    hide DumpLocator, Lookup;
    assert FoundInFields(value, 1) == [] && FoundInFields(value, 2) == [] && FoundInFields(value, 3) == [];
    assert FoundInFields(value, 4) == [] + [m.locator] == [m.locator];
    assert FoundInFields(value, 5) == [m.locator] + [] == [m.locator];
  }

  lemma MatchLookup(fields: seq<(string, Json)>, m: TextMatch)
    requires Object(fields) == DumpMatch(m)
    ensures Lookup(fields, "locator") == DumpLocator(m.locator)
  {
    hide DumpLocator;
    assert fields[1..][0] == fields[1] && fields[1..][1..][0] == fields[2] && fields[1..][1..][1..][0] == fields[3];
    assert Lookup(fields[1..][1..][1..], "locator") == DumpLocator(m.locator);
    assert Lookup(fields[1..][1..], "locator") == DumpLocator(m.locator);
    assert Lookup(fields[1..], "locator") == DumpLocator(m.locator);
  }

  /** The walk over a search result finds the locator of every match, and nothing else. */
  lemma {:induction false} MatchesAreFound(matches: seq<TextMatch>, n: nat)
    requires n <= |matches|
    ensures FoundInItems(DumpMatches(matches), n) == seq(n, i requires 0 <= i < n => matches[i].locator)
  {
    hide DumpMatch, Found;
    if n > 0 {
      MatchesAreFound(matches, n - 1);
      MatchIsFound(matches[n - 1]);
    }
  }

  lemma SearchIsFound(matches: seq<TextMatch>)
    ensures Found(DumpMatches(matches)) == seq(|matches|, i requires 0 <= i < |matches| => matches[i].locator)
  {
    MatchesAreFound(matches, |matches|);
  }

  // ---- What the walk finds ------------------------------------------------------------------------------------

  /** The part is the value itself or somewhere inside it. */
  ghost predicate Within(part: Json, value: Json) {
    part == value ||
    match value
    case Array(items) => exists i | 0 <= i < |items| :: Within(part, items[i])
    case Object(fields) => exists i | 0 <= i < |fields| :: Within(part, fields[i].1)
    case _ => false
  }

  predicate HasText(fields: seq<(string, Json)>, key: string, text: string) {
    exists i | 0 <= i < |fields| :: fields[i] == (key, Text(text)) && forall j | 0 <= j < i :: fields[j].0 != key
  }

  /** An object with the three text fields of a locator. */
  predicate IsLocator(part: Json, l: SourceLocator) {
    && part.Object? && HasText(part.fields, "locator", l.locator)
    && HasText(part.fields, "pinned_sha", l.pinnedSha) && HasText(part.fields, "content_hash", l.contentHash)
  }

  lemma {:induction false} LookupMeaning(fields: seq<(string, Json)>, key: string, text: string)
    ensures Lookup(fields, key) == Text(text) <==> HasText(fields, key, text)
  {
    if fields != [] {
      var rest := fields[1..];
      LookupMeaning(rest, key, text);
      if HasText(fields, key, text) && fields[0].0 != key {
        var i :| 0 <= i < |fields| && fields[i] == (key, Text(text)) && forall j | 0 <= j < i :: fields[j].0 != key;
        assert rest[i - 1] == fields[i] && forall j | 0 <= j < i - 1 :: rest[j] == fields[j + 1];
      }
      if HasText(rest, key, text) && fields[0].0 != key {
        var i :| 0 <= i < |rest| && rest[i] == (key, Text(text)) && forall j | 0 <= j < i :: rest[j].0 != key;
        assert fields[i + 1] == rest[i] && forall j | 0 < j < i + 1 :: fields[j] == rest[j - 1];
      }
      if fields[0] == (key, Text(text)) {
        assert HasText(fields, key, text);
      }
    }
  }

  lemma OwnMeaning(fields: seq<(string, Json)>, l: SourceLocator)
    ensures l in Own(fields) <==> IsLocator(Object(fields), l)
  {
    LookupMeaning(fields, "locator", l.locator);
    LookupMeaning(fields, "pinned_sha", l.pinnedSha);
    LookupMeaning(fields, "content_hash", l.contentHash);
    hide Lookup, HasText;
  }

  /** The locator is somewhere in the value. */
  ghost predicate Carries(value: Json, l: SourceLocator) {
    exists part :: Within(part, value) && IsLocator(part, l)
  }

  /** The walk finds exactly the locators that are anywhere in the value. */
  lemma {:induction false} FoundMeaning(value: Json, l: SourceLocator)
    ensures l in Found(value) <==> Carries(value, l)
    decreases value, 1, 0
  {
    hide IsLocator, Own, Carries;
    ThroughParts(value, l);
    if value.Array? {
      NoLocator(value, l);
      ItemsMeaning(value, |value.items|, l);
    } else if value.Object? {
      OwnMeaning(value.fields, l);
      FieldsMeaning(value, |value.fields|, l);
    } else {
      NoLocator(value, l);
    }
  }

  lemma NoLocator(value: Json, l: SourceLocator)
    requires !value.Object?
    ensures !IsLocator(value, l)
  {
  }

  lemma {:induction false} ItemsMeaning(value: Json, n: nat, l: SourceLocator)
    requires value.Array? && n <= |value.items|
    ensures l in FoundInItems(value, n) <==> exists i | 0 <= i < n :: Carries(value.items[i], l)
    decreases value, 0, n
  {
    hide Carries, Found;
    if n > 0 {
      ItemsMeaning(value, n - 1, l);
      FoundMeaning(value.items[n - 1], l);
    }
  }

  lemma {:induction false} FieldsMeaning(value: Json, n: nat, l: SourceLocator)
    requires value.Object? && n <= |value.fields|
    ensures l in FoundInFields(value, n) <==> exists i | 0 <= i < n :: Carries(value.fields[i].1, l)
    decreases value, 0, n
  {
    hide Carries, Found;
    if n > 0 {
      FieldsMeaning(value, n - 1, l);
      FoundMeaning(value.fields[n - 1].1, l);
    }
  }

  lemma ThroughParts(value: Json, l: SourceLocator)
    ensures Carries(value, l)
       <==> || IsLocator(value, l)
            || (value.Array? && exists i | 0 <= i < |value.items| :: Carries(value.items[i], l))
            || (value.Object? && exists i | 0 <= i < |value.fields| :: Carries(value.fields[i].1, l))
  {
    hide IsLocator;
    assert Within(value, value);
    if Carries(value, l) && !IsLocator(value, l) {
      var part :| Within(part, value) && IsLocator(part, l);
      if value.Array? {
        var i :| 0 <= i < |value.items| && Within(part, value.items[i]);
        assert Carries(value.items[i], l);
      } else if value.Object? {
        var i :| 0 <= i < |value.fields| && Within(part, value.fields[i].1);
        assert Carries(value.fields[i].1, l);
      }
    }
    if value.Array? && exists i | 0 <= i < |value.items| :: Carries(value.items[i], l) {
      var i :| 0 <= i < |value.items| && Carries(value.items[i], l);
      var part :| Within(part, value.items[i]) && IsLocator(part, l);
      assert Within(part, value);
    }
    if value.Object? && exists i | 0 <= i < |value.fields| :: Carries(value.fields[i].1, l) {
      var i :| 0 <= i < |value.fields| && Carries(value.fields[i].1, l);
      var part :| Within(part, value.fields[i].1) && IsLocator(part, l);
      assert Within(part, value);
    }
  }

  // ---- The results of a run ---------------------------------------------------------------------------------

  /** `StructureMatch`; its locator spans the whole definition. */
  datatype StructureMatch = StructureMatch(path: string, line: nat, symbol: string, kind: string, locator: SourceLocator)

  function DumpStructure(m: StructureMatch): Json {
    Object([("path", Text(m.path)), ("line", Number(m.line)), ("symbol", Text(m.symbol)), ("kind", Text(m.kind)), ("locator", DumpLocator(m.locator))])
  }

  function DumpStructures(matches: seq<StructureMatch>): Json {
    Array(seq(|matches|, i requires 0 <= i < |matches| => DumpStructure(matches[i])))
  }

  lemma StructureIsFound(m: StructureMatch)
    ensures Found(DumpStructure(m)) == [m.locator]
  {
    LocatorIsFound(m.locator);
    var value := DumpStructure(m);
    StructureLookup(value.fields, m);
    hide DumpLocator, Lookup;
    assert FoundInFields(value, 1) == [];
    assert FoundInFields(value, 2) == [];
    assert FoundInFields(value, 3) == [];
    assert FoundInFields(value, 4) == [];
    assert FoundInFields(value, 5) == [] + [m.locator] == [m.locator];
  }

  lemma StructureLookup(fields: seq<(string, Json)>, m: StructureMatch)
    requires Object(fields) == DumpStructure(m)
    ensures Lookup(fields, "locator") == DumpLocator(m.locator)
  {
    hide DumpLocator;
    var rest := fields[1..][1..][1..];
    assert fields[1..][0] == fields[1] && fields[1..][1..][0] == fields[2] && rest[0] == fields[3] && rest[1..][0] == fields[4];
    assert Lookup(rest[1..], "locator") == DumpLocator(m.locator);
    assert Lookup(rest, "locator") == DumpLocator(m.locator);
    assert Lookup(fields[1..][1..], "locator") == DumpLocator(m.locator);
    assert Lookup(fields[1..], "locator") == DumpLocator(m.locator);
  }

  lemma {:induction false} StructuresAreFound(matches: seq<StructureMatch>, n: nat)
    requires n <= |matches|
    ensures FoundInItems(DumpStructures(matches), n) == seq(n, i requires 0 <= i < n => matches[i].locator)
  {
    hide DumpStructure, Found;
    if n > 0 {
      StructuresAreFound(matches, n - 1);
      StructureIsFound(matches[n - 1]);
    }
  }

  /** What a tool call gave: a read, a text search, a structure search, or anything else. */
  datatype Output =
    | ReadOutput(read: FileReadResult)
    | SearchOutput(matches: seq<TextMatch>)
    | StructureOutput(structures: seq<StructureMatch>)
    | OtherOutput(value: Json)

  function Dump(output: Output): Json {
    match output
    case ReadOutput(read) => DumpRead(read)
    case SearchOutput(matches) => DumpMatches(matches)
    case StructureOutput(structures) => DumpStructures(structures)
    case OtherOutput(value) => value
  }

  function Locators(output: Output): seq<SourceLocator> {
    match output
    case ReadOutput(read) => [read.locator]
    case SearchOutput(matches) => seq(|matches|, i requires 0 <= i < |matches| => matches[i].locator)
    case StructureOutput(structures) => seq(|structures|, i requires 0 <= i < |structures| => structures[i].locator)
    case OtherOutput(value) => Found(value)
  }

  /** The walk finds in a dumped output exactly the locators the output has, in order. */
  lemma OutputIsFound(output: Output)
    ensures Found(Dump(output)) == Locators(output)
  {
    match output
    case ReadOutput(read) => ReadIsFound(read);
    case SearchOutput(matches) => SearchIsFound(matches);
    case StructureOutput(structures) => StructuresAreFound(structures, |structures|);
    case OtherOutput(_) =>
  }
}
