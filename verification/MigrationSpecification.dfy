/** The migration specification: its validator (src/optimizer/contracts.ts), and signing, checking and
    authorizing its envelope (src/optimizer/migration-specification.ts). */
module MigrationSpecification {
  import opened Wrappers
  import opened Sorting
  import opened Texts
  import opened JsonText
  import opened CanonicalJson
  import opened SignedDocuments

  /** What the validator works with: its table of fields, the value of a printed number, and whether
      `Date.parse` accepts a text. */
  datatype Library = Library(fields: seq<Field>, numeric: Text -> real, datable: Text -> bool)

  datatype FieldKind = NonBlank | GitObjectId | Sha256 | Strings | Paths | Price | IsoDate

  datatype Field = Field(name: string, kind: FieldKind)

  function Schema(): seq<Field> {
    [Field("id", NonBlank), Field("repository", NonBlank), Field("baseCommit", GitObjectId),
     Field("sourceServiceId", NonBlank), Field("targetServiceId", NonBlank),
     Field("recommendationSha256", Sha256), Field("evidenceSha256", Sha256),
     Field("requiredBehavior", Strings), Field("knownIncompatibilities", Strings), Field("allowedPaths", Paths),
     Field("configurationChanges", Strings), Field("infrastructureChanges", Strings),
     Field("migrationSequence", Strings), Field("verificationRequirements", Strings),
     Field("rolloutPlan", Strings), Field("rollbackPlan", Strings), Field("expectedMonthlyCost", Price),
     Field("assumptions", Strings), Field("unresolvedDecisions", Strings), Field("generatedAt", IsoDate),
     Field("generatorVersion", NonBlank)]
  }

  // ----- The validators of single values ----------------------------------------------------------

  predicate IsSpace(u: CodeUnit) {
    9 <= u <= 13 || u == 32 || u == 0xA0 || u == 0x1680 || 0x2000 <= u <= 0x200A || u == 0x2028 || u == 0x2029
    || u == 0x202F || u == 0x205F || u == 0x3000 || u == 0xFEFF
  }

  /** `!text.trim()` */
  predicate IsBlank(t: Text) { forall i :: 0 <= i < |t| ==> IsSpace(t[i]) }

  predicate IsHex(t: Text) { forall i :: 0 <= i < |t| ==> 48 <= t[i] <= 57 || 97 <= t[i] <= 102 }

  predicate IsNonBlank(v: Json) { v.Str? && !IsBlank(v.s) }

  /** No `..` segment between slashes or backslashes, starting from position `start` of the segment. */
  predicate HasParentSegment(t: Text, start: nat, i: nat)
    requires start <= i <= |t|
    decreases |t| - i
  {
    if i == |t| then t[start..i] == [46, 46]
    else if t[i] == 47 || t[i] == BACKSLASH then t[start..i] == [46, 46] || HasParentSegment(t, i + 1, i + 1)
    else HasParentSegment(t, start, i + 1)
  }

  predicate IsRelativePath(t: Text) {
    !(t != [] && t[0] == 47) && !HasParentSegment(t, 0, 0)
  }

  /** A validated value, or `None` where the validator throws. */
  function ParsePrice(v: Json, lib: Library): Option<Json> {
    if !v.Obj? then None
    else
      var a, b, c := Find(v.entries, Lit("minimum")), Find(v.entries, Lit("likely")), Find(v.entries, Lit("maximum"));
      if !(a.Some? && a.value.Num? && b.Some? && b.value.Num? && c.Some? && c.value.Num?) then None
      else
        var x, y, z := lib.numeric(a.value.lexeme), lib.numeric(b.value.lexeme), lib.numeric(c.value.lexeme);
        if 0.0 <= x <= y <= z
        then Some(Obj([Entry(Lit("minimum"), a), Entry(Lit("likely"), b), Entry(Lit("maximum"), c)]))
        else None
  }

  function ParseField(kind: FieldKind, v: Option<Json>, lib: Library): Option<Json> {
    match v
    case None => None
    case Some(x) =>
      match kind
      case NonBlank => if IsNonBlank(x) then v else None
      case GitObjectId => if IsNonBlank(x) && (|x.s| == 40 || |x.s| == 64) && IsHex(x.s) then v else None
      case Sha256 => if IsNonBlank(x) && |x.s| == 64 && IsHex(x.s) then v else None
      case Strings => if x.Arr? && (forall i :: 0 <= i < |x.items| ==> IsNonBlank(x.items[i])) then v else None
      case Paths =>
        if x.Arr? && x.items != []
           && (forall i :: 0 <= i < |x.items| ==> IsNonBlank(x.items[i]) && IsRelativePath(x.items[i].s))
        then v else None
      case Price => ParsePrice(x, lib)
      case IsoDate => if IsNonBlank(x) && lib.datable(x.s) then v else None
  }

  function ParseFields(fields: seq<Field>, raw: seq<Entry>, lib: Library): (r: Option<seq<Entry>>)
    ensures r.Some? ==> |r.value| == |fields| && forall i :: 0 <= i < |fields| ==> r.value[i].key == Lit(fields[i].name)
  {
    if fields == [] then Some([])
    else
      match ParseField(fields[0].kind, Find(raw, Lit(fields[0].name)), lib)
      case None => None
      case Some(v) =>
        match ParseFields(fields[1..], raw, lib)
        case None => None
        case Some(rest) => Some([Entry(Lit(fields[0].name), Some(v))] + rest)
  }

  function VersionEntry(): Entry { Entry(Lit("version"), Some(Num(Lit("1")))) }

  predicate NonEmptyList(entries: seq<Entry>, name: Text) {
    var v := Find(entries, name);
    v.Some? && v.value.Arr? && v.value.items != []
  }

  /** `parseMigrationSpecification`: the checked fields in their fixed order, and nothing else. */
  function Parse(raw: Json, lib: Library): Result<Json> {
    if !raw.Obj? then Err("migrationSpecification must be an object")
    else if Find(raw.entries, Lit("version")) != VersionEntry().value
      then Err("migrationSpecification.version must be 1")
    else
      match ParseFields(lib.fields, raw.entries, lib)
      case None => Err("migrationSpecification has an invalid field")
      case Some(fields) =>
        var result := [VersionEntry()] + fields;
        if NonEmptyList(result, Lit("requiredBehavior")) && NonEmptyList(result, Lit("verificationRequirements"))
        then Ok(Obj(result))
        else Err("migration specification requires behavior and verification")
  }

  // ----- What the validators let through ----------------------------------------------------------

  predicate IsSlash(u: CodeUnit) { u == 47 || u == 92 }

  /** The part of the path from `i` to `j` is a segment. */
  predicate IsSegment(t: Text, i: int, j: int) {
    && 0 <= i <= j <= |t|
    && (i == 0 || IsSlash(t[i - 1])) && (j == |t| || IsSlash(t[j]))
    && forall k :: i <= k < j ==> !IsSlash(t[k])
  }

  lemma OnlySegment(t: Text, start: nat, i: nat)
    requires start <= i <= |t| && (i < |t| ==> IsSlash(t[i])) && forall k :: start <= k < i ==> !IsSlash(t[k])
    ensures forall a, b :: start <= a <= i && IsSegment(t, a, b) ==> a == start && b == i
  {
  }

  lemma {:induction false} ParentSegmentFrom(t: Text, start: nat, i: nat)
    requires start <= i <= |t| && (start == 0 || IsSlash(t[start - 1])) && forall k :: start <= k < i ==> !IsSlash(t[k])
    ensures HasParentSegment(t, start, i) <==> exists a, b :: start <= a && IsSegment(t, a, b) && t[a..b] == [46, 46]
    decreases |t| - i
  {
    if i == |t| {
      if t[start..i] == [46, 46] { assert IsSegment(t, start, i); }
      OnlySegment(t, start, i);
    } else if IsSlash(t[i]) {
      ParentSegmentFrom(t, i + 1, i + 1);
      if t[start..i] == [46, 46] { assert IsSegment(t, start, i); }
      OnlySegment(t, start, i);
    } else {
      ParentSegmentFrom(t, start, i + 1);
    }
  }

  /** A path is accepted exactly if it does not begin with a slash and no segment of it, between slashes of either kind,
      is `..`. */
  lemma RelativePathIff(t: Text)
    ensures IsRelativePath(t) <==>
            !(|t| > 0 && t[0] == 47) && forall a, b :: IsSegment(t, a, b) ==> t[a..b] != Lit("..")
  {
    ParentSegmentFrom(t, 0, 0);
    assert Lit("..") == [46, 46];
  }

  // ----- The validator is idempotent --------------------------------------------------------------

  /** The length and the first letter of each field name. */
  const TAGS: seq<(nat, char)> :=
    [(2, 'i'), (10, 'r'), (10, 'b'), (15, 's'), (15, 't'), (20, 'r'), (14, 'e'), (16, 'r'), (22, 'k'), (12, 'a'),
     (20, 'c'), (21, 'i'), (17, 'm'), (24, 'v'), (11, 'r'), (12, 'r'), (19, 'e'), (11, 'a'), (19, 'u'), (11, 'g'),
       (16, 'g')]

  lemma TagOf(i: nat)
    requires i < |Schema()|
    ensures |TAGS| == |Schema()| && |Schema()[i].name| == TAGS[i].0 > 0 && Schema()[i].name[0] == TAGS[i].1
    ensures (TAGS[i].1 as int) < 128 && TAGS[i].0 != 7
  {
  }

  lemma TagsDiffer(i: nat, j: nat)
    requires i < j < |TAGS|
    ensures TAGS[i] != TAGS[j]
  {
  }

  /** What the proofs use of the table: distinct names, none of them `version`, and a digest field. */
  ghost predicate Sound(fields: seq<Field>) {
    && (forall i, j :: 0 <= i < j < |fields| ==> Lit(fields[i].name) != Lit(fields[j].name))
    && (forall i :: 0 <= i < |fields| ==> Lit(fields[i].name) != Lit("version"))
    && Field("recommendationSha256", Sha256) in fields
  }

  lemma SchemaIsSound()
    ensures Sound(Schema())
  {
    assert Schema()[5] == Field("recommendationSha256", Sha256);
    forall i, j | 0 <= i < j < |Schema()| ensures Lit(Schema()[i].name) != Lit(Schema()[j].name) {
      TagOf(i);
      TagOf(j);
      TagsDiffer(i, j);
      var a, b := Schema()[i].name, Schema()[j].name;
      assert |Lit(a)| == |a| && |Lit(b)| == |b| && Lit(a)[0] == a[0] as int && Lit(b)[0] == b[0] as int;
    }
    forall i | 0 <= i < |Schema()| ensures Lit(Schema()[i].name) != Lit("version") {
      TagOf(i);
      assert |Lit(Schema()[i].name)| == |Schema()[i].name| != 7;
    }
  }

  lemma PriceTwice(v: Json, lib: Library)
    requires ParsePrice(v, lib).Some?
    ensures ParsePrice(ParsePrice(v, lib).value, lib) == ParsePrice(v, lib)
  {
    var p := ParsePrice(v, lib).value;
    assert |Lit("minimum")| == |Lit("maximum")| == 7 && |Lit("likely")| == 6;
    assert Lit("minimum")[1] == 105 && Lit("maximum")[1] == 97;
    FindDefined(p.entries, 0);
    FindDefined(p.entries, 1);
    FindDefined(p.entries, 2);
  }

  lemma {:induction false} SavedFlat(entries: seq<Entry>)
    requires forall i :: 0 <= i < |entries| ==>
        entries[i].value.Some? && Saved(entries[i].value.value) == entries[i].value.value
    ensures SavedEntries(entries) == entries
  {
    if entries != [] { SavedFlat(entries[1..]); }
  }

  lemma FieldTwice(kind: FieldKind, v: Option<Json>, lib: Library)
    requires ParseField(kind, v, lib).Some?
    ensures ParseField(kind, ParseField(kind, v, lib), lib) == ParseField(kind, v, lib)
    ensures Saved(ParseField(kind, v, lib).value) == ParseField(kind, v, lib).value
  {
    match kind
    case Price => PriceTwice(v.value, lib); SavedFlat(ParsePrice(v.value, lib).value.entries);
    case Strings => SavedStrings(v.value.items);
    case Paths => SavedStrings(v.value.items);
    case _ =>
  }

  lemma {:induction false} SavedStrings(items: seq<Json>)
    requires forall i :: 0 <= i < |items| ==> items[i].Str?
    ensures SavedItems(items) == items
  {
    if items != [] { SavedStrings(items[1..]); }
  }

  /** Every parsed field is a fixed point of its validator. */
  lemma {:induction false} ParsedFieldsAreFixed(fields: seq<Field>, raw: seq<Entry>, lib: Library)
    requires ParseFields(fields, raw, lib).Some?
    ensures var fs := ParseFields(fields, raw, lib).value;
            && SavedEntries(fs) == fs
            && forall i :: 0 <= i < |fields| ==>
                fs[i].value.Some? && ParseField(fields[i].kind, fs[i].value, lib) == fs[i].value
  {
    if fields != [] {
      ParsedFieldsAreFixed(fields[1..], raw, lib);
      FieldTwice(fields[0].kind, Find(raw, Lit(fields[0].name)), lib);
      var fs, rest := ParseFields(fields, raw, lib).value, ParseFields(fields[1..], raw, lib).value;
      assert fs[1..] == rest;
      forall i | 0 <= i < |fields| ensures fs[i].value.Some?
          && ParseField(fields[i].kind, fs[i].value, lib) == fs[i].value {
        if i > 0 { assert fs[i] == rest[i - 1] && fields[i] == fields[1..][i - 1]; }
      }
    }
  }

  lemma {:induction false} ParseFixedFields(fields: seq<Field>, fs: seq<Entry>, whole: seq<Entry>, lib: Library)
    requires |fs| == |fields|
    requires forall i :: 0 <= i < |fields| ==>
      && fs[i] == Entry(Lit(fields[i].name), Find(whole, Lit(fields[i].name)))
      && fs[i].value.Some? && ParseField(fields[i].kind, fs[i].value, lib) == fs[i].value
    ensures ParseFields(fields, whole, lib) == Some(fs)
  {
    if fields != [] {
      assert forall i :: 0 <= i < |fields| - 1 ==> fs[1..][i] == fs[i + 1] && fields[1..][i] == fields[i + 1];
      ParseFixedFields(fields[1..], fs[1..], whole, lib);
      assert fs == [fs[0]] + fs[1..];
    } else {
      assert fs == [];
    }
  }

  ghost predicate FollowsSchema(fs: seq<Entry>, fields: seq<Field>) {
    |fs| == |fields| && forall i :: 0 <= i < |fs| ==> fs[i].key == Lit(fields[i].name)
  }

  lemma WholeUnique(fs: seq<Entry>, fields: seq<Field>)
    requires FollowsSchema(fs, fields) && Sound(fields)
    ensures UniqueKeys([VersionEntry()] + fs)
  {
  }

  lemma VersionFinds(fs: seq<Entry>)
    ensures Find([VersionEntry()] + fs, Lit("version")) == VersionEntry().value
  {
  }

  lemma TailFinds(first: Entry, fs: seq<Entry>, i: nat)
    requires UniqueKeys([first] + fs) && i < |fs| && fs[i].value.Some?
    ensures Find([first] + fs, fs[i].key) == fs[i].value
  {
    FindDefined([first] + fs, i + 1);
  }

  /** The parsed fields, each found under its own name in the whole result. */
  lemma WholeFields(raw: seq<Entry>, lib: Library)
    requires Sound(lib.fields) && ParseFields(lib.fields, raw, lib).Some?
    ensures var fs := ParseFields(lib.fields, raw, lib).value;
            FollowsSchema(fs, lib.fields) && SavedEntries(fs) == fs
            && forall i :: 0 <= i < |lib.fields| ==>
                 && fs[i] == Entry(Lit(lib.fields[i].name), Find([VersionEntry()] + fs, Lit(lib.fields[i].name)))
                 && fs[i].value.Some? && ParseField(lib.fields[i].kind, fs[i].value, lib) == fs[i].value
  {
    var fs := ParseFields(lib.fields, raw, lib).value;
    ParsedFieldsAreFixed(lib.fields, raw, lib);
    WholeUnique(fs, lib.fields);
    forall i | 0 <= i < |fs| ensures Find([VersionEntry()] + fs, fs[i].key) == fs[i].value {
      TailFinds(VersionEntry(), fs, i);
    }
  }

  lemma SavedWhole(fs: seq<Entry>)
    requires SavedEntries(fs) == fs
    ensures Saved(Obj([VersionEntry()] + fs)) == Obj([VersionEntry()] + fs)
  {
    var whole := [VersionEntry()] + fs;
    assert whole[0].value == Some(Saved(whole[0].value.value));
    assert whole[1..] == fs;
  }

  /** Validating a validated specification changes nothing, and neither does saving it. */
  lemma ParseIsIdempotent(raw: Json, lib: Library)
    requires Sound(lib.fields) && Parse(raw, lib).Ok?
    ensures Parse(Parse(raw, lib).value, lib) == Parse(raw, lib)
    ensures Saved(Parse(raw, lib).value) == Parse(raw, lib).value
  {
    var fs := ParseFields(lib.fields, raw.entries, lib).value;
    WholeFields(raw.entries, lib);
    ParseFixedFields(lib.fields, fs, [VersionEntry()] + fs, lib);
    VersionFinds(fs);
    SavedWhole(fs);
  }

  // ----- The validator on a specification that was stored -----------------------------------------

  lemma FoundSame(es: seq<Entry>, fs: seq<Entry>, key: Text)
    requires SameValue(Obj(es), Obj(fs)) && Find(es, key).Some?
    ensures Find(fs, key).Some? && SameValue(Find(es, key).value, Find(fs, key).value)
  {
    var i :| 0 <= i < |es| && es[i] == Entry(key, Find(es, key));
  }

  lemma SameLeaf(v: Json, w: Json)
    requires SameValue(v, w) && (v.Str? || v.Num?)
    ensures w == v
  {
  }

  lemma SameTexts(v: Json, w: Json)
    requires SameValue(v, w) && v.Arr? && forall i :: 0 <= i < |v.items| ==> v.items[i].Str?
    ensures w == v
  {
    assert w.items == v.items;
  }

  lemma SamePrice(v: Json, w: Json, lib: Library)
    requires SameValue(v, w) && ParsePrice(v, lib) == Some(v)
    ensures ParsePrice(w, lib) == Some(v)
  {
    FoundSame(v.entries, w.entries, Lit("minimum"));
    FoundSame(v.entries, w.entries, Lit("likely"));
    FoundSame(v.entries, w.entries, Lit("maximum"));
  }

  lemma SameField(kind: FieldKind, v: Json, w: Json, lib: Library)
    requires SameValue(v, w) && ParseField(kind, Some(v), lib) == Some(v)
    ensures ParseField(kind, Some(w), lib) == Some(v)
  {
    if kind == Price { SamePrice(v, w, lib); }
    else if v.Arr? { SameTexts(v, w); }
    else { SameLeaf(v, w); }
  }

  ghost predicate ParsesTo(fields: seq<Field>, fs: seq<Entry>, raw: seq<Entry>, lib: Library) {
    |fs| == |fields| && forall i :: 0 <= i < |fields| ==> FieldParsesTo(fields[i], fs[i], raw, lib)
  }

  predicate FieldParsesTo(field: Field, e: Entry, raw: seq<Entry>, lib: Library) {
    && e.key == Lit(field.name) && e.value.Some?
    && ParseField(field.kind, Find(raw, Lit(field.name)), lib) == e.value
  }

  lemma {:induction false} ParseGivenFields(fields: seq<Field>, fs: seq<Entry>, raw: seq<Entry>, lib: Library)
    requires ParsesTo(fields, fs, raw, lib)
    ensures ParseFields(fields, raw, lib) == Some(fs)
  {
    if fields != [] {
      assert FieldParsesTo(fields[0], fs[0], raw, lib);
      ParseGivenFields(fields[1..], fs[1..], raw, lib);
      assert fs == [fs[0]] + fs[1..];
    } else {
      assert fs == [];
    }
  }

  /** Validating undoes what storing did to the order of the entries. */
  lemma ReorderedParses(raw: Json, stored: Json, lib: Library)
    requires Sound(lib.fields) && Parse(raw, lib).Ok? && SameValue(Parse(raw, lib).value, stored)
    ensures Parse(stored, lib) == Parse(raw, lib)
  {
    var fs := ParseFields(lib.fields, raw.entries, lib).value;
    var whole := [VersionEntry()] + fs;
    WholeFields(raw.entries, lib);
    forall i | 0 <= i < |fs| ensures FieldParsesTo(lib.fields[i], fs[i], stored.entries, lib) {
      FoundSame(whole, stored.entries, fs[i].key);
      SameField(lib.fields[i].kind, fs[i].value.value, Find(stored.entries, fs[i].key).value, lib);
    }
    ParseGivenFields(lib.fields, fs, stored.entries, lib);
    VersionFinds(fs);
    FoundSame(whole, stored.entries, Lit("version"));
    SameLeaf(VersionEntry().value.value, Find(stored.entries, Lit("version")).value);
  }

  // ----- Prose, envelopes -------------------------------------------------------------------------

  function TextOf(spec: Json, name: string): Text {
    if spec.Obj? && Find(spec.entries, Lit(name)).Some? && Find(spec.entries, Lit(name)).value.Str?
    then Find(spec.entries, Lit(name)).value.s else []
  }

  function ValueOf(spec: Json, name: string): Option<Json> {
    if spec.Obj? then Find(spec.entries, Lit(name)) else None
  }

  function Summary(spec: Json): Text {
    var commit := TextOf(spec, "baseCommit");
    Lit("Prepare a bounded ") + TextOf(spec, "sourceServiceId") + Lit(" to ") + TextOf(spec, "targetServiceId")
    + Lit(" migration for ") + TextOf(spec, "repository") + Lit(" at ")
    + (if |commit| > 12 then commit[..12] else commit) + Lit(".")
  }

  function ProseEntries(spec: Json): seq<Entry> {
    [VersionEntry(), TextEntry(Lit("summary"), Summary(spec)),
     Entry(Lit("preservedBehavior"), ValueOf(spec, "requiredBehavior")),
     Entry(Lit("sequence"), ValueOf(spec, "migrationSequence")),
     Entry(Lit("verification"), ValueOf(spec, "verificationRequirements")),
     Entry(Lit("rollout"), ValueOf(spec, "rolloutPlan")),
     Entry(Lit("rollback"), ValueOf(spec, "rollbackPlan"))]
  }

  function Render(input: Json, lib: Library): Result<Json> {
    match Parse(input, lib)
    case Err(reason) => Err(reason)
    case Ok(spec) => Ok(Obj(ProseEntries(spec)))
  }

  lemma {:induction false} FindUnique(es: seq<Entry>, i: nat)
    requires UniqueKeys(es) && i < |es|
    ensures Find(es, es[i].key) == es[i].value
  {
    if i > 0 {
      assert es[0].key != es[i].key;
      FindUnique(es[1..], i - 1);
    } else if es[0].value.None? {
      assert forall j :: 0 <= j < |es| - 1 ==> es[1..][j].key == es[j + 1].key;
    }
  }

  function ProseKeys(): seq<string> {
    ["version", "summary", "preservedBehavior", "sequence", "verification", "rollout", "rollback"]
  }

  lemma ProseKeysDiffer(i: nat, j: nat)
    requires i < j < 7
    ensures Lit(ProseKeys()[i]) != Lit(ProseKeys()[j])
  {
    KeyShape(i);
    KeyShape(j);
  }

  lemma KeyShape(i: nat)
    requires i < 7
    ensures var k := Lit(ProseKeys()[i]);
        |k| == [7, 7, 17, 8, 12, 7, 8][i] && k[0] == [118, 115, 112, 115, 118, 114, 114][i]
  {
  }

  /** The prose holds the parts of the specification under their own names, and a summary of what migrates where. */
  lemma ProseIsOfTheSpecification(input: Json, lib: Library)
    requires Parse(input, lib).Ok?
    ensures var spec, prose := Parse(input, lib).value, Render(input, lib).value;
            && ValueOf(prose, "preservedBehavior") == ValueOf(spec, "requiredBehavior")
            && ValueOf(prose, "sequence") == ValueOf(spec, "migrationSequence")
            && ValueOf(prose, "verification") == ValueOf(spec, "verificationRequirements")
            && ValueOf(prose, "rollout") == ValueOf(spec, "rolloutPlan")
            && ValueOf(prose, "rollback") == ValueOf(spec, "rollbackPlan")
            && ValueOf(prose, "summary").Some? && ValueOf(prose, "summary").value.Str?
            && ValueOf(prose, "summary").value.s == Summary(spec)
  {
    var spec := Parse(input, lib).value;
    KeysOfProse(spec);
    ProseFinds(ProseEntries(spec));
  }

  lemma KeysOfProse(spec: Json)
    ensures forall i :: 0 <= i < 7 ==> ProseEntries(spec)[i].key == Lit(ProseKeys()[i])
  {
  }

  lemma ProseFinds(es: seq<Entry>)
    requires |es| == 7 && forall i :: 0 <= i < 7 ==> es[i].key == Lit(ProseKeys()[i])
    ensures Find(es, Lit("summary")) == es[1].value
    ensures Find(es, Lit("preservedBehavior")) == es[2].value && Find(es, Lit("sequence")) == es[3].value
    ensures Find(es, Lit("verification")) == es[4].value && Find(es, Lit("rollout")) == es[5].value
    ensures Find(es, Lit("rollback")) == es[6].value
  {
    ProseIsUnique(es);
    FindUnique(es, 1);
    FindUnique(es, 2);
    FindUnique(es, 3);
    FindUnique(es, 4);
    FindUnique(es, 5);
    FindUnique(es, 6);
  }

  lemma ProseIsUnique(es: seq<Entry>)
    requires |es| == 7 && forall i :: 0 <= i < 7 ==> es[i].key == Lit(ProseKeys()[i])
    ensures UniqueKeys(es)
  {
    forall i, j | 0 <= i < j < 7 ensures es[i].key != es[j].key {
      ProseKeysDiffer(i, j);
    }
  }

  /** The summary names, in this order, the two services, the repository and the first twelve digits of the commit. */
  lemma SummaryNames(spec: Json)
    ensures var a, b := TextOf(spec, "sourceServiceId"), TextOf(spec, "targetServiceId");
            var repository, commit := TextOf(spec, "repository"), TextOf(spec, "baseCommit");
            exists digits :: digits <= commit && |digits| == (if |commit| < 12 then |commit| else 12)
              && Summary(spec) == Lit("Prepare a bounded ") + a + Lit(" to ") + b + Lit(" migration for ") + repository
                                  + Lit(" at ") + digits + Lit(".")
  {
    var commit := TextOf(spec, "baseCommit");
    var digits := if |commit| > 12 then commit[..12] else commit;
    assert digits <= commit;
  }

  datatype Authorization = Authorization(reason: Text, runId: Text)

  datatype Envelope = Envelope(
    specification: Json, recommendation: Json, prose: Json, versions: seq<(Text, Text)>,
    signature: SignatureRecord, authorization: Option<Authorization>)

  function VersionEntries(versions: seq<(Text, Text)>): seq<Entry> {
    if versions == [] then [] else [TextEntry(versions[0].0, versions[0].1)] + VersionEntries(versions[1..])
  }

  function Unsigned(e: Envelope): Json {
    Obj([VersionEntry(), Entry(Lit("specification"), Some(e.specification)),
      Entry(Lit("recommendation"), Some(e.recommendation)),
         Entry(Lit("prose"), Some(e.prose)), Entry(Lit("versions"), Some(Obj(VersionEntries(e.versions))))])
  }

  function SignSpecification(specification: Json, recommendation: Json, versions: seq<(Text, Text)>, signer: Signer,
                             signedAt: Text, scheme: Scheme, lib: Library, le: Collation): Result<Envelope>
  {
    match Parse(specification, lib)
    case Err(reason) => Err(reason)
    case Ok(spec) =>
      if ValueOf(recommendation, "inputSha256") != ValueOf(spec, "recommendationSha256")
      then Err("Recommendation digest does not match the migration specification.")
      else
        match Render(spec, lib)
        case Err(reason) => Err(reason)
        case Ok(prose) =>
          if exists i :: 0 <= i < |versions| && IsBlank(versions[i].1) then Err("A version is required.")
          else
            var unsigned := Envelope(spec, recommendation, prose, versions, SignatureRecord([], [], [], [], []), None);
            Ok(unsigned.(signature :=
              Sign(Specification, Canonical(Unsigned(unsigned), le), signer, signedAt, scheme, le)))
  }

  function VerifySpecification(e: Envelope, trusted: TrustedKeys, scheme: Scheme, lib: Library,
      le: Collation): Result<()> {
    VerifyParts(e.specification, e.recommendation, e.prose, e.signature, Unsigned(e), trusted, scheme, lib, le)
  }

  function VerifyParts(specification: Json, recommendation: Json, prose: Json, s: SignatureRecord, unsigned: Json,
                       trusted: TrustedKeys, scheme: Scheme, lib: Library, le: Collation): Result<()>
  {
    if Parse(specification, lib).Err? then Err(Parse(specification, lib).reason)
    else if ValueOf(recommendation, "inputSha256") != ValueOf(specification, "recommendationSha256")
    then Err("Recommendation digest does not match the migration specification.")
    else
      match Render(specification, lib)
      case Err(reason) => Err(reason)
      case Ok(expected) =>
        if Canonical(prose, le) != Canonical(expected, le)
        then Err("Migration specification prose does not match structured inputs.")
        else if s.keyId !in trusted || trusted[s.keyId] == []
        then Err("Migration signing key is not trusted.")
        else if scheme.verify(trusted[s.keyId], SignedMessage(Specification, Canonical(unsigned, le), s, le), s.value)
        then Ok(())
        else Err("Migration specification signature is invalid.")
  }

  predicate TooShort(t: Text) {
    forall i, j :: 0 <= i && i + 2 <= j < |t| && !IsSpace(t[i]) ==> IsSpace(t[j])
  }

  /** `authorizeMigrationSpecification`; `TooShort` is `reason.trim().length < 3`. */
  function Authorize(e: Envelope, a: Authorization): Result<Envelope> {
    if e.authorization.Some? then Err("Migration specification is already authorized.")
    else if TooShort(a.reason) then Err("Authorization reason is required.")
    else Ok(e.(authorization := Some(a)))
  }

  /** The envelope as the database returns it. */
  function SavedEnvelope(e: Envelope): Envelope {
    e.(specification := Saved(e.specification), recommendation := Saved(e.recommendation), prose := Saved(e.prose))
  }

  lemma {:induction false} FindSaved(entries: seq<Entry>, key: Text)
    ensures Find(SavedEntries(entries), key)
         == (if Find(entries, key).Some? then Some(Saved(Find(entries, key).value)) else None)
  {
    if entries != [] {
      FindSaved(entries[1..], key);
      assert entries[0].value.Some? ==> SavedEntries(entries)[1..] == SavedEntries(entries[1..]);
    }
  }

  lemma {:induction false} SavedVersions(versions: seq<(Text, Text)>)
    ensures SavedEntries(VersionEntries(versions)) == VersionEntries(versions)
  {
    if versions != [] {
      SavedVersions(versions[1..]);
      assert VersionEntries(versions)[1..] == VersionEntries(versions[1..]);
    }
  }

  lemma {:induction false} SavedEach(es: seq<Entry>, fs: seq<Entry>)
    requires |es| == |fs|
    requires forall i :: 0 <= i < |es| ==>
        es[i].value.Some? && fs[i] == Entry(es[i].key, Some(Saved(es[i].value.value)))
    ensures SavedEntries(es) == fs
  {
    if es != [] {
      SavedEach(es[1..], fs[1..]);
      assert fs == [fs[0]] + fs[1..];
    } else {
      assert fs == [];
    }
  }

  lemma SavedUnsigned(e: Envelope, le: Collation)
    ensures Canonical(Unsigned(SavedEnvelope(e)), le) == Canonical(Unsigned(e), le)
  {
    SavedVersions(e.versions);
    var es, fs := Unsigned(e).entries, Unsigned(SavedEnvelope(e)).entries;
    assert forall i :: 0 <= i < 5 ==> fs[i] == Entry(es[i].key, Some(Saved(es[i].value.value)));
    SavedEach(es, fs);
    assert Saved(Unsigned(e)) == Unsigned(SavedEnvelope(e));
    SavedPrintsSame(Unsigned(e), le);
  }

  /** The checks of `VerifySpecification`, from what each of them needs. */
  lemma ChecksPass(e: Envelope, expected: Json, trusted: TrustedKeys, scheme: Scheme, lib: Library, le: Collation)
    requires Render(e.specification, lib) == Ok(expected) && Canonical(e.prose, le) == Canonical(expected, le)
    requires ValueOf(e.recommendation, "inputSha256") == ValueOf(e.specification, "recommendationSha256")
    requires e.signature.keyId in trusted && trusted[e.signature.keyId] != []
    requires scheme.verify(trusted[e.signature.keyId],
               SignedMessage(Specification, Canonical(Unsigned(e), le), e.signature, le), e.signature.value)
    ensures VerifySpecification(e, trusted, scheme, lib, le).Ok?
  {
  }

  /** What signing establishes about the envelope it returns. */
  lemma SignedEnvelope(e: Envelope, specification: Json, recommendation: Json, versions: seq<(Text, Text)>,
      signer: Signer, signedAt: Text, trusted: TrustedKeys, scheme: Scheme, lib: Library, le: Collation)
    requires Sound(lib.fields)
    requires signer.keyId in trusted && trusted[signer.keyId] == scheme.publicOf(signer.privateKey) != []
    requires SignSpecification(specification, recommendation, versions, signer, signedAt, scheme, lib, le) == Ok(e)
    ensures SignedHere(e, signer, signedAt, trusted, scheme, lib, le)
        && Parse(specification, lib) == Ok(e.specification)
  {
    ParseIsIdempotent(specification, lib);
    DigestIsText(specification, lib);
    assert Unsigned(e) == Unsigned(e.(signature := SignatureRecord([], [], [], [], [])));
  }

  /** What is read back of an envelope has its signature, and its unsigned content in some order of the entries. */
  ghost predicate ReadBackAs(e: Envelope, f: Envelope, le: Collation) {
    f.signature == e.signature && Reordered(Unsigned(e), Unsigned(f), le)
  }

  /** Whatever signing produces verifies under the matching trusted key: as it is, saved and read back in any order of
      its entries, and with an authorization attached. */
  lemma SignedSpecificationVerifies(specification: Json, recommendation: Json, versions: seq<(Text, Text)>,
      signer: Signer, signedAt: Text, trusted: TrustedKeys, a: Authorization, f: Envelope,
                                    scheme: Scheme, lib: Library, le: Collation)
    requires Correct(scheme) && Sound(lib.fields)
    requires signer.keyId in trusted && trusted[signer.keyId] == scheme.publicOf(signer.privateKey) != []
    requires SignSpecification(specification, recommendation, versions, signer, signedAt, scheme, lib, le).Ok?
    ensures var e := SignSpecification(specification, recommendation, versions, signer, signedAt, scheme, lib,
        le).value;
            && VerifySpecification(e, trusted, scheme, lib, le).Ok?
            && VerifySpecification(SavedEnvelope(e), trusted, scheme, lib, le).Ok?
            && (ReadBackAs(e, f, le) ==> VerifySpecification(f, trusted, scheme, lib, le).Ok?)
            && (Authorize(e, a).Ok? ==> VerifySpecification(Authorize(e, a).value, trusted, scheme, lib, le).Ok?)
  {
    var e := SignSpecification(specification, recommendation, versions, signer, signedAt, scheme, lib, le).value;
    SignedEnvelope(e, specification, recommendation, versions, signer, signedAt, trusted, scheme, lib, le);
    EveryFormVerifies(e, specification, f, a, signer, signedAt, trusted, scheme, lib, le);
  }

  lemma EveryFormVerifies(e: Envelope, raw: Json, f: Envelope, a: Authorization, signer: Signer, signedAt: Text,
                          trusted: TrustedKeys, scheme: Scheme, lib: Library, le: Collation)
    requires Correct(scheme) && SignedHere(e, signer, signedAt, trusted, scheme, lib, le)
    requires Sound(lib.fields) && Parse(raw, lib) == Ok(e.specification)
    ensures VerifySpecification(e, trusted, scheme, lib, le).Ok?
    ensures VerifySpecification(SavedEnvelope(e), trusted, scheme, lib, le).Ok?
    ensures ReadBackAs(e, f, le) ==> VerifySpecification(f, trusted, scheme, lib, le).Ok?
    ensures Authorize(e, a).Ok? ==> VerifySpecification(Authorize(e, a).value, trusted, scheme, lib, le).Ok?
  {
    EnvelopeVerifies(e, signer, signedAt, trusted, scheme, lib, le);
    SavedEnvelopeVerifies(e, signer, signedAt, trusted, scheme, lib, le);
    if ReadBackAs(e, f, le) {
      ReadEnvelopeVerifies(e, f, raw, signer, signedAt, trusted, scheme, lib, le);
    }
    AuthorizedEnvelopeVerifies(e, signer, signedAt, trusted, a, scheme, lib, le);
  }

  lemma ReadEnvelopeVerifies(e: Envelope, f: Envelope, raw: Json, signer: Signer, signedAt: Text, trusted: TrustedKeys,
                             scheme: Scheme, lib: Library, le: Collation)
    requires Correct(scheme) && SignedHere(e, signer, signedAt, trusted, scheme, lib, le) && ReadBackAs(e, f, le)
    requires Sound(lib.fields) && Parse(raw, lib) == Ok(e.specification)
    ensures VerifySpecification(f, trusted, scheme, lib, le).Ok?
  {
    SignatureIsValid(Specification, Canonical(Unsigned(e), le), signer, signedAt, scheme, le);
    PrinterIsFaithful(Unsigned(e), Unsigned(f), le);
    EnvelopeParts(e, f, le);
    ReorderedParses(raw, f.specification, lib);
    ParseIsIdempotent(raw, lib);
    PrinterIsFaithful(e.prose, f.prose, le);
    DigestIsRead(e.recommendation, f.recommendation, "inputSha256");
    DigestIsRead(e.specification, f.specification, "recommendationSha256");
    ChecksPass(f, e.prose, trusted, scheme, lib, le);
  }

  lemma EnvelopeParts(e: Envelope, f: Envelope, le: Collation)
    requires Reordered(Unsigned(e), Unsigned(f), le)
    ensures Reordered(e.specification, f.specification, le) && Reordered(e.recommendation, f.recommendation, le)
    ensures Reordered(e.prose, f.prose, le)
  {
    PartsAreRead(Unsigned(e).entries, Unsigned(f).entries, 1, le);
    PartsAreRead(Unsigned(e).entries, Unsigned(f).entries, 2, le);
    PartsAreRead(Unsigned(e).entries, Unsigned(f).entries, 3, le);
  }

  /** Where entries with the same keys in the same places are equal as an object, they are equal one by one. */
  lemma PartsAreRead(es: seq<Entry>, fs: seq<Entry>, i: nat, le: Collation)
    requires Reordered(Obj(es), Obj(fs), le) && i < |es| && i < |fs| && es[i].key == fs[i].key
    requires es[i].value.Some? && fs[i].value.Some?
    ensures Reordered(es[i].value.value, fs[i].value.value, le)
  {
    FindDefined(fs, i);
  }

  lemma DigestIsRead(v: Json, w: Json, name: string)
    requires SameValue(v, w) && ValueOf(v, name).Some? && ValueOf(v, name).value.Str?
    ensures ValueOf(w, name) == ValueOf(v, name)
  {
    FoundSame(v.entries, w.entries, Lit(name));
  }

  /** The envelope is as signing leaves it: its parts agree, and the signature is on its unsigned content. */
  ghost predicate SignedHere(e: Envelope, signer: Signer, signedAt: Text, trusted: TrustedKeys, scheme: Scheme,
      lib: Library, le: Collation) {
    && signer.keyId in trusted && trusted[signer.keyId] == scheme.publicOf(signer.privateKey) != []
    && Render(e.specification, lib) == Ok(e.prose) && Saved(e.specification) == e.specification
    && ValueOf(e.recommendation, "inputSha256") == ValueOf(e.specification, "recommendationSha256")
    && ValueOf(e.specification, "recommendationSha256").Some?
    && ValueOf(e.specification, "recommendationSha256").value.Str?
    && e.authorization.None?
    && e.signature == Sign(Specification, Canonical(Unsigned(e), le), signer, signedAt, scheme, le)
  }

  lemma EnvelopeVerifies(e: Envelope, signer: Signer, signedAt: Text, trusted: TrustedKeys, scheme: Scheme,
      lib: Library, le: Collation)
    requires Correct(scheme) && SignedHere(e, signer, signedAt, trusted, scheme, lib, le)
    ensures VerifySpecification(e, trusted, scheme, lib, le).Ok?
  {
    SignatureIsValid(Specification, Canonical(Unsigned(e), le), signer, signedAt, scheme, le);
    ChecksPass(e, e.prose, trusted, scheme, lib, le);
  }

  lemma SavedEnvelopeVerifies(e: Envelope, signer: Signer, signedAt: Text, trusted: TrustedKeys, scheme: Scheme,
      lib: Library, le: Collation)
    requires Correct(scheme) && SignedHere(e, signer, signedAt, trusted, scheme, lib, le)
    ensures VerifySpecification(SavedEnvelope(e), trusted, scheme, lib, le).Ok?
  {
    SignatureIsValid(Specification, Canonical(Unsigned(e), le), signer, signedAt, scheme, le);
    SavedUnsigned(e, le);
    SavedPrintsSame(e.prose, le);
    FindSaved(e.recommendation.entries, Lit("inputSha256"));
    ChecksPass(SavedEnvelope(e), e.prose, trusted, scheme, lib, le);
  }

  lemma AuthorizedEnvelopeVerifies(e: Envelope, signer: Signer, signedAt: Text, trusted: TrustedKeys, a: Authorization,
                                   scheme: Scheme, lib: Library, le: Collation)
    requires Correct(scheme) && SignedHere(e, signer, signedAt, trusted, scheme, lib, le)
    ensures Authorize(e, a).Ok? ==> VerifySpecification(Authorize(e, a).value, trusted, scheme, lib, le).Ok?
  {
    EnvelopeVerifies(e, signer, signedAt, trusted, scheme, lib, le);
    AuthorizationIsNotSigned(e, a, trusted, scheme, lib, le);
  }

  /** The check does not look at the authorization, which the signature does not cover. */
  lemma AuthorizationIsNotSigned(e: Envelope, a: Authorization, trusted: TrustedKeys, scheme: Scheme, lib: Library,
                                 le: Collation)
    ensures VerifySpecification(e.(authorization := Some(a)), trusted, scheme, lib, le)
            == VerifySpecification(e, trusted, scheme, lib, le)
  {
    assert Unsigned(e.(authorization := Some(a))) == Unsigned(e);
  }

  lemma FieldOfWhole(raw: seq<Entry>, lib: Library, i: nat)
    requires Sound(lib.fields) && ParseFields(lib.fields, raw, lib).Some? && i < |lib.fields|
    ensures var whole := [VersionEntry()] + ParseFields(lib.fields, raw, lib).value;
            var v := Find(whole, Lit(lib.fields[i].name));
            v.Some? && ParseField(lib.fields[i].kind, v, lib) == v
  {
    WholeFields(raw, lib);
  }

  lemma ParsedShape(raw: Json, lib: Library)
    requires Parse(raw, lib).Ok?
    ensures raw.Obj? && ParseFields(lib.fields, raw.entries, lib).Some?
    ensures Parse(raw, lib).value == Obj([VersionEntry()] + ParseFields(lib.fields, raw.entries, lib).value)
  {
  }

  lemma DigestParses(v: Option<Json>, lib: Library)
    requires v.Some? && ParseField(Sha256, v, lib) == v
    ensures v.value.Str?
  {
  }

  lemma DigestIsText(raw: Json, lib: Library)
    requires Sound(lib.fields) && Parse(raw, lib).Ok?
    ensures ValueOf(Parse(raw, lib).value, "recommendationSha256").Some?
    ensures ValueOf(Parse(raw, lib).value, "recommendationSha256").value.Str?
  {
    ParsedShape(raw, lib);
    var i: nat :| i < |lib.fields| && lib.fields[i] == Field("recommendationSha256", Sha256);
    FieldOfWhole(raw.entries, lib, i);
    DigestParses(ValueOf(Parse(raw, lib).value, "recommendationSha256"), lib);
  }

  /** An envelope that verifies names a trusted key, under which its signature is valid; its digests agree, and
      its prose is that of its specification. */
  lemma OnlyTrustedSpecifications(e: Envelope, trusted: TrustedKeys, scheme: Scheme, lib: Library, le: Collation)
    ensures VerifySpecification(e, trusted, scheme, lib, le).Ok? <==>
            && Parse(e.specification, lib).Ok?
            && ValueOf(e.recommendation, "inputSha256") == ValueOf(e.specification, "recommendationSha256")
            && Canonical(e.prose, le) == Canonical(Render(e.specification, lib).value, le)
            && e.signature.keyId in trusted && trusted[e.signature.keyId] != []
            && scheme.verify(trusted[e.signature.keyId],
                 SignedMessage(Specification, Canonical(Unsigned(e), le), e.signature, le), e.signature.value)
  {
  }

  /** An envelope that verifies under a trusted key holds, as a JSON value, exactly what the holder of
      the key signed, whatever authorization is attached to it. */
  lemma VerifiedSpecificationsWereSigned(e: Envelope, trusted: TrustedKeys, signings: set<Signing>,
                                         scheme: Scheme, lib: Library, le: Collation)
    requires e.signature.keyId in trusted && VerifySpecification(e, trusted, scheme, lib, le).Ok?
    requires WellFormed(Unsigned(e)) && forall g :: g in signings ==> WellFormed(g.content)
    requires Unforgeable(scheme, trusted[e.signature.keyId], signings, le)
    ensures WasSigned(Specification, Unsigned(e), e.signature, signings)
  {
    VerifiedMessageWasSigned(Specification, Unsigned(e), e.signature, trusted[e.signature.keyId], signings, scheme, le);
  }

  // ----- What a validated specification holds -----------------------------------------------------

  predicate FilledText(v: Option<Json>) {
    v.Some? && v.value.Str? && exists i :: 0 <= i < |v.value.s| && !IsSpace(v.value.s[i])
  }

  predicate HexText(v: Option<Json>) {
    v.Some? && v.value.Str? && forall i :: 0 <= i < |v.value.s| ==>
        48 <= v.value.s[i] <= 57 || 97 <= v.value.s[i] <= 102
  }

  predicate FilledTexts(v: Option<Json>) {
    v.Some? && v.value.Arr? && forall i :: 0 <= i < |v.value.items| ==> FilledText(Some(v.value.items[i]))
  }

  predicate RelativePaths(v: Option<Json>) {
    && FilledTexts(v) && v.value.items != []
    && forall i :: 0 <= i < |v.value.items| ==> IsRelativePath(v.value.items[i].s)
  }

  predicate PriceOf(v: Option<Json>, lib: Library) {
    && v.Some? && v.value.Obj?
    && var a, b, c := Find(v.value.entries, Lit("minimum")), Find(v.value.entries, Lit("likely")),
                      Find(v.value.entries, Lit("maximum"));
       && a.Some? && b.Some? && c.Some? && a.value.Num? && b.value.Num? && c.value.Num?
       && 0.0 <= lib.numeric(a.value.lexeme) <= lib.numeric(b.value.lexeme) <= lib.numeric(c.value.lexeme)
  }

  /** What a value of each kind is. */
  predicate Means(kind: FieldKind, v: Option<Json>, lib: Library) {
    match kind
    case NonBlank => FilledText(v)
    case GitObjectId => HexText(v) && (|v.value.s| == 40 || |v.value.s| == 64)
    case Sha256 => HexText(v) && |v.value.s| == 64
    case Strings => FilledTexts(v)
    case Paths => RelativePaths(v)
    case Price => PriceOf(v, lib)
    case IsoDate => FilledText(v) && lib.datable(v.value.s)
  }

  lemma ParsedValueMeans(kind: FieldKind, v: Option<Json>, lib: Library)
    requires v.Some? && ParseField(kind, v, lib) == v
    ensures Means(kind, v, lib)
  {
  }

  lemma ParsedFieldMeans(raw: Json, lib: Library, i: nat)
    requires lib.fields == Schema() && Parse(raw, lib).Ok? && i < |Schema()|
    ensures Means(Schema()[i].kind, ValueOf(Parse(raw, lib).value, Schema()[i].name), lib)
  {
    SchemaIsSound();
    ParsedShape(raw, lib);
    FieldOfWhole(raw.entries, lib, i);
    ParsedValueMeans(lib.fields[i].kind, ValueOf(Parse(raw, lib).value, lib.fields[i].name), lib);
  }

  lemma NamedFieldMeans(raw: Json, lib: Library, i: nat, name: string, kind: FieldKind)
    requires lib.fields == Schema() && Parse(raw, lib).Ok? && i < |Schema()| && Schema()[i] == Field(name, kind)
    ensures Means(kind, ValueOf(Parse(raw, lib).value, name), lib)
  {
    ParsedFieldMeans(raw, lib, i);
  }

  lemma PlacesOfDigests()
    ensures |Schema()| == 21
    ensures Schema()[2] == Field("baseCommit", GitObjectId) && Schema()[5] == Field("recommendationSha256", Sha256)
    ensures Schema()[6] == Field("evidenceSha256", Sha256)
  {
  }

  /** The digests and the commit are of lower-case hexadecimal digits, in full length. */
  lemma DigestsAreHex(raw: Json, lib: Library)
    requires lib.fields == Schema() && Parse(raw, lib).Ok?
    ensures var spec := Parse(raw, lib).value;
            && Means(Sha256, ValueOf(spec, "recommendationSha256"), lib)
            && Means(Sha256, ValueOf(spec, "evidenceSha256"), lib)
            && Means(GitObjectId, ValueOf(spec, "baseCommit"), lib)
  {
    PlacesOfDigests();
    NamedFieldMeans(raw, lib, 2, "baseCommit", GitObjectId);
    NamedFieldMeans(raw, lib, 5, "recommendationSha256", Sha256);
    NamedFieldMeans(raw, lib, 6, "evidenceSha256", Sha256);
  }

  lemma PlacesOfScope()
    ensures |Schema()| == 21
    ensures Schema()[7] == Field("requiredBehavior", Strings) && Schema()[9] == Field("allowedPaths", Paths)
    ensures Schema()[13] == Field("verificationRequirements", Strings)
  {
  }

  /** Some path is allowed, and no allowed path leaves the repository; some behaviour is required, and some
      verification. */
  lemma ScopeIsStated(raw: Json, lib: Library)
    requires lib.fields == Schema() && Parse(raw, lib).Ok?
    ensures var spec := Parse(raw, lib).value;
            && Means(Paths, ValueOf(spec, "allowedPaths"), lib)
            && Means(Strings, ValueOf(spec, "requiredBehavior"), lib)
            && Means(Strings, ValueOf(spec, "verificationRequirements"), lib)
            && ValueOf(spec, "requiredBehavior").value.items != []
            && ValueOf(spec, "verificationRequirements").value.items != []
  {
    PlacesOfScope();
    NamedFieldMeans(raw, lib, 9, "allowedPaths", Paths);
    NamedFieldMeans(raw, lib, 7, "requiredBehavior", Strings);
    NamedFieldMeans(raw, lib, 13, "verificationRequirements", Strings);
    NonEmptyParts(raw, lib);
  }

  lemma NonEmptyParts(raw: Json, lib: Library)
    requires Parse(raw, lib).Ok?
    ensures var v := ValueOf(Parse(raw, lib).value, "requiredBehavior"); v.Some? && v.value.Arr? && v.value.items != []
    ensures var v := ValueOf(Parse(raw, lib).value, "verificationRequirements");
            v.Some? && v.value.Arr? && v.value.items != []
  {
  }

  function PlanFields(): seq<string> {
    ["knownIncompatibilities", "configurationChanges", "infrastructureChanges", "migrationSequence", "rolloutPlan",
     "rollbackPlan", "assumptions", "unresolvedDecisions"]
  }

  lemma PlanPlaces(k: nat) returns (i: nat)
    requires k < 8
    ensures i < |Schema()| && Schema()[i] == Field(PlanFields()[k], Strings)
  {
    i := [8, 10, 11, 12, 14, 15, 17, 18][k];
  }

  function NameFields(): seq<string> {
    ["id", "repository", "sourceServiceId", "targetServiceId", "generatorVersion"]
  }

  lemma NamePlaces(k: nat) returns (i: nat)
    requires k < 5
    ensures i < |Schema()| && Schema()[i] == Field(NameFields()[k], NonBlank)
  {
    i := [0, 1, 3, 4, 20][k];
  }

  lemma PlacesOfPrice()
    ensures |Schema()| == 21
    ensures Schema()[16] == Field("expectedMonthlyCost", Price) && Schema()[19] == Field("generatedAt", IsoDate)
  {
  }

  /** The names are filled in, and the plans are lists of filled texts. */
  lemma PlansAreStated(raw: Json, lib: Library, k: nat)
    requires lib.fields == Schema() && Parse(raw, lib).Ok?
    ensures k < 8 ==> Means(Strings, ValueOf(Parse(raw, lib).value, PlanFields()[k]), lib)
    ensures k < 5 ==> Means(NonBlank, ValueOf(Parse(raw, lib).value, NameFields()[k]), lib)
  {
    if k < 8 {
      var i := PlanPlaces(k);
      NamedFieldMeans(raw, lib, i, PlanFields()[k], Strings);
    }
    if k < 5 {
      var i := NamePlaces(k);
      NamedFieldMeans(raw, lib, i, NameFields()[k], NonBlank);
    }
  }

  /** The price is an ordered range of amounts, and the date a date. */
  lemma PriceIsStated(raw: Json, lib: Library)
    requires lib.fields == Schema() && Parse(raw, lib).Ok?
    ensures Means(Price, ValueOf(Parse(raw, lib).value, "expectedMonthlyCost"), lib)
    ensures Means(IsoDate, ValueOf(Parse(raw, lib).value, "generatedAt"), lib)
  {
    PlacesOfPrice();
    NamedFieldMeans(raw, lib, 16, "expectedMonthlyCost", Price);
    NamedFieldMeans(raw, lib, 19, "generatedAt", IsoDate);
  }

  /** A field is accepted exactly if it means what its kind asks for. */
  lemma FieldIsAcceptedIff(kind: FieldKind, v: Option<Json>, lib: Library)
    ensures ParseField(kind, v, lib).Some? <==> Means(kind, v, lib)
  {
    if v.Some? {
      NonBlankIsFilled(v.value);
      if v.value.Arr? { TextsAreFilled(v.value.items); }
      if v.value.Str? { HexIsFilled(v.value.s); }
    }
  }

  lemma HexIsFilled(t: Text)
    ensures t != [] && IsHex(t) ==> !IsBlank(t)
  {
    if t != [] && IsHex(t) { assert !IsSpace(t[0]); }
  }

  lemma TextsAreFilled(items: seq<Json>)
    ensures (forall i :: 0 <= i < |items| ==> IsNonBlank(items[i])) <==> FilledTexts(Some(Arr(items)))
    ensures (items != [] && forall i :: 0 <= i < |items| ==> IsNonBlank(items[i]) && IsRelativePath(items[i].s)) <==>
            RelativePaths(Some(Arr(items)))
  {
    forall i | 0 <= i < |items| ensures IsNonBlank(items[i]) <==> FilledText(Some(items[i])) {
      NonBlankIsFilled(items[i]);
    }
    assert forall i ::
        0 <= i < |Arr(items).items| ==> (IsNonBlank(items[i]) <==> FilledText(Some(Arr(items).items[i])));
  }

  lemma NonBlankIsFilled(v: Json)
    ensures IsNonBlank(v) <==> FilledText(Some(v))
  {
  }

  /** White space, as trimming takes it. */
  lemma SpacesAre(u: CodeUnit)
    ensures IsSpace(u) <==>
            u in {9, 10, 11, 12, 13, 32, 160, 5760, 8192, 8193, 8194, 8195, 8196, 8197, 8198, 8199, 8200, 8201, 8202,
              8232, 8233, 8239, 8287, 12288, 65279}
  {
  }

  /** A reason is too short exactly if what is left of it, once trimmed, has fewer than three units. */
  lemma TooShortIff(t: Text)
    ensures TooShort(t) <==>
            !exists i, j :: 0 <= i && i + 2 <= j < |t| && !IsSpace(t[i]) && !IsSpace(t[j])
  {
  }

  // ----- Signing and authorizing, case by case ----------------------------------------------------

  predicate FilledVersion(version: (Text, Text)) {
    exists k :: 0 <= k < |version.1| && !IsSpace(version.1[k])
  }

  predicate AllFilled(versions: seq<(Text, Text)>) {
    forall i :: 0 <= i < |versions| ==> FilledVersion(versions[i])
  }

  lemma VersionsAreFilled(versions: seq<(Text, Text)>)
    ensures (exists i :: 0 <= i < |versions| && IsBlank(versions[i].1)) <==>
            !AllFilled(versions)
  {
    assert forall i :: 0 <= i < |versions| ==> (IsBlank(versions[i].1) <==> !FilledVersion(versions[i]));
  }

  lemma ParsedRenders(raw: Json, lib: Library)
    requires Sound(lib.fields) && Parse(raw, lib).Ok?
    ensures Render(Parse(raw, lib).value, lib).Ok?
  {
    ParseIsIdempotent(raw, lib);
  }

  /** Signing succeeds exactly if the specification is valid, the digests agree and every version is filled in. */
  lemma SigningSucceedsIff(specification: Json, recommendation: Json, versions: seq<(Text, Text)>, signer: Signer,
                           signedAt: Text, scheme: Scheme, lib: Library, le: Collation)
    requires Sound(lib.fields)
    ensures SignSpecification(specification, recommendation, versions, signer, signedAt, scheme, lib, le).Ok? <==>
              && Parse(specification, lib).Ok?
              && ValueOf(recommendation, "inputSha256")
                  == ValueOf(Parse(specification, lib).value, "recommendationSha256")
              && AllFilled(versions)
  {
    if Parse(specification, lib).Ok? { ParsedRenders(specification, lib); }
    VersionsAreFilled(versions);
  }

  /** What is signed is the validated specification, with its prose, beside what was given. */
  lemma SignedIsWhatWasGiven(specification: Json, recommendation: Json, versions: seq<(Text, Text)>, signer: Signer,
                             signedAt: Text, scheme: Scheme, lib: Library, le: Collation)
    requires Sound(lib.fields)
    requires SignSpecification(specification, recommendation, versions, signer, signedAt, scheme, lib, le).Ok?
    ensures var e := SignSpecification(specification, recommendation, versions, signer, signedAt, scheme, lib,
        le).value;
            && Parse(specification, lib) == Ok(e.specification) && e.recommendation == recommendation
            && e.prose == Obj(ProseEntries(e.specification)) && e.versions == versions && e.authorization.None?
  {
    ParseIsIdempotent(specification, lib);
  }

  /** What is signed holds each part under its name. */
  lemma UnsignedHolds(e: Envelope)
    ensures ValueOf(Unsigned(e), "specification") == Some(e.specification)
    ensures ValueOf(Unsigned(e), "recommendation") == Some(e.recommendation)
    ensures ValueOf(Unsigned(e), "prose") == Some(e.prose)
    ensures ValueOf(Unsigned(e), "versions") == Some(Obj(VersionEntries(e.versions)))
  {
    PartNames();
    var es := Unsigned(e).entries;
    UnsignedIsUnique(es);
    FindUnique(es, 1);
    FindUnique(es, 2);
    FindUnique(es, 3);
    FindUnique(es, 4);
  }

  lemma PartNames()
    ensures |Lit("version")| == 7 && |Lit("specification")| == 13 && |Lit("recommendation")| == 14
    ensures |Lit("prose")| == 5 && |Lit("versions")| == 8
  {
  }

  lemma UnsignedIsUnique(es: seq<Entry>)
    requires |es| == 5 && |es[0].key| == 7 && |es[1].key| == 13 && |es[2].key| == 14 && |es[3].key| == 5
        && |es[4].key| == 8
    ensures UniqueKeys(es)
  {
    forall i, j | 0 <= i < j < 5 ensures es[i].key != es[j].key {
      assert |es[i].key| != |es[j].key|;
    }
  }

  /** An envelope is authorized once, with a reason of three units or more between its first and its last filled
      ones. */
  lemma AuthorizedIff(e: Envelope, a: Authorization)
    ensures Authorize(e, a).Ok? <==>
            e.authorization.None?
            && exists i, j :: 0 <= i && i + 2 <= j < |a.reason| && !IsSpace(a.reason[i]) && !IsSpace(a.reason[j])
    ensures Authorize(e, a).Ok? ==> Authorize(e, a).value == e.(authorization := Some(a))
  {
    TooShortIff(a.reason);
  }

  /** The fields are accepted exactly if each of them is. */
  lemma {:induction false} FieldsAreAcceptedIff(fields: seq<Field>, raw: seq<Entry>, lib: Library)
    ensures ParseFields(fields, raw, lib).Some? <==>
            forall i :: 0 <= i < |fields| ==> Means(fields[i].kind, Find(raw, Lit(fields[i].name)), lib)
  {
    if fields != [] {
      FieldIsAcceptedIff(fields[0].kind, Find(raw, Lit(fields[0].name)), lib);
      FieldsAreAcceptedIff(fields[1..], raw, lib);
      assert forall i :: 1 <= i < |fields| ==> fields[i] == fields[1..][i - 1];
    }
  }

  /** A specification of another version, or with a field that does not mean what its kind asks for, is refused. */
  lemma OnlyValidSpecifications(raw: Json, lib: Library)
    requires Parse(raw, lib).Ok?
    ensures raw.Obj? && Find(raw.entries, Lit("version")) == Some(Num(Lit("1")))
    ensures forall i :: 0 <= i < |lib.fields| ==> Means(lib.fields[i].kind, ValueOf(raw, lib.fields[i].name), lib)
  {
    FieldsAreAcceptedIff(lib.fields, raw.entries, lib);
  }
}
