/** `canonicalJson`, the printer under every signature and digest of the repository
    (src/repair/signature.ts:28-36), and the proof that it is faithful: two documents print the same
    text exactly when they are the same JSON value. */
module CanonicalJson {
  import opened Wrappers
  import opened Sorting
  import opened Texts
  import opened JsonText

  /** A JavaScript value that has a JSON form. An object keeps its entries in insertion order, and an
      entry may hold `undefined` (`None`). A number is the text that `JSON.stringify` gives it. */
  datatype Json =
    | Null
    | Bool(b: bool)
    | Num(lexeme: Text)
    | Str(s: Text)
    | Arr(items: seq<Json>)
    | Obj(entries: seq<Entry>)

  datatype Entry = Entry(key: Text, value: Option<Json>)

  /** `left.localeCompare(right) <= 0`. */
  type Collation = (Text, Text) -> bool

  datatype Member = Member(key: Text, text: Text)

  function MemberLe(le: Collation): (Member, Member) -> bool {
    (a: Member, b: Member) => le(a.key, b.key)
  }

  function Canonical(v: Json, le: Collation): Text
    decreases v, 1
  {
    match v
    case Null => Lit("null")
    case Bool(b) => if b then Lit("true") else Lit("false")
    case Num(lexeme) => lexeme
    case Str(s) => Quoted(s)
    case Arr(items) => [LEFT_BRACKET] + Joined(Printed(items, le)) + [RIGHT_BRACKET]
    case Obj(entries) =>
      [LEFT_BRACE] + Joined(MemberTexts(Sort(Members(entries, le), MemberLe(le)))) + [RIGHT_BRACE]
  }

  function Printed(items: seq<Json>, le: Collation): (r: seq<Text>)
    ensures |r| == |items|
    decreases items, 0
  {
    if items == [] then [] else [Canonical(items[0], le)] + Printed(items[1..], le)
  }

  /** The defined entries with their printed values, still in insertion order. */
  function Members(entries: seq<Entry>, le: Collation): seq<Member>
    decreases entries, 0
  {
    if entries == [] then []
    else
      var rest := Members(entries[1..], le);
      match entries[0].value
      case None => rest
      case Some(v) => [Member(entries[0].key, Canonical(v, le))] + rest
  }

  function MemberTexts(ms: seq<Member>): seq<Text> {
    if ms == [] then [] else [Quoted(ms[0].key) + [COLON] + ms[0].text] + MemberTexts(ms[1..])
  }

  /** `parts.join(",")` */
  function Joined(parts: seq<Text>): Text {
    if |parts| == 0 then []
    else if |parts| == 1 then parts[0]
    else parts[0] + [COMMA] + Joined(parts[1..])
  }

  // ----- What the printer is about ---------------------------------------------------------------

  predicate IsNumberUnit(u: CodeUnit) {
    48 <= u <= 57 || u == 43 || u == 45 || u == 46 || u == 69 || u == 101
  }

  ghost predicate UniqueKeys(entries: seq<Entry>) {
    forall i, j :: 0 <= i < j < |entries| ==> entries[i].key != entries[j].key
  }

  /** What every JavaScript value satisfies: object keys are unique and finite numbers print with the
      characters of section 6 of RFC 8259. */
  ghost predicate WellFormed(v: Json) {
    match v
    case Null => true
    case Bool(_) => true
    case Num(x) => x != [] && (x[0] == 45 || 48 <= x[0] <= 57) && forall i :: 0 <= i < |x| ==> IsNumberUnit(x[i])
    case Str(_) => true
    case Arr(items) => forall i :: 0 <= i < |items| ==> WellFormed(items[i])
    case Obj(entries) =>
      && UniqueKeys(entries)
      && forall i :: 0 <= i < |entries| && entries[i].value.Some? ==> WellFormed(entries[i].value.value)
  }

  /** `object[key]`, with `None` for a missing or undefined entry. */
  function Find(entries: seq<Entry>, key: Text): (r: Option<Json>)
    ensures r.Some? ==> exists i :: 0 <= i < |entries| && entries[i] == Entry(key, r)
  {
    if entries == [] then None
    else if entries[0].key == key && entries[0].value.Some? then
      assert entries[0] == Entry(key, entries[0].value);
      entries[0].value
    else
      var r := Find(entries[1..], key);
      assert forall i :: 0 <= i < |entries| - 1 ==> entries[1..][i] == entries[i + 1];
      r
  }

  /** Equality of JSON values: arrays position by position, objects as maps from their defined keys. */
  ghost predicate SameValue(v: Json, w: Json)
    decreases v
  {
    match (v, w)
    case (Arr(a), Arr(b)) => |a| == |b| && forall i :: 0 <= i < |a| ==> SameValue(a[i], b[i])
    case (Obj(es), Obj(fs)) =>
      && (forall i :: 0 <= i < |es| && es[i].value.Some? ==>
            var w := Find(fs, es[i].key); w.Some? && SameValue(es[i].value.value, w.value))
      && (forall j :: 0 <= j < |fs| && fs[j].value.Some? ==> Find(es, fs[j].key).Some?)
    case _ => v == w
  }

  // ----- The printer is injective ----------------------------------------------------------------

  /** A value's text is followed by nothing, or by a comma or a closing bracket or brace. */
  ghost predicate Delimited(t: Text) {
    t != [] ==> t[0] == COMMA || t[0] == RIGHT_BRACKET || t[0] == RIGHT_BRACE
  }

  lemma Associate(a: Text, b: Text, c: Text)
    ensures a + b + c == a + (b + c)
  {
  }

  /** A joined list followed by a closing mark, split after its first part. */
  lemma JoinedTail(parts: seq<Text>, close: Text)
    requires parts != []
    ensures Joined(parts) + close
         == parts[0] + (if |parts| == 1 then close else [COMMA] + (Joined(parts[1..]) + close))
  {
    if |parts| > 1 {
      Associate(parts[0] + [COMMA], Joined(parts[1..]), close);
      Associate(parts[0], [COMMA], Joined(parts[1..]) + close);
    }
  }

  lemma NumberCut(a: Text, b: Text, x: Text, y: Text)
    requires WellFormed(Num(a)) && WellFormed(Num(b)) && Delimited(x) && Delimited(y)
    requires a + x == b + y
    ensures a == b && x == y
  {
    assert forall i :: 0 <= i < |a| ==> (a + x)[i] == a[i];
    assert forall i :: 0 <= i < |b| ==> (b + y)[i] == b[i];
    assert x != [] ==> (a + x)[|a|] == x[0];
    assert y != [] ==> (b + y)[|b|] == y[0];
    assert a == (a + x)[..|a|] && b == (b + y)[..|b|];
    assert x == (a + x)[|a|..] && y == (b + y)[|b|..];
  }

  /** The first unit of a value's text tells which kind of value it is. */
  function KindOf(u: CodeUnit): int {
    if u == 110 then 0 else if u == 116 || u == 102 then 1 else if u == QUOTE then 3
    else if u == LEFT_BRACKET then 4 else if u == LEFT_BRACE then 5
    else if u == 45 || 48 <= u <= 57 then 2 else 6
  }

  function Kind(v: Json): int {
    match v
    case Null => 0 case Bool(_) => 1 case Num(_) => 2 case Str(_) => 3 case Arr(_) => 4 case Obj(_) => 5
  }

  lemma FirstUnit(v: Json, le: Collation)
    requires WellFormed(v)
    ensures Canonical(v, le) != [] && KindOf(Canonical(v, le)[0]) == Kind(v)
  {
    match v
    case Null => assert Canonical(v, le)[0] == 110;
    case Bool(_) =>
    case Num(_) =>
    case Str(_) =>
    case Arr(_) =>
    case Obj(_) =>
  }

  lemma LiteralCut(v: Json, w: Json, x: Text, y: Text, le: Collation)
    requires (v.Null? && w.Null?) || (v.Bool? && w.Bool?)
    requires Canonical(v, le) + x == Canonical(w, le) + y
    ensures v == w && x == y
  {
    var s, t := Canonical(v, le), Canonical(w, le);
    assert s[0] == (s + x)[0] && t[0] == (t + y)[0];
    assert x == (s + x)[|s|..] && y == (t + y)[|t|..];
  }

  /** A printed value can be cut off the front of a text in only one way. */
  lemma {:induction false} ValueCut(v: Json, w: Json, x: Text, y: Text, le: Collation)
    requires WellFormed(v) && WellFormed(w) && Delimited(x) && Delimited(y)
    requires Canonical(v, le) + x == Canonical(w, le) + y
    ensures SameValue(v, w) && x == y
    decreases v, 1
  {
    FirstUnit(v, le);
    FirstUnit(w, le);
    assert Canonical(v, le)[0] == (Canonical(v, le) + x)[0];
    assert Canonical(w, le)[0] == (Canonical(w, le) + y)[0];
    match v {
      case Null => LiteralCut(v, w, x, y, le);
      case Bool(_) => LiteralCut(v, w, x, y, le);
      case Num(a) => NumberCut(a, w.lexeme, x, y);
      case Str(s) => QuotedCut(s, w.s, x, y);
      case Arr(items) => ArrayCut(items, w.items, x, y, le);
      case Obj(entries) => ObjectCut(entries, w.entries, x, y, le);
    }
  }

  /** Drops the opening mark and regroups what follows it. */
  lemma Unwrap(open: CodeUnit, body: Text, closing: CodeUnit, x: Text)
    ensures ([open] + body + [closing] + x)[1..] == body + ([closing] + x)
  {
  }

  lemma {:induction false} ArrayCut(a: seq<Json>, b: seq<Json>, x: Text, y: Text, le: Collation)
    requires WellFormed(Arr(a)) && WellFormed(Arr(b))
    requires Canonical(Arr(a), le) + x == Canonical(Arr(b), le) + y
    ensures SameValue(Arr(a), Arr(b)) && x == y
    decreases a, 1
  {
    Unwrap(LEFT_BRACKET, Joined(Printed(a, le)), RIGHT_BRACKET, x);
    Unwrap(LEFT_BRACKET, Joined(Printed(b, le)), RIGHT_BRACKET, y);
    ItemsCut(a, b, [RIGHT_BRACKET] + x, [RIGHT_BRACKET] + y, le);
    assert x == ([RIGHT_BRACKET] + x)[1..] && y == ([RIGHT_BRACKET] + y)[1..];
  }

  lemma ItemsStart(a: seq<Json>, x: Text, le: Collation)
    requires WellFormed(Arr(a)) && x != [] && x[0] == RIGHT_BRACKET
    ensures (Joined(Printed(a, le)) + x)[0] == RIGHT_BRACKET <==> a == []
  {
    if a != [] {
      JoinedTail(Printed(a, le), x);
      FirstUnit(a[0], le);
    }
  }

  lemma {:induction false} ItemsCut(a: seq<Json>, b: seq<Json>, x: Text, y: Text, le: Collation)
    requires WellFormed(Arr(a)) && WellFormed(Arr(b))
    requires x != [] && x[0] == RIGHT_BRACKET && y != [] && y[0] == RIGHT_BRACKET
    requires Joined(Printed(a, le)) + x == Joined(Printed(b, le)) + y
    ensures SameValue(Arr(a), Arr(b)) && x == y
    decreases a, 0
  {
    ItemsStart(a, x, le);
    ItemsStart(b, y, le);
    if a == [] {
      assert [] + x == x && [] + y == y;
    } else {
      var xs, ys := Joined(Printed(a[1..], le)) + x, Joined(Printed(b[1..], le)) + y;
      var p := if |a| == 1 then x else [COMMA] + xs;
      var q := if |b| == 1 then y else [COMMA] + ys;
      JoinedTail(Printed(a, le), x);
      JoinedTail(Printed(b, le), y);
      ValueCut(a[0], b[0], p, q, le);
      if |a| > 1 {
        assert p[1..] == xs && q[1..] == ys;
        ItemsCut(a[1..], b[1..], x, y, le);
        SameTail(a, b);
      }
    }
  }

  lemma SameTail(a: seq<Json>, b: seq<Json>)
    requires a != [] && b != [] && SameValue(a[0], b[0]) && SameValue(Arr(a[1..]), Arr(b[1..]))
    ensures SameValue(Arr(a), Arr(b))
  {
    forall i | 0 <= i < |a| ensures SameValue(a[i], b[i]) {
      if i > 0 { assert a[i] == a[1..][i - 1] && b[i] == b[1..][i - 1]; }
    }
  }

  /** The printed members are the defined entries. */
  lemma {:induction false} MembersAreEntries(entries: seq<Entry>, le: Collation)
    requires UniqueKeys(entries)
    ensures forall m :: m in Members(entries, le) <==>
              Find(entries, m.key).Some? && m.text == Canonical(Find(entries, m.key).value, le)
    ensures forall i, j :: 0 <= i < j < |Members(entries, le)| ==>
              Members(entries, le)[i].key != Members(entries, le)[j].key
  {
    if entries != [] {
      var rest := entries[1..];
      MembersAreEntries(rest, le);
      assert Find(rest, entries[0].key).None?;
      forall m: Member ensures m in Members(entries, le) <==>
              Find(entries, m.key).Some? && m.text == Canonical(Find(entries, m.key).value, le) {
        assert m in Members(rest, le) ==> m.key != entries[0].key;
      }
      forall i, j | 0 <= i < j < |Members(entries, le)|
        ensures Members(entries, le)[i].key != Members(entries, le)[j].key {
        if entries[0].value.Some? {
          assert Members(entries, le)[j] == Members(rest, le)[j - 1];
          assert i > 0 ==> Members(entries, le)[i] == Members(rest, le)[i - 1];
          assert Members(rest, le)[j - 1] in Members(rest, le);
        }
      }
    }
  }

  function SortedMembers(entries: seq<Entry>, le: Collation): (r: seq<Member>) {
    Sort(Members(entries, le), MemberLe(le))
  }

  lemma SortedMembersAreEntries(entries: seq<Entry>, le: Collation)
    requires UniqueKeys(entries)
    ensures forall m :: m in SortedMembers(entries, le) <==>
              Find(entries, m.key).Some? && m.text == Canonical(Find(entries, m.key).value, le)
  {
    MembersAreEntries(entries, le);
    SameMembers(SortedMembers(entries, le), Members(entries, le));
  }

  lemma {:induction false} ObjectCut(es: seq<Entry>, fs: seq<Entry>, x: Text, y: Text, le: Collation)
    requires WellFormed(Obj(es)) && WellFormed(Obj(fs))
    requires Canonical(Obj(es), le) + x == Canonical(Obj(fs), le) + y
    ensures SameValue(Obj(es), Obj(fs)) && x == y
    ensures SortedMembers(es, le) == SortedMembers(fs, le)
    decreases es, 2
  {
    var ms, ns := SortedMembers(es, le), SortedMembers(fs, le);
    Unwrap(LEFT_BRACE, Joined(MemberTexts(ms)), RIGHT_BRACE, x);
    Unwrap(LEFT_BRACE, Joined(MemberTexts(ns)), RIGHT_BRACE, y);
    SortedMembersAreEntries(es, le);
    SortedMembersAreEntries(fs, le);
    MembersCut(ms, ns, es, fs, [RIGHT_BRACE] + x, [RIGHT_BRACE] + y, le);
    assert x == ([RIGHT_BRACE] + x)[1..] && y == ([RIGHT_BRACE] + y)[1..];
    forall i | 0 <= i < |es| && es[i].value.Some?
      ensures Find(fs, es[i].key).Some? && SameValue(es[i].value.value, Find(fs, es[i].key).value) {
      FindDefined(es, i);
      var m := Member(es[i].key, Canonical(es[i].value.value, le));
      assert m in ms;
    }
    forall j | 0 <= j < |fs| && fs[j].value.Some? ensures Find(es, fs[j].key).Some? {
      FindDefined(fs, j);
      var n := Member(fs[j].key, Canonical(fs[j].value.value, le));
      assert n in ns;
    }
  }

  lemma {:induction false} FindDefined(entries: seq<Entry>, i: nat)
    requires UniqueKeys(entries) && i < |entries| && entries[i].value.Some?
    ensures Find(entries, entries[i].key) == entries[i].value
  {
    if i > 0 {
      FindDefined(entries[1..], i - 1);
    }
  }

  ghost predicate MembersOf(ms: seq<Member>, es: seq<Entry>, le: Collation) {
    forall m :: m in ms ==> Find(es, m.key).Some? && m.text == Canonical(Find(es, m.key).value, le)
  }

  lemma MembersStart(ms: seq<Member>, x: Text)
    requires x != [] && x[0] == RIGHT_BRACE
    ensures (Joined(MemberTexts(ms)) + x)[0] == RIGHT_BRACE <==> ms == []
  {
    if ms != [] { JoinedTail(MemberTexts(ms), x); }
  }

  function AfterMember(ms: seq<Member>, x: Text): Text
    requires ms != []
  {
    if |ms| == 1 then x else [COMMA] + (Joined(MemberTexts(ms[1..])) + x)
  }

  lemma MemberSplit(ms: seq<Member>, x: Text)
    requires ms != []
    ensures Joined(MemberTexts(ms)) + x == Quoted(ms[0].key) + ([COLON] + (ms[0].text + AfterMember(ms, x)))
  {
    MemberTextsTail(ms);
    JoinedTail(MemberTexts(ms), x);
    Associate(Quoted(ms[0].key) + [COLON], ms[0].text, AfterMember(ms, x));
    Associate(Quoted(ms[0].key), [COLON], ms[0].text + AfterMember(ms, x));
  }

  lemma {:induction false} MemberTextsTail(ms: seq<Member>)
    requires ms != []
    ensures |MemberTexts(ms)| == |ms| && MemberTexts(ms)[1..] == MemberTexts(ms[1..])
  {
    if |ms| > 1 { MemberTextsTail(ms[1..]); }
  }

  /** The first members of two object texts agree, and so do the texts that follow them. */
  lemma {:induction false} FirstMemberCut(ms: seq<Member>, ns: seq<Member>, es: seq<Entry>, fs: seq<Entry>,
                                          x: Text, y: Text, le: Collation)
    requires WellFormed(Obj(es)) && WellFormed(Obj(fs)) && MembersOf(ms, es, le) && MembersOf(ns, fs, le)
    requires x != [] && x[0] == RIGHT_BRACE && y != [] && y[0] == RIGHT_BRACE && ms != [] && ns != []
    requires Joined(MemberTexts(ms)) + x == Joined(MemberTexts(ns)) + y
    ensures ms[0] == ns[0] && AfterMember(ms, x) == AfterMember(ns, y)
    ensures SameValue(Find(es, ms[0].key).value, Find(fs, ms[0].key).value)
    decreases es, 0
  {
    var m, n, p, q := ms[0], ns[0], AfterMember(ms, x), AfterMember(ns, y);
    assert m in ms && n in ns;
    MemberSplit(ms, x);
    MemberSplit(ns, y);
    QuotedCut(m.key, n.key, [COLON] + (m.text + p), [COLON] + (n.text + q));
    assert ([COLON] + (m.text + p))[1..] == m.text + p && ([COLON] + (n.text + q))[1..] == n.text + q;
    var i :| 0 <= i < |es| && es[i] == Entry(m.key, Find(es, m.key));
    var j :| 0 <= j < |fs| && fs[j] == Entry(n.key, Find(fs, n.key));
    ValueCut(es[i].value.value, fs[j].value.value, p, q, le);
    SameFront(m.text, n.text, p);
  }

  lemma SameFront(s: Text, t: Text, p: Text)
    requires s + p == t + p
    ensures s == t
  {
    assert |s + p| == |s| + |p| && |t + p| == |t| + |p|;
    assert s == (s + p)[..|s|] && t == (t + p)[..|t|];
  }

  lemma {:induction false} MembersCut(ms: seq<Member>, ns: seq<Member>, es: seq<Entry>, fs: seq<Entry>,
                                      x: Text, y: Text, le: Collation)
    requires WellFormed(Obj(es)) && WellFormed(Obj(fs)) && MembersOf(ms, es, le) && MembersOf(ns, fs, le)
    requires x != [] && x[0] == RIGHT_BRACE && y != [] && y[0] == RIGHT_BRACE
    requires Joined(MemberTexts(ms)) + x == Joined(MemberTexts(ns)) + y
    ensures ms == ns && x == y
    ensures forall m :: m in ms ==> SameValue(Find(es, m.key).value, Find(fs, m.key).value)
    decreases es, 1, |ms|
  {
    MembersStart(ms, x);
    MembersStart(ns, y);
    if ms == [] {
      assert [] + x == x && [] + y == y;
    } else {
      FirstMemberCut(ms, ns, es, fs, x, y, le);
      assert ms == [ms[0]] + ms[1..] && ns == [ns[0]] + ns[1..];
      if |ms| > 1 {
        assert AfterMember(ms, x)[1..] == Joined(MemberTexts(ms[1..])) + x;
        assert AfterMember(ns, y)[1..] == Joined(MemberTexts(ns[1..])) + y;
        MembersCut(ms[1..], ns[1..], es, fs, x, y, le);
      }
    }
  }

  // ----- The printer does not depend on the order of object entries ------------------------------

  /** Two distinct keys that the collation cannot tell apart. */
  ghost predicate Tied(es: seq<Entry>, i: int, j: int, le: Collation) {
    && 0 <= i < j < |es| && es[i].value.Some? && es[j].value.Some?
    && le(es[i].key, es[j].key) && le(es[j].key, es[i].key)
  }

  ghost predicate Untied(es: seq<Entry>, le: Collation) {
    forall i, j :: !Tied(es, i, j, le)
  }

  /** No object anywhere in the value has two tied keys. */
  ghost predicate UntiedThroughout(v: Json, le: Collation) {
    match v
    case Arr(items) => forall i :: 0 <= i < |items| ==> UntiedThroughout(items[i], le)
    case Obj(entries) =>
      && Untied(entries, le)
      && forall i :: 0 <= i < |entries| && entries[i].value.Some? ==> UntiedThroughout(entries[i].value.value, le)
    case _ => true
  }

  lemma {:induction false} MemberAt(es: seq<Entry>, m: Member, le: Collation)
    requires m in Members(es, le)
    ensures exists i :: 0 <= i < |es| && es[i].key == m.key && es[i].value.Some?
  {
    if es[0].value.Some? && m.key == es[0].key {
    } else {
      MemberAt(es[1..], m, le);
      var i :| 0 <= i < |es[1..]| && es[1..][i].key == m.key && es[1..][i].value.Some?;
      assert es[i + 1].key == m.key;
    }
  }

  lemma MembersDistinct(es: seq<Entry>, le: Collation)
    requires UniqueKeys(es)
    ensures Distinct(Members(es, le)) && Distinct(SortedMembers(es, le))
  {
    MembersAreEntries(es, le);
    DistinctRearranged(Members(es, le), SortedMembers(es, le));
  }

  lemma MemberLeOrders(le: Collation)
    requires TotalPreorder(le)
    ensures TotalPreorder(MemberLe(le))
  {
    forall a: Member, b: Member ensures MemberLe(le)(a, b) || MemberLe(le)(b, a) {
      assert le(a.key, b.key) || le(b.key, a.key);
    }
    forall a: Member, b: Member, c: Member | MemberLe(le)(a, b) && MemberLe(le)(b, c) ensures MemberLe(le)(a, c) {
      assert le(a.key, b.key) && le(b.key, c.key);
    }
  }

  lemma UntiedSortsStrictly(es: seq<Entry>, le: Collation)
    requires UniqueKeys(es) && TotalPreorder(le) && Untied(es, le)
    ensures StrictlySorted(SortedMembers(es, le), MemberLe(le))
  {
    var ms := SortedMembers(es, le);
    MemberLeOrders(le);
    SortSorts(Members(es, le), MemberLe(le));
    MembersDistinct(es, le);
    SortedMembersAreEntries(es, le);
    SameMembers(ms, Members(es, le));
    forall i, j | 0 <= i < j < |ms| ensures !MemberLe(le)(ms[j], ms[i]) {
      assert ms[i] in Members(es, le) && ms[j] in Members(es, le);
      MemberAt(es, ms[i], le);
      MemberAt(es, ms[j], le);
      var a :| 0 <= a < |es| && es[a].key == ms[i].key && es[a].value.Some?;
      var b :| 0 <= b < |es| && es[b].key == ms[j].key && es[b].value.Some?;
      assert a != b;
      assert !Tied(es, a, b, le) && !Tied(es, b, a, le);
    }
  }

  lemma {:induction false} PrintedSame(a: seq<Json>, b: seq<Json>, le: Collation)
    requires |a| == |b| && forall i :: 0 <= i < |a| ==> Canonical(a[i], le) == Canonical(b[i], le)
    ensures Printed(a, le) == Printed(b, le)
  {
    if a != [] { PrintedSame(a[1..], b[1..], le); }
  }

  /** Objects with the same printed member under each key print the same text. */
  lemma SameMemberTexts(es: seq<Entry>, fs: seq<Entry>, le: Collation)
    requires UniqueKeys(es) && UniqueKeys(fs) && TotalPreorder(le) && Untied(es, le) && Untied(fs, le)
    requires forall m :: m in Members(es, le) <==> m in Members(fs, le)
    ensures Canonical(Obj(es), le) == Canonical(Obj(fs), le)
  {
    UntiedSortsStrictly(es, le);
    UntiedSortsStrictly(fs, le);
    SameMembers(SortedMembers(es, le), Members(es, le));
    SameMembers(SortedMembers(fs, le), Members(fs, le));
    StrictlySortedUnique(SortedMembers(es, le), SortedMembers(fs, le), MemberLe(le));
  }

  lemma SameKeysUntied(es: seq<Entry>, fs: seq<Entry>, le: Collation)
    requires SameValue(Obj(es), Obj(fs)) && UniqueKeys(es) && UniqueKeys(fs) && Untied(es, le)
    ensures Untied(fs, le)
  {
    forall i, j | 0 <= i < j < |fs| && fs[i].value.Some? && fs[j].value.Some?
      ensures !(le(fs[i].key, fs[j].key) && le(fs[j].key, fs[i].key)) {
      assert Find(es, fs[i].key).Some? && Find(es, fs[j].key).Some?;
      var a :| 0 <= a < |es| && es[a] == Entry(fs[i].key, Find(es, fs[i].key));
      var b :| 0 <= b < |es| && es[b] == Entry(fs[j].key, Find(es, fs[j].key));
      if a < b { assert !Tied(es, a, b, le); } else { assert !Tied(es, b, a, le); }
    }
  }

  lemma {:induction false} SameValuePrints(v: Json, w: Json, le: Collation)
    requires WellFormed(v) && WellFormed(w) && TotalPreorder(le) && UntiedThroughout(v, le)
    requires SameValue(v, w)
    ensures Canonical(v, le) == Canonical(w, le)
  {
    match v {
      case Arr(items) =>
        forall i | 0 <= i < |items| ensures Canonical(items[i], le) == Canonical(w.items[i], le) {
          SameValuePrints(items[i], w.items[i], le);
        }
        PrintedSame(items, w.items, le);
      case Obj(es) =>
        var fs := w.entries;
        MembersAreEntries(es, le);
        MembersAreEntries(fs, le);
        SameKeysUntied(es, fs, le);
        forall i | 0 <= i < |es| && es[i].value.Some?
          ensures Find(fs, es[i].key).Some?
          ensures Canonical(es[i].value.value, le) == Canonical(Find(fs, es[i].key).value, le) {
          var j :| 0 <= j < |fs| && fs[j] == Entry(es[i].key, Find(fs, es[i].key));
          SameValuePrints(es[i].value.value, fs[j].value.value, le);
        }
        forall m: Member ensures m in Members(es, le) <==> m in Members(fs, le) {
          if Find(es, m.key).Some? {
            var i :| 0 <= i < |es| && es[i] == Entry(m.key, Find(es, m.key));
          }
          if Find(fs, m.key).Some? {
            var j :| 0 <= j < |fs| && fs[j] == Entry(m.key, Find(fs, m.key));
            assert Find(es, fs[j].key).Some?;
          }
        }
        SameMemberTexts(es, fs, le);
      case _ =>
    }
  }

  /** The printer is faithful: equal texts mean equal values under every collation, and equal values
      have equal texts wherever the collation tells the keys of each object apart. */
  lemma PrinterIsFaithful(v: Json, w: Json, le: Collation)
    requires WellFormed(v) && WellFormed(w)
    ensures Canonical(v, le) == Canonical(w, le) ==> SameValue(v, w)
    ensures TotalPreorder(le) && UntiedThroughout(v, le) ==>
              (SameValue(v, w) <==> Canonical(v, le) == Canonical(w, le))
  {
    if Canonical(v, le) == Canonical(w, le) {
      ValueCut(v, w, [], [], le);
    }
    if TotalPreorder(le) && UntiedThroughout(v, le) && SameValue(v, w) {
      SameValuePrints(v, w, le);
    }
  }

  // ----- Exactly when an object prints the same text in every entry order -------------------------

  lemma {:induction false} MembersBefore(es: seq<Entry>, i: nat, j: nat, le: Collation)
    requires i < j < |es| && es[i].value.Some? && es[j].value.Some?
    ensures Before(Members(es, le), Member(es[i].key, Canonical(es[i].value.value, le)),
                                    Member(es[j].key, Canonical(es[j].value.value, le)))
  {
    var a := Member(es[i].key, Canonical(es[i].value.value, le));
    var b := Member(es[j].key, Canonical(es[j].value.value, le));
    if i == 0 {
      MemberIn(es[1..], j - 1, le);
      assert Members(es, le)[1..] == Members(es[1..], le);
      BeforeTail(Members(es, le), a, b);
    } else {
      MembersBefore(es[1..], i - 1, j - 1, le);
      if es[0].value.Some? {
        assert Members(es, le)[1..] == Members(es[1..], le);
        BeforeTail(Members(es, le), a, b);
      }
    }
  }

  lemma {:induction false} MemberIn(es: seq<Entry>, i: nat, le: Collation)
    requires i < |es| && es[i].value.Some?
    ensures Member(es[i].key, Canonical(es[i].value.value, le)) in Members(es, le)
  {
    if i > 0 { MemberIn(es[1..], i - 1, le); }
  }

  function Reversed<T>(s: seq<T>): (r: seq<T>)
    ensures |r| == |s| && forall i :: 0 <= i < |s| ==> r[i] == s[|s| - 1 - i]
    ensures multiset(r) == multiset(s)
  {
    if s == [] then []
    else
      assert s == [s[0]] + s[1..];
      Reversed(s[1..]) + [s[0]]
  }

  lemma {:induction false} RearrangedEntries(es: seq<Entry>, fs: seq<Entry>, le: Collation)
    requires UniqueKeys(es) && multiset(es) == multiset(fs)
    ensures UniqueKeys(fs) && (forall m :: m in Members(es, le) <==> m in Members(fs, le))
    ensures Untied(es, le) ==> Untied(fs, le)
  {
    DistinctRearranged(es, fs);
    SameMembers(es, fs);
    forall i, j | 0 <= i < j < |fs| ensures fs[i].key != fs[j].key {
      assert fs[i] in es && fs[j] in es;
    }
    MembersAreEntries(es, le);
    MembersAreEntries(fs, le);
    forall key ensures Find(es, key) == Find(fs, key) {
      FindSame(es, fs, key);
      FindSame(fs, es, key);
    }
    if Untied(es, le) {
      forall i, j ensures !Tied(fs, i, j, le) {
        if 0 <= i < j < |fs| {
          assert fs[i] in es && fs[j] in es;
          var a :| 0 <= a < |es| && es[a] == fs[i];
          var b :| 0 <= b < |es| && es[b] == fs[j];
          assert !Tied(es, a, b, le) && !Tied(es, b, a, le);
        }
      }
    }
  }

  lemma FindSame(es: seq<Entry>, fs: seq<Entry>, key: Text)
    requires UniqueKeys(fs) && forall e :: e in es ==> e in fs
    ensures Find(es, key).Some? ==> Find(fs, key) == Find(es, key)
  {
    if Find(es, key).Some? {
      var i :| 0 <= i < |es| && es[i] == Entry(key, Find(es, key));
      assert es[i] in fs;
      var j :| 0 <= j < |fs| && fs[j] == es[i];
      FindDefined(fs, j);
    }
  }

  ghost predicate PrintsInAnyOrder(es: seq<Entry>, le: Collation) {
    forall fs :: multiset(fs) == multiset(es) ==> Canonical(Obj(fs), le) == Canonical(Obj(es), le)
  }

  /** An object prints the same text whatever the order of its entries exactly when the collation
      ties no two of its defined keys. (`localeCompare` ties canonically equivalent spellings.) */
  lemma OrderFreeIffUntied(es: seq<Entry>, le: Collation)
    requires WellFormed(Obj(es)) && TotalPreorder(le)
    ensures PrintsInAnyOrder(es, le) <==> Untied(es, le)
  {
    if Untied(es, le) {
      forall fs | multiset(fs) == multiset(es) ensures Canonical(Obj(fs), le) == Canonical(Obj(es), le) {
        RearrangedEntries(es, fs, le);
        SameMemberTexts(es, fs, le);
      }
    } else {
      var i, j :| Tied(es, i, j, le);
      TiePrintsTwice(es, i, j, le);
      assert multiset(Reversed(es)) == multiset(es);
    }
  }

  lemma SortedBefore(es: seq<Entry>, i: nat, j: nat, le: Collation)
    requires i < j < |es| && es[i].value.Some? && es[j].value.Some? && le(es[i].key, es[j].key)
    ensures Before(SortedMembers(es, le), Member(es[i].key, Canonical(es[i].value.value, le)),
                                          Member(es[j].key, Canonical(es[j].value.value, le)))
  {
    var a := Member(es[i].key, Canonical(es[i].value.value, le));
    var b := Member(es[j].key, Canonical(es[j].value.value, le));
    MembersBefore(es, i, j, le);
    SortStable(Members(es, le), a, b, MemberLe(le));
  }

  lemma SamePrintSameMembers(es: seq<Entry>, fs: seq<Entry>, le: Collation)
    requires WellFormed(Obj(es)) && WellFormed(Obj(fs))
    ensures Canonical(Obj(fs), le) == Canonical(Obj(es), le) ==> SortedMembers(es, le) == SortedMembers(fs, le)
  {
    if Canonical(Obj(fs), le) == Canonical(Obj(es), le) {
      ObjectCut(es, fs, [], [], le);
    }
  }

  lemma ReversedWellFormed(es: seq<Entry>)
    requires WellFormed(Obj(es))
    ensures WellFormed(Obj(Reversed(es)))
  {
    var fs := Reversed(es);
    forall i, j | 0 <= i < j < |fs| ensures fs[i].key != fs[j].key {
      assert es[|es| - 1 - j].key != es[|es| - 1 - i].key;
    }
  }

  lemma ReversedSortsOpposite(es: seq<Entry>, i: nat, j: nat, a: Member, b: Member, le: Collation)
    requires Tied(es, i, j, le)
    requires a == Member(es[i].key, Canonical(es[i].value.value, le))
    requires b == Member(es[j].key, Canonical(es[j].value.value, le))
    ensures Before(SortedMembers(es, le), a, b) && Before(SortedMembers(Reversed(es), le), b, a)
  {
    SortedBefore(es, i, j, le);
    SortedBefore(Reversed(es), |es| - 1 - j, |es| - 1 - i, le);
  }

  lemma TiePrintsTwice(es: seq<Entry>, i: nat, j: nat, le: Collation)
    requires WellFormed(Obj(es)) && Tied(es, i, j, le)
    ensures Canonical(Obj(Reversed(es)), le) != Canonical(Obj(es), le)
  {
    var a := Member(es[i].key, Canonical(es[i].value.value, le));
    var b := Member(es[j].key, Canonical(es[j].value.value, le));
    ReversedSortsOpposite(es, i, j, a, b, le);
    MembersDistinct(es, le);
    BeforeIsOneWay(SortedMembers(es, le), a, b);
    ReversedWellFormed(es);
    SamePrintSameMembers(es, Reversed(es), le);
  }

  // ----- Saving a document and reading it back ----------------------------------------------------

  /** What `JSON.parse(JSON.stringify(v))` returns, up to the order of entries: entries that hold
      `undefined` are gone. */
  function Saved(v: Json): Json {
    match v
    case Arr(items) => Arr(SavedItems(items))
    case Obj(entries) => Obj(SavedEntries(entries))
    case _ => v
  }

  function SavedItems(items: seq<Json>): seq<Json> {
    if items == [] then [] else [Saved(items[0])] + SavedItems(items[1..])
  }

  function SavedEntries(entries: seq<Entry>): seq<Entry> {
    if entries == [] then []
    else if entries[0].value.None? then SavedEntries(entries[1..])
    else [Entry(entries[0].key, Some(Saved(entries[0].value.value)))] + SavedEntries(entries[1..])
  }

  lemma {:induction false} SavedPrintsSame(v: Json, le: Collation)
    ensures Canonical(Saved(v), le) == Canonical(v, le)
    decreases v, 1
  {
    match v
    case Arr(items) => SavedItemsPrintSame(items, le);
    case Obj(entries) => SavedMembersSame(entries, le);
    case _ =>
  }

  lemma {:induction false} SavedItemsPrintSame(items: seq<Json>, le: Collation)
    ensures Printed(SavedItems(items), le) == Printed(items, le)
    decreases items, 0
  {
    if items != [] {
      SavedPrintsSame(items[0], le);
      SavedItemsPrintSame(items[1..], le);
      assert SavedItems(items)[1..] == SavedItems(items[1..]);
    }
  }

  lemma {:induction false} SavedMembersSame(entries: seq<Entry>, le: Collation)
    ensures Members(SavedEntries(entries), le) == Members(entries, le)
    decreases entries, 0
  {
    if entries != [] {
      SavedMembersSame(entries[1..], le);
      match entries[0].value {
        case None =>
        case Some(value) =>
          SavedPrintsSame(value, le);
          assert SavedEntries(entries)[1..] == SavedEntries(entries[1..]);
      }
    }
  }

  /** The characters of numbers: digits, signs, the point and the mark of an exponent. */
  lemma NumberUnitsAre(u: CodeUnit)
    ensures IsNumberUnit(u) <==> u in Lit("0123456789+-.eE")
  {
    var s := "0123456789+-.eE";
    assert forall i :: 0 <= i < |s| ==> Lit(s)[i] == s[i] as int;
    if IsNumberUnit(u) {
      var i := if 48 <= u <= 57 then u - 48 else if u == 43 then 10 else if u == 45 then 11 else if u == 46 then 12
               else if u == 101 then 13 else 14;
      assert Lit(s)[i] == u;
    }
  }
}
