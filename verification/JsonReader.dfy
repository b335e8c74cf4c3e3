/** A reader of JSON texts by the grammar of RFC 8259, and the proof that it reads what the canonical printer prints. */
module JsonReader {
  import opened Wrappers
  import opened Sorting
  import opened Texts
  import opened JsonText
  import opened CanonicalJson

  function NumberLength(t: Text): (n: nat)
    ensures n <= |t|
  {
    if t == [] || !IsNumberUnit(t[0]) then 0 else 1 + NumberLength(t[1..])
  }

  /** Reads a value off the front of a text, and tells what follows. */
  function ReadValue(t: Text): (r: Option<(Json, Text)>)
    ensures r.Some? ==> |r.value.1| < |t|
    decreases |t|, 0
  {
    if t == [] then None
    else if t[0] == LEFT_BRACE then
      if |t| > 1 && t[1] == RIGHT_BRACE then Some((Obj([]), t[2..]))
      else match ReadMembers(t[1..]) { case None => None case Some((es, rest)) => Some((Obj(es), rest)) }
    else if t[0] == LEFT_BRACKET then
      if |t| > 1 && t[1] == RIGHT_BRACKET then Some((Arr([]), t[2..]))
      else match ReadItems(t[1..]) { case None => None case Some((items, rest)) => Some((Arr(items), rest)) }
    else if t[0] == QUOTE then
      var (s, rest) := ReadString(t[1..]);
      if rest != [] && rest[0] == QUOTE then Some((Str(s), rest[1..])) else None
    else if [110, 117, 108, 108] <= t then Some((Null, t[4..]))
    else if [116, 114, 117, 101] <= t then Some((Bool(true), t[4..]))
    else if [102, 97, 108, 115, 101] <= t then Some((Bool(false), t[5..]))
    else
      var n := NumberLength(t);
      if n == 0 then None else Some((Num(t[..n]), t[n..]))
  }

  /** Reads one item or more, and the bracket that closes them. */
  function ReadItems(t: Text): (r: Option<(seq<Json>, Text)>)
    ensures r.Some? ==> |r.value.1| < |t|
    decreases |t|, 1
  {
    match ReadValue(t)
    case None => None
    case Some((v, rest)) =>
      if rest == [] then None
      else if rest[0] == RIGHT_BRACKET then Some(([v], rest[1..]))
      else if rest[0] != COMMA then None
      else match ReadItems(rest[1..]) { case None => None case Some((vs, tail)) => Some(([v] + vs, tail)) }
  }

  /** Reads one member or more, and the brace that closes them. */
  function ReadMembers(t: Text): (r: Option<(seq<Entry>, Text)>)
    ensures r.Some? ==> |r.value.1| < |t|
    decreases |t|, 1
  {
    if t == [] || t[0] != QUOTE then None
    else
      var (key, after) := ReadString(t[1..]);
      if |after| < 2 || after[0] != QUOTE || after[1] != COLON then None
      else
        match ReadValue(after[2..])
        case None => None
        case Some((v, rest)) =>
          if rest == [] then None
          else if rest[0] == RIGHT_BRACE then Some(([Entry(key, Some(v))], rest[1..]))
          else if rest[0] != COMMA then None
          else
            match ReadMembers(rest[1..])
            case None => None
            case Some((es, tail)) => Some(([Entry(key, Some(v))] + es, tail))
  }

  // ---- the printer is read back ----

  /** The text is read as an equal value, and what follows it is left. */
  predicate IsReadAs(text: Text, w: Json, x: Text) {
    ReadValue(text + x) == Some((w, x))
  }

  lemma {:induction false} NumberEnds(a: Text, x: Text)
    requires (forall i :: 0 <= i < |a| ==> IsNumberUnit(a[i])) && (x == [] || !IsNumberUnit(x[0]))
    ensures NumberLength(a + x) == |a|
  {
    if a == [] {
      assert a + x == x;
    } else {
      NumberEnds(a[1..], x);
      assert (a + x)[1..] == a[1..] + x;
    }
  }

  lemma NumberIsRead(a: Text, x: Text)
    requires WellFormed(Num(a)) && Delimited(x)
    ensures IsReadAs(a, Num(a), x)
  {
    NumberEnds(a, x);
    assert (a + x)[0] == a[0] && (a + x)[..|a|] == a && (a + x)[|a|..] == x;
  }

  lemma StringIsRead(s: Text, x: Text)
    ensures IsReadAs(Quoted(s), Str(s), x)
  {
    var t := Quoted(s) + x;
    assert t[1..] == Escape(s) + ([QUOTE] + x);
    ReadEscaped(s, [QUOTE] + x);
    assert ([QUOTE] + x)[1..] == x;
  }

  lemma LiteralsAreRead(x: Text)
    ensures IsReadAs(Lit("null"), Null, x) && IsReadAs(Lit("true"), Bool(true), x)
        && IsReadAs(Lit("false"), Bool(false), x)
  {
    LiteralTexts();
    LiteralIsRead([110, 117, 108, 108], x);
    LiteralIsRead([116, 114, 117, 101], x);
    LiteralIsRead([102, 97, 108, 115, 101], x);
  }

  lemma LiteralTexts()
    ensures Lit("null") == [110, 117, 108, 108] && Lit("true") == [116, 114, 117, 101]
    ensures Lit("false") == [102, 97, 108, 115, 101]
  {
  }

  lemma LiteralIsRead(literal: Text, x: Text)
    requires literal != []
    ensures (literal + x)[0] == literal[0] && literal <= literal + x && (literal + x)[|literal|..] == x
  {
  }

  lemma {:induction false} ValueIsRead(v: Json, x: Text, le: Collation) returns (w: Json)
    requires WellFormed(v) && Delimited(x)
    ensures IsReadAs(Canonical(v, le), w, x) && SameValue(v, w)
    decreases v, 1
  {
    match v {
      case Null =>
        LiteralsAreRead(x);
        w := v;
      case Bool(_) =>
        LiteralsAreRead(x);
        w := v;
      case Num(a) =>
        NumberIsRead(a, x);
        w := v;
      case Str(s) =>
        StringIsRead(s, x);
        w := v;
      case Arr(items) => w := ArrayIsRead(items, x, le);
      case Obj(entries) => w := ObjectIsRead(entries, x, le);
    }
  }

  lemma {:induction false} ArrayIsRead(a: seq<Json>, x: Text, le: Collation) returns (w: Json)
    requires WellFormed(Arr(a))
    ensures IsReadAs(Canonical(Arr(a), le), w, x) && SameValue(Arr(a), w)
    decreases a, 1
  {
    var close := [RIGHT_BRACKET] + x;
    var t := Canonical(Arr(a), le) + x;
    Unwrap(LEFT_BRACKET, Joined(Printed(a, le)), RIGHT_BRACKET, x);
    assert t[0] == LEFT_BRACKET && close[1..] == x;
    ItemsStart(a, close, le);
    if a == [] {
      assert Joined(Printed(a, le)) + close == close && t[2..] == x;
      w := Arr([]);
    } else {
      var b := ItemsAreRead(a, close, le);
      w := Arr(b);
    }
  }

  lemma {:induction false} ItemsAreRead(a: seq<Json>, x: Text, le: Collation) returns (b: seq<Json>)
    requires WellFormed(Arr(a)) && a != [] && x != [] && x[0] == RIGHT_BRACKET
    ensures ReadItems(Joined(Printed(a, le)) + x) == Some((b, x[1..]))
    ensures |a| == |b| && forall i :: 0 <= i < |a| ==> SameValue(a[i], b[i])
    decreases a, 0
  {
    JoinedTail(Printed(a, le), x);
    if |a| == 1 {
      var w := ValueIsRead(a[0], x, le);
      b := [w];
    } else {
      var rest := Joined(Printed(a[1..], le)) + x;
      var w := ValueIsRead(a[0], [COMMA] + rest, le);
      assert ([COMMA] + rest)[1..] == rest;
      var more := ItemsAreRead(a[1..], x, le);
      b := [w] + more;
    }
  }

  lemma {:induction false} ObjectIsRead(es: seq<Entry>, x: Text, le: Collation) returns (w: Json)
    requires WellFormed(Obj(es))
    ensures IsReadAs(Canonical(Obj(es), le), w, x) && SameValue(Obj(es), w)
    decreases es, 2
  {
    var ms, close := SortedMembers(es, le), [RIGHT_BRACE] + x;
    var t := Canonical(Obj(es), le) + x;
    Unwrap(LEFT_BRACE, Joined(MemberTexts(ms)), RIGHT_BRACE, x);
    assert t[0] == LEFT_BRACE && close[1..] == x;
    MembersStart(ms, close);
    SortedMembersAreEntries(es, le);
    var fs: seq<Entry> := [];
    if ms == [] {
      assert Joined(MemberTexts(ms)) + close == close && t[2..] == x;
    } else {
      fs := MembersAreRead(ms, es, close, le);
    }
    ReadMembersAreTheObject(ms, es, fs, le);
    w := Obj(fs);
  }

  /** Each entry that was read holds the value of its key. */
  ghost predicate HoldsMembers(ms: seq<Member>, es: seq<Entry>, fs: seq<Entry>) {
    && |fs| == |ms|
    && forall i :: 0 <= i < |ms| ==>
         && fs[i].key == ms[i].key && fs[i].value.Some? && Find(es, ms[i].key).Some?
         && SameValue(Find(es, ms[i].key).value, fs[i].value.value)
  }

  lemma ReadMembersAreTheObject(ms: seq<Member>, es: seq<Entry>, fs: seq<Entry>, le: Collation)
    requires WellFormed(Obj(es)) && ms == SortedMembers(es, le) && HoldsMembers(ms, es, fs)
    ensures SameValue(Obj(es), Obj(fs))
  {
    SortedMembersAreEntries(es, le);
    forall i | 0 <= i < |es| && es[i].value.Some?
      ensures Find(fs, es[i].key).Some? && SameValue(es[i].value.value, Find(fs, es[i].key).value) {
      FindDefined(es, i);
      assert Member(es[i].key, Canonical(es[i].value.value, le)) in ms;
      MemberIsHeld(ms, es, fs, Member(es[i].key, Canonical(es[i].value.value, le)));
    }
  }

  lemma MemberIsHeld(ms: seq<Member>, es: seq<Entry>, fs: seq<Entry>, m: Member)
    requires HoldsMembers(ms, es, fs) && m in ms
    ensures Find(es, m.key).Some? && Find(fs, m.key).Some? && SameValue(Find(es, m.key).value, Find(fs, m.key).value)
  {
    var k :| 0 <= k < |ms| && ms[k] == m;
    FindsSome(fs, k);
    var j :| 0 <= j < |fs| && fs[j] == Entry(m.key, Find(fs, m.key));
  }

  lemma {:induction false} FindsSome(fs: seq<Entry>, k: nat)
    requires k < |fs| && fs[k].value.Some?
    ensures Find(fs, fs[k].key).Some?
  {
    if k > 0 {
      FindsSome(fs[1..], k - 1);
    }
  }

  lemma {:induction false} MembersAreRead(ms: seq<Member>, es: seq<Entry>, x: Text, le: Collation)
      returns (fs: seq<Entry>)
    requires WellFormed(Obj(es)) && MembersOf(ms, es, le) && ms != [] && x != [] && x[0] == RIGHT_BRACE
    ensures ReadMembers(Joined(MemberTexts(ms)) + x) == Some((fs, x[1..])) && HoldsMembers(ms, es, fs)
    decreases es, 1, |ms|
  {
    var p := AfterMember(ms, x);
    MemberSplit(ms, x);
    var v := FirstValueIsRead(ms, es, p, le);
    FirstMemberIsRead(ms[0], p, v);
    if |ms| == 1 {
      fs := [Entry(ms[0].key, Some(v))];
    } else {
      assert p[1..] == Joined(MemberTexts(ms[1..])) + x;
      var more := MembersAreRead(ms[1..], es, x, le);
      fs := [Entry(ms[0].key, Some(v))] + more;
      HoldsOneMore(ms, es, fs);
    }
  }

  lemma HoldsOneMore(ms: seq<Member>, es: seq<Entry>, fs: seq<Entry>)
    requires ms != [] && fs != [] && HoldsMembers(ms[..1], es, fs[..1]) && HoldsMembers(ms[1..], es, fs[1..])
    ensures HoldsMembers(ms, es, fs)
  {
    forall i | 0 <= i < |ms|
      ensures fs[i].key == ms[i].key && fs[i].value.Some? && Find(es, ms[i].key).Some?
              && SameValue(Find(es, ms[i].key).value, fs[i].value.value) {
      if i == 0 {
        assert ms[..1][0] == ms[0] && fs[..1][0] == fs[0];
      } else {
        assert ms[1..][i - 1] == ms[i] && fs[1..][i - 1] == fs[i];
      }
    }
  }

  lemma {:induction false} FirstValueIsRead(ms: seq<Member>, es: seq<Entry>, p: Text, le: Collation) returns (v: Json)
    requires WellFormed(Obj(es)) && MembersOf(ms, es, le) && ms != [] && Delimited(p)
    ensures Find(es, ms[0].key).Some? && IsReadAs(ms[0].text, v, p) && SameValue(Find(es, ms[0].key).value, v)
    decreases es, 0
  {
    assert ms[0] in ms;
    var i :| 0 <= i < |es| && es[i] == Entry(ms[0].key, Find(es, ms[0].key));
    v := ValueIsRead(es[i].value.value, p, le);
  }

  lemma FirstMemberIsRead(m: Member, p: Text, v: Json)
    requires IsReadAs(m.text, v, p) && p != []
    ensures var t, e := Quoted(m.key) + ([COLON] + (m.text + p)), Entry(m.key, Some(v));
            && (p[0] == RIGHT_BRACE ==> ReadMembers(t) == Some(([e], p[1..])))
            && (p[0] == COMMA && ReadMembers(p[1..]).Some? ==>
                  ReadMembers(t) == Some(([e] + ReadMembers(p[1..]).value.0, ReadMembers(p[1..]).value.1)))
  {
    KeyIsRead(m.key, m.text + p);
  }

  lemma KeyIsRead(key: Text, rest: Text)
    ensures var t := Quoted(key) + ([COLON] + rest);
            && t[0] == QUOTE && ReadString(t[1..]) == (key, [QUOTE, COLON] + rest)
            && ([QUOTE, COLON] + rest)[2..] == rest
  {
    var t := Quoted(key) + ([COLON] + rest);
    assert t[1..] == Escape(key) + ([QUOTE, COLON] + rest);
    ReadEscaped(key, [QUOTE, COLON] + rest);
  }

  /** Reading a canonical text gives back an equal value, and leaves nothing over. */
  lemma CanonicalIsRead(v: Json, le: Collation)
    requires WellFormed(v)
    ensures exists w :: ReadValue(Canonical(v, le)) == Some((w, [])) && SameValue(v, w)
  {
    var w := ValueIsRead(v, [], le);
    assert Canonical(v, le) + [] == Canonical(v, le);
  }
}
