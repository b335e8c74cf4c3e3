/** The parser of `git status --porcelain=v1 -z`: records ended by NUL, where a rename or a copy is followed by
    a second field with the original path. */
module GitStatus {
  import opened Wrappers
  import opened Sorting
  import opened Lists
  import opened Texts

  const NUL: CodeUnit := 0
  const SPACE: CodeUnit := 32
  const UNTRACKED: Text := [63, 63]
  const LETTER_R: CodeUnit := 82
  const LETTER_C: CodeUnit := 67

  datatype Paths = Paths(changedPaths: seq<Text>, untrackedPaths: seq<Text>)

  /** A status record; `original` is empty unless the status tells of a rename or a copy. */
  datatype Entry = Entry(status: Text, path: Text, original: Text)

  predicate IsMove(status: Text) {
    LETTER_R in status || LETTER_C in status
  }

  /** `output.split("\0")` */
  function Split(output: Text): (fields: seq<Text>)
    ensures fields != []
    ensures forall f :: f in fields ==> NUL !in f
  {
    if output == [] then [[]]
    else
      var rest := Split(output[1..]);
      if output[0] == NUL then [[]] + rest else [[output[0]] + rest[0]] + rest[1..]
  }

  /** The records of the fields from `index` on. */
  function Records(fields: seq<Text>, index: nat): Result<seq<Entry>>
    decreases |fields| - index
  {
    if index >= |fields| then Ok([])
    else
      var field := fields[index];
      if field == [] then Records(fields, index + 1)
      else if |field| < 4 || field[2] != SPACE then Err("Git returned an invalid porcelain v1 status record.")
      else if IsMove(field[..2]) then
        if index + 1 >= |fields| || fields[index + 1] == []
            then Err("Git returned an incomplete rename or copy record.")
        else Before([Entry(field[..2], field[3..], fields[index + 1])], Records(fields, index + 2))
      else Before([Entry(field[..2], field[3..], [])], Records(fields, index + 1))
  }

  function Before(entries: seq<Entry>, rest: Result<seq<Entry>>): Result<seq<Entry>> {
    match rest
    case Ok(more) => Ok(entries + more)
    case Err(reason) => Err(reason)
  }

  /** Every path that an entry names. */
  function Touched(entries: seq<Entry>): seq<Text> {
    if entries == [] then []
    else
      var last := entries[|entries| - 1];
      Touched(entries[..|entries| - 1]) + [last.path] + if IsMove(last.status) then [last.original] else []
  }

  function Untracked(entries: seq<Entry>): seq<Text> {
    if entries == [] then []
    else
      var last := entries[|entries| - 1];
      Untracked(entries[..|entries| - 1]) + if last.status == UNTRACKED then [last.path] else []
  }

  function PathsOf(entries: seq<Entry>): Paths {
    Paths(Sort(Dedup(Touched(entries)), TextLe), Sort(Dedup(Untracked(entries)), TextLe))
  }

  /** `set.add(x)` on a set in order of insertion. */
  function Add(s: seq<Text>, x: Text): seq<Text> {
    if x in s then s else s + [x]
  }

  lemma DedupAdds(s: seq<Text>, x: Text)
    ensures Dedup(s + [x]) == Add(Dedup(s), x)
  {
    assert (s + [x])[..|s|] == s;
  }

  lemma TouchedNext(entries: seq<Entry>, e: Entry)
    ensures Dedup(Touched(entries + [e])) ==
            var changed := Add(Dedup(Touched(entries)), e.path);
            if IsMove(e.status) then Add(changed, e.original) else changed
    ensures Dedup(Untracked(entries + [e])) ==
            if e.status == UNTRACKED then Add(Dedup(Untracked(entries)), e.path) else Dedup(Untracked(entries))
  {
    assert (entries + [e])[..|entries|] == entries;
    DedupAdds(Touched(entries), e.path);
    DedupAdds(Touched(entries) + [e.path], e.original);
    DedupAdds(Untracked(entries), e.path);
    assert Touched(entries) + [e.path] + [] == Touched(entries) + [e.path];
    assert Untracked(entries) + [] == Untracked(entries);
  }

  lemma BeforeNothing(rest: Result<seq<Entry>>)
    ensures Before([], rest) == rest
  {
    if rest.Ok? { assert [] + rest.value == rest.value; }
  }

  lemma BeforeBefore(read: seq<Entry>, e: Entry, rest: Result<seq<Entry>>)
    ensures Before(read, Before([e], rest)) == Before(read + [e], rest)
  {
    if rest.Ok? { assert read + ([e] + rest.value) == read + [e] + rest.value; }
  }

  /** `read` has been read up to `index`. */
  ghost predicate ReadTo(fields: seq<Text>, read: seq<Entry>, index: nat) {
    Records(fields, 0) == Before(read, Records(fields, index))
  }

  lemma ReadsOne(fields: seq<Text>, read: seq<Entry>, index: nat, e: Entry)
    requires index < |fields| && ReadTo(fields, read, index)
    requires |fields[index]| >= 4 && fields[index][2] == SPACE
    requires e.status == fields[index][..2] && e.path == fields[index][3..]
    requires if IsMove(e.status) then index + 1 < |fields|
        && fields[index + 1] == e.original != [] else e.original == []
    ensures ReadTo(fields, read + [e], if IsMove(e.status) then index + 2 else index + 1)
  {
    BeforeBefore(read, e, Records(fields, if IsMove(e.status) then index + 2 else index + 1));
  }

  method ParsePorcelainV1Z(output: Text) returns (result: Result<Paths>)
    ensures match Records(Split(output), 0)
            case Ok(entries) => result == Ok(PathsOf(entries))
            case Err(reason) => result == Err(reason)
  {
    var fields := Split(output);
    var changed: seq<Text>, untracked: seq<Text> := [], [];
    ghost var read: seq<Entry> := [];
    BeforeNothing(Records(fields, 0));
    var index := 0;
    while index < |fields|
      invariant ReadTo(fields, read, index)
      invariant changed == Dedup(Touched(read)) && untracked == Dedup(Untracked(read))
    {
      var field := fields[index];
      if field == [] {
        index := index + 1;
        continue;
      }
      if |field| < 4 || field[2] != SPACE {
        return Err("Git returned an invalid porcelain v1 status record.");
      }
      var status, path := field[..2], field[3..];
      changed := Add(changed, path);
      if status == UNTRACKED { untracked := Add(untracked, path); }
      var original: Text := [];
      if IsMove(status) {
        if index + 1 >= |fields| || fields[index + 1] == [] {
          return Err("Git returned an incomplete rename or copy record.");
        }
        original := fields[index + 1];
        changed := Add(changed, original);
      }
      ghost var e := Entry(status, path, original);
      TouchedNext(read, e);
      ReadsOne(fields, read, index, e);
      read := read + [e];
      index := if IsMove(status) then index + 2 else index + 1;
    }
    assert read + [] == read;
    result := Ok(Paths(Sort(changed, TextLe), Sort(untracked, TextLe)));
  }

  // ---- round trip ----

  /** What Git prints: a status of two letters, a path, and the original path of a rename or a copy. */
  predicate Printable(e: Entry) {
    && |e.status| == 2 && NUL !in e.status && NUL !in e.path && NUL !in e.original
    && e.path != [] && (if IsMove(e.status) then e.original != [] else e.original == [])
  }

  ghost predicate AllPrintable(entries: seq<Entry>) {
    forall e :: e in entries ==> Printable(e)
  }

  function PrintEntry(e: Entry): Text {
    e.status + [SPACE] + e.path + [NUL] + if IsMove(e.status) then e.original + [NUL] else []
  }

  function Print(entries: seq<Entry>): Text {
    if entries == [] then [] else PrintEntry(entries[0]) + Print(entries[1..])
  }

  lemma {:induction false} SplitField(field: Text, rest: Text)
    requires NUL !in field
    ensures Split(field + [NUL] + rest) == [field] + Split(rest)
  {
    var text := field + [NUL] + rest;
    if field == [] {
      assert text[1..] == rest;
    } else {
      SplitField(field[1..], rest);
      assert text[1..] == field[1..] + [NUL] + rest;
      var split := Split(text[1..]);
      assert split[0] == field[1..] && split[1..] == Split(rest);
      assert [field[0]] + field[1..] == field;
    }
  }

  lemma SplitEntry(e: Entry, rest: Text)
    requires Printable(e)
    ensures Split(PrintEntry(e) + rest) ==
            [e.status + [SPACE] + e.path] + (if IsMove(e.status) then [e.original] else []) + Split(rest)
  {
    var first := e.status + [SPACE] + e.path;
    if IsMove(e.status) {
      assert PrintEntry(e) + rest == first + [NUL] + (e.original + [NUL] + rest);
      SplitField(first, e.original + [NUL] + rest);
      SplitField(e.original, rest);
    } else {
      assert PrintEntry(e) + rest == first + [NUL] + rest;
      SplitField(first, rest);
    }
  }

  lemma {:induction false} RecordsShift(before: seq<Text>, fields: seq<Text>, index: nat)
    ensures Records(before + fields, |before| + index) == Records(fields, index)
    decreases |fields| - index
  {
    if index < |fields| {
      assert (before + fields)[|before| + index] == fields[index];
      RecordsShift(before, fields, index + 1);
      if index + 1 < |fields| {
        assert (before + fields)[|before| + index + 1] == fields[index + 1];
        RecordsShift(before, fields, index + 2);
      }
    }
  }

  /** Printed entries are read back, each with its status and its paths. */
  lemma {:induction false} PrintedEntriesAreRead(entries: seq<Entry>)
    requires AllPrintable(entries)
    ensures Records(Split(Print(entries)), 0) == Ok(entries)
  {
    if entries == [] {
      assert Records([[]], 0) == Records([[]], 1);
    } else {
      var e, rest := entries[0], Split(Print(entries[1..]));
      assert e in entries;
      PrintedEntriesAreRead(entries[1..]);
      SplitEntry(e, Print(entries[1..]));
      EntryIsRead(e, rest);
      assert [e] + entries[1..] == entries;
    }
  }

  lemma EntryIsRead(e: Entry, rest: seq<Text>)
    requires Printable(e)
    ensures Records([e.status + [SPACE] + e.path] + (if IsMove(e.status) then [e.original] else []) + rest, 0)
            == Before([e], Records(rest, 0))
  {
    var first := e.status + [SPACE] + e.path;
    assert first[..2] == e.status && first[3..] == e.path && first[2] == SPACE;
    if IsMove(e.status) {
      assert [first] + [e.original] + rest == [first, e.original] + rest;
      RecordsShift([first, e.original], rest, 0);
    } else {
      assert [first] + [] + rest == [first] + rest;
      RecordsShift([first], rest, 0);
    }
  }

  /** Some entry names the path, as its path or as what it was moved from. */
  predicate Names(entries: seq<Entry>, path: Text) {
    exists e :: e in entries && (e.path == path || (IsMove(e.status) && e.original == path))
  }

  lemma {:induction false} TouchedMembers(entries: seq<Entry>, path: Text)
    ensures path in Touched(entries) <==> Names(entries, path)
    ensures path in Untracked(entries) <==> exists e :: e in entries && e.status == UNTRACKED && e.path == path
  {
    if entries != [] {
      TouchedMembers(entries[..|entries| - 1], path);
      assert entries == entries[..|entries| - 1] + [entries[|entries| - 1]];
    }
  }

  /** The lists are sorted, without repetition, and hold just the paths that the entries name. */
  lemma PathsAreExact(entries: seq<Entry>, path: Text)
    ensures var p := PathsOf(entries);
            && StrictlySorted(p.changedPaths, TextLe) && StrictlySorted(p.untrackedPaths, TextLe)
            && (path in p.changedPaths <==> Names(entries, path))
            && (path in p.untrackedPaths <==> exists e :: e in entries && e.status == UNTRACKED && e.path == path)
            && (path in p.untrackedPaths ==> path in p.changedPaths)
  {
    TouchedMembers(entries, path);
    SortedSet(Touched(entries));
    SortedSet(Untracked(entries));
  }

  lemma SortedSet(s: seq<Text>)
    ensures StrictlySorted(Sort(Dedup(s), TextLe), TextLe)
    ensures forall x :: x in Sort(Dedup(s), TextLe) <==> x in s
  {
    TextLeOrders();
    SortSorts(Dedup(s), TextLe);
    DistinctRearranged(Dedup(s), Sort(Dedup(s), TextLe));
    SameMembers(Dedup(s), Sort(Dedup(s), TextLe));
  }

  // ---- what is accepted ----

  function FieldsOf(entries: seq<Entry>): seq<Text> {
    if entries == [] then []
    else
      [entries[0].status + [SPACE] + entries[0].path]
        + (if IsMove(entries[0].status) then [entries[0].original] else [])
      + FieldsOf(entries[1..])
  }

  function Filled(): Text -> bool { (field: Text) => field != [] }

  /** Nothing but entries is accepted: the fields that are not empty are those of the records that are read. */
  lemma {:induction false} OnlyEntriesAreAccepted(fields: seq<Text>, index: nat)
    requires Records(fields, index).Ok? && (forall f :: f in fields ==> NUL !in f) && index <= |fields|
    ensures AllPrintable(Records(fields, index).value)
    ensures Filter(fields[index..], Filled()) == FieldsOf(Records(fields, index).value)
    decreases |fields| - index
  {
    if index < |fields| {
      var field := fields[index];
      assert fields[index..] == [field] + fields[index + 1..];
      assert field in fields;
      if field == [] {
        OnlyEntriesAreAccepted(fields, index + 1);
      } else if IsMove(field[..2]) {
        OnlyEntriesAreAccepted(fields, index + 2);
        assert fields[index + 1] in fields;
        assert fields[index + 1..] == [fields[index + 1]] + fields[index + 2..];
        assert field == field[..2] + [SPACE] + field[3..];
      } else {
        OnlyEntriesAreAccepted(fields, index + 1);
        assert field == field[..2] + [SPACE] + field[3..];
      }
    }
  }

  /** A status with an `R` or a `C` tells of a rename or a copy, and no other does. */
  lemma MovesAre(status: Text)
    requires |status| == 2
    ensures IsMove(status) <==>
            status[0] == Lit("R")[0] || status[0] == Lit("C")[0] || status[1] == Lit("R")[0] || status[1] == Lit("C")[0]
  {
  }

  /** Untracked paths are printed under two question marks, and fields end with a zero. */
  lemma MarksAre()
    ensures UNTRACKED == Lit("??") && [SPACE] == Lit(" ") && NUL == 0
  {
  }
}
