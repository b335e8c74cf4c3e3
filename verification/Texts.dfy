/** JavaScript strings: finite sequences of UTF-16 code units, with the order that
    `Array.prototype.sort` uses when it is given no comparator. */
module Texts {
  import opened Sorting

  type CodeUnit = u: int | 0 <= u < 0x1_0000
  type Text = seq<CodeUnit>

  const QUOTE: CodeUnit := 34
  const COMMA: CodeUnit := 44
  const COLON: CodeUnit := 58
  const BACKSLASH: CodeUnit := 92
  const LEFT_BRACKET: CodeUnit := 91
  const RIGHT_BRACKET: CodeUnit := 93
  const LEFT_BRACE: CodeUnit := 123
  const RIGHT_BRACE: CodeUnit := 125

  /** The text of a literal of the source (all of them are in the basic multilingual plane). */
  function Lit(s: string): Text {
    seq(|s|, i requires 0 <= i < |s| => if (s[i] as int) < 0x1_0000 then s[i] as int else 0xFFFD)
  }

  predicate TextLe(a: Text, b: Text) {
    if a == [] then true
    else if b == [] then false
    else if a[0] != b[0] then a[0] < b[0]
    else TextLe(a[1..], b[1..])
  }

  /** They agree up to a place where the first has the smaller unit. */
  predicate SmallerAt(a: Text, b: Text, k: nat) {
    k < |a| && k < |b| && a[..k] == b[..k] && a[k] < b[k]
  }

  /** The first is a part of the second from its start, and shorter, or is smaller where they first differ. */
  ghost predicate ComesFirst(a: Text, b: Text) {
    a < b || exists k: nat :: SmallerAt(a, b, k)
  }

  /** What the order is, place by place. */
  lemma {:induction false} TextLeIff(a: Text, b: Text)
    ensures TextLe(a, b) <==> a <= b || exists k: nat :: SmallerAt(a, b, k)
  {
    if a != [] && b != [] {
      if a[0] == b[0] {
        TextLeIff(a[1..], b[1..]);
        assert a == [a[0]] + a[1..] && b == [b[0]] + b[1..];
        if k: nat :| SmallerAt(a[1..], b[1..], k) { LaterPlace(a, b, k); }
        if k: nat :| SmallerAt(a, b, k) { EarlierPlace(a, b, k); }
      } else if a[0] < b[0] {
        assert SmallerAt(a, b, 0);
      } else {
        NowhereSmaller(a, b);
      }
    }
  }

  lemma NowhereSmaller(a: Text, b: Text)
    requires a != [] && b != [] && a[0] > b[0]
    ensures forall k: nat :: !SmallerAt(a, b, k)
  {
    forall k: nat ensures !SmallerAt(a, b, k) {
      if 0 < k < |a| && k < |b| { assert a[..k][0] != b[..k][0]; }
    }
  }

  lemma LaterPlace(a: Text, b: Text, k: nat)
    requires a != [] && b != [] && a[0] == b[0] && SmallerAt(a[1..], b[1..], k)
    ensures SmallerAt(a, b, k + 1)
  {
    assert a[..k + 1] == [a[0]] + a[1..][..k] && b[..k + 1] == [b[0]] + b[1..][..k];
  }

  lemma EarlierPlace(a: Text, b: Text, k: nat)
    requires a != [] && b != [] && a[0] == b[0] && SmallerAt(a, b, k)
    ensures k > 0 && SmallerAt(a[1..], b[1..], k - 1)
  {
    assert a[1..][..k - 1] == a[..k][1..] && b[1..][..k - 1] == b[..k][1..];
  }

  lemma ComesFirstIff(a: Text, b: Text)
    ensures ComesFirst(a, b) <==> TextLe(a, b) && a != b
  {
    TextLeIff(a, b);
    if k: nat :| SmallerAt(a, b, k) { assert a[k] != b[k]; }
  }

  lemma {:induction false} TextLeTotal(a: Text, b: Text)
    ensures TextLe(a, b) || TextLe(b, a)
    ensures TextLe(a, b) && TextLe(b, a) ==> a == b
  {
    if a != [] && b != [] && a[0] == b[0] {
      TextLeTotal(a[1..], b[1..]);
      assert a == [a[0]] + a[1..] && b == [b[0]] + b[1..];
    }
  }

  lemma {:induction false} TextLeTransitive(a: Text, b: Text, c: Text)
    requires TextLe(a, b) && TextLe(b, c)
    ensures TextLe(a, c)
  {
    if a != [] && b != [] && c != [] && a[0] == b[0] == c[0] {
      TextLeTransitive(a[1..], b[1..], c[1..]);
    }
  }

  lemma TextLeOrders()
    ensures TotalPreorder(TextLe)
    ensures forall x, y :: TextLe(x, y) && TextLe(y, x) ==> x == y
  {
    forall x, y ensures (TextLe(x, y) || TextLe(y, x)) && (TextLe(x, y) && TextLe(y, x) ==> x == y) {
      TextLeTotal(x, y);
    }
    forall x, y, z | TextLe(x, y) && TextLe(y, z) ensures TextLe(x, z) {
      TextLeTransitive(x, y, z);
    }
  }
}
