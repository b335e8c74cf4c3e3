/** The Merkle root of an attestation bundle (src/control-plane/bundle.ts:39-65): the loop that computes
    it, and what equal roots mean. SHA-256 is a parameter: any function into 64-digit hexadecimal texts. */
module MerkleBundle {
  import opened Sorting
  import opened Lists
  import opened Texts

  type Hash = Text -> Text

  predicate IsHex(t: Text) { forall i :: 0 <= i < |t| ==> 48 <= t[i] <= 57 || 97 <= t[i] <= 102 }

  ghost predicate HexDigests(hash: Hash) {
    forall t :: |hash(t)| == 64 && IsHex(hash(t))
  }

  /** The records of a bundle are objects, so their JSON texts open with a brace. */
  ghost predicate ObjectTexts(records: seq<Text>) {
    forall i :: 0 <= i < |records| ==> records[i] != [] && records[i][0] == LEFT_BRACE
  }

  function Hashes(records: seq<Text>, hash: Hash): (r: seq<Text>)
    ensures |r| == |records| && forall i :: 0 <= i < |r| ==> r[i] == hash(records[i])
  {
    seq(|records|, i requires 0 <= i < |records| => hash(records[i]))
  }

  function EmptyBundle(): Text { Lit("empty-bundle") }

  function NextLayer(layer: seq<Text>, hash: Hash): (r: seq<Text>)
    ensures |r| == (|layer| + 1) / 2
  {
    if |layer| < 2 then layer else [hash(layer[0] + layer[1])] + NextLayer(layer[2..], hash)
  }

  function RootOf(layer: seq<Text>, hash: Hash): Text
    requires layer != []
    decreases |layer|
  {
    if |layer| == 1 then layer[0] else RootOf(NextLayer(layer, hash), hash)
  }

  function MerkleRoot(records: seq<Text>, hash: Hash): Text {
    if records == [] then hash(EmptyBundle()) else RootOf(Sort(Hashes(records, hash), TextLe), hash)
  }

  lemma {:induction false} NextLayerSplit(a: seq<Text>, b: seq<Text>, hash: Hash)
    requires |a| % 2 == 0
    ensures NextLayer(a + b, hash) == NextLayer(a, hash) + NextLayer(b, hash)
  {
    if a == [] {
      assert a + b == b;
    } else {
      assert (a + b)[2..] == a[2..] + b && (a + b)[0] == a[0] && (a + b)[1] == a[1];
      NextLayerSplit(a[2..], b, hash);
    }
  }

  lemma PairStep(layer: seq<Text>, i: nat, hash: Hash)
    requires i % 2 == 0 && i + 1 < |layer|
    ensures NextLayer(layer[..i + 2], hash) == NextLayer(layer[..i], hash) + [hash(layer[i] + layer[i + 1])]
  {
    assert layer[..i + 2] == layer[..i] + [layer[i], layer[i + 1]];
    NextLayerSplit(layer[..i], [layer[i], layer[i + 1]], hash);
  }

  lemma OddStep(layer: seq<Text>, i: nat, hash: Hash)
    requires i % 2 == 0 && i + 1 == |layer|
    ensures NextLayer(layer, hash) == NextLayer(layer[..i], hash) + [layer[i]]
  {
    assert layer == layer[..i] + [layer[i]];
    NextLayerSplit(layer[..i], [layer[i]], hash);
    assert NextLayer([layer[i]], hash) == [layer[i]];
  }

  /** The part of a layer that the pairs before position `i` cover. */
  function Covered(layer: seq<Text>, i: nat): seq<Text> {
    if i < |layer| then layer[..i] else layer
  }

  /** `computeMerkleRoot`, given `JSON.stringify` of each record. */
  method ComputeMerkleRoot(records: seq<Text>, hash: Hash) returns (root: Text)
    ensures root == MerkleRoot(records, hash)
  {
    var hashes := Hashes(records, hash);
    if |hashes| == 0 {
      return hash(EmptyBundle());
    }
    var currentLayer := Sort(hashes, TextLe);
    while |currentLayer| > 1
      invariant currentLayer != []
      invariant RootOf(currentLayer, hash) == MerkleRoot(records, hash)
      decreases |currentLayer|
    {
      var nextLayer: seq<Text> := [];
      var i := 0;
      while i < |currentLayer|
        invariant 0 <= i <= |currentLayer| + 1 && i % 2 == 0
        invariant nextLayer == NextLayer(Covered(currentLayer, i), hash)
      {
        if i + 1 < |currentLayer| {
          PairStep(currentLayer, i, hash);
          var combined := hash(currentLayer[i] + currentLayer[i + 1]);
          nextLayer := nextLayer + [combined];
        } else {
          OddStep(currentLayer, i, hash);
          nextLayer := nextLayer + [currentLayer[i]];
        }
        assert i + 2 == |currentLayer| ==> currentLayer[..i + 2] == currentLayer;
        i := i + 2;
      }
      currentLayer := nextLayer;
    }
    root := currentLayer[0];
  }

  // ----- Order of records -------------------------------------------------------------------------

  lemma {:induction false} HashesOfBag(a: seq<Text>, b: seq<Text>, hash: Hash)
    requires multiset(a) == multiset(b)
    ensures multiset(Hashes(a, hash)) == multiset(Hashes(b, hash))
  {
    if a == [] {
      assert b == [] by { SameMembers(a, b); Inhabited(b); }
    } else {
      SameMembers(a, b);
      assert a[0] in b;
      var j :| 0 <= j < |b| && b[j] == a[0];
      RemoveSame(a, b, j);
      HashesOfBag(a[1..], b[..j] + b[j + 1..], hash);
      assert Hashes(a, hash) == [hash(a[0])] + Hashes(a[1..], hash);
      var hb := Hashes(b, hash);
      RemoveAt(hb, j);
      assert hb[..j] + hb[j + 1..] == Hashes(b[..j] + b[j + 1..], hash);
    }
  }

  lemma RemoveAt<T>(s: seq<T>, j: nat)
    requires j < |s|
    ensures multiset(s) == multiset{s[j]} + multiset(s[..j] + s[j + 1..])
  {
    assert s == s[..j] + ([s[j]] + s[j + 1..]);
  }

  lemma RemoveSame<T>(a: seq<T>, b: seq<T>, j: nat)
    requires multiset(a) == multiset(b) && a != [] && j < |b| && b[j] == a[0]
    ensures multiset(a[1..]) == multiset(b[..j] + b[j + 1..])
  {
    RemoveAt(b, j);
    RemoveAt(a, 0);
    assert a[..0] + a[1..] == a[1..];
    assert multiset(a[1..]) == multiset(a) - multiset{a[0]};
    assert multiset(b[..j] + b[j + 1..]) == multiset(b) - multiset{b[j]};
  }

  /** The root depends on the records as a bag, not on their order. */
  lemma RootIgnoresOrder(a: seq<Text>, b: seq<Text>, hash: Hash)
    requires multiset(a) == multiset(b)
    ensures MerkleRoot(a, hash) == MerkleRoot(b, hash)
  {
    assert |multiset(a)| == |a| && |multiset(b)| == |b|;
    HashesOfBag(a, b, hash);
    TextLeOrders();
    SortSorts(Hashes(a, hash), TextLe);
    SortSorts(Hashes(b, hash), TextLe);
    SortedUnique(Sort(Hashes(a, hash), TextLe), Sort(Hashes(b, hash), TextLe), TextLe);
  }

  // ----- What was hashed --------------------------------------------------------------------------

  function PairInputs(layer: seq<Text>): set<Text> {
    if |layer| < 2 then {} else {layer[0] + layer[1]} + PairInputs(layer[2..])
  }

  function LayerInputs(layer: seq<Text>, hash: Hash): set<Text>
    decreases |layer|
  {
    if |layer| < 2 then {} else PairInputs(layer) + LayerInputs(NextLayer(layer, hash), hash)
  }

  function Members(records: seq<Text>): set<Text> { set t | t in records }

  /** Every text that computing the root of `records` passes to the hash function. */
  function Hashed(records: seq<Text>, hash: Hash): set<Text> {
    if records == [] then {EmptyBundle()}
    else Members(records) + LayerInputs(Sort(Hashes(records, hash), TextLe), hash)
  }

  /** Two different texts with one digest, one from each computation. */
  ghost predicate Collision(hash: Hash, xs: set<Text>, ys: set<Text>) {
    exists x, y :: x in xs && y in ys && x != y && hash(x) == hash(y)
  }

  // ----- The tree behind a root -------------------------------------------------------------------

  datatype Tree = Leaf(digest: Text) | Node(left: Tree, right: Tree)

  function Digest(t: Tree, hash: Hash): Text {
    match t
    case Leaf(d) => d
    case Node(l, r) => hash(Digest(l, hash) + Digest(r, hash))
  }

  function Digests(ts: seq<Tree>, hash: Hash): (r: seq<Text>)
    ensures |r| == |ts| && forall i :: 0 <= i < |r| ==> r[i] == Digest(ts[i], hash)
  {
    seq(|ts|, i requires 0 <= i < |ts| => Digest(ts[i], hash))
  }

  function Fringe(t: Tree): seq<Text> {
    match t
    case Leaf(d) => [d]
    case Node(l, r) => Fringe(l) + Fringe(r)
  }

  function FringeAll(ts: seq<Tree>): seq<Text> {
    if ts == [] then [] else Fringe(ts[0]) + FringeAll(ts[1..])
  }

  function Inner(t: Tree, hash: Hash): set<Text> {
    match t
    case Leaf(_) => {}
    case Node(l, r) => {Digest(l, hash) + Digest(r, hash)} + Inner(l, hash) + Inner(r, hash)
  }

  function InnerAll(ts: seq<Tree>, hash: Hash): set<Text> {
    if ts == [] then {} else Inner(ts[0], hash) + InnerAll(ts[1..], hash)
  }

  function NextTrees(ts: seq<Tree>): (r: seq<Tree>)
    ensures |r| == (|ts| + 1) / 2
  {
    if |ts| < 2 then ts else [Node(ts[0], ts[1])] + NextTrees(ts[2..])
  }

  function RootTree(ts: seq<Tree>): Tree
    requires ts != []
    decreases |ts|
  {
    if |ts| == 1 then ts[0] else RootTree(NextTrees(ts))
  }

  lemma {:induction false} NextTreesMatch(ts: seq<Tree>, hash: Hash)
    ensures Digests(NextTrees(ts), hash) == NextLayer(Digests(ts, hash), hash)
    ensures FringeAll(NextTrees(ts)) == FringeAll(ts)
    ensures InnerAll(NextTrees(ts), hash) <= InnerAll(ts, hash) + PairInputs(Digests(ts, hash))
  {
    if |ts| >= 2 {
      var rest := ts[2..];
      NextTreesMatch(rest, hash);
      assert Digests(ts, hash)[2..] == Digests(rest, hash);
      var next := NextTrees(ts);
      assert next[1..] == NextTrees(rest);
      assert ts[1..][1..] == rest;
      assert FringeAll(ts) == Fringe(ts[0]) + (Fringe(ts[1]) + FringeAll(rest));
      assert InnerAll(ts, hash) == Inner(ts[0], hash) + (Inner(ts[1], hash) + InnerAll(rest, hash));
      assert Digests(next, hash)[1..] == Digests(next[1..], hash);
    }
  }

  lemma {:induction false} RootTreeMatches(ts: seq<Tree>, hash: Hash)
    requires ts != []
    ensures Digest(RootTree(ts), hash) == RootOf(Digests(ts, hash), hash)
    ensures Fringe(RootTree(ts)) == FringeAll(ts)
    ensures Inner(RootTree(ts), hash) <= InnerAll(ts, hash) + LayerInputs(Digests(ts, hash), hash)
    decreases |ts|
  {
    if |ts| == 1 {
      assert ts[1..] == [];
    } else {
      NextTreesMatch(ts, hash);
      RootTreeMatches(NextTrees(ts), hash);
    }
  }

  function Leaves(digests: seq<Text>): (r: seq<Tree>)
    ensures |r| == |digests| && forall i :: 0 <= i < |r| ==> r[i] == Leaf(digests[i])
  {
    seq(|digests|, i requires 0 <= i < |digests| => Leaf(digests[i]))
  }

  lemma {:induction false} LeavesMatch(digests: seq<Text>, hash: Hash)
    ensures FringeAll(Leaves(digests)) == digests && InnerAll(Leaves(digests), hash) == {}
  {
    if digests != [] {
      assert Leaves(digests)[1..] == Leaves(digests[1..]);
      LeavesMatch(digests[1..], hash);
    }
  }

  /** The tree of a bundle: its root digest is the Merkle root, its leaves are the sorted digests of the
      records, and its inner preimages are among the texts that were hashed. */
  function BundleTree(records: seq<Text>, hash: Hash): Tree
    requires records != []
  {
    RootTree(Leaves(Sort(Hashes(records, hash), TextLe)))
  }

  lemma BundleTreeMatches(records: seq<Text>, hash: Hash)
    requires records != []
    ensures var t := BundleTree(records, hash);
            && Digest(t, hash) == MerkleRoot(records, hash)
            && Fringe(t) == Sort(Hashes(records, hash), TextLe)
            && Inner(t, hash) <= Hashed(records, hash)
            && LeavesHashed(t, Members(records), hash)
  {
    var digests := Sort(Hashes(records, hash), TextLe);
    LeavesMatch(digests, hash);
    RootTreeMatches(Leaves(digests), hash);
    assert Digests(Leaves(digests), hash) == digests;
    DigestsHashed(records, hash);
  }

  lemma DigestsHashed(records: seq<Text>, hash: Hash)
    ensures forall d :: d in Sort(Hashes(records, hash), TextLe) ==> exists x :: x in Members(records) && hash(x) == d
  {
    var digests := Sort(Hashes(records, hash), TextLe);
    SameMembers(digests, Hashes(records, hash));
    forall d | d in digests ensures exists x :: x in Members(records) && hash(x) == d {
      assert d in Hashes(records, hash);
      var i :| 0 <= i < |records| && Hashes(records, hash)[i] == d;
      assert records[i] in Members(records);
    }
  }

  /** Every leaf of the tree is the digest of one of the texts. */
  ghost predicate LeavesHashed(t: Tree, texts: set<Text>, hash: Hash) {
    forall d :: d in Fringe(t) ==> exists x :: x in texts && hash(x) == d
  }

  ghost predicate BracedTexts(texts: set<Text>) {
    forall x :: x in texts ==> x != [] && x[0] == LEFT_BRACE
  }

  /** The preimage of an inner node is two digests side by side: never a record's text. */
  lemma InnerIsNoRecord(l: Tree, r: Tree, hash: Hash, xs: set<Text>, ys: set<Text>)
    requires HexDigests(hash) && BracedTexts(xs) && BracedTexts(ys)
    requires LeavesHashed(l, xs, hash) && LeavesHashed(r, ys, hash)
    ensures |Digest(l, hash)| == |Digest(r, hash)| == 64
    ensures (Digest(l, hash) + Digest(r, hash))[0] != LEFT_BRACE
  {
    TreeDigestIsHex(l, hash, xs);
    TreeDigestIsHex(r, hash, ys);
    assert (Digest(l, hash) + Digest(r, hash))[0] == Digest(l, hash)[0];
  }

  lemma TreeDigestIsHex(t: Tree, hash: Hash, xs: set<Text>)
    requires HexDigests(hash) && LeavesHashed(t, xs, hash)
    ensures |Digest(t, hash)| == 64 && IsHex(Digest(t, hash))
  {
    if t.Leaf? {
      assert t.digest in Fringe(t);
    }
  }

  lemma SubtreeLeaves(t: Tree, xs: set<Text>, hash: Hash)
    requires t.Node? && LeavesHashed(t, xs, hash)
    ensures LeavesHashed(t.left, xs, hash) && LeavesHashed(t.right, xs, hash)
  {
    assert forall d :: d in Fringe(t.left) ==> d in Fringe(t);
    assert forall d :: d in Fringe(t.right) ==> d in Fringe(t);
  }

  /** Two trees with one root digest are the same tree, unless hashing them collided. */
  lemma {:induction false} TreesBind(t: Tree, u: Tree, xs: set<Text>, ys: set<Text>, xh: set<Text>, yh: set<Text>,
      hash: Hash)
    requires HexDigests(hash) && BracedTexts(xs) && BracedTexts(ys) && xs <= xh && ys <= yh
    requires LeavesHashed(t, xs, hash) && LeavesHashed(u, ys, hash)
    requires Inner(t, hash) <= xh && Inner(u, hash) <= yh
    requires Digest(t, hash) == Digest(u, hash)
    ensures t == u || Collision(hash, xh, yh)
  {
    match (t, u) {
      case (Leaf(_), Leaf(_)) =>
      case (Node(l, r), Node(m, n)) =>
        SubtreeLeaves(t, xs, hash);
        SubtreeLeaves(u, ys, hash);
        InnerIsNoRecord(l, r, hash, xs, xs);
        InnerIsNoRecord(m, n, hash, ys, ys);
        var p, q := Digest(l, hash) + Digest(r, hash), Digest(m, hash) + Digest(n, hash);
        assert p in xh && q in yh;
        if p == q {
          assert Digest(l, hash) == p[..64] && Digest(r, hash) == p[64..];
          assert Digest(m, hash) == q[..64] && Digest(n, hash) == q[64..];
          TreesBind(l, m, xs, ys, xh, yh, hash);
          TreesBind(r, n, xs, ys, xh, yh, hash);
        }
      case (Leaf(d), Node(m, n)) =>
        assert d in Fringe(t);
        SubtreeLeaves(u, ys, hash);
        InnerIsNoRecord(m, n, hash, ys, ys);
        var x :| x in xs && hash(x) == d;
        assert Digest(m, hash) + Digest(n, hash) in yh;
      case (Node(l, r), Leaf(d)) =>
        assert d in Fringe(u);
        SubtreeLeaves(t, xs, hash);
        InnerIsNoRecord(l, r, hash, xs, xs);
        var y :| y in ys && hash(y) == d;
        assert Digest(l, hash) + Digest(r, hash) in xh;
    }
  }

  lemma HeadCount<T>(s: seq<T>, x: T)
    requires s != []
    ensures multiset(s)[x] == multiset(s[1..])[x] + if s[0] == x then 1 else 0
  {
    assert s == [s[0]] + s[1..];
  }

  /** A member occurs as often as its image, if no other member has that image. */
  lemma {:induction false} CountImage<T, U>(a: seq<T>, f: T -> U, x: T)
    requires forall i :: 0 <= i < |a| && f(a[i]) == f(x) ==> a[i] == x
    ensures multiset(Map(a, f))[f(x)] == multiset(a)[x]
  {
    if a != [] {
      CountImage(a[1..], f, x);
      HeadCount(a, x);
      HeadCount(Map(a, f), f(x));
    }
  }

  lemma ImageIsShared<T, U>(a: seq<T>, b: seq<T>, f: T -> U, i: nat)
    requires multiset(Map(a, f)) == multiset(Map(b, f)) && i < |a|
    ensures exists j :: 0 <= j < |b| && f(b[j]) == f(a[i])
  {
    assert Map(a, f)[i] in multiset(Map(a, f));
    assert Map(a, f)[i] in Map(b, f);
    var j :| 0 <= j < |Map(b, f)| && Map(b, f)[j] == f(a[i]);
  }

  /** No member of a sequence has an image that a different member of either has. */
  ghost predicate ImagesTell<T, U>(a: seq<T>, b: seq<T>, f: T -> U) {
    forall i, j :: 0 <= i < |a| && 0 <= j < |b| && f(a[i]) == f(b[j]) ==> a[i] == b[j]
  }

  lemma SameCount<T, U>(a: seq<T>, b: seq<T>, f: T -> U, i: nat)
    requires multiset(Map(a, f)) == multiset(Map(b, f)) && ImagesTell(a, b, f) && i < |a|
    ensures multiset(a)[a[i]] == multiset(b)[a[i]]
  {
    ImageIsShared(a, b, f, i);
    var j :| 0 <= j < |b| && f(b[j]) == f(a[i]);
    CountImage(a, f, a[i]);
    CountImage(b, f, a[i]);
  }

  /** Equal bags of images come from equal bags, if the images tell the members apart. */
  lemma BagsBind<T(!new), U>(a: seq<T>, b: seq<T>, f: T -> U)
    requires multiset(Map(a, f)) == multiset(Map(b, f)) && ImagesTell(a, b, f)
    ensures multiset(a) == multiset(b)
  {
    forall x ensures multiset(a)[x] == multiset(b)[x] {
      if x in a {
        var i :| 0 <= i < |a| && a[i] == x;
        SameCount(a, b, f, i);
      } else if x in b {
        var j :| 0 <= j < |b| && b[j] == x;
        SameCount(b, a, f, j);
      }
    }
  }

  lemma EmptyIsNoTree(records: seq<Text>, hash: Hash)
    requires HexDigests(hash) && records != [] && ObjectTexts(records)
        && MerkleRoot(records, hash) == hash(EmptyBundle())
    ensures exists y :: y in Hashed(records, hash) && y != EmptyBundle() && hash(y) == hash(EmptyBundle())
  {
    BundleTreeMatches(records, hash);
    var t := BundleTree(records, hash);
    var texts := Members(records);
    assert |EmptyBundle()| == 12 && EmptyBundle()[0] == 101;
    match t {
      case Leaf(d) =>
        assert d in Fringe(t);
        var x :| x in texts && hash(x) == d;
        assert x in Hashed(records, hash) && x != EmptyBundle();
      case Node(l, r) =>
        SubtreeLeaves(t, texts, hash);
        InnerIsNoRecord(l, r, hash, texts, texts);
        var p := Digest(l, hash) + Digest(r, hash);
        assert |p| == 128 && p in Hashed(records, hash);
    }
  }

  /** Merkle binding: bundles of any lengths have one root exactly when they hold the same bag of
      records, unless the two computations hashed two different texts to one digest. */
  lemma RootBindsRecords(a: seq<Text>, b: seq<Text>, hash: Hash)
    requires HexDigests(hash) && ObjectTexts(a) && ObjectTexts(b)
    ensures (MerkleRoot(a, hash) == MerkleRoot(b, hash) <==> multiset(a) == multiset(b))
            || Collision(hash, Hashed(a, hash), Hashed(b, hash))
  {
    if multiset(a) == multiset(b) {
      RootIgnoresOrder(a, b, hash);
    } else if MerkleRoot(a, hash) == MerkleRoot(b, hash) && !Collision(hash, Hashed(a, hash), Hashed(b, hash)) {
      if a == [] {
        EmptyIsNoTree(b, hash);
      } else if b == [] {
        EmptyIsNoTree(a, hash);
      } else {
        SameTrees(a, b, hash);
      }
    }
  }

  lemma SameTrees(a: seq<Text>, b: seq<Text>, hash: Hash)
    requires HexDigests(hash) && ObjectTexts(a) && ObjectTexts(b) && a != [] && b != []
    requires MerkleRoot(a, hash) == MerkleRoot(b, hash)
    ensures multiset(a) == multiset(b) || Collision(hash, Hashed(a, hash), Hashed(b, hash))
  {
    BundleTreeMatches(a, hash);
    BundleTreeMatches(b, hash);
    TreesBind(BundleTree(a, hash), BundleTree(b, hash), Members(a), Members(b),
              Hashed(a, hash), Hashed(b, hash), hash);
    if !Collision(hash, Hashed(a, hash), Hashed(b, hash)) {
      assert multiset(Hashes(a, hash)) == multiset(Sort(Hashes(a, hash), TextLe));
      SameHashes(a, b, hash);
    }
  }

  lemma SameHashes(a: seq<Text>, b: seq<Text>, hash: Hash)
    requires multiset(Hashes(a, hash)) == multiset(Hashes(b, hash)) && a != [] && b != []
    ensures multiset(a) == multiset(b) || Collision(hash, Hashed(a, hash), Hashed(b, hash))
  {
    HashesAreMap(a, hash);
    HashesAreMap(b, hash);
    if !Collision(hash, Hashed(a, hash), Hashed(b, hash)) {
      forall i, j | 0 <= i < |a| && 0 <= j < |b| && hash(a[i]) == hash(b[j]) ensures a[i] == b[j] {
        assert a[i] in Hashed(a, hash) && b[j] in Hashed(b, hash);
      }
      BagsBind(a, b, hash);
    }
  }

  lemma HashesAreMap(records: seq<Text>, hash: Hash)
    ensures Hashes(records, hash) == Map(records, hash)
  {
  }
}
