/** Exporting and checking attestation bundles: what a bundle that passes the check tells about its records. */
module AttestationBundles {
  import opened Wrappers
  import opened Sorting
  import opened Texts
  import opened Lists
  import opened CanonicalJson
  import opened SignedDocuments
  import opened MerkleBundle

  datatype Counts = Counts(incidents: nat, finalAttestations: nat, knowledgeRecords: nat, auditEvents: nat)

  datatype Manifest = Manifest(
    version: int, generatedAt: Text, counts: Counts, merkleRoot: Text, signature: Option<SignatureRecord>)

  /** A record is an object, given by its entries in their order. */
  type Record = seq<Entry>

  datatype Records = Records(
    incidents: seq<Record>, finalAttestations: seq<Record>, knowledge: seq<Record>, auditEvents: seq<Record>)

  datatype Bundle = Bundle(manifest: Manifest, lists: Records)

  // ---- the text of a record, and what is signed in it ----

  /** The collation that puts nothing before anything else. */
  function InsertionOrder(): Collation {
    (a: Text, b: Text) => true
  }

  /** `JSON.stringify`: the canonical printer without its sorting. */
  function Stringified(r: Record): Text {
    Canonical(Obj(r), InsertionOrder())
  }

  lemma {:induction false} NothingMoves<T>(s: seq<T>, le: (T, T) -> bool)
    requires forall x, y :: le(x, y)
    ensures Sort(s, le) == s
  {
    if s != [] {
      NothingMoves(s[1..], le);
    }
  }

  /** The entries are printed in their own order. */
  lemma StringifiedInOrder(r: Record)
    ensures Stringified(r) == [LEFT_BRACE] + Joined(MemberTexts(CanonicalJson.Members(r, InsertionOrder())))
        + [RIGHT_BRACE]
  {
    NothingMoves(CanonicalJson.Members(r, InsertionOrder()), MemberLe(InsertionOrder()));
  }

  predicate IsText(v: Option<Json>) {
    v.Some? && v.value.Str?
  }

  /** The entry `signature` of a record, if it is one. */
  function SignatureIn(r: Record): Option<SignatureRecord> {
    match Find(r, Lit("signature"))
    case Some(Obj(es)) =>
      var algorithm, keyId, signedAt := Find(es, Lit("algorithm")), Find(es, Lit("keyId")), Find(es, Lit("signedAt"));
      var publicKey, value := Find(es, Lit("publicKey")), Find(es, Lit("value"));
      if IsText(algorithm) && IsText(keyId) && IsText(signedAt) && IsText(publicKey) && IsText(value) then
        Some(SignatureRecord(algorithm.value.s, keyId.value.s, signedAt.value.s, publicKey.value.s, value.value.s))
      else None
    case _ => None
  }

  function IsContent(): Entry -> bool {
    (e: Entry) => e.key != Lit("signature")
  }

  /** The document that a final attestation is. */
  function DocumentOf(r: Record): Document {
    Document(Filter(r, IsContent()), SignatureIn(r))
  }

  /** A signed document as a record: its signature is the last entry. */
  function RecordOf(content: seq<Entry>, s: SignatureRecord): Record {
    content + [Entry(Lit("signature"), Some(Obj(SignatureEntries(s))))]
  }

  function SignatureEntries(s: SignatureRecord): seq<Entry> {
    [TextEntry(Lit("algorithm"), s.algorithm), TextEntry(Lit("keyId"), s.keyId), TextEntry(Lit("signedAt"), s.signedAt),
     TextEntry(Lit("publicKey"), s.publicKey), TextEntry(Lit("value"), s.value)]
  }

  lemma SignatureKeysDiffer(s: SignatureRecord)
    ensures UniqueKeys(SignatureEntries(s))
  {
    assert |Lit("algorithm")| == |Lit("publicKey")| == 9 && |Lit("keyId")| == |Lit("value")| == 5
        && |Lit("signedAt")| == 8;
    assert Lit("algorithm")[0] == 97 && Lit("publicKey")[0] == 112 && Lit("keyId")[0] == 107 && Lit("value")[0] == 118;
  }

  lemma SignatureIsFound(s: SignatureRecord)
    ensures var es := SignatureEntries(s);
            && Find(es, Lit("algorithm")) == Some(Str(s.algorithm)) && Find(es, Lit("keyId")) == Some(Str(s.keyId))
            && Find(es, Lit("signedAt")) == Some(Str(s.signedAt))
            && Find(es, Lit("publicKey")) == Some(Str(s.publicKey))
            && Find(es, Lit("value")) == Some(Str(s.value))
  {
    var es := SignatureEntries(s);
    SignatureKeysDiffer(s);
    forall i: nat | i < 5 ensures Find(es, es[i].key) == es[i].value {
      FindDefined(es, i);
    }
    assert es[0].key == Lit("algorithm") && es[1].key == Lit("keyId") && es[2].key == Lit("signedAt")
        && es[3].key == Lit("publicKey") && es[4].key == Lit("value");
  }

  lemma {:induction false} LastIsFound(content: seq<Entry>, e: Entry)
    requires e.value.Some? && forall i :: 0 <= i < |content| ==> content[i].key != e.key
    ensures Find(content + [e], e.key) == e.value
  {
    if content != [] {
      LastIsFound(content[1..], e);
      assert (content + [e])[1..] == content[1..] + [e];
    }
  }

  /** A signed document is read back from its record. */
  lemma DocumentsAreRead(content: seq<Entry>, s: SignatureRecord)
    requires forall i :: 0 <= i < |content| ==> content[i].key != Lit("signature")
    ensures DocumentOf(RecordOf(content, s)) == Document(content, Some(s))
  {
    var e := Entry(Lit("signature"), Some(Obj(SignatureEntries(s))));
    LastIsFound(content, e);
    SignatureIsFound(s);
    FilterAppend(content, e, IsContent());
    FilterAll(content, IsContent());
    assert content + [] == content;
  }

  /** The environment of a check or an export. */
  datatype Setting = Setting(hash: Hash, scheme: Scheme, le: Collation, trusted: TrustedKeys, testProcess: bool,
    form: Form)

  /** The entries of the receipt that stands for a bundle, other than the two below. */
  type Form = (Text, Text) -> seq<Entry>

  function AllRecords(l: Records): seq<Record> {
    l.incidents + l.finalAttestations + l.knowledge + l.auditEvents
  }

  function TextsOf(records: seq<Record>): seq<Text> {
    Map(records, (r: Record) => Stringified(r))
  }

  function CountsOf(l: Records): Counts {
    Counts(|l.incidents|, |l.finalAttestations|, |l.knowledge|, |l.auditEvents|)
  }

  /** `bundleAsReceiptPayload` */
  function Payload(root: Text, generatedAt: Text, form: Form): seq<Entry> {
    [TextEntry(Lit("generatedAt"), generatedAt),
     Entry(Lit("changes"), Some(Obj([TextEntry(Lit("patchSha256"), root)])))] + form(root, generatedAt)
  }

  function RootOf(l: Records, s: Setting): Text {
    MerkleRoot(TextsOf(AllRecords(l)), s.hash)
  }

  /** `exportAttestationBundle`; without a signer the bundle is not signed. */
  function Export(l: Records, generatedAt: Text, signer: Option<Signer>, signedAt: Text, s: Setting): Bundle {
    var root := RootOf(l, s);
    var signature := match signer
      case None => None
      case Some(k) => SignDocument(Receipt, Payload(root, generatedAt, s.form), k, signedAt, s.scheme, s.le).signature;
    Bundle(Manifest(1, generatedAt, CountsOf(l), root, signature), l)
  }

  predicate AttestationVerifies(a: Record, s: Setting) {
    var d := DocumentOf(a);
    d.signature.Some? && VerifyAttestation(d, s.trusted, s.testProcess, s.scheme, s.le).Ok?
  }

  /** The bundle passes the check. */
  ghost predicate Accepted(b: Bundle, s: Setting) {
    && b.manifest.version == 1
    && RootOf(b.lists, s) == b.manifest.merkleRoot
    && SignatureHolds(b.manifest, s)
    && AllVerify(b.lists.finalAttestations, s)
  }

  function SignedReceipt(m: Manifest, s: Setting): Document {
    Document(Payload(m.merkleRoot, m.generatedAt, s.form), m.signature)
  }

  function Verifier(s: Setting): Record -> bool {
    (a: Record) => AttestationVerifies(a, s)
  }

  ghost predicate AllPass(attestations: seq<Record>, verifies: Record -> bool) {
    forall i :: 0 <= i < |attestations| ==> verifies(attestations[i])
  }

  ghost predicate AllVerify(attestations: seq<Record>, s: Setting) {
    AllPass(attestations, Verifier(s))
  }

  method CheckAttestations(attestations: seq<Record>, verifies: Record -> bool) returns (ok: bool)
    ensures ok <==> AllPass(attestations, verifies)
  {
    for i := 0 to |attestations|
      invariant forall j :: 0 <= j < i ==> verifies(attestations[j])
    {
      if !verifies(attestations[i]) { return false; }
    }
    ok := true;
  }

  predicate SignatureHolds(m: Manifest, s: Setting) {
    m.signature.Some? ==> VerifyReceipt(SignedReceipt(m, s), s.trusted, s.testProcess, s.scheme, s.le).Ok?
  }

  method VerifyAttestationBundle(b: Bundle, s: Setting) returns (r: Result<Counts>)
    ensures if Accepted(b, s) then r == Ok(b.manifest.counts) else r.Err?
  {
    if b.manifest.version != 1 { return Err("Invalid bundle structure or unsupported manifest version."); }
    var root := ComputeMerkleRoot(TextsOf(AllRecords(b.lists)), s.hash);
    if root != b.manifest.merkleRoot { return Err("Merkle root mismatch."); }
    if !SignatureHolds(b.manifest, s) { return Err("Signature verification failed."); }
    var verified := CheckAttestations(b.lists.finalAttestations, Verifier(s));
    if !verified { return Err("Final attestation verification failed."); }
    r := Ok(b.manifest.counts);
  }

  // ---- round trip ----

  /** What is exported passes the check, signed under a trusted key or not, if its final attestations do. */
  lemma ExportedBundlesAreAccepted(l: Records, generatedAt: Text, signer: Option<Signer>, signedAt: Text, s: Setting)
    requires Correct(s.scheme)
    requires signer.Some? ==>
               signer.value.keyId in s.trusted
               && s.trusted[signer.value.keyId] == s.scheme.publicOf(signer.value.privateKey) != []
    requires AllVerify(l.finalAttestations, s)
    ensures Accepted(Export(l, generatedAt, signer, signedAt, s), s)
  {
    if signer.Some? {
      var payload := Payload(RootOf(l, s), generatedAt, s.form);
      SignedDocumentsVerify(payload, payload, signer.value, signedAt, s.trusted, s.testProcess, s.scheme, s.le);
    }
  }

  /** An export holds the records it was given, and counts each list. */
  lemma ExportsHoldTheirRecords(l: Records, generatedAt: Text, signer: Option<Signer>, signedAt: Text, s: Setting)
    ensures var b := Export(l, generatedAt, signer, signedAt, s);
            && b.lists == l && b.manifest.version == 1 && b.manifest.generatedAt == generatedAt
            && b.manifest.counts.incidents == |l.incidents|
            && b.manifest.counts.finalAttestations == |l.finalAttestations|
            && b.manifest.counts.knowledgeRecords == |l.knowledge| && b.manifest.counts.auditEvents == |l.auditEvents|
            && (b.manifest.signature.Some? <==> signer.Some?)
    ensures |AllRecords(l)| == |l.incidents| + |l.finalAttestations| + |l.knowledge| + |l.auditEvents|
    ensures forall r :: r in AllRecords(l) <==>
              r in l.incidents || r in l.finalAttestations || r in l.knowledge || r in l.auditEvents
  {
  }

  // ---- binding ----

  lemma PayloadKeysDiffer()
    ensures Lit("generatedAt") != Lit("changes")
  {
    assert |Lit("generatedAt")| == 11 && |Lit("changes")| == 7;
  }

  /** The payload tells the root and the time, whatever its other entries are. */
  lemma PayloadDetermines(root: Text, at: Text, root': Text, at': Text, form: Form)
    requires SameValue(Obj(Payload(root, at, form)), Obj(Payload(root', at', form)))
    ensures root == root' && at == at'
  {
    PayloadKeysDiffer();
    var es, fs := Payload(root, at, form), Payload(root', at', form);
    assert es[0] == TextEntry(Lit("generatedAt"), at) && fs[0] == TextEntry(Lit("generatedAt"), at');
    assert es[1].key == Lit("changes") && fs[1] == fs[1..][0];
    assert Find(fs, es[0].key) == fs[0].value;
    assert Find(fs, es[1].key) == fs[1].value;
    InnerDetermines(es[1].value.value.entries, fs[1].value.value.entries);
  }

  lemma InnerDetermines(es: seq<Entry>, fs: seq<Entry>)
    requires |es| == |fs| == 1 && es[0].key == fs[0].key && es[0].value.Some? && fs[0].value.Some?
    requires es[0].value.value.Str? && fs[0].value.value.Str? && SameValue(Obj(es), Obj(fs))
    ensures es == fs
  {
    assert Find(fs, es[0].key) == fs[0].value;
  }

  /** An export that the holder of the key made. */
  datatype Exported = Exported(lists: Records, generatedAt: Text)

  /** Of the documents that the key signed, those that look like a bundle's receipt come from the exports. */
  ghost predicate SignsOnlyExports(signings: set<Signing>, exports: set<Exported>, s: Setting) {
    forall g, root, at :: g in signings && SameValue(Obj(Payload(root, at, s.form)), g.content) ==>
      exists e :: e in exports && root == RootOf(e.lists, s) && at == e.generatedAt
  }

  /** Two different texts, hashed for one bundle and for the other, have one digest. */
  ghost predicate Collide(l: Records, m: Records, hash: Hash) {
    Collision(hash, Hashed(TextsOf(AllRecords(l)), hash), Hashed(TextsOf(AllRecords(m)), hash))
  }

  ghost predicate WellFormedRecords(l: Records) {
    forall r :: r in AllRecords(l) ==> WellFormed(Obj(r))
  }

  lemma TextsOpenWithBrace(records: seq<Record>)
    ensures ObjectTexts(TextsOf(records))
  {
    forall i | 0 <= i < |records| ensures TextsOf(records)[i] != [] && TextsOf(records)[i][0] == LEFT_BRACE {
      StringifiedInOrder(records[i]);
    }
  }

  /** What is hashed is the record: bundles of one root hold the same texts, and each record of the one is, as a value,
      a record of the other, unless two texts collide. */
  lemma OneRootOneContent(l: Records, m: Records, s: Setting)
    requires HexDigests(s.hash) && RootOf(l, s) == RootOf(m, s) && !Collide(l, m, s.hash)
    ensures multiset(TextsOf(AllRecords(l))) == multiset(TextsOf(AllRecords(m)))
    ensures WellFormedRecords(l) && WellFormedRecords(m) ==>
              forall r :: r in AllRecords(l) ==> Holds(m, r)
  {
    TextsOpenWithBrace(AllRecords(l));
    TextsOpenWithBrace(AllRecords(m));
    RootBindsRecords(TextsOf(AllRecords(l)), TextsOf(AllRecords(m)), s.hash);
    if WellFormedRecords(l) && WellFormedRecords(m) {
      forall r | r in AllRecords(l) ensures Holds(m, r) {
        SameTextHolds(l, m, r);
      }
    }
  }

  /** The record is in the bundle, with equal value. */
  ghost predicate Holds(l: Records, r: Record) {
    exists q :: q in AllRecords(l) && SameValue(Obj(r), Obj(q))
  }

  lemma SameTextHolds(l: Records, m: Records, r: Record)
    requires multiset(TextsOf(AllRecords(l))) == multiset(TextsOf(AllRecords(m)))
    requires WellFormedRecords(l) && WellFormedRecords(m) && r in AllRecords(l)
    ensures Holds(m, r)
  {
    var i :| 0 <= i < |AllRecords(l)| && AllRecords(l)[i] == r;
    SameMembers(TextsOf(AllRecords(l)), TextsOf(AllRecords(m)));
    assert TextsOf(AllRecords(l))[i] == Stringified(r);
    assert Stringified(r) in TextsOf(AllRecords(m));
    var j :| 0 <= j < |AllRecords(m)| && TextsOf(AllRecords(m))[j] == Stringified(r);
    assert AllRecords(m)[j] in AllRecords(m);
    PrinterIsFaithful(Obj(r), Obj(AllRecords(m)[j]), InsertionOrder());
  }

  /** A signed bundle that passes the check holds the very records of an export that was signed at the time it
      names, in some order, unless two different texts that were hashed have one digest. */
  lemma AcceptedBundlesWereExported(b: Bundle, signings: set<Signing>, exports: set<Exported>, s: Setting)
    requires Accepted(b, s) && b.manifest.signature.Some? && b.manifest.signature.value.keyId in s.trusted
    requires Unforgeable(s.scheme, s.trusted[b.manifest.signature.value.keyId], signings, s.le)
    requires WellFormed(Obj(SignedReceipt(b.manifest, s).content))
    requires forall g :: g in signings ==> WellFormed(g.content)
    requires SignsOnlyExports(signings, exports, s) && HexDigests(s.hash)
    requires WellFormedRecords(b.lists) && forall e :: e in exports ==> WellFormedRecords(e.lists)
    ensures exists e :: e in exports && e.generatedAt == b.manifest.generatedAt
                        && (Collide(b.lists, e.lists, s.hash) || SameRecords(b.lists, e.lists))
  {
    var m := b.manifest;
    VerifiedDocumentsWereSigned(SignedReceipt(m, s), s.trusted, s.testProcess, signings, s.scheme, s.le);
    var g :| g in signings && SameValue(Obj(Payload(m.merkleRoot, m.generatedAt, s.form)), g.content);
    var e :| e in exports && m.merkleRoot == RootOf(e.lists, s) && m.generatedAt == e.generatedAt;
    if !Collide(b.lists, e.lists, s.hash) {
      OneRootOneContent(b.lists, e.lists, s);
    }
  }

  /** The same texts, and each record of the one a record of the other. */
  ghost predicate SameRecords(l: Records, m: Records) {
    && multiset(TextsOf(AllRecords(l))) == multiset(TextsOf(AllRecords(m)))
    && forall r :: r in AllRecords(l) ==> Holds(m, r)
  }

  /** Each final attestation of a bundle that passes was made by the holder of the key it names: the same record whose
      text went into the root. */
  lemma AcceptedAttestationsWereSigned(b: Bundle, a: Record, signings: set<Signing>, s: Setting)
    requires Accepted(b, s) && a in b.lists.finalAttestations && WellFormed(Obj(a))
    requires SignatureIn(a).Some? ==> SignatureIn(a).value.keyId in s.trusted
    requires SignatureIn(a).Some? ==> Unforgeable(s.scheme, s.trusted[SignatureIn(a).value.keyId], signings, s.le)
    requires forall g :: g in signings ==> WellFormed(g.content)
    ensures SignatureIn(a).Some? && WasSigned(Attestation, Obj(DocumentOf(a).content), SignatureIn(a).value, signings)
    ensures Stringified(a) in TextsOf(AllRecords(b.lists))
  {
    var i :| 0 <= i < |b.lists.finalAttestations| && b.lists.finalAttestations[i] == a;
    assert Verifier(s)(a);
    ContentIsWellFormed(a);
    VerifiedDocumentsWereSigned(DocumentOf(a), s.trusted, s.testProcess, signings, s.scheme, s.le);
    assert a in AllRecords(b.lists);
    var k :| 0 <= k < |AllRecords(b.lists)| && AllRecords(b.lists)[k] == a;
    assert TextsOf(AllRecords(b.lists))[k] == Stringified(a);
  }

  lemma ContentIsWellFormed(a: Record)
    requires WellFormed(Obj(a))
    ensures WellFormed(Obj(DocumentOf(a).content))
  {
    InFilter(a, IsContent());
    KeysStayUnique(a, IsContent());
    var es := DocumentOf(a).content;
    forall i | 0 <= i < |es| && es[i].value.Some? ensures WellFormed(es[i].value.value) {
      assert es[i] in a;
    }
  }

  lemma KeysStayUnique(es: seq<Entry>, keep: Entry -> bool)
    requires UniqueKeys(es)
    ensures UniqueKeys(Filter(es, keep))
  {
    var key := (e: Entry) => e.key;
    assert UniqueBy(es, key);
    FilterUnique(es, key, keep);
    var kept := Filter(es, keep);
    assert forall i, j :: 0 <= i < j < |kept| ==> key(kept[i]) != key(kept[j]);
  }

  /** Outside a test process the signature of an accepted bundle, if it has one, and each of its attestations name a key
      that is trusted. */
  lemma AcceptedKeysAreTrusted(b: Bundle, s: Setting)
    requires Accepted(b, s) && !s.testProcess
    ensures b.manifest.signature.Some? ==>
              b.manifest.signature.value.keyId in s.trusted && s.trusted[b.manifest.signature.value.keyId] != []
    ensures forall a :: a in b.lists.finalAttestations ==>
              SignatureIn(a).Some? && SignatureIn(a).value.keyId in s.trusted
              && s.trusted[SignatureIn(a).value.keyId] != []
  {
    ReceiptIsAcceptedIff(SignedReceipt(b.manifest, s), s.trusted, s.testProcess, s.scheme, s.le);
    forall a | a in b.lists.finalAttestations
      ensures SignatureIn(a).Some? && SignatureIn(a).value.keyId in s.trusted
              && s.trusted[SignatureIn(a).value.keyId] != [] {
      assert Verifier(s)(a);
      AttestationIsAcceptedIff(DocumentOf(a), s.trusted, s.testProcess, s.scheme, s.le);
    }
  }

  // ---- what the check leaves open ----

  /** The check does not look at which list a record is in, nor at the counts of the manifest, which it
      returns: a bundle of the same records is accepted whatever its counts say. */
  lemma CountsAndListsAreNotCovered(b: Bundle, counts: Counts, l: Records, s: Setting)
    requires Accepted(b, s) && multiset(TextsOf(AllRecords(l))) == multiset(TextsOf(AllRecords(b.lists)))
    requires AllVerify(l.finalAttestations, s)
    ensures Accepted(Bundle(b.manifest.(counts := counts), l), s)
  {
    RootIgnoresOrder(TextsOf(AllRecords(l)), TextsOf(AllRecords(b.lists)), s.hash);
    var m := b.manifest.(counts := counts);
    assert SignedReceipt(m, s) == SignedReceipt(b.manifest, s);
  }

  /** The receipt that stands for a bundle has its time, and its root as the digest of its patch. */
  lemma PayloadHolds(root: Text, at: Text, form: Form)
    ensures var es := Payload(root, at, form);
            && Find(es, Lit("generatedAt")) == Some(Str(at))
            && Find(es, Lit("changes")) == Some(Obj([Entry(Lit("patchSha256"), Some(Str(root)))]))
  {
    PayloadKeysDiffer();
    var es := Payload(root, at, form);
    assert es[1..][0] == es[1];
  }
}
