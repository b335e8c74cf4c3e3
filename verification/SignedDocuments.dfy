/** Signing and checking repair receipts and final attestations (src/repair/signature.ts,
    src/control-plane/attestation.ts). Ed25519 is a parameter: any scheme, with correctness and
    unforgeability as hypotheses of the lemmas that need them. */
module SignedDocuments {
  import opened Wrappers
  import opened Sorting
  import opened Texts
  import opened JsonText
  import opened CanonicalJson

  datatype Scheme = Scheme(
    publicOf: Text -> Text,                 // the public half of a private key
    sign: (Text, Text) -> Text,             // private key, message
    verify: (Text, Text, Text) -> bool)     // public key, message, signature value

  datatype Signer = Signer(keyId: Text, privateKey: Text, publicKey: Option<Text>)

  datatype SignatureRecord = SignatureRecord(algorithm: Text, keyId: Text, signedAt: Text, publicKey: Text, value: Text)

  /** A receipt or an attestation: its entries other than `signature`, and that entry. */
  datatype Document = Document(content: seq<Entry>, signature: Option<SignatureRecord>)

  datatype DocumentKind = Receipt | Attestation | Specification

  type TrustedKeys = map<Text, Text>

  function Label(kind: DocumentKind): Text {
    match kind
    case Receipt => Lit("receipt")
    case Attestation => Lit("attestation")
    case Specification => Lit("payload")
  }

  function TextEntry(key: Text, s: Text): Entry { Entry(key, Some(Str(s))) }

  /** The bytes that are signed: the printed document beside the signature's own metadata. */
  function SignedMessage(kind: DocumentKind, payload: Text, s: SignatureRecord, le: Collation): Text {
    Canonical(Obj(MessageEntries(kind, payload, s)), le)
  }

  function MessageEntries(kind: DocumentKind, payload: Text, s: SignatureRecord): seq<Entry> {
    [TextEntry(Label(kind), payload), TextEntry(Lit("algorithm"), s.algorithm), TextEntry(Lit("keyId"), s.keyId),
     TextEntry(Lit("signedAt"), s.signedAt), TextEntry(Lit("publicKey"), s.publicKey)]
  }

  function Ed25519(): Text { Lit("Ed25519") }

  function Sign(kind: DocumentKind, payload: Text, signer: Signer, signedAt: Text, scheme: Scheme, le: Collation)
    : SignatureRecord
  {
    var publicKey := match signer.publicKey case Some(k) => k case None => scheme.publicOf(signer.privateKey);
    var metadata := SignatureRecord(Ed25519(), signer.keyId, signedAt, publicKey, []);
    metadata.(value := scheme.sign(signer.privateKey, SignedMessage(kind, payload, metadata, le)))
  }

  function SignDocument(kind: DocumentKind, content: seq<Entry>, signer: Signer, signedAt: Text,
                        scheme: Scheme, le: Collation): Document
  {
    Document(content, Some(Sign(kind, Canonical(Obj(content), le), signer, signedAt, scheme, le)))
  }

  /** The key a check uses: the trusted one, or, in a test process that trusts no key at all, the one
      embedded in the document. */
  function CheckingKey(s: SignatureRecord, trusted: TrustedKeys, testProcess: bool): Option<Text> {
    if s.keyId in trusted then (if trusted[s.keyId] == [] then None else Some(trusted[s.keyId]))
    else if testProcess && trusted == map[] && s.publicKey != [] then Some(s.publicKey)
    else None
  }

  function VerifyReceipt(d: Document, trusted: TrustedKeys, testProcess: bool, scheme: Scheme,
      le: Collation): Result<()> {
    match d.signature
    case None => Err("The repair receipt is unsigned.")
    case Some(s) =>
      if s.algorithm != Ed25519() then Err("Unsupported receipt signature algorithm.")
      else match CheckingKey(s, trusted, testProcess)
        case None => Err("Receipt signing key is not trusted.")
        case Some(key) =>
          if scheme.verify(key, SignedMessage(Receipt, Canonical(Obj(d.content), le), s, le), s.value) then Ok(())
          else Err("The repair receipt signature is invalid.")
  }

  function VerifyAttestation(d: Document, trusted: TrustedKeys, testProcess: bool, scheme: Scheme,
      le: Collation): Result<()>
    requires d.signature.Some?
  {
    var s := d.signature.value;
    match CheckingKey(s, trusted, testProcess)
    case None => Err("Attestation signing key is not trusted.")
    case Some(key) =>
      if s.algorithm == Ed25519()
         && scheme.verify(key, SignedMessage(Attestation, Canonical(Obj(d.content), le), s, le), s.value) then Ok(())
      else Err("The final attestation signature is invalid.")
  }

  // ----- Which keys are trusted ------------------------------------------------------------------

  /** The signature is valid under a key that is trusted under its name; or, in a test process that trusts no
      key at all, under the key that the document itself carries. */
  predicate ValidUnderTrustedKey(kind: DocumentKind, d: Document, trusted: TrustedKeys, testProcess: bool,
      scheme: Scheme, le: Collation)
    requires d.signature.Some?
  {
    var s := d.signature.value;
    var message := SignedMessage(kind, Canonical(Obj(d.content), le), s, le);
    && s.algorithm == Lit("Ed25519")
    && ((s.keyId in trusted && trusted[s.keyId] != [] && scheme.verify(trusted[s.keyId], message, s.value))
        || (testProcess && trusted == map[] && s.publicKey != [] && scheme.verify(s.publicKey, message, s.value)))
  }

  /** A receipt is accepted exactly if it is signed and its signature is valid under a trusted key. */
  lemma ReceiptIsAcceptedIff(d: Document, trusted: TrustedKeys, testProcess: bool, scheme: Scheme, le: Collation)
    ensures VerifyReceipt(d, trusted, testProcess, scheme, le).Ok? <==>
            d.signature.Some? && ValidUnderTrustedKey(Receipt, d, trusted, testProcess, scheme, le)
  {
    assert forall key :: key in trusted ==> trusted != map[];
  }

  lemma AttestationIsAcceptedIff(d: Document, trusted: TrustedKeys, testProcess: bool, scheme: Scheme, le: Collation)
    requires d.signature.Some?
    ensures VerifyAttestation(d, trusted, testProcess, scheme, le).Ok? <==>
            ValidUnderTrustedKey(Attestation, d, trusted, testProcess, scheme, le)
  {
    assert forall key :: key in trusted ==> trusted != map[];
  }

  /** Outside a test process a key that the document brings along is of no use. */
  lemma UntrustedKeysAreRefused(d: Document, trusted: TrustedKeys, scheme: Scheme, le: Collation)
    requires d.signature.Some? && (d.signature.value.keyId !in trusted || trusted[d.signature.value.keyId] == [])
    ensures VerifyReceipt(d, trusted, false, scheme, le).Err? && VerifyAttestation(d, trusted, false, scheme, le).Err?
  {
    ReceiptIsAcceptedIff(d, trusted, false, scheme, le);
    AttestationIsAcceptedIff(d, trusted, false, scheme, le);
  }

  // ----- What the scheme is taken to promise ------------------------------------------------------

  ghost predicate Correct(scheme: Scheme) {
    forall key, m :: scheme.verify(scheme.publicOf(key), m, scheme.sign(key, m))
  }

  /** One signature the holder of a key made. */
  datatype Signing = Signing(kind: DocumentKind, content: Json, metadata: SignatureRecord)

  function MessageOf(g: Signing, le: Collation): Text {
    SignedMessage(g.kind, Canonical(g.content, le), g.metadata, le)
  }

  /** Under `key`, a value verifies for a message only if the holder signed that message. */
  ghost predicate Unforgeable(scheme: Scheme, key: Text, signings: set<Signing>, le: Collation) {
    forall m, value :: scheme.verify(key, m, value) ==> exists g :: g in signings && m == MessageOf(g, le)
  }

  // ----- Round trip ------------------------------------------------------------------------------

  /** What storing a document may make of its entries: a text keeps them all, and drops those that are undefined; a
      `jsonb` column also puts them into an order of its own, which the printer undoes where no keys are tied. */
  ghost predicate ReadBack(content: seq<Entry>, read: seq<Entry>, le: Collation) {
    || read == content
    || read == SavedEntries(content)
    || Reordered(Obj(content), Obj(read), le)
  }

  ghost predicate Reordered(v: Json, w: Json, le: Collation) {
    TotalPreorder(le) && WellFormed(v) && WellFormed(w) && UntiedThroughout(v, le) && SameValue(v, w)
  }

  lemma ReadBackPrintsSame(content: seq<Entry>, read: seq<Entry>, le: Collation)
    requires ReadBack(content, read, le)
    ensures Canonical(Obj(read), le) == Canonical(Obj(content), le)
  {
    SavedPrintsSame(Obj(content), le);
    assert Saved(Obj(content)) == Obj(SavedEntries(content));
    if Reordered(Obj(content), Obj(read), le) {
      PrinterIsFaithful(Obj(content), Obj(read), le);
    }
  }

  lemma SignatureIsValid(kind: DocumentKind, payload: Text, signer: Signer, signedAt: Text, scheme: Scheme,
      le: Collation)
    requires Correct(scheme)
    ensures var s := Sign(kind, payload, signer, signedAt, scheme, le);
            && s.keyId == signer.keyId && s.algorithm == Ed25519()
            && scheme.verify(scheme.publicOf(signer.privateKey), SignedMessage(kind, payload, s, le), s.value)
  {
    var s := Sign(kind, payload, signer, signedAt, scheme, le);
    assert MessageEntries(kind, payload, s) == MessageEntries(kind, payload, s.(value := []));
  }

  /** What was signed verifies under the matching trusted key, also after it was stored and read back. */
  lemma SignedDocumentsVerify(content: seq<Entry>, read: seq<Entry>, signer: Signer, signedAt: Text,
      trusted: TrustedKeys, testProcess: bool, scheme: Scheme, le: Collation)
    requires Correct(scheme) && ReadBack(content, read, le)
    requires signer.keyId in trusted && trusted[signer.keyId] == scheme.publicOf(signer.privateKey) != []
    ensures var r := SignDocument(Receipt, content, signer, signedAt, scheme, le);
            VerifyReceipt(r.(content := read), trusted, testProcess, scheme, le).Ok?
    ensures var a := SignDocument(Attestation, content, signer, signedAt, scheme, le);
            VerifyAttestation(a.(content := read), trusted, testProcess, scheme, le).Ok?
  {
    ReadBackPrintsSame(content, read, le);
    SignatureIsValid(Receipt, Canonical(Obj(content), le), signer, signedAt, scheme, le);
    SignatureIsValid(Attestation, Canonical(Obj(content), le), signer, signedAt, scheme, le);
  }

  // ----- Binding ---------------------------------------------------------------------------------

  lemma LiteralsDiffer()
    ensures UniqueKeys(MessageEntries(Receipt, [], SignatureRecord([], [], [], [], [])))
    ensures UniqueKeys(MessageEntries(Attestation, [], SignatureRecord([], [], [], [], [])))
    ensures UniqueKeys(MessageEntries(Specification, [], SignatureRecord([], [], [], [], [])))
    ensures Lit("receipt") != Lit("attestation") && Lit("receipt") != Lit("payload")
        && Lit("attestation") != Lit("payload")
  {
    assert |Lit("receipt")| == |Lit("payload")| == 7 && |Lit("attestation")| == 11
        && |Lit("algorithm")| == |Lit("publicKey")| == 9;
    assert |Lit("keyId")| == 5 && |Lit("signedAt")| == 8;
    assert Lit("receipt")[0] == 114 && Lit("payload")[0] == 112 && Lit("algorithm")[0] == 97
        && Lit("publicKey")[0] == 112;
  }

  lemma MessageWellFormed(kind: DocumentKind, payload: Text, s: SignatureRecord)
    ensures WellFormed(Obj(MessageEntries(kind, payload, s)))
  {
    LiteralsDiffer();
    var es := MessageEntries(kind, payload, s);
    var base := MessageEntries(kind, [], SignatureRecord([], [], [], [], []));
    assert |es| == |base| && forall i :: 0 <= i < |es| ==> es[i].key == base[i].key;
  }

  lemma OneLabel(kind: DocumentKind, other: DocumentKind, payload: Text, s: SignatureRecord)
    ensures Find(MessageEntries(kind, payload, s), Label(other)).Some? ==> other == kind
  {
    var es, fs := MessageEntries(kind, payload, s), MessageEntries(other, payload, s);
    MessageWellFormed(other, payload, s);
    assert forall k :: 0 < k < 5 ==> es[k].key == fs[k].key != fs[0].key;
    LiteralsDiffer();
    var found := Find(es, Label(other));
    if found.Some? {
      var i :| 0 <= i < |es| && es[i] == Entry(Label(other), found);
    }
  }

  lemma MessageFinds(kind: DocumentKind, payload: Text, s: SignatureRecord)
    ensures var es := MessageEntries(kind, payload, s);
            && Find(es, Label(kind)) == Some(Str(payload))
            && Find(es, Lit("algorithm")) == Some(Str(s.algorithm)) && Find(es, Lit("keyId")) == Some(Str(s.keyId))
            && Find(es, Lit("signedAt")) == Some(Str(s.signedAt))
            && Find(es, Lit("publicKey")) == Some(Str(s.publicKey))
  {
    var es := MessageEntries(kind, payload, s);
    MessageWellFormed(kind, payload, s);
    forall i: nat | i < 5 ensures Find(es, es[i].key) == es[i].value {
      FindDefined(es, i);
    }
    assert es[0].key == Label(kind) && es[1].key == Lit("algorithm") && es[2].key == Lit("keyId")
        && es[3].key == Lit("signedAt") && es[4].key == Lit("publicKey");
  }

  /** A signed message determines the kind of document, its printed content and the metadata. */
  lemma MessageDetermines(k1: DocumentKind, p1: Text, s1: SignatureRecord, k2: DocumentKind, p2: Text,
      s2: SignatureRecord, le: Collation)
    requires SignedMessage(k1, p1, s1, le) == SignedMessage(k2, p2, s2, le)
    ensures k1 == k2 && p1 == p2 && s1 == s2.(value := s1.value)
  {
    var es, fs := MessageEntries(k1, p1, s1), MessageEntries(k2, p2, s2);
    MessageWellFormed(k1, p1, s1);
    MessageWellFormed(k2, p2, s2);
    PrinterIsFaithful(Obj(es), Obj(fs), le);
    MessageFinds(k1, p1, s1);
    SameStrings(es, fs, 0);
    OneLabel(k2, k1, p2, s2);
    SameMessages(k1, p1, s1, p2, s2);
  }

  lemma SameMessages(kind: DocumentKind, p1: Text, s1: SignatureRecord, p2: Text, s2: SignatureRecord)
    requires SameValue(Obj(MessageEntries(kind, p1, s1)), Obj(MessageEntries(kind, p2, s2)))
    ensures p1 == p2 && s1 == s2.(value := s1.value)
  {
    var es, fs := MessageEntries(kind, p1, s1), MessageEntries(kind, p2, s2);
    MessageWellFormed(kind, p2, s2);
    forall i: nat | i < 5 ensures es[i].value == fs[i].value {
      SameStrings(es, fs, i);
      FindDefined(fs, i);
    }
    assert es[0].value == fs[0].value && es[1].value == fs[1].value && es[2].value == fs[2].value
        && es[3].value == fs[3].value && es[4].value == fs[4].value;
  }

  lemma SameStrings(es: seq<Entry>, fs: seq<Entry>, i: nat)
    requires SameValue(Obj(es), Obj(fs)) && i < |es| && es[i].value.Some? && es[i].value.value.Str?
    ensures Find(fs, es[i].key) == es[i].value
  {
  }

  /** Whether the holder of a key signed this content, as this kind of document, under this metadata. */
  ghost predicate WasSigned(kind: DocumentKind, content: Json, s: SignatureRecord, signings: set<Signing>) {
    exists g :: g in signings && g.kind == kind && SameValue(content, g.content)
                && g.metadata.(value := []) == s.(value := [])
  }

  lemma VerifiedMessageWasSigned(kind: DocumentKind, content: Json, s: SignatureRecord, key: Text,
      signings: set<Signing>, scheme: Scheme, le: Collation)
    requires WellFormed(content) && forall g :: g in signings ==> WellFormed(g.content)
    requires Unforgeable(scheme, key, signings, le)
    requires scheme.verify(key, SignedMessage(kind, Canonical(content, le), s, le), s.value)
    ensures WasSigned(kind, content, s, signings)
  {
    var payload := Canonical(content, le);
    var g :| g in signings && SignedMessage(kind, payload, s, le) == MessageOf(g, le);
    MessageDetermines(kind, payload, s, g.kind, Canonical(g.content, le), g.metadata, le);
    PrinterIsFaithful(content, g.content, le);
  }

  /** A document that verifies under a trusted key is one that the holder of the key signed: the same
      kind of document, equal as a JSON value, under the same metadata. */
  lemma VerifiedDocumentsWereSigned(d: Document, trusted: TrustedKeys, testProcess: bool, signings: set<Signing>,
                                    scheme: Scheme, le: Collation)
    requires d.signature.Some? && d.signature.value.keyId in trusted
    requires WellFormed(Obj(d.content)) && forall g :: g in signings ==> WellFormed(g.content)
    requires Unforgeable(scheme, trusted[d.signature.value.keyId], signings, le)
    ensures VerifyReceipt(d, trusted, testProcess, scheme, le).Ok? ==>
              WasSigned(Receipt, Obj(d.content), d.signature.value, signings)
    ensures VerifyAttestation(d, trusted, testProcess, scheme, le).Ok? ==>
              WasSigned(Attestation, Obj(d.content), d.signature.value, signings)
  {
    var s := d.signature.value;
    if VerifyReceipt(d, trusted, testProcess, scheme, le).Ok? {
      VerifiedMessageWasSigned(Receipt, Obj(d.content), s, trusted[s.keyId], signings, scheme, le);
    }
    if VerifyAttestation(d, trusted, testProcess, scheme, le).Ok? {
      VerifiedMessageWasSigned(Attestation, Obj(d.content), s, trusted[s.keyId], signings, scheme, le);
    }
  }

  // ----- What a signature says of itself ---------------------------------------------------------

  /** A signature names its signer and its time, and carries the public key that was given, or the private key's own. */
  lemma SignatureNames(kind: DocumentKind, payload: Text, signer: Signer, signedAt: Text, scheme: Scheme, le: Collation)
    ensures var s := Sign(kind, payload, signer, signedAt, scheme, le);
            && s.algorithm == Lit("Ed25519") && s.keyId == signer.keyId && s.signedAt == signedAt
            && (signer.publicKey.Some? ==> s.publicKey == signer.publicKey.value)
            && (signer.publicKey.None? ==> s.publicKey == scheme.publicOf(signer.privateKey))
            && s.value == scheme.sign(signer.privateKey, SignedMessage(kind, payload, s, le))
  {
    var s := Sign(kind, payload, signer, signedAt, scheme, le);
    assert MessageEntries(kind, payload, s) == MessageEntries(kind, payload, s.(value := []));
  }

  /** Receipts, attestations and specifications are signed under a name of their own. */
  lemma LabelsAre()
    ensures Label(Receipt) == Lit("receipt") && Label(Attestation) == Lit("attestation")
        && Label(Specification) == Lit("payload")
  {
  }
}
