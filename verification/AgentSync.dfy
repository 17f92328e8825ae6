/**
 * The agent's signed sync cycle: fetch artifact and signature, verify, refuse
 * replays, cache; and the same cycle against an honest server whose state moves
 * between the two requests.
 */
module AgentSync {
  import opened Common
  import opened Numbering
  import opened Artifacts
  import opened TrustTables
  import opened Publication
  import opened PublicationRuns

  // ---- one target of one cycle ----

  /** The cached `<zone>_<role>.json`: absent, not JSON, or an artifact. */
  datatype CachedFile = NoFile | NotJson | Stored(artifact: Artifact)

  /** Whatever the network delivered for a target, and the agent's clock when it looked. */
  datatype Response = FetchFailed | Delivered(artifact: Artifact, signature: SignatureDoc)
  datatype Delivery = Delivery(target: Target, response: Response, now: Time)

  datatype PkiBundle = PkiBundle(caChain: string, crl: CrlText)
  datatype Agent = Agent(cache: map<Target, CachedFile>, pki: Option<PkiBundle>)

  datatype Rejection = Unreachable | NotVerified(code: FailureCode) | BadPayload | ArtifactExpired | ReplayDetected
  datatype Verdict = Accepted | Rejected(why: Rejection) | CycleAborted

  function CachedOf(a: Agent, target: Target): CachedFile {
    if target in a.cache then a.cache[target] else NoFile
  }

  predicate EntryWellFormed(e: CertEntry) {
    && e.applicationUri.Some? && e.commonName.Some? && e.fingerprint.Some? && e.pem.Some?
    && e.pem.value.parsed.Some?
    && Lower(e.pem.value.parsed.value.fingerprint) == Lower(e.fingerprint.value)
  }

  /** `validate_trustlist_payload`. */
  predicate PayloadWellFormed(a: Artifact, target: Target) {
    && a.zone == Some(target.zone) && a.role == Some(target.role)
    && a.caChain.Some? && a.crl.Some? && a.certificates.Some?
    && Contains(a.caChain.value, "BEGIN CERTIFICATE")
    && (forall i :: 0 <= i < |a.certificates.value| ==> EntryWellFormed(a.certificates.value[i]))
    && a.crl.value.wellFormed
  }

  /** Written by the signed mode under this trust anchor. */
  predicate SignedCompatible(f: CachedFile, anchor: string) {
    && f.Stored?
    && Lower(f.artifact.artifactType) == "opcua_trustlist"
    && Lower(f.artifact.signer.fingerprint) == Lower(anchor)
    && f.artifact.revision.Some?
  }

  /** Tuple comparison with the cached copy, when there is one to compare with. */
  predicate Regresses(f: CachedFile, anchor: string, version: int, revision: int) {
    && SignedCompatible(f, anchor) && f.artifact.version.Some?
    && PairLess(version, revision, f.artifact.version.value, f.artifact.revision.value)
  }

  function Judge(f: CachedFile, d: Delivery, anchor: string): Verdict {
    if f.NotJson? then CycleAborted
    else match d.response
      case FetchFailed => Rejected(Unreachable)
      case Delivered(a, s) =>
        var v := VerifySignedArtifact(a, s, d.target, anchor);
        if v.Refused? then Rejected(NotVerified(v.code))
        else if !PayloadWellFormed(a, d.target) then Rejected(BadPayload)
        else if !a.expiresAt.At? then Rejected(BadPayload)
        else if a.expiresAt.time < d.now then Rejected(ArtifactExpired)
        else if a.version.None? || a.revision.None? then Rejected(BadPayload)
        else if Regresses(f, anchor, a.version.value, a.revision.value) then Rejected(ReplayDetected)
        else Accepted
  }

  /** State of a cycle in progress: the PKI bundle is written once, from the first accepted artifact. */
  datatype Progress = Progress(agent: Agent, pkiWritten: bool, aborted: bool)

  function ProcessTarget(p: Progress, d: Delivery, anchor: string): (Progress, Verdict) {
    var verdict := Judge(CachedOf(p.agent, d.target), d, anchor);
    match verdict
    case CycleAborted => (p.(aborted := true), verdict)
    case Rejected(_) => (p, verdict)
    case Accepted =>
      var a := d.response.artifact;
      var pki := if p.pkiWritten then p.agent.pki else Some(PkiBundle(a.caChain.value, a.crl.value));
      (Progress(Agent(p.agent.cache[d.target := Stored(a)], pki), true, false), verdict)
  }

  function CycleUpTo(a: Agent, deliveries: seq<Delivery>, anchor: string, n: nat): Progress
    requires n <= |deliveries|
  {
    if n == 0 then Progress(a, false, false)
    else
      var p := CycleUpTo(a, deliveries, anchor, n - 1);
      if p.aborted then p else ProcessTarget(p, deliveries[n - 1], anchor).0
  }

  /** `run_sync_cycle_signed`: one pass over the configured targets. */
  function Cycle(a: Agent, deliveries: seq<Delivery>, anchor: string): Agent {
    CycleUpTo(a, deliveries, anchor, |deliveries|).agent
  }

  function Cycles(a: Agent, cycles: seq<seq<Delivery>>, anchor: string): Agent {
    if cycles == [] then a
    else Cycle(Cycles(a, cycles[..|cycles| - 1], anchor), cycles[|cycles| - 1], anchor)
  }

  // ---- what the agent accepts, stated on the documents ----

  /** The signer field names no other algorithm and no other key; an empty one names nothing. */
  predicate NamesAnchor(signer: SignerInfo, anchor: string, mandatory: bool) {
    && (signer.algorithm == "" || Lower(signer.algorithm) == "ed25519")
    && ((!mandatory && signer.fingerprint == "") || Lower(signer.fingerprint) == Lower(anchor))
  }

  /** The artifact is a trust list for the target, and the anchor key signed exactly its contents. */
  predicate Authentic(a: Artifact, s: SignatureDoc, target: Target, anchor: string) {
    && a.zone == Some(target.zone) && a.role == Some(target.role)
    && Lower(a.artifactType) == "opcua_trustlist" && a.revision.Some?
    && NamesAnchor(a.signer, anchor, true) && NamesAnchor(s.signer, anchor, false)
    && (s.sha256.Some? ==> PayloadIs(s.sha256.value.payload, a))
    && (s.version.Some? ==> s.version == a.version) && (s.revision.Some? ==> s.revision == a.revision)
    && s.generatedAt in {Absent, a.generatedAt} && s.generatedAt != Garbage
    && s.expiresAt in {Absent, a.expiresAt} && s.expiresAt != Garbage
    && s.signature.Sig? && s.signature.signature.keyFingerprint == anchor
    && PayloadIs(s.signature.signature.payload, a)
  }

  /** It can be written out, and it has not expired. */
  predicate Usable(a: Artifact, now: Time) {
    && a.expiresAt.At? && a.expiresAt.time >= now && a.version.Some? && a.revision.Some?
    && a.caChain.Some? && Contains(a.caChain.value, "BEGIN CERTIFICATE") && a.crl.Some? && a.crl.value.wellFormed
    && a.certificates.Some?
    && forall e :: e in a.certificates.value ==>
         && e.applicationUri != None && e.commonName != None && e.fingerprint != None
         && e.pem.Some? && e.pem.value.parsed.Some?
         && Lower(e.pem.value.parsed.value.fingerprint) == Lower(e.fingerprint.value)
  }

  /** It is older than the cached list, if that one was signed by the anchor too. */
  predicate Older(a: Artifact, f: CachedFile, anchor: string) {
    && f.Stored? && Lower(f.artifact.artifactType) == "opcua_trustlist"
    && Lower(f.artifact.signer.fingerprint) == Lower(anchor)
    && a.version.Some? && a.revision.Some? && f.artifact.version.Some? && f.artifact.revision.Some?
    && (|| a.version.value < f.artifact.version.value
        || (a.version.value == f.artifact.version.value && a.revision.value < f.artifact.revision.value))
  }

  /** The delivery is good, whatever is cached. */
  predicate Good(d: Delivery, anchor: string) {
    && d.response.Delivered? && Authentic(d.response.artifact, d.response.signature, d.target, anchor)
    && Usable(d.response.artifact, d.now)
  }

  /** It replaces this cached file. */
  predicate Takes(f: CachedFile, d: Delivery, anchor: string) {
    !f.NotJson? && Good(d, anchor) && !Older(d.response.artifact, f, anchor)
  }

  lemma VerifiedIffAuthentic(a: Artifact, s: SignatureDoc, target: Target, anchor: string)
    ensures VerifySignedArtifact(a, s, target, anchor).Verified? <==> Authentic(a, s, target, anchor)
  {
    assert CanonicalPayload(Normalize(a)) == CanonicalPayload(a);
    assert forall p: Payload :: PayloadIs(p, a) <==> p == CanonicalPayload(a);
  }

  lemma WellFormedIffUsable(a: Artifact, target: Target, now: Time)
    requires a.zone == Some(target.zone) && a.role == Some(target.role)
    ensures Usable(a, now) <==>
            && PayloadWellFormed(a, target) && a.expiresAt.At? && a.expiresAt.time >= now
            && a.version.Some? && a.revision.Some?
  {
    hide Contains, Lower;
    if a.certificates.Some? {
      var es := a.certificates.value;
      assert forall i :: 0 <= i < |es| ==> es[i] in es;
    }
  }

  /** The verdict accepts exactly such deliveries. */
  lemma AcceptedIff(f: CachedFile, d: Delivery, anchor: string)
    ensures Judge(f, d, anchor).Accepted? <==> Takes(f, d, anchor)
    ensures Judge(f, d, anchor).CycleAborted? <==> f.NotJson?
  {
    if d.response.Delivered? {
      var a := d.response.artifact;
      VerifiedIffAuthentic(a, d.response.signature, d.target, anchor);
      hide VerifySignedArtifact, Lower;
      if Authentic(a, d.response.signature, d.target, anchor) {
        WellFormedIffUsable(a, d.target, d.now);
      }
      hide PayloadWellFormed, Usable, Authentic;
    }
  }

  lemma AcceptedHasParts(f: CachedFile, d: Delivery, anchor: string)
    requires Judge(f, d, anchor).Accepted?
    ensures d.response.Delivered? && d.response.artifact.caChain.Some? && d.response.artifact.crl.Some?
  {
    AcceptedIff(f, d, anchor);
    hide Judge, Authentic, Older;
  }

  /** A refusal names a fault that is there. */
  lemma RefusalNamesAFault(f: CachedFile, d: Delivery, anchor: string, why: Rejection)
    requires Judge(f, d, anchor) == Rejected(why)
    ensures why == Unreachable <==> d.response.FetchFailed?
    ensures why.NotVerified? <==> d.response.Delivered? &&
                                  !Authentic(d.response.artifact, d.response.signature, d.target, anchor)
    ensures why == ArtifactExpired ==> d.response.artifact.expiresAt.At? && d.response.artifact.expiresAt.time < d.now
    ensures why == ReplayDetected ==> Good(d, anchor) && Older(d.response.artifact, f, anchor)
    ensures why == BadPayload ==> !Usable(d.response.artifact, d.now)
  {
    AcceptedIff(f, d, anchor);
    if d.response.Delivered? {
      var a := d.response.artifact;
      VerifiedIffAuthentic(a, d.response.signature, d.target, anchor);
      if Authentic(a, d.response.signature, d.target, anchor) {
        WellFormedIffUsable(a, d.target, d.now);
      }
      hide VerifySignedArtifact, Lower, PayloadWellFormed, Usable, Authentic, Contains;
    }
  }

  /** The failure code of a signature check names the check. */
  lemma CodeNamesACheck(a: Artifact, s: SignatureDoc, target: Target, anchor: string)
    requires VerifySignedArtifact(a, s, target, anchor).Refused?
    ensures match VerifySignedArtifact(a, s, target, anchor).code
            case SignatureInvalid =>
              s.signature.Sig? && !(s.signature.signature.keyFingerprint == anchor
                                    && PayloadIs(s.signature.signature.payload, a))
            case CanonicalHashMismatch => s.sha256.Some? && !PayloadIs(s.sha256.value.payload, a)
            case UnsupportedSigner =>
              exists x :: x in {a.signer, s.signer} && x.algorithm != "" && Lower(x.algorithm) != "ed25519"
            case SignerFingerprintMismatch =>
              exists x :: x in {a.signer, s.signer} && Lower(x.fingerprint) != Lower(anchor)
            case MalformedArtifact =>
              || a.zone != Some(target.zone) || a.role != Some(target.role)
              || Lower(a.artifactType) != "opcua_trustlist" || a.revision.None?
              || (s.version.Some? && s.version != a.version) || (s.revision.Some? && s.revision != a.revision)
              || s.generatedAt !in {Absent, a.generatedAt} || s.generatedAt == Garbage
              || s.expiresAt !in {Absent, a.expiresAt} || s.expiresAt == Garbage || !s.signature.Sig?
  {
    assert CanonicalPayload(Normalize(a)) == CanonicalPayload(a);
    assert forall p: Payload :: PayloadIs(p, a) <==> p == CanonicalPayload(a);
    assert a.signer in {a.signer, s.signer} && s.signer in {a.signer, s.signer};
  }

  // ---- what a cycle leaves behind, stated on its deliveries ----

  /** The cached file of a target after its good deliveries among the first n have replaced it in turn. */
  function Kept(f: CachedFile, deliveries: seq<Delivery>, anchor: string, target: Target, n: nat): CachedFile
    requires n <= |deliveries|
  {
    if n == 0 then f
    else
      var g := Kept(f, deliveries, anchor, target, n - 1);
      var d := deliveries[n - 1];
      if d.target == target && Takes(g, d, anchor) then Stored(d.response.artifact) else g
  }

  predicate TakenAt(a: Agent, deliveries: seq<Delivery>, anchor: string, i: nat)
    requires i < |deliveries|
  {
    var target := deliveries[i].target;
    Takes(Kept(CachedOf(a, target), deliveries, anchor, target, i), deliveries[i], anchor)
  }

  /** One of the first n deliveries is taken. */
  predicate Writes(a: Agent, deliveries: seq<Delivery>, anchor: string, n: nat)
    requires n <= |deliveries|
  {
    exists i :: 0 <= i < n && TakenAt(a, deliveries, anchor, i)
  }

  predicate FirstTaken(a: Agent, deliveries: seq<Delivery>, anchor: string, i: nat)
    requires i < |deliveries|
  {
    TakenAt(a, deliveries, anchor, i) && forall j :: 0 <= j < i ==> !TakenAt(a, deliveries, anchor, j)
  }

  /** The first delivery that is taken, if any of the first n is, supplies the PKI bundle. */
  ghost predicate BundleOfFirst(a: Agent, b: Agent, deliveries: seq<Delivery>, anchor: string, n: nat)
    requires n <= |deliveries|
  {
    && (!Writes(a, deliveries, anchor, n) ==> b.pki == a.pki)
    && (forall i :: 0 <= i < n && FirstTaken(a, deliveries, anchor, i) ==>
          && Good(deliveries[i], anchor)
          && b.pki == Some(PkiBundle(deliveries[i].response.artifact.caChain.value,
                                     deliveries[i].response.artifact.crl.value)))
  }

  /** The first n deliveries, none of them for a target whose cached file is not JSON, have been processed. */
  ghost predicate Processed(a: Agent, b: Agent, deliveries: seq<Delivery>, anchor: string, n: nat)
    requires n <= |deliveries|
  {
    && (forall i :: 0 <= i < n ==> !CachedOf(a, deliveries[i].target).NotJson?)
    && (forall target :: CachedOf(b, target) == Kept(CachedOf(a, target), deliveries, anchor, target, n))
    && BundleOfFirst(a, b, deliveries, anchor, n)
  }

  /** A cycle processes all deliveries, or those before the first whose target's cached file is not JSON. */
  ghost predicate CycleLeaves(a: Agent, b: Agent, deliveries: seq<Delivery>, anchor: string, completed: bool) {
    if completed then Processed(a, b, deliveries, anchor, |deliveries|)
    else exists n :: 0 <= n < |deliveries| && Processed(a, b, deliveries, anchor, n)
                && CachedOf(a, deliveries[n].target).NotJson?
  }

  lemma {:induction false} KeptStaysJson(f: CachedFile, deliveries: seq<Delivery>, anchor: string, target: Target,
                                         n: nat)
    requires n <= |deliveries|
    ensures Kept(f, deliveries, anchor, target, n).NotJson? <==> f.NotJson?
  {
    if n > 0 {
      KeptStaysJson(f, deliveries, anchor, target, n - 1);
      hide Good, Older;
    }
  }

  lemma ProcessTargetTakes(p: Progress, d: Delivery, anchor: string)
    ensures var (q, verdict) := ProcessTarget(p, d, anchor);
            var f := CachedOf(p.agent, d.target);
            && (f.NotJson? ==> q == p.(aborted := true))
            && (!f.NotJson? && !Takes(f, d, anchor) ==> q == p)
            && (Takes(f, d, anchor) ==>
                  && d.response.Delivered? && d.response.artifact.caChain.Some? && d.response.artifact.crl.Some?
                  && q.agent.cache == p.agent.cache[d.target := Stored(d.response.artifact)]
                  && q.pkiWritten && !q.aborted
                  && q.agent.pki == (if p.pkiWritten then p.agent.pki
                                     else Some(PkiBundle(d.response.artifact.caChain.value,
                                                         d.response.artifact.crl.value))))
  {
    AcceptedIff(CachedOf(p.agent, d.target), d, anchor);
    hide Judge, Authentic;
  }

  lemma NothingProcessed(a: Agent, deliveries: seq<Delivery>, anchor: string)
    ensures Processed(a, a, deliveries, anchor, 0) && !Writes(a, deliveries, anchor, 0)
  {
    hide Takes, TakenAt;
  }

  lemma {:induction false} CycleUpToProcesses(a: Agent, deliveries: seq<Delivery>, anchor: string, n: nat)
    requires n <= |deliveries| && forall i :: 0 <= i < n ==> !CachedOf(a, deliveries[i].target).NotJson?
    ensures var p := CycleUpTo(a, deliveries, anchor, n);
            !p.aborted && (p.pkiWritten <==> Writes(a, deliveries, anchor, n))
            && Processed(a, p.agent, deliveries, anchor, n)
  {
    hide ProcessTarget, Processed, Writes, CachedOf;
    if n == 0 {
      NothingProcessed(a, deliveries, anchor);
    } else {
      CycleUpToProcesses(a, deliveries, anchor, n - 1);
      var p, d := CycleUpTo(a, deliveries, anchor, n - 1), deliveries[n - 1];
      JsonStays(a, p.agent, deliveries, anchor, n - 1, d.target);
      OneMoreProcessed(a, p, deliveries, anchor, n);
    }
  }

  lemma JsonStays(a: Agent, b: Agent, deliveries: seq<Delivery>, anchor: string, n: nat, target: Target)
    requires n <= |deliveries| && Processed(a, b, deliveries, anchor, n)
    ensures CachedOf(b, target).NotJson? <==> CachedOf(a, target).NotJson?
  {
    hide Takes, BundleOfFirst;
    KeptStaysJson(CachedOf(a, target), deliveries, anchor, target, n);
    assert CachedOf(b, target) == Kept(CachedOf(a, target), deliveries, anchor, target, n);
  }

  lemma OneMoreProcessed(a: Agent, p: Progress, deliveries: seq<Delivery>, anchor: string, n: nat)
    requires 1 <= n <= |deliveries| && Processed(a, p.agent, deliveries, anchor, n - 1) && !p.aborted
    requires p.pkiWritten <==> Writes(a, deliveries, anchor, n - 1)
    requires !CachedOf(p.agent, deliveries[n - 1].target).NotJson?
             && !CachedOf(a, deliveries[n - 1].target).NotJson?
    ensures var q := ProcessTarget(p, deliveries[n - 1], anchor).0;
            !q.aborted && (q.pkiWritten <==> Writes(a, deliveries, anchor, n))
            && Processed(a, q.agent, deliveries, anchor, n)
  {
    var d, q := deliveries[n - 1], ProcessTarget(p, deliveries[n - 1], anchor).0;
    assert TakenAt(a, deliveries, anchor, n - 1) <==> Takes(CachedOf(p.agent, d.target), d, anchor) by {
      hide Takes, ProcessTarget, BundleOfFirst, Writes;
    }
    hide ProcessTarget, Takes, Good, BundleOfFirst, Writes, TakenAt;
    ProcessTargetTakes(p, d, anchor);
    GoodWhenTaken(CachedOf(p.agent, d.target), d, anchor);
    WritesOneMore(a, deliveries, anchor, n);
    BundleOneMore(a, p.agent, q.agent, deliveries, anchor, n, p.pkiWritten);
    hide Kept;
    forall target ensures CachedOf(q.agent, target) == Kept(CachedOf(a, target), deliveries, anchor, target, n) {
      KeptOneMore(a, p.agent, q.agent, deliveries, anchor, n, target);
    }
  }

  lemma KeptOneMore(a: Agent, b: Agent, c: Agent, deliveries: seq<Delivery>, anchor: string, n: nat, target: Target)
    requires 1 <= n <= |deliveries|
    requires CachedOf(b, target) == Kept(CachedOf(a, target), deliveries, anchor, target, n - 1)
    requires var d := deliveries[n - 1];
             if Takes(CachedOf(b, d.target), d, anchor) then
               d.response.Delivered? && c.cache == b.cache[d.target := Stored(d.response.artifact)]
             else c.cache == b.cache
    ensures CachedOf(c, target) == Kept(CachedOf(a, target), deliveries, anchor, target, n)
  {
    hide Takes;
  }

  lemma WritesOneMore(a: Agent, deliveries: seq<Delivery>, anchor: string, n: nat)
    requires 1 <= n <= |deliveries|
    ensures Writes(a, deliveries, anchor, n) <==>
            Writes(a, deliveries, anchor, n - 1) || TakenAt(a, deliveries, anchor, n - 1)
  {
    hide TakenAt;
  }

  lemma BundleOneMore(a: Agent, b: Agent, c: Agent, deliveries: seq<Delivery>, anchor: string, n: nat, written: bool)
    requires 1 <= n <= |deliveries| && BundleOfFirst(a, b, deliveries, anchor, n - 1)
    requires written <==> Writes(a, deliveries, anchor, n - 1)
    requires written || !TakenAt(a, deliveries, anchor, n - 1) ==> c.pki == b.pki
    requires !written && TakenAt(a, deliveries, anchor, n - 1) ==>
               && Good(deliveries[n - 1], anchor)
               && c.pki == Some(PkiBundle(deliveries[n - 1].response.artifact.caChain.value,
                                          deliveries[n - 1].response.artifact.crl.value))
    ensures BundleOfFirst(a, c, deliveries, anchor, n)
  {
    WritesOneMore(a, deliveries, anchor, n);
    hide TakenAt, Authentic;
  }

  lemma GoodWhenTaken(f: CachedFile, d: Delivery, anchor: string)
    ensures Takes(f, d, anchor) ==> Good(d, anchor)
  {
    hide Good;
  }

  lemma NotJsonAborts(a: Agent, deliveries: seq<Delivery>, anchor: string, n: nat)
    requires n < |deliveries| && !CycleUpTo(a, deliveries, anchor, n).aborted
    requires CachedOf(CycleUpTo(a, deliveries, anchor, n).agent, deliveries[n].target).NotJson?
    ensures CycleUpTo(a, deliveries, anchor, n + 1) == CycleUpTo(a, deliveries, anchor, n).(aborted := true)
  {
    hide CachedOf;
  }

  /** The first delivery for a target whose cached file is not JSON ends the cycle. */
  lemma CycleEndsAt(a: Agent, deliveries: seq<Delivery>, anchor: string, n: nat)
    requires n < |deliveries| && forall i :: 0 <= i < n ==> !CachedOf(a, deliveries[i].target).NotJson?
    requires CachedOf(a, deliveries[n].target).NotJson?
    ensures CycleUpTo(a, deliveries, anchor, |deliveries|)
         == CycleUpTo(a, deliveries, anchor, n).(aborted := true)
  {
    hide CycleUpTo, Processed, Writes, CachedOf;
    CycleUpToProcesses(a, deliveries, anchor, n);
    JsonStays(a, CycleUpTo(a, deliveries, anchor, n).agent, deliveries, anchor, n, deliveries[n].target);
    NotJsonAborts(a, deliveries, anchor, n);
    AbortStops(a, deliveries, anchor, n + 1, |deliveries|);
  }

  /** The cycle function leaves exactly that. */
  lemma CycleLeavesThis(a: Agent, deliveries: seq<Delivery>, anchor: string)
    ensures var p := CycleUpTo(a, deliveries, anchor, |deliveries|);
            CycleLeaves(a, p.agent, deliveries, anchor, !p.aborted)
  {
    hide Processed, Writes, CycleUpTo, CachedOf;
    var n := 0;
    while n < |deliveries| && !CachedOf(a, deliveries[n].target).NotJson?
      invariant 0 <= n <= |deliveries|
      invariant forall i :: 0 <= i < n ==> !CachedOf(a, deliveries[i].target).NotJson?
    {
      n := n + 1;
    }
    CycleUpToProcesses(a, deliveries, anchor, n);
    if n < |deliveries| {
      CycleEndsAt(a, deliveries, anchor, n);
    }
  }

  /** A file that differs afterwards is the artifact of a good delivery for its target, unexpired by its clock. */
  lemma {:induction false} KeptComesFromGood(f: CachedFile, deliveries: seq<Delivery>, anchor: string, target: Target,
                                             n: nat)
    requires n <= |deliveries|
    ensures var g := Kept(f, deliveries, anchor, target, n);
            g != f ==> exists i :: 0 <= i < n && deliveries[i].target == target && Good(deliveries[i], anchor)
                              && g == Stored(deliveries[i].response.artifact)
  {
    if n > 0 {
      KeptComesFromGood(f, deliveries, anchor, target, n - 1);
      hide Good, Older;
    }
  }

  /**
   * After a cycle, whatever the network delivered, a target's cached file is the one it was
   * or the artifact of one of its deliveries, signed by the anchor, well formed, and not
   * expired by the clock of that delivery.
   */
  lemma ChangedFilesAreUnexpired(a: Agent, b: Agent, deliveries: seq<Delivery>, anchor: string, completed: bool,
                                 target: Target)
    requires CycleLeaves(a, b, deliveries, anchor, completed) && CachedOf(b, target) != CachedOf(a, target)
    ensures exists i :: 0 <= i < |deliveries| && deliveries[i].target == target && Good(deliveries[i], anchor)
                   && deliveries[i].response.artifact.expiresAt.At?
                   && deliveries[i].response.artifact.expiresAt.time >= deliveries[i].now
                   && CachedOf(b, target) == Stored(deliveries[i].response.artifact)
  {
    var n := ProcessedSome(a, b, deliveries, anchor, completed);
    ProcessedFile(a, b, deliveries, anchor, n, target);
    hide Authentic, CycleLeaves, Processed;
  }

  lemma ProcessedSome(a: Agent, b: Agent, deliveries: seq<Delivery>, anchor: string, completed: bool) returns (n: nat)
    requires CycleLeaves(a, b, deliveries, anchor, completed)
    ensures n <= |deliveries| && Processed(a, b, deliveries, anchor, n)
  {
    hide Processed;
    if completed {
      n := |deliveries|;
    } else {
      n :| n < |deliveries| && Processed(a, b, deliveries, anchor, n) && CachedOf(a, deliveries[n].target).NotJson?;
    }
  }

  lemma ProcessedFile(a: Agent, b: Agent, deliveries: seq<Delivery>, anchor: string, n: nat, target: Target)
    requires n <= |deliveries| && Processed(a, b, deliveries, anchor, n)
    ensures CachedOf(b, target) != CachedOf(a, target) ==>
              exists i :: 0 <= i < n && deliveries[i].target == target && Good(deliveries[i], anchor)
                     && CachedOf(b, target) == Stored(deliveries[i].response.artifact)
  {
    hide Good, Takes, BundleOfFirst;
    KeptComesFromGood(CachedOf(a, target), deliveries, anchor, target, n);
    assert CachedOf(b, target) == Kept(CachedOf(a, target), deliveries, anchor, target, n);
  }

  /** Deliveries that have all expired, whatever else they are, leave the agent as it was. */
  lemma ExpiredDeliveriesChangeNothing(a: Agent, b: Agent, deliveries: seq<Delivery>, anchor: string, completed: bool)
    requires CycleLeaves(a, b, deliveries, anchor, completed)
    requires forall d :: d in deliveries && d.response.Delivered? && d.response.artifact.expiresAt.At? ==>
               d.response.artifact.expiresAt.time < d.now
    ensures b.pki == a.pki && forall target :: CachedOf(b, target) == CachedOf(a, target)
  {
    forall i | 0 <= i < |deliveries| ensures !Good(deliveries[i], anchor) {
      assert deliveries[i] in deliveries;
    }
    hide Good, CycleLeaves;
    var n := ProcessedSome(a, b, deliveries, anchor, completed);
    assert !Writes(a, deliveries, anchor, n);
    forall target ensures CachedOf(b, target) == CachedOf(a, target) {
      ProcessedFile(a, b, deliveries, anchor, n, target);
    }
  }

  class SyncAgent {
    var cache: map<Target, CachedFile>
    var pki: Option<PkiBundle>
    const anchor: string

    function Contents(): Agent
      reads this
    {
      Agent(cache, pki)
    }

    constructor (cache: map<Target, CachedFile>, anchor: string)
      ensures Contents() == Agent(cache, None) && this.anchor == anchor
    {
      this.cache, this.pki, this.anchor := cache, None, anchor;
    }

    method RunSyncCycleSigned(deliveries: seq<Delivery>) returns (completed: bool)
      modifies this
      ensures Contents() == Cycle(old(Contents()), deliveries, anchor)
      ensures completed <==> !CycleUpTo(old(Contents()), deliveries, anchor, |deliveries|).aborted
      ensures CycleLeaves(old(Contents()), Contents(), deliveries, anchor, completed)
    {
      CycleLeavesThis(Contents(), deliveries, anchor);
      hide CycleLeaves, Judge;
      var pkiWritten := false;
      var i := 0;
      completed := true;
      while i < |deliveries|
        invariant 0 <= i <= |deliveries|
        invariant completed
        invariant CycleUpTo(old(Contents()), deliveries, anchor, i) == Progress(Contents(), pkiWritten, false)
      {
        var d := deliveries[i];
        var verdict := Judge(if d.target in cache then cache[d.target] else NoFile, d, anchor);
        if verdict.CycleAborted? {
          AbortStops(old(Contents()), deliveries, anchor, i + 1, |deliveries|);
          return false;
        }
        if verdict.Accepted? {
          AcceptedHasParts(if d.target in cache then cache[d.target] else NoFile, d, anchor);
          var a := d.response.artifact;
          if !pkiWritten {
            pki := Some(PkiBundle(a.caChain.value, a.crl.value));
            pkiWritten := true;
          }
          cache := cache[d.target := Stored(a)];
        }
        i := i + 1;
      }
    }
  }

  lemma {:induction false} AbortStops(a: Agent, deliveries: seq<Delivery>, anchor: string, n: nat, m: nat)
    requires n <= m <= |deliveries| && CycleUpTo(a, deliveries, anchor, n).aborted
    ensures CycleUpTo(a, deliveries, anchor, m) == CycleUpTo(a, deliveries, anchor, n)
    decreases m - n
  {
    if n < m {
      AbortStops(a, deliveries, anchor, n, m - 1);
    }
  }

  // ---- replay protection: against any network ----

  /** The cached file of a target after, compared with before: still compatible, and not a smaller pair. */
  predicate NotReplayed(before: CachedFile, after: CachedFile, anchor: string) {
    SignedCompatible(before, anchor) && before.artifact.version.Some? ==>
      && SignedCompatible(after, anchor) && after.artifact.version.Some?
      && !PairLess(after.artifact.version.value, after.artifact.revision.value,
                   before.artifact.version.value, before.artifact.revision.value)
  }

  lemma NotReplayedChains(a: CachedFile, b: CachedFile, c: CachedFile, anchor: string)
    requires NotReplayed(a, b, anchor) && NotReplayed(b, c, anchor)
    ensures NotReplayed(a, c, anchor)
  {
  }

  /** A rejected delivery leaves the whole agent untouched; an accepted one replaces one file by a signed artifact. */
  lemma ProcessTargetEffect(p: Progress, d: Delivery, anchor: string)
    ensures var (q, verdict) := ProcessTarget(p, d, anchor);
            && (!verdict.Accepted? ==> q.agent == p.agent)
            && (verdict.Accepted? ==>
                  && q.agent.cache == p.agent.cache[d.target := Stored(d.response.artifact)]
                  && d.response.signature.signature == Sig(Signed(anchor, CanonicalPayload(d.response.artifact)))
                  && SignedCompatible(q.agent.cache[d.target], anchor)
                  && d.response.artifact.version.Some?)
            && NotReplayed(CachedOf(p.agent, d.target), CachedOf(q.agent, d.target), anchor)
  {
    hide VerifySignedArtifact, PayloadWellFormed, CanonicalPayload;
    if Judge(CachedOf(p.agent, d.target), d, anchor).Accepted? {
      VerifiedMeansSigned(d.response.artifact, d.response.signature, d.target, anchor);
    }
  }

  lemma {:induction false} CycleNeverRegresses(a: Agent, deliveries: seq<Delivery>, anchor: string, n: nat,
                                               target: Target)
    requires n <= |deliveries|
    ensures NotReplayed(CachedOf(a, target), CachedOf(CycleUpTo(a, deliveries, anchor, n).agent, target), anchor)
  {
    hide ProcessTarget, NotReplayed;
    UntouchedIsNotReplayed(CachedOf(a, target), anchor);
    if n > 0 {
      CycleNeverRegresses(a, deliveries, anchor, n - 1, target);
      var p := CycleUpTo(a, deliveries, anchor, n - 1);
      var q := CycleUpTo(a, deliveries, anchor, n);
      ProcessTargetEffect(p, deliveries[n - 1], anchor);
      UntouchedIsNotReplayed(CachedOf(p.agent, target), anchor);
      NotReplayedChains(CachedOf(a, target), CachedOf(p.agent, target), CachedOf(q.agent, target), anchor);
    }
  }

  lemma UntouchedIsNotReplayed(f: CachedFile, anchor: string)
    ensures NotReplayed(f, f, anchor)
  {
  }

  /**
   * Replay protection over any number of cycles, whatever the network delivers:
   * the cached (version, artifact_revision) of a target never decreases.
   */
  lemma {:induction false} CyclesNeverRegress(a: Agent, cycles: seq<seq<Delivery>>, anchor: string, target: Target)
    ensures NotReplayed(CachedOf(a, target), CachedOf(Cycles(a, cycles, anchor), target), anchor)
  {
    hide NotReplayed, CycleUpTo;
    if cycles == [] {
      UntouchedIsNotReplayed(CachedOf(a, target), anchor);
    } else {
      var before := Cycles(a, cycles[..|cycles| - 1], anchor);
      CyclesNeverRegress(a, cycles[..|cycles| - 1], anchor, target);
      CycleNeverRegresses(before, cycles[|cycles| - 1], anchor, |cycles[|cycles| - 1]|, target);
      var after := Cycles(a, cycles, anchor);
      NotReplayedChains(CachedOf(a, target), CachedOf(before, target), CachedOf(after, target), anchor);
    }
  }

  /** No delivery for a target, or only rejected ones, leaves that target's cached list as it was. */
  lemma {:induction false} RejectedLeavesCache(a: Agent, deliveries: seq<Delivery>, anchor: string, n: nat,
                                               target: Target)
    requires n <= |deliveries|
    requires forall i :: 0 <= i < n && deliveries[i].target == target ==>
               !Judge(CachedOf(a, target), deliveries[i], anchor).Accepted?
    ensures CachedOf(CycleUpTo(a, deliveries, anchor, n).agent, target) == CachedOf(a, target)
  {
    hide Judge;
    if n > 0 {
      RejectedLeavesCache(a, deliveries, anchor, n - 1, target);
      ProcessTargetEffect(CycleUpTo(a, deliveries, anchor, n - 1), deliveries[n - 1], anchor);
    }
  }

  // ---- an honest server ----

  /** GET .../artifact: the served artifact; with Vault sealed, the newest stored one while it lives. */
  function ArtifactEndpoint(s: Server, target: Target, now: Time, vault: Option<VaultMaterial>): (Server, Option<nat>) {
    var (u, o) := GetOrRegenerate(s, Request(target, false, false), now, vault);
    if o.Served? then (u, Some(o.row))
    else if o.VaultSealed? && LatestRow(u.db, target).Some?
            && TtlRemainingSeconds(LatestRow(u.db, target).value, now) > 0
    then (u, LatestArtifact(u.db, target))
    else (u, None)
  }

  /** GET .../artifact.sig has no such fallback. */
  function SignatureEndpoint(s: Server, target: Target, now: Time, vault: Option<VaultMaterial>)
    : (Server, Option<nat>)
  {
    var (u, o) := GetOrRegenerate(s, Request(target, false, false), now, vault);
    (u, if o.Served? then Some(o.row) else None)
  }

  /**
   * With Vault sealed and a rebuild due, the artifact endpoint hands out the newest
   * artifact exactly while it has a second to live, and the signature endpoint
   * nothing, so no pull succeeds.
   */
  lemma EndpointsWhenSealed(s: Server, target: Target, now: Time, vault: Option<VaultMaterial>)
    requires CoreInv(s) && GetOrRegenerate(s, Request(target, false, false), now, vault).1.VaultSealed?
    ensures var newest := LatestRow(s.db, target);
            && (ArtifactEndpoint(s, target, now, vault).1.Some? <==>
                  newest.Some? && newest.value.expiresAt - now >= 1_000_000)
            && (ArtifactEndpoint(s, target, now, vault).1.Some? ==>
                  var (u, row) := ArtifactEndpoint(s, target, now, vault);
                  row.value < |u.db.artifacts| && newest == Some(u.db.artifacts[row.value]))
            && SignatureEndpoint(s, target, now, vault).1 == None
  {
    hide GetOrRegenerate, CoreInv, Latest, EnsureTrustListCurrent;
    var q := Request(target, false, false);
    var (u, o) := GetOrRegenerate(s, q, now, vault);
    CallCases(s, q, now, vault, u, o);
    assert Revisions(u.db.artifacts) == Revisions(s.db.artifacts);
  }

  /** Nothing the artifact endpoint hands out has expired, Vault sealed or not. */
  lemma EndpointNeverExpired(s: Server, target: Target, now: Time, vault: Option<VaultMaterial>)
    requires CoreInv(s) && now >= s.settings.minIntervalSeconds * SECOND
    requires ThresholdSeconds(s.settings) >= 1 && Max0(s.settings.minIntervalSeconds) < s.settings.ttlSeconds
    requires ArtifactEndpoint(s, target, now, vault).1.Some?
    ensures var (u, row) := ArtifactEndpoint(s, target, now, vault);
            row.value < |u.db.artifacts| && u.db.artifacts[row.value].expiresAt > now
  {
    hide GetOrRegenerate, CoreInv, LatestArtifact, ThresholdSeconds;
    var q := Request(target, false, false);
    var (u, o) := GetOrRegenerate(s, q, now, vault);
    if o.Served? {
      NeverExpired(s, q, now, vault, u, o);
    } else {
      EndpointsWhenSealed(s, target, now, vault);
    }
  }

  /** One pull: two requests with any server steps between them. */
  datatype Pull = Pull(target: Target, at: Time, vault: Option<VaultMaterial>, between: seq<Step>,
                       sigAt: Time, sigVault: Option<VaultMaterial>, agentNow: Time)

  datatype Exchange = Exchange(server: Server, artifactRow: Option<nat>, signatureRow: Option<nat>)

  function Requests(s: Server, p: Pull): Exchange {
    var (u, a) := ArtifactEndpoint(s, p.target, p.at, p.vault);
    var (v, g) := SignatureEndpoint(PublicationRuns.Run(u, p.between), p.target, p.sigAt, p.sigVault);
    Exchange(v, a, g)
  }

  function ResponseOf(x: Exchange): Response {
    if x.artifactRow.Some? && x.signatureRow.Some?
       && x.artifactRow.value < |x.server.db.artifacts| && x.signatureRow.value < |x.server.db.artifacts|
    then Delivered(x.server.db.artifacts[x.artifactRow.value].artifact,
                   SignatureOf(x.server.db.artifacts[x.signatureRow.value]))
    else FetchFailed
  }

  /** What the two endpoints hand out are rows of the table, the newest at their time; rows never change. */
  lemma ExchangeRows(s: Server, p: Pull)
    requires CoreInv(s)
    ensures var x := Requests(s, p);
            && CoreInv(x.server) && Extends(s.db, x.server.db)
            && (x.artifactRow.Some? ==>
                  && x.artifactRow.value < |x.server.db.artifacts|
                  && x.server.db.artifacts[x.artifactRow.value].target == p.target
                  && NotBefore(s, p.target, x.artifactRow.value))
            && (x.signatureRow.Some? ==>
                  && x.signatureRow.value < |x.server.db.artifacts|
                  && x.server.db.artifacts[x.signatureRow.value].target == p.target)
  {
    hide GetOrRegenerate, CoreInv, VersionsAscend, Latest;
    var q := Request(p.target, false, false);
    var (u, o) := GetOrRegenerate(s, q, p.at, p.vault);
    CallServesNewest(s, q, p.at, p.vault, u, o);
    RunKeepsCore(u, p.between);
    var w := PublicationRuns.Run(u, p.between);
    var (v, o') := GetOrRegenerate(w, q, p.sigAt, p.sigVault);
    CallServesNewest(w, q, p.sigAt, p.sigVault, v, o');
    forall j | 0 <= j < |s.db.artifacts| && s.db.artifacts[j].target == p.target
      ensures LatestArtifact(u.db, p.target).Some? && j <= LatestArtifact(u.db, p.target).value
    {
      assert u.db.artifacts[j] == s.db.artifacts[j];
      RowUpToNewest(u, j);
    }
  }

  /** No row of the target comes after `row`. */
  predicate NotBefore(s: Server, target: Target, row: nat) {
    forall j :: 0 <= j < |s.db.artifacts| && s.db.artifacts[j].target == target ==> j <= row
  }

  /** With atomic calls all through, the pull keeps the version order. */
  lemma ExchangeKeepsInv(s: Server, p: Pull)
    requires Inv(s)
    ensures Inv(Requests(s, p).server)
  {
    hide GetOrRegenerate, Inv, Latest;
    var q := Request(p.target, false, false);
    var (u, o) := GetOrRegenerate(s, q, p.at, p.vault);
    CallServesLatestRow(s, q, p.at, p.vault, u, o);
    RunKeepsInv(u, p.between);
    var w := PublicationRuns.Run(u, p.between);
    var (v, o') := GetOrRegenerate(w, q, p.sigAt, p.sigVault);
    CallServesLatestRow(w, q, p.sigAt, p.sigVault, v, o');
  }

  lemma RowUpToNewest(s: Server, j: nat)
    requires CoreInv(s) && j < |s.db.artifacts|
    ensures var k := s.db.artifacts[j].target; LatestArtifact(s.db, k).Some? && j <= LatestArtifact(s.db, k).value
  {
    assert Revisions(s.db.artifacts)[j].0 == s.db.artifacts[j].target;
    RowsUpToLatest(Revisions(s.db.artifacts), j);
  }

  /** Two sound rows of one target with the same signed payload are the same row. */
  lemma PayloadIdentifiesRow(s: Server, i: nat, j: nat)
    requires CoreInv(s) && i < |s.db.artifacts| && j < |s.db.artifacts|
    requires CanonicalPayload(s.db.artifacts[i].artifact) == CanonicalPayload(s.db.artifacts[j].artifact)
    ensures i == j
  {
    var a, b := s.db.artifacts[i], s.db.artifacts[j];
    assert RowSound(a) && RowSound(b);
    assert CanonicalPayload(a.artifact).zone == CanonicalPayload(b.artifact).zone;
    assert a.target == b.target && a.revision == b.revision;
    var rows := Revisions(s.db.artifacts);
    assert rows[i] == rows[j];
    Gapless(rows, a.target, a.revision);
  }

  /** The artifact of one row and the signature of another: accepted exactly when they are one row of the anchor's. */
  lemma RowsVerifyIff(s: Server, i: nat, j: nat, anchor: string)
    requires CoreInv(s) && Lower(anchor) == anchor
    requires i < |s.db.artifacts| && j < |s.db.artifacts|
    ensures var a, b := s.db.artifacts[i], s.db.artifacts[j];
            var v := VerifySignedArtifact(a.artifact, SignatureOf(b), a.target, anchor);
            && (v.Verified? <==> i == j && a.signerFingerprint == anchor)
            && (v.Verified? ==> v.digest == a.sha256)
  {
    hide VerifySignedArtifact, CanonicalPayload, RowsFromLists, CacheAgrees;
    var a, b := s.db.artifacts[i], s.db.artifacts[j];
    SoundAt(s, i);
    SoundAt(s, j);
    PairVerifiesIff(a, b, anchor);
    if CanonicalPayload(a.artifact) == CanonicalPayload(b.artifact) {
      PayloadIdentifiesRow(s, i, j);
    }
  }

  /**
   * Torn reads are caught: whatever the server does between the two requests,
   * verification succeeds exactly when both came from one row and the anchor key
   * signed it, and then the digest is that row's.
   */
  lemma TornReadIff(s: Server, p: Pull, anchor: string)
    requires CoreInv(s) && Lower(anchor) == anchor
    requires ResponseOf(Requests(s, p)).Delivered?
    ensures var x := Requests(s, p);
            var r := ResponseOf(x);
            var v := VerifySignedArtifact(r.artifact, r.signature, p.target, anchor);
            && (v.Verified? <==> x.artifactRow == x.signatureRow
                                 && x.server.db.artifacts[x.artifactRow.value].signerFingerprint == anchor)
            && (v.Verified? ==> v.digest == x.server.db.artifacts[x.artifactRow.value].sha256)
  {
    hide GetOrRegenerate, PublicationRuns.Run, VerifySignedArtifact, CanonicalPayload, CoreInv, Requests;
    ExchangeRows(s, p);
    var x := Requests(s, p);
    RowsVerifyIff(x.server, x.artifactRow.value, x.signatureRow.value, anchor);
  }

  lemma SoundAt(s: Server, i: nat)
    requires CoreInv(s) && i < |s.db.artifacts|
    ensures RowSound(s.db.artifacts[i])
  {
  }

  // ---- server and agent together ----

  datatype Net = Net(server: Server, agent: Agent)
  datatype NetEvent = ServerStep(step: Step) | AgentPull(pull: Pull)

  function PullVerdict(n: Net, p: Pull, anchor: string): (Net, Verdict) {
    var x := Requests(n.server, p);
    var (q, verdict) := ProcessTarget(Progress(n.agent, false, false),
                                      Delivery(p.target, ResponseOf(x), p.agentNow), anchor);
    (Net(x.server, q.agent), verdict)
  }

  function NetRun(n: Net, events: seq<NetEvent>, anchor: string): Net {
    if events == [] then n
    else
      var before := NetRun(n, events[..|events| - 1], anchor);
      match events[|events| - 1]
      case ServerStep(step) => Net(Apply(before.server, step), before.agent)
      case AgentPull(p) => PullVerdict(before, p, anchor).0
  }

  predicate CachedFromRow(s: Server, target: Target, f: CachedFile, i: nat) {
    f.Stored? && i < |s.db.artifacts| && s.db.artifacts[i].target == target && s.db.artifacts[i].artifact == f.artifact
  }

  /** Whatever signed artifact the agent holds is one of the server's rows. */
  ghost predicate AgentKnowsRows(n: Net, anchor: string) {
    forall t :: t in n.agent.cache && SignedCompatible(n.agent.cache[t], anchor) ==>
      exists i: nat :: CachedFromRow(n.server, t, n.agent.cache[t], i)
  }

  ghost predicate NetInv(n: Net, anchor: string) {
    Inv(n.server) && AgentKnowsRows(n, anchor)
  }

  lemma KnowledgeExtends(n: Net, server: Server, anchor: string)
    requires AgentKnowsRows(n, anchor) && Extends(n.server.db, server.db)
    ensures AgentKnowsRows(Net(server, n.agent), anchor)
  {
    forall t | t in n.agent.cache && SignedCompatible(n.agent.cache[t], anchor)
      ensures exists i: nat :: CachedFromRow(server, t, n.agent.cache[t], i)
    {
      var i: nat :| CachedFromRow(n.server, t, n.agent.cache[t], i);
      assert CachedFromRow(server, t, n.agent.cache[t], i);
    }
  }

  /** The row an honest pull delivers is never behind the one the agent holds. */
  lemma DeliveredRowNotBehind(n: Net, p: Pull, anchor: string)
    requires NetInv(n, anchor)
    requires Requests(n.server, p).artifactRow.Some?
    ensures var x := Requests(n.server, p);
            var i := x.artifactRow.value;
            i < |x.server.db.artifacts| &&
            var a := x.server.db.artifacts[i];
            && a.artifact.version == Some(a.trustlistVersion) && a.artifact.revision == Some(a.revision)
            && !Regresses(CachedOf(n.agent, p.target), anchor, a.trustlistVersion, a.revision)
  {
    hide Requests, VersionsAscend, CoreInv, RowSound;
    InvIsCore(n.server);
    ExchangeRows(n.server, p);
    ExchangeKeepsInv(n.server, p);
    var x := Requests(n.server, p);
    var i := x.artifactRow.value;
    RowNumbers(x.server, i);
    if SignedCompatible(CachedOf(n.agent, p.target), anchor) {
      var j: nat :| CachedFromRow(n.server, p.target, n.agent.cache[p.target], j);
      assert x.server.db.artifacts[j] == n.server.db.artifacts[j];
      RowNumbers(x.server, j);
      if j < i {
        PairsIncrease(x.server, j, i);
      }
    }
  }

  lemma RowNumbers(s: Server, i: nat)
    requires CoreInv(s) && i < |s.db.artifacts|
    ensures var a := s.db.artifacts[i];
            a.artifact.version == Some(a.trustlistVersion) && a.artifact.revision == Some(a.revision)
  {
    SoundAt(s, i);
  }

  /** One honest pull: no replay alarm, and the agent still holds only the server's rows. */
  lemma HonestPull(n: Net, p: Pull, anchor: string)
    requires NetInv(n, anchor)
    ensures var (m, verdict) := PullVerdict(n, p, anchor);
            NetInv(m, anchor) && verdict != Rejected(ReplayDetected) && Extends(n.server.db, m.server.db)
  {
    hide Requests, VersionsAscend, CoreInv, Inv, VerifySignedArtifact, PayloadWellFormed, SignatureOf, Regresses;
    InvIsCore(n.server);
    ExchangeRows(n.server, p);
    ExchangeKeepsInv(n.server, p);
    var x := Requests(n.server, p);
    KnowledgeExtends(n, x.server, anchor);
    if x.artifactRow.Some? {
      DeliveredRowNotBehind(n, p, anchor);
    }
    var (m, verdict) := PullVerdict(n, p, anchor);
    if verdict.Accepted? {
      assert CachedFromRow(x.server, p.target, m.agent.cache[p.target], x.artifactRow.value);
      forall t | t in m.agent.cache && SignedCompatible(m.agent.cache[t], anchor)
        ensures exists i: nat :: CachedFromRow(m.server, t, m.agent.cache[t], i)
      {
        if t != p.target {
          var i: nat :| CachedFromRow(x.server, t, n.agent.cache[t], i);
          assert CachedFromRow(m.server, t, m.agent.cache[t], i);
        }
      }
    }
  }

  lemma {:induction false} NetRunKeepsInv(n: Net, events: seq<NetEvent>, anchor: string)
    requires NetInv(n, anchor)
    ensures NetInv(NetRun(n, events, anchor), anchor)
  {
    hide Apply, PullVerdict, Inv, AgentKnowsRows;
    if events != [] {
      var before := NetRun(n, events[..|events| - 1], anchor);
      NetRunKeepsInv(n, events[..|events| - 1], anchor);
      match events[|events| - 1]
      case ServerStep(step) =>
        StepKeepsInv(before.server, step);
        KnowledgeExtends(before, Apply(before.server, step), anchor);
      case AgentPull(p) => HonestPull(before, p, anchor);
    }
  }

  /**
   * From a fresh server and an empty agent cache, after any history of server
   * steps and pulls with any server steps inside each pull, the next honest pull
   * never reports a replay.
   */
  lemma HonestPullsNeverReplay(settings: Settings, keyId: string, fingerprint: string, anchor: string,
                               events: seq<NetEvent>, p: Pull)
    ensures var n := NetRun(Net(Start(settings, keyId, fingerprint), Agent(map[], None)), events, anchor);
            PullVerdict(n, p, anchor).1 != Rejected(ReplayDetected)
  {
    hide PullVerdict, Inv;
    var n0 := Net(Start(settings, keyId, fingerprint), Agent(map[], None));
    StartHasInv(settings, keyId, fingerprint);
    NetRunKeepsInv(n0, events, anchor);
    HonestPull(NetRun(n0, events, anchor), p, anchor);
  }
}
