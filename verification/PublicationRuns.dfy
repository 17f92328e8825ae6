/**
 * Whole runs of a GDS process whose calls are atomic steps: what every call
 * returns, how (version, revision) grows, and that revocation is final.
 */
module PublicationRuns {
  import opened Common
  import opened Numbering
  import opened Artifacts
  import opened TrustTables
  import opened Publication
  import Lifecycle

  // ---- version order: the part of the invariant that needs atomic calls ----

  function LatestVersion(t: Tables, target: Target): int {
    CountOf(Versions(t.lists), target)
  }

  predicate VersionsAscend(t: Tables) {
    && (forall i :: 0 <= i < |t.artifacts| ==>
         t.artifacts[i].trustlistVersion <= LatestVersion(t, t.artifacts[i].target))
    && (forall i, j :: 0 <= i < j < |t.artifacts| && t.artifacts[i].target == t.artifacts[j].target ==>
          t.artifacts[i].trustlistVersion <= t.artifacts[j].trustlistVersion)
  }

  ghost predicate Inv(s: Server) {
    CoreInv(s) && VersionsAscend(s.db)
  }

  /** Lexicographic order on (version, revision), as Python compares the tuples. */
  predicate PairLess(v: int, r: int, v': int, r': int) {
    v < v' || (v == v' && r < r')
  }

  /** Rows of one target appear in strictly increasing (version, revision) order, whatever happened. */
  lemma PairsIncrease(s: Server, i: nat, j: nat)
    requires Inv(s) && i < j < |s.db.artifacts| && s.db.artifacts[i].target == s.db.artifacts[j].target
    ensures var a, b := s.db.artifacts[i], s.db.artifacts[j];
            PairLess(a.trustlistVersion, a.revision, b.trustlistVersion, b.revision) && a.revision < b.revision
  {
    var rows := Revisions(s.db.artifacts);
    assert rows[i].0 == rows[j].0;
    NumbersIncrease(rows, i, j);
  }

  /** The revision column of each target is exactly 1..n, and the signed JSON repeats the row's numbers. */
  lemma RevisionsAreGapless(s: Server, target: Target, revision: int)
    requires CoreInv(s)
    ensures 1 <= revision <= CountOf(Revisions(s.db.artifacts), target) <==>
            exists i :: 0 <= i < |s.db.artifacts| && s.db.artifacts[i].target == target
                && s.db.artifacts[i].revision == revision
    ensures forall i :: 0 <= i < |s.db.artifacts| ==>
            s.db.artifacts[i].artifact.revision == Some(s.db.artifacts[i].revision)
  {
    var rows := Revisions(s.db.artifacts);
    Gapless(rows, target, revision);
    if (target, revision) in rows {
      var i :| 0 <= i < |rows| && rows[i] == (target, revision);
      assert s.db.artifacts[i].target == target && s.db.artifacts[i].revision == revision;
    }
    if i :| 0 <= i < |s.db.artifacts| && s.db.artifacts[i].target == target && s.db.artifacts[i].revision == revision {
      assert rows[i] == (target, revision);
    }
  }

  // ---- one call ----

  function AfterEnsure(s: Server, target: Target): Server {
    s.(db := EnsureTrustListCurrent(s.db, target))
  }

  lemma VersionsPrefix(t: Tables, u: Tables, target: Target)
    requires t.lists <= u.lists && ListsNumbered(u)
    ensures LatestVersion(t, target) <= LatestVersion(u, target)
  {
    SequentialPrefix(Versions(u.lists), |t.lists|, target);
    assert Versions(u.lists)[..|t.lists|] == Versions(t.lists);
  }

  lemma EnsureKeepsInv(s: Server, target: Target)
    requires Inv(s)
    ensures Inv(AfterEnsure(s, target)) && Extends(s.db, AfterEnsure(s, target).db)
    ensures LatestList(AfterEnsure(s, target).db, target).Some?
  {
    BuildKeepsInv(s, target);
    EnsureMembersExact(s.db, target, target);
  }

  lemma BuildKeepsInv(s: Server, target: Target)
    requires Inv(s)
    ensures Inv(s.(db := BuildTrustList(s.db, target)))
  {
    var u := s.(db := BuildTrustList(s.db, target));
    BuildMakesLatest(s.db, target, target);
    NewListsKeepCore(s, u);
    forall i | 0 <= i < |u.db.artifacts|
      ensures u.db.artifacts[i].trustlistVersion <= LatestVersion(u.db, u.db.artifacts[i].target)
    {
      VersionsPrefix(s.db, u.db, u.db.artifacts[i].target);
    }
  }

  /** Steps that leave artifacts, cache and clocks alone and only append lists keep the invariant. */
  lemma NewListsKeepCore(s: Server, u: Server)
    requires CoreInv(s)
    requires u == s.(db := u.db) && u.db.artifacts == s.db.artifacts && s.db.lists <= u.db.lists
    requires ListsNumbered(u.db) && MembersDistinct(u.db)
    ensures CoreInv(u)
  {
    forall i | 0 <= i < |u.db.artifacts|
      ensures var r := u.db.artifacts[i];
              r.artifact.certificates.Some?
                  && FromList(u.db, r.target, r.trustlistVersion, r.artifact.certificates.value)
    {
      var r := u.db.artifacts[i];
      FromListExtends(s.db, u.db, r.target, r.trustlistVersion, r.artifact.certificates.value);
    }
    CacheExtends(s, u);
    forall k | k in u.lastRegen ensures ClockAgrees(u, k) {
      ClockExtends(s, u, k);
    }
  }

  lemma EnsureKeepsCore(s: Server, target: Target)
    requires CoreInv(s)
    ensures CoreInv(AfterEnsure(s, target)) && Extends(s.db, AfterEnsure(s, target).db)
  {
    EnsureMembersExact(s.db, target, target);
    NewListsKeepCore(s, AfterEnsure(s, target));
  }

  /** The version a call reads is the newest one. */
  lemma ReadIsLatest(s: Server, target: Target)
    requires CoreInv(s) && ReadTrustList(s, target).Some?
    ensures ReadTrustList(s, target).value.version == LatestVersion(s.db, target)
  {
    LatestIsLast(Versions(s.db.lists), target);
  }

  lemma AppendedRowKeepsOrder(t: Tables, u: Tables)
    requires VersionsAscend(t) && t.artifacts <= u.artifacts && |u.artifacts| == |t.artifacts| + 1 && u.lists == t.lists
    requires var r := u.artifacts[|t.artifacts|]; r.trustlistVersion == LatestVersion(t, r.target)
    ensures VersionsAscend(u)
  {
    forall i | 0 <= i < |u.artifacts|
      ensures u.artifacts[i].trustlistVersion <= LatestVersion(u, u.artifacts[i].target)
    {
      if i < |t.artifacts| { assert u.artifacts[i] == t.artifacts[i]; }
    }
    forall i, j | 0 <= i < j < |u.artifacts| && u.artifacts[i].target == u.artifacts[j].target
      ensures u.artifacts[i].trustlistVersion <= u.artifacts[j].trustlistVersion
    {
      assert u.artifacts[i] == t.artifacts[i];
      if j < |t.artifacts| { assert u.artifacts[j] == t.artifacts[j]; }
    }
  }

  // ---- one call, whole ----

  /** The state and the reads a call proceeds from. */
  lemma CallStart(s: Server, q: Request)
    requires CoreInv(s)
    ensures var s1 := AfterEnsure(s, q.target);
            && CoreInv(s1) && Extends(s.db, s1.db) && SameProcess(s, s1) && s1.lastRegen == s.lastRegen
            && s1.db.artifacts == s.db.artifacts
            && LatestRow(s1.db, q.target) == LatestRow(s.db, q.target)
            && ReadTrustList(s1, q.target).Some?
            && var read := ReadTrustList(s1, q.target).value;
            && read.target == q.target && ReadValid(s1.db, read)
            && read.version == LatestVersion(s1.db, q.target)
  {
    var s1 := AfterEnsure(s, q.target);
    EnsureKeepsCore(s, q.target);
    EnsureMembersExact(s.db, q.target, q.target);
    ReadIsValid(s1, q.target);
    ReadIsLatest(s1, q.target);
  }

  /** The call was about to regenerate, and the throttle stopped it. */
  predicate Throttled(s: Server, q: Request, now: Time) {
    var s1 := AfterEnsure(s, q.target);
    && ReadTrustList(s1, q.target).Some?
    && ReasonNow(s1, ReadTrustList(s1, q.target).value, q, now).Some?
    && !q.force && TooSoon(s1, q.target, now)
  }

  /** The call found nothing to regenerate: the newest artifact has the current version and signer, and is not due. */
  predicate UpToDate(s: Server, q: Request, now: Time) {
    var s1 := AfterEnsure(s, q.target);
    && ReadTrustList(s1, q.target).Some?
    && ReasonNow(s1, ReadTrustList(s1, q.target).value, q, now).None?
  }

  /** `GetOrRegenerate` seen from its caller. */
  ghost predicate CallResult(s: Server, q: Request, now: Time, vault: Option<VaultMaterial>, u: Server, o: Outcome) {
    (u, o) == GetOrRegenerate(s, q, now, vault)
  }

  predicate ServesNewest(u: Server, q: Request, o: Outcome) {
    o.Served? ==>
      && LatestArtifact(u.db, q.target) == Some(o.row)
      && o.artifact == u.db.artifacts[o.row].artifact
      && o.version == LatestVersion(u.db, q.target)
  }

  /** The four ways a call ends. */
  lemma CallCases(s: Server, q: Request, now: Time, vault: Option<VaultMaterial>, u: Server, o: Outcome)
    requires CoreInv(s) && CallResult(s, q, now, vault, u, o)
    ensures CoreInv(u) && Extends(s.db, u.db) && SameProcess(s, u)
    ensures u.db.lists == AfterEnsure(s, q.target).db.lists
    ensures var s1 := AfterEnsure(s, q.target);
            && ReadTrustList(s1, q.target).Some?
            && var read := ReadTrustList(s1, q.target).value;
            && read.version == LatestVersion(s1.db, q.target)
            && (UpToDate(s, q, now) || Throttled(s, q, now) ==>
                  && u.db.artifacts == s.db.artifacts
                  && (if LatestArtifact(u.db, q.target).None? then o == MissingArtifact
                      else o == Served(read.version, LatestArtifact(u.db, q.target).value,
                                       u.db.artifacts[LatestArtifact(u.db, q.target).value].artifact)))
            && (!UpToDate(s, q, now) && !Throttled(s, q, now) && vault.None? ==>
                 o == VaultSealed && u.db.artifacts == s.db.artifacts)
            && (!UpToDate(s, q, now) && !Throttled(s, q, now) && vault.Some? ==>
                  && |u.db.artifacts| == |s.db.artifacts| + 1
                  && FreshRow(u.db.artifacts[|s.db.artifacts|], s1, read, now)
                  && LatestArtifact(u.db, q.target) == Some(|s.db.artifacts|)
                  && o == Served(read.version, |s.db.artifacts|, u.db.artifacts[|s.db.artifacts|].artifact))
  {
    hide EnsureTrustListCurrent, Entries, LatestList, LatestArtifact, Proceed, ListsNumbered, MembersDistinct;
    hide RegenerationReason, TooSoon, FreshRow, LatestRow, CoreInv, VersionsAscend, LatestVersion;
    CallStart(s, q);
    var s1 := AfterEnsure(s, q.target);
    var read := ReadTrustList(s1, q.target).value;
    ProceedCases(s1, read, q, now, vault);
  }

  lemma InvIsCore(s: Server)
    requires Inv(s)
    ensures CoreInv(s)
  {
  }

  /**
   * What a call returns, even after rebuilds have overlapped: the newest row of
   * the target, exactly as stored, with the newest trust-list version beside it.
   */
  lemma CallServesNewest(s: Server, q: Request, now: Time, vault: Option<VaultMaterial>, u: Server, o: Outcome)
    requires CoreInv(s) && CallResult(s, q, now, vault, u, o)
    ensures CoreInv(u) && Extends(s.db, u.db) && SameProcess(s, u) && ServesNewest(u, q, o)
    ensures !o.NoTrustList? && (o.VaultSealed? ==> vault.None?)
  {
    hide EnsureTrustListCurrent, Entries, LatestList, LatestArtifact, GetOrRegenerate, CoreInv;
    CallCases(s, q, now, vault, u, o);
    CallStart(s, q);
  }

  /** An atomic call keeps the version order too. */
  lemma CallServesLatestRow(s: Server, q: Request, now: Time, vault: Option<VaultMaterial>, u: Server, o: Outcome)
    requires Inv(s) && CallResult(s, q, now, vault, u, o)
    ensures Inv(u) && Extends(s.db, u.db) && SameProcess(s, u) && ServesNewest(u, q, o)
    ensures !o.NoTrustList? && (o.VaultSealed? ==> vault.None?)
  {
    hide EnsureTrustListCurrent, Entries, LatestList, LatestArtifact, GetOrRegenerate, CoreInv;
    CallServesNewest(s, q, now, vault, u, o);
    CallCases(s, q, now, vault, u, o);
    CallStart(s, q);
    EnsureKeepsInv(s, q.target);
    var s1 := AfterEnsure(s, q.target);
    if |u.db.artifacts| == |s.db.artifacts| + 1 {
      AppendedRowKeepsOrder(s1.db, u.db);
    }
  }

  /**
   * A call fails for want of an artifact exactly when no artifact exists yet and
   * the clock itself still reads less than the throttle interval, so never on a
   * machine whose clock is past 1970: the throttle cannot suppress a first build.
   */
  lemma MissingIff(s: Server, q: Request, now: Time, vault: Option<VaultMaterial>, u: Server, o: Outcome)
    requires CoreInv(s) && CallResult(s, q, now, vault, u, o)
    ensures o.MissingArtifact? <==>
            && LatestArtifact(s.db, q.target).None? && !q.force
            && now < s.settings.minIntervalSeconds * SECOND
  {
    hide EnsureTrustListCurrent, Entries, LatestList, LatestArtifact, GetOrRegenerate;
    CallCases(s, q, now, vault, u, o);
    CallStart(s, q);
    if q.target in s.lastRegen {
      assert ClockAgrees(s, q.target);
    }
  }

  /** The three ways to be served: up to date, throttled, or freshly generated. */
  lemma ServedCases(s: Server, q: Request, now: Time, vault: Option<VaultMaterial>, u: Server, o: Outcome)
    requires CoreInv(s) && CallResult(s, q, now, vault, u, o) && o.Served?
    ensures o.row < |u.db.artifacts|
    ensures var r := u.db.artifacts[o.row];
            var s1 := AfterEnsure(s, q.target);
            && ReadTrustList(s1, q.target).Some?
            && var read := ReadTrustList(s1, q.target).value;
            && (UpToDate(s, q, now) ==> LatestRow(s.db, q.target) == Some(r) && r.trustlistVersion == read.version)
            && (Throttled(s, q, now) ==> LatestRow(s.db, q.target) == Some(r))
            && (!UpToDate(s, q, now) && !Throttled(s, q, now) ==> FreshRow(r, s1, read, now))
  {
    hide EnsureTrustListCurrent, Entries, LatestList, GetOrRegenerate, CoreInv, VersionsAscend, FreshRow, Latest;
    CallCases(s, q, now, vault, u, o);
    CallStart(s, q);
  }

  /** Every returned artifact carries the running process's signer, even when regeneration was throttled. */
  lemma ServedSignerIsCurrent(s: Server, q: Request, now: Time, vault: Option<VaultMaterial>, u: Server, o: Outcome)
    requires CoreInv(s) && CallResult(s, q, now, vault, u, o) && o.Served?
    requires now >= s.settings.minIntervalSeconds * SECOND
    ensures o.row < |u.db.artifacts|
    ensures var r := u.db.artifacts[o.row];
            r.signerKeyId == s.key.keyId && r.signerFingerprint == s.key.fingerprint
  {
    hide EnsureTrustListCurrent, Entries, LatestList, LatestArtifact, GetOrRegenerate;
    ServedCases(s, q, now, vault, u, o);
    CallStart(s, q);
    if Throttled(s, q, now) {
      assert q.target in s.lastRegen;
      assert ClockAgrees(s, q.target);
    } else if UpToDate(s, q, now) {
      LatestRowSound(s, q.target);
    }
  }

  lemma LatestRowSound(s: Server, target: Target)
    requires CoreInv(s) && LatestRow(s.db, target).Some?
    ensures RowSound(LatestRow(s.db, target).value)
    ensures LatestRow(s.db, target).value.artifact.certificates.Some?
  {
  }

  function Max0(x: int): int { if x > 0 then x else 0 }

  /** Remaining lifetime of everything a call returns, in the whole seconds the status endpoint reports. */
  lemma LifetimeBound(s: Server, q: Request, now: Time, vault: Option<VaultMaterial>, u: Server, o: Outcome)
    requires CoreInv(s) && CallResult(s, q, now, vault, u, o) && o.Served?
    requires now >= s.settings.minIntervalSeconds * SECOND
    ensures var c := s.settings;
            o.row < |u.db.artifacts| &&
            TtlRemainingSeconds(u.db.artifacts[o.row], now)
              >= Min(ThresholdSeconds(c), c.ttlSeconds - Max0(c.minIntervalSeconds))
  {
    hide EnsureTrustListCurrent, Entries, LatestList, LatestArtifact, GetOrRegenerate, ThresholdSeconds, TablesInv;
    ServedCases(s, q, now, vault, u, o);
    CallStart(s, q);
    var c, r := s.settings, u.db.artifacts[o.row];
    if Throttled(s, q, now) {
      assert q.target in s.lastRegen && ClockAgrees(s, q.target);
      assert r.expiresAt - now > (c.ttlSeconds - c.minIntervalSeconds) * SECOND;
    }
  }

  /**
   * With the configured throttle shorter than the lifetime and a threshold of at
   * least one second, nothing expired is ever returned.
   */
  lemma NeverExpired(s: Server, q: Request, now: Time, vault: Option<VaultMaterial>, u: Server, o: Outcome)
    requires CoreInv(s) && CallResult(s, q, now, vault, u, o) && o.Served?
    requires now >= s.settings.minIntervalSeconds * SECOND
    requires ThresholdSeconds(s.settings) >= 1 && Max0(s.settings.minIntervalSeconds) < s.settings.ttlSeconds
    ensures o.row < |u.db.artifacts| && u.db.artifacts[o.row].expiresAt > now
  {
    hide GetOrRegenerate, CoreInv, VersionsAscend, ThresholdSeconds;
    LifetimeBound(s, q, now, vault, u, o);
  }

  /**
   * Exactly when an expired artifact is returned, for a positive lifetime: the
   * newest row was already expired and either the threshold is not positive (so
   * age alone never triggers a rebuild) or the throttle stopped the rebuild.
   */
  lemma ExpiredServedIff(s: Server, q: Request, now: Time, vault: Option<VaultMaterial>, u: Server, o: Outcome)
    requires CoreInv(s) && CallResult(s, q, now, vault, u, o) && o.Served?
    requires s.settings.ttlSeconds > 0
    ensures var newest := LatestRow(s.db, q.target);
            o.row < |u.db.artifacts| &&
            (u.db.artifacts[o.row].expiresAt <= now <==>
              && newest.Some? && newest.value.expiresAt <= now
              && (Throttled(s, q, now) || (UpToDate(s, q, now) && ThresholdSeconds(s.settings) <= 0)))
  {
    hide EnsureTrustListCurrent, Entries, LatestList, LatestArtifact, GetOrRegenerate;
    hide CoreInv, VersionsAscend, LatestRow, ThresholdSeconds;
    ServedCases(s, q, now, vault, u, o);
    CallStart(s, q);
  }

  // ---- revoked certificates ----

  predicate ListsCert(entries: seq<CertEntry>, c: nat) {
    exists e :: e in entries && e.certificateId == Some(c)
  }

  /** Nothing a call reads after ensuring the list mentions a certificate that is not in force. */
  lemma ReadListsUsableOnly(s: Server, target: Target, c: nat)
    requires CoreInv(s) && !CertUsable(s.db, c)
    ensures var s1 := AfterEnsure(s, target);
            ReadTrustList(s1, target).Some? && !ListsCert(ReadTrustList(s1, target).value.certs, c)
  {
    var s1 := AfterEnsure(s, target);
    EnsureMembersExact(s.db, target, target);
    var members := s1.db.lists[LatestList(s1.db, target).value].members;
    EntriesAreMembers(s1.db, members, members);
    assert forall app: nat :: !StandsFor(s.db, target, app, c);
  }

  lemma SameVersionSameList(t: Tables, i: nat, j: nat)
    requires ListsNumbered(t) && i < |t.lists| && j < |t.lists|
    requires t.lists[i].target == t.lists[j].target && t.lists[i].version == t.lists[j].version
    ensures i == j
  {
    var rows := Versions(t.lists);
    assert rows[i] == rows[j];
    Gapless(rows, t.lists[i].target, t.lists[i].version);
  }

  /**
   * A call returns an artifact naming a certificate that is not in force exactly
   * when it was throttled and the newest artifact before the call named it.
   */
  lemma UnusableServedIff(s: Server, q: Request, now: Time, vault: Option<VaultMaterial>, u: Server, o: Outcome, c: nat)
    requires CoreInv(s) && CallResult(s, q, now, vault, u, o) && o.Served?
    requires !CertUsable(s.db, c)
    ensures o.row < |u.db.artifacts| && u.db.artifacts[o.row].artifact.certificates.Some?
    ensures ListsCert(u.db.artifacts[o.row].artifact.certificates.value, c) <==>
            && Throttled(s, q, now) && LatestRow(s.db, q.target).Some?
            && LatestRow(s.db, q.target).value.artifact.certificates.Some?
            && ListsCert(LatestRow(s.db, q.target).value.artifact.certificates.value, c)
  {
    hide EnsureTrustListCurrent, Entries, LatestList, LatestArtifact, GetOrRegenerate, CertUsable, LatestRow;
    hide ListsCert, RegenerationReason, CoreInv, VersionsAscend;
    ServedCases(s, q, now, vault, u, o);
    CallStart(s, q);
    ReadListsUsableOnly(s, q.target, c);
    KeptRowListsUsableOnly(s, q.target, c);
    if UpToDate(s, q, now) || Throttled(s, q, now) {
      LatestRowSound(s, q.target);
    }
  }

  /** An artifact whose version is the ensured list's version names only certificates in force. */
  lemma KeptRowListsUsableOnly(s: Server, target: Target, c: nat)
    requires CoreInv(s) && !CertUsable(s.db, c)
    ensures var s1 := AfterEnsure(s, target);
            && ReadTrustList(s1, target).Some?
            && (LatestRow(s1.db, target).Some?
                && LatestRow(s1.db, target).value.trustlistVersion == ReadTrustList(s1, target).value.version ==>
                  && LatestRow(s1.db, target).value.artifact.certificates.Some?
                  && !ListsCert(LatestRow(s1.db, target).value.artifact.certificates.value, c))
  {
    var s1 := AfterEnsure(s, target);
    EnsureKeepsCore(s, target);
    EnsureMembersExact(s.db, target, target);
    var m := LatestList(s1.db, target).value;
    assert forall app: nat :: !StandsFor(s.db, target, app, c);
    assert c !in s1.db.lists[m].members;
    if LatestRow(s1.db, target).Some? {
      var r := LatestRow(s1.db, target).value;
      assert FromList(s1.db, target, r.trustlistVersion, r.artifact.certificates.value);
      var l: nat :| ListHolds(s1.db, l, target, r.trustlistVersion, r.artifact.certificates.value);
      if r.trustlistVersion == s1.db.lists[m].version {
        SameVersionSameList(s1.db, l, m);
      }
    }
  }

  // ---- runs ----

  /** Everything the process or its operators can do to the state, each as one step. */
  datatype Step =
    | Call(q: Request, now: Time, vault: Option<VaultMaterial>)
    | Build(target: Target)
    | UpsertApplication(app: Application)
    | Heartbeat(appId: nat)
    | InsertCertificate(cert: Certificate)
    | RevokeCertificate(certId: nat, at: Time)
    | ExpireCertificates(now: Time)
    | InsertPackage(package: Package)
    | PackageRequest(packageRow: nat, requested: string)
    | Restart(settings: Settings, keyId: string, fingerprint: string)

  function IndexOfUri(apps: seq<Application>, uri: string): (r: Option<nat>)
    ensures r.Some? ==> r.value < |apps|
  {
    if apps == [] then None
    else if apps[|apps| - 1].uri == uri then Some(|apps| - 1)
    else IndexOfUri(apps[..|apps| - 1], uri)
  }

  predicate FingerprintKnown(t: Tables, fingerprint: string) {
    exists i :: 0 <= i < |t.certs| && t.certs[i].fingerprint == fingerprint
  }

  /** `mark_certificate_revoked`: the first revocation time is kept. */
  function MarkRevoked(t: Tables, id: nat, at: Time): Tables {
    if id >= |t.certs| then t
    else t.(certs := t.certs[id := t.certs[id].(
              status := Revoked,
              revokedAt := if t.certs[id].revokedAt.Some? then t.certs[id].revokedAt else Some(at))])
  }

  function Expire(c: Certificate, now: Time): Certificate {
    if c.status.Active? && c.revokedAt.None? && c.notAfter.Some? && c.notAfter.value < now
    then c.(status := Expired)
    else c
  }

  function ApplyToTables(t: Tables, step: Step): Tables {
    match step
    case UpsertApplication(app) =>
      (match IndexOfUri(t.apps, app.uri)
       case None => t.(apps := t.apps + [app])
       case Some(i) => t.(apps := t.apps[i := app.(componentType := t.apps[i].componentType)]))
    case Heartbeat(i) => if i < |t.apps| then t.(apps := t.apps[i := t.apps[i].(status := "active")]) else t
    case InsertCertificate(c) =>
      if FingerprintKnown(t, c.fingerprint) then t else t.(certs := t.certs + [c.(revokedAt := None)])
    case RevokeCertificate(id, at) => MarkRevoked(t, id, at)
    case ExpireCertificates(now) =>
      t.(certs := seq(|t.certs|, i requires 0 <= i < |t.certs| => Expire(t.certs[i], now)))
    case InsertPackage(p) => t.(packages := t.packages + [p])
    case PackageRequest(i, requested) =>
      if i < |t.packages| && Lifecycle.UpdateLifecycle(t.packages[i], requested).Updated?
      then t.(packages := t.packages[i := Lifecycle.UpdateLifecycle(t.packages[i], requested).row])
      else t
    case _ => t
  }

  function Apply(s: Server, step: Step): Server {
    match step
    case Call(q, now, vault) => GetOrRegenerate(s, q, now, vault).0
    case Build(target) => s.(db := BuildTrustList(s.db, target))
    case Restart(settings, keyId, fingerprint) =>
      Server(s.db, map[], map[], settings, SigningKey(keyId, Lower(fingerprint)))
    case _ => s.(db := ApplyToTables(s.db, step))
  }

  function Run(s: Server, steps: seq<Step>): Server {
    if steps == [] then s else Apply(Run(s, steps[..|steps| - 1]), steps[|steps| - 1])
  }

  /** A fresh installation: empty tables, empty cache. */
  function Start(settings: Settings, keyId: string, fingerprint: string): Server {
    Server(Tables([], [], [], [], []), map[], map[], settings, SigningKey(keyId, Lower(fingerprint)))
  }

  lemma LowerTwice(s: string)
    ensures Lower(Lower(s)) == Lower(s)
  {
  }

  lemma StartHasInv(settings: Settings, keyId: string, fingerprint: string)
    ensures Inv(Start(settings, keyId, fingerprint))
  {
    LowerTwice(fingerprint);
    assert Versions([]) == [] && Revisions([]) == [];
  }

  lemma TableStepFrame(t: Tables, step: Step)
    ensures ApplyToTables(t, step).lists == t.lists && ApplyToTables(t, step).artifacts == t.artifacts
  {
  }

  lemma OtherTablesKeepInv(s: Server, u: Server)
    requires Inv(s) && u == s.(db := u.db) && u.db.artifacts == s.db.artifacts && u.db.lists == s.db.lists
    ensures Inv(u)
  {
    NewListsKeepCore(s, u);
  }

  lemma StepKeepsInv(s: Server, step: Step)
    requires Inv(s)
    ensures Inv(Apply(s, step)) && Extends(s.db, Apply(s, step).db)
  {
    hide GetOrRegenerate, ApplyToTables, VersionsAscend, TablesInv;
    match step
    case Call(q, now, vault) =>
      var (u, o) := GetOrRegenerate(s, q, now, vault);
      CallServesLatestRow(s, q, now, vault, u, o);
    case Build(target) => BuildKeepsInv(s, target);
    case Restart(settings, keyId, fingerprint) => LowerTwice(fingerprint);
    case _ =>
      TableStepFrame(s.db, step);
      OtherTablesKeepInv(s, Apply(s, step));
  }

  lemma CallKeepsCore(s: Server, q: Request, now: Time, vault: Option<VaultMaterial>)
    requires CoreInv(s)
    ensures var u := GetOrRegenerate(s, q, now, vault).0; CoreInv(u) && Extends(s.db, u.db)
  {
    hide EnsureTrustListCurrent, Entries, LatestList, LatestArtifact, Proceed, CoreInv;
    EnsureKeepsCore(s, q.target);
    var s1 := AfterEnsure(s, q.target);
    if ReadTrustList(s1, q.target).Some? {
      ReadIsValid(s1, q.target);
      ProceedCases(s1, ReadTrustList(s1, q.target).value, q, now, vault);
    }
  }

  lemma BuildKeepsCore(s: Server, target: Target)
    requires CoreInv(s)
    ensures CoreInv(s.(db := BuildTrustList(s.db, target)))
  {
    BuildMakesLatest(s.db, target, target);
    NewListsKeepCore(s, s.(db := BuildTrustList(s.db, target)));
  }

  lemma BuildListsFrame(t: Tables, step: Step)
    ensures step.Build? ==> Extends(t, BuildTrustList(t, step.target))
  {
  }

  lemma CoreLists(s: Server)
    requires CoreInv(s)
    ensures ListsNumbered(s.db) && MembersDistinct(s.db)
  {
  }

  lemma RestartKeepsCore(s: Server, settings: Settings, keyId: string, fingerprint: string)
    requires CoreInv(s)
    ensures CoreInv(Server(s.db, map[], map[], settings, SigningKey(keyId, Lower(fingerprint))))
  {
    LowerTwice(fingerprint);
    hide TablesInv;
  }

  /** Every step keeps the core invariant, even where the version order is already lost. */
  lemma StepKeepsCore(s: Server, step: Step)
    requires CoreInv(s)
    ensures CoreInv(Apply(s, step)) && Extends(s.db, Apply(s, step).db)
  {
    CoreLists(s);
    hide GetOrRegenerate, ApplyToTables, BuildTrustList, CoreInv;
    TableStepFrame(s.db, step);
    BuildListsFrame(s.db, step);
    match step
    case Call(q, now, vault) => CallKeepsCore(s, q, now, vault);
    case Build(target) => BuildKeepsCore(s, target);
    case Restart(settings, keyId, fingerprint) => RestartKeepsCore(s, settings, keyId, fingerprint);
    case _ => NewListsKeepCore(s, Apply(s, step));
  }

  /** The core invariant over every run from wherever an interleaving left off. */
  lemma {:induction false} RunKeepsCore(s: Server, steps: seq<Step>)
    requires CoreInv(s)
    ensures CoreInv(Run(s, steps)) && Extends(s.db, Run(s, steps).db)
  {
    if steps != [] {
      RunKeepsCore(s, steps[..|steps| - 1]);
      StepKeepsCore(Run(s, steps[..|steps| - 1]), steps[|steps| - 1]);
    }
  }

  /**
   * The cache is only a cache: with any other contents that agree with the table, a call
   * returns the same and leaves the same tables and clocks.
   */
  lemma CacheIsTransparent(s: Server, u: Server, q: Request, now: Time, vault: Option<VaultMaterial>)
    requires CoreInv(s) && CoreInv(u) && u == s.(cache := u.cache)
    ensures var (v, o) := GetOrRegenerate(s, q, now, vault);
            var (w, p) := GetOrRegenerate(u, q, now, vault);
            o == p && w == v.(cache := w.cache)
  {
    CallStart(s, q);
    CallStart(u, q);
    SameRead(AfterEnsure(s, q.target), AfterEnsure(u, q.target), q.target);
    hide EnsureTrustListCurrent, ReadTrustList, CoreInv, Proceed, ReadValid, LatestVersion, LatestRow;
    var (s1, u1) := (AfterEnsure(s, q.target), AfterEnsure(u, q.target));
    ProceedIgnoresCache(s1, u1, ReadTrustList(s1, q.target).value, ReadTrustList(u1, q.target).value, q, now, vault);
  }

  lemma SameRead(s: Server, u: Server, target: Target)
    requires u == s.(cache := u.cache) && ReadTrustList(s, target).Some?
    ensures ReadTrustList(u, target).Some?
    ensures var r := ReadTrustList(u, target).value; r == ReadTrustList(s, target).value.(cacheEntry := r.cacheEntry)
  {
  }

  lemma ProceedIgnoresCache(s: Server, u: Server, r: Read, r': Read, q: Request, now: Time,
                            vault: Option<VaultMaterial>)
    requires u == s.(cache := u.cache) && r' == r.(cacheEntry := r'.cacheEntry)
    requires ReadValid(s.db, r) && ReadValid(u.db, r')
    ensures var (v, o) := Proceed(s, r, q, now, vault);
            var (w, p) := Proceed(u, r', q, now, vault);
            o == p && w == v.(cache := w.cache)
  {
    LockedIgnoreCache(s, u, r, r', q, now, vault);
    LockedKeepsLists(s, r, q, now, vault);
    hide LockedSections, ReadValid, Deliver;
    var (v, locked) := LockedSections(s, r, q, now, vault);
    ReadStaysValid(s.db, v.db, r);
    ReadStaysValid(s.db, v.db, r');
    var w := LockedSections(u, r', q, now, vault).0;
    match locked
    case Kept(row) => DeliverIgnoresCache(v, w, r, r', row, None);
    case Regenerated(row, artifact) => DeliverIgnoresCache(v, w, r, r', Some(row), Some(artifact));
    case VaultFailed =>
  }

  lemma RegenerateIgnoresCache(s: Server, u: Server, r: Read, r': Read, q: Request, now: Time,
                               vault: Option<VaultMaterial>)
    requires u == s.(cache := u.cache) && r' == r.(cacheEntry := r'.cacheEntry)
    ensures var (v, locked) := RegenerateUnderLock(s, r, q, now, vault);
            var (w, locked') := RegenerateUnderLock(u, r', q, now, vault);
            locked == locked' && w == v.(cache := w.cache)
  {
    hide LatestArtifact, LatestRow, RegenerationReason, BuildSignedArtifact, NextNumber;
    assert ReasonNow(s, r, q, now) == ReasonNow(u, r', q, now);
    assert TooSoon(s, r.target, now) == TooSoon(u, r.target, now);
  }

  lemma LockedIgnoreCache(s: Server, u: Server, r: Read, r': Read, q: Request, now: Time, vault: Option<VaultMaterial>)
    requires u == s.(cache := u.cache) && r' == r.(cacheEntry := r'.cacheEntry)
    ensures var (v, locked) := LockedSections(s, r, q, now, vault);
            var (w, locked') := LockedSections(u, r', q, now, vault);
            locked == locked' && w == v.(cache := w.cache)
  {
    RegenerateIgnoresCache(s, u, r, r', q, now, vault);
    hide RegenerateUnderLock, LatestArtifact, RegenerationReason;
    assert ReasonNow(s, r, q, now) == ReasonNow(u, r', q, now);
  }

  lemma LockedKeepsLists(s: Server, r: Read, q: Request, now: Time, vault: Option<VaultMaterial>)
    ensures Extends(s.db, LockedSections(s, r, q, now, vault).0.db)
  {
    hide LatestArtifact, LatestRow, RegenerationReason, BuildSignedArtifact, NextNumber, TooSoon;
  }

  lemma DeliverIgnoresCache(s: Server, u: Server, r: Read, r': Read, row: Option<nat>, built: Option<Artifact>)
    requires u == s.(cache := u.cache) && r' == r.(cacheEntry := r'.cacheEntry)
    requires ReadValid(s.db, r) && ReadValid(s.db, r')
    ensures var (v, o) := Deliver(s, r, row, built);
            var (w, p) := Deliver(u, r', row, built);
            o == p && w == v.(cache := w.cache)
  {
    hide FromList;
  }

  lemma StepIgnoresCache(s: Server, u: Server, step: Step)
    requires CoreInv(s) && CoreInv(u) && u == s.(cache := u.cache)
    ensures Apply(u, step) == Apply(s, step).(cache := Apply(u, step).cache)
  {
    hide GetOrRegenerate, ApplyToTables, BuildTrustList, CoreInv;
    match step
    case Call(q, now, vault) => CacheIsTransparent(s, u, q, now, vault);
    case _ =>
  }

  /** So over every run: what the cache held at its start never shows in a table, a clock or an answer. */
  lemma {:induction false} RunIgnoresCache(s: Server, u: Server, steps: seq<Step>)
    requires CoreInv(s) && CoreInv(u) && u == s.(cache := u.cache)
    ensures Run(u, steps) == Run(s, steps).(cache := Run(u, steps).cache)
  {
    if steps != [] {
      var init := steps[..|steps| - 1];
      RunIgnoresCache(s, u, init);
      RunKeepsCore(s, init);
      RunKeepsCore(u, init);
      StepIgnoresCache(Run(s, init), Run(u, init), steps[|steps| - 1]);
      hide Apply, CoreInv;
    }
  }

  /** The invariant over every run, and published rows are never rewritten. */
  lemma {:induction false} RunKeepsInv(s: Server, steps: seq<Step>)
    requires Inv(s)
    ensures Inv(Run(s, steps)) && Extends(s.db, Run(s, steps).db)
  {
    if steps != [] {
      RunKeepsInv(s, steps[..|steps| - 1]);
      StepKeepsInv(Run(s, steps[..|steps| - 1]), steps[|steps| - 1]);
    }
  }

  predicate IsRevoked(t: Tables, c: nat) {
    c < |t.certs| && t.certs[c].status.Revoked?
  }

  lemma CallFrame(s: Server, q: Request, now: Time, vault: Option<VaultMaterial>)
    ensures SameProcess(s, GetOrRegenerate(s, q, now, vault).0)
  {
    hide EnsureTrustListCurrent, Entries, LatestList, RegenerateUnderLock;
    EnsureFrame(s.db, q.target);
    var s1 := AfterEnsure(s, q.target);
    if ReadTrustList(s1, q.target).Some? {
      RegenerateFrame(s1, ReadTrustList(s1, q.target).value, q, now, vault);
    }
  }

  lemma EnsureFrame(t: Tables, target: Target)
    ensures var e := EnsureTrustListCurrent(t, target);
            e.apps == t.apps && e.certs == t.certs && e.packages == t.packages && e.artifacts == t.artifacts
  {
  }

  lemma RevokedStaysRevoked(s: Server, step: Step, c: nat)
    requires IsRevoked(s.db, c)
    ensures IsRevoked(Apply(s, step).db, c)
  {
    hide EnsureTrustListCurrent, Entries, LatestList, LatestArtifact;
    match step
    case Call(q, now, vault) => CallFrame(s, q, now, vault);
    case _ =>
  }

  lemma NewRowListsUsableOnly(s: Server, step: Step, c: nat)
    requires CoreInv(s) && !CertUsable(s.db, c)
    ensures forall i :: |s.db.artifacts| <= i < |Apply(s, step).db.artifacts| ==>
              var r := Apply(s, step).db.artifacts[i];
              r.artifact.certificates.Some? && !ListsCert(r.artifact.certificates.value, c)
  {
    hide EnsureTrustListCurrent, Entries, LatestList, LatestArtifact, GetOrRegenerate, CertUsable, ListsCert;
    hide CoreInv, VersionsAscend, LatestVersion, UpToDate, Throttled, ReadTrustList;
    if step.Call? {
      var (u, o) := GetOrRegenerate(s, step.q, step.now, step.vault);
      CallCases(s, step.q, step.now, step.vault, u, o);
      ReadListsUsableOnly(s, step.q.target, c);
    }
  }

  /**
   * Revocation is final: over every run, a revoked certificate never comes back
   * into force, and no artifact inserted from then on names it, for any target.
   */
  lemma {:induction false} RevokedForever(s: Server, steps: seq<Step>, c: nat)
    requires Inv(s) && IsRevoked(s.db, c)
    ensures var u := Run(s, steps);
            && IsRevoked(u.db, c) && !CertUsable(u.db, c)
            && |s.db.artifacts| <= |u.db.artifacts|
            && forall i :: |s.db.artifacts| <= i < |u.db.artifacts| ==>
                 && u.db.artifacts[i].artifact.certificates.Some?
                 && !ListsCert(u.db.artifacts[i].artifact.certificates.value, c)
  {
    if steps != [] {
      var before := Run(s, steps[..|steps| - 1]);
      var step := steps[|steps| - 1];
      RevokedForever(s, steps[..|steps| - 1], c);
      RunKeepsInv(s, steps[..|steps| - 1]);
      RevokedStaysRevoked(before, step, c);
      NewRowListsUsableOnly(before, step, c);
      StepKeepsInv(before, step);
    }
  }

  /**
   * Two calls for a target with any steps in between: the later one never
   * returns a smaller (version, revision) pair, and equal pairs are the same
   * stored artifact.
   */
  lemma LaterCallsServeLaterPairs(s: Server, q: Request, now: Time, vault: Option<VaultMaterial>, u: Server, o: Outcome,
                                  between: seq<Step>, q': Request, now': Time, vault': Option<VaultMaterial>,
                                  u': Server, o': Outcome)
    requires Inv(s) && q.target == q'.target
    requires CallResult(s, q, now, vault, u, o) && CallResult(Run(u, between), q', now', vault', u', o')
    requires o.Served? && o'.Served?
    ensures Inv(u') && Extends(u.db, u'.db) && o.row <= o'.row < |u'.db.artifacts| && o.row < |u.db.artifacts|
    ensures u'.db.artifacts[o.row] == u.db.artifacts[o.row]
    ensures var a, b := u'.db.artifacts[o.row], u'.db.artifacts[o'.row];
            && o.artifact == a.artifact && o'.artifact == b.artifact
            && (o.row == o'.row || PairLess(a.trustlistVersion, a.revision, b.trustlistVersion, b.revision))
  {
    hide EnsureTrustListCurrent, GetOrRegenerate, LatestList, CallResult, VersionsAscend;
    hide RowsSound, RowsFromLists, CacheAgrees;
    hide ClockAgrees, ListsNumbered, MembersDistinct, Run, LatestVersion;
    CallServesLatestRow(s, q, now, vault, u, o);
    RunKeepsInv(u, between);
    CallServesLatestRow(Run(u, between), q', now', vault', u', o');
    var rows := Revisions(u'.db.artifacts);
    assert u'.db.artifacts[o.row] == u.db.artifacts[o.row];
    assert rows[o.row].0 == q.target;
    RowsUpToLatest(rows, o.row);
    if o.row < o'.row {
      PairsIncrease(u', o.row, o'.row);
    }
  }
}
