/**
 * Runs in which the conditions of the run and interleaving theorems fail, from
 * a fresh installation or one published list onwards.
 */
module Scenarios {
  import opened Common
  import opened Numbering
  import opened Artifacts
  import opened TrustTables
  import opened Publication
  import opened PublicationRuns
  import opened Interleaving
  import opened AgentSync
  import opened Replay
  import Lifecycle

  const TARGET: Target := Target("OT", "scada-client")

  // ---- a revocation inside the throttle interval ----

  /** The newest artifact of the target names the certificate. */
  predicate NewestNames(s: Server, target: Target, c: nat) {
    LatestRow(s.db, target).Some?
    && LatestRow(s.db, target).value.artifact.certificates.Some?
    && ListsCert(LatestRow(s.db, target).value.artifact.certificates.value, c)
  }

  /**
   * Whatever the state: a certificate named by the newest artifact and revoked
   * within the throttle interval of its last rebuild is still served by every
   * unforced call in that interval.
   */
  lemma RevocationWithinThrottleIsServed(s: Server, c: nat, at: Time, q: Request, now: Time,
                                         vault: Option<VaultMaterial>)
    requires CoreInv(s) && c < |s.db.certs| && NewestNames(s, q.target, c)
    requires !q.force && TooSoon(s, q.target, now)
    ensures var revoked := Apply(s, RevokeCertificate(c, at));
            var (u, o) := GetOrRegenerate(revoked, q, now, vault);
            && IsRevoked(revoked.db, c) && o.Served? && o.row < |u.db.artifacts|
            && u.db.artifacts[o.row].artifact.certificates.Some?
            && ListsCert(u.db.artifacts[o.row].artifact.certificates.value, c)
  {
    RevokedState(s, c, at);
    hide CoreInv, ListsCert, GetOrRegenerate, TooSoon, Apply, IsRevoked;
    var revoked := Apply(s, RevokeCertificate(c, at));
    SameRowsSameNewest(s, revoked, q.target);
    SameClock(s, revoked, q.target, now);
    StaleNewestIsThrottled(revoked, c, q, now);
    var (u, o) := GetOrRegenerate(revoked, q, now, vault);
    ThrottledServesNewest(revoked, q, now, vault, u, o);
    UnusableServedIff(revoked, q, now, vault, u, o, c);
  }

  lemma RevokedState(s: Server, c: nat, at: Time)
    requires CoreInv(s) && c < |s.db.certs|
    ensures var u := Apply(s, RevokeCertificate(c, at));
            && CoreInv(u) && IsRevoked(u.db, c) && !CertUsable(u.db, c) && Extends(s.db, u.db)
            && u.db.artifacts == s.db.artifacts && u.lastRegen == s.lastRegen && u.settings == s.settings
  {
    hide CoreInv, GetOrRegenerate, BuildTrustList, Lifecycle.UpdateLifecycle;
    StepKeepsCore(s, RevokeCertificate(c, at));
  }

  lemma SameClock(s: Server, u: Server, target: Target, now: Time)
    requires s.lastRegen == u.lastRegen && s.settings == u.settings
    ensures TooSoon(s, target, now) <==> TooSoon(u, target, now)
  {
  }

  lemma ThrottledServesNewest(s: Server, q: Request, now: Time, vault: Option<VaultMaterial>, u: Server,
                              o: Publication.Outcome)
    requires CoreInv(s) && CallResult(s, q, now, vault, u, o) && Throttled(s, q, now) && LatestRow(s.db, q.target).Some?
    ensures o.Served?
  {
    CallCases(s, q, now, vault, u, o);
  }

  /**
   * A newest artifact naming a certificate that is out of force wants renewal, so
   * within the interval it is throttled.
   */
  lemma StaleNewestIsThrottled(s: Server, c: nat, q: Request, now: Time)
    requires CoreInv(s) && !CertUsable(s.db, c) && NewestNames(s, q.target, c)
    requires !q.force && TooSoon(s, q.target, now)
    ensures Throttled(s, q, now)
  {
    CallStart(s, q);
    KeptRowListsUsableOnly(s, q.target, c);
    hide CoreInv, EnsureTrustListCurrent, ListsCert, LatestRow, Entries, LatestVersion, ReadValid, CertUsable;
  }

  /** A call that rebuilds sets the clock of its target. */
  lemma RebuildSetsClock(s: Server, q: Request, now: Time, vault: VaultMaterial)
    requires CoreInv(s) && !UpToDate(s, q, now) && !Throttled(s, q, now)
    ensures var u := GetOrRegenerate(s, q, now, Some(vault)).0;
            && u.settings == s.settings && u.lastRegen == s.lastRegen[q.target := now]
            && u.db.certs == s.db.certs
  {
    CallStart(s, q);
    CallFrame(s, q, now, Some(vault));
    hide CoreInv, EnsureTrustListCurrent, LatestArtifact, BuildSignedArtifact;
    hide InsertArtifact, RegenerationReason, ReadTrustList;
  }

  function Client(): Application {
    Application("urn:a", "a", "OT", "scada-client", "client", "active")
  }

  function ClientCert(): Certificate {
    Certificate(0, "fp", Pem("pem", None), Active, 0, None, None, None)
  }

  /** A fresh installation, then one application and its certificate. */
  function OneClient(settings: Settings, keyId: string, fingerprint: string): Server {
    Apply(Apply(Start(settings, keyId, fingerprint), UpsertApplication(Client())), InsertCertificate(ClientCert()))
  }

  lemma OneClientState(settings: Settings, keyId: string, fingerprint: string)
    ensures var s := OneClient(settings, keyId, fingerprint);
            && CoreInv(s)
            && s == Server(Tables([Client()], [ClientCert()], [], [], []), map[], map[], settings,
                           SigningKey(keyId, Lower(fingerprint)))
            && StandsFor(s.db, TARGET, 0, 0)
  {
    var s0 := Start(settings, keyId, fingerprint);
    StartHasInv(settings, keyId, fingerprint);
    OneClientStandsFor();
    hide CoreInv, StandsFor, GetOrRegenerate, BuildTrustList;
    InvIsCore(s0);
    StepKeepsCore(s0, UpsertApplication(Client()));
    StepKeepsCore(Apply(s0, UpsertApplication(Client())), InsertCertificate(ClientCert()));
  }

  lemma OneClientStandsFor()
    ensures StandsFor(Tables([Client()], [ClientCert()], [], [], []), TARGET, 0, 0)
  {
    var t := Tables([Client()], [ClientCert()], [], [], []);
    assert BestPackage(t, 0, 0) == None;
    assert BestCert(t, 0, 1) == Some(0);
  }

  /**
   * From an empty installation: publish, revoke, ask again within the interval, and be
   * served the revoked certificate.
   */
  lemma RevokedIsServedWithinThrottle(settings: Settings, keyId: string, fingerprint: string, vault: VaultMaterial,
                                      first: Time, second: Time)
    requires first >= settings.minIntervalSeconds * SECOND
    requires second - first < settings.minIntervalSeconds * SECOND
    ensures var q := Request(TARGET, false, false);
            var s := Run(Start(settings, keyId, fingerprint),
                         [UpsertApplication(Client()), InsertCertificate(ClientCert()), Call(q, first, Some(vault)),
                          RevokeCertificate(0, first)]);
            var (u, o) := GetOrRegenerate(s, q, second, Some(vault));
            && IsRevoked(s.db, 0) && o.Served? && o.row < |u.db.artifacts|
            && u.db.artifacts[o.row].artifact.certificates.Some?
            && ListsCert(u.db.artifacts[o.row].artifact.certificates.value, 0)
  {
    var q := Request(TARGET, false, false);
    var s0 := Start(settings, keyId, fingerprint);
    var steps := [UpsertApplication(Client()), InsertCertificate(ClientCert()), Call(q, first, Some(vault)),
        RevokeCertificate(0, first)];
    var s2 := OneClient(settings, keyId, fingerprint);
    RunOfFour(s0, steps);
    OneClientState(settings, keyId, fingerprint);
    var s3 := Apply(s2, Call(q, first, Some(vault)));
    FirstCallNames(s2, q, first, vault);
    RevocationWithinThrottleIsServed(s3, 0, first, q, second, Some(vault));
  }

  lemma RunOfFour(s: Server, steps: seq<Step>)
    requires |steps| == 4
    ensures Run(s, steps) == Apply(Apply(Apply(Apply(s, steps[0]), steps[1]), steps[2]), steps[3])
  {
    hide Apply;
    assert steps[..3][..2] == steps[..2] && steps[..2][..1] == steps[..1] && steps[..1][..0] == [];
    assert Run(s, steps[..1]) == Apply(s, steps[0]);
    assert Run(s, steps[..2]) == Apply(Run(s, steps[..1]), steps[1]);
    assert Run(s, steps[..3]) == Apply(Run(s, steps[..2]), steps[2]);
  }

  /** The first call for a target with one client publishes an artifact that names its certificate. */
  lemma FirstCallNames(s: Server, q: Request, now: Time, vault: VaultMaterial)
    requires CoreInv(s) && q == Request(TARGET, false, false) && now >= s.settings.minIntervalSeconds * SECOND
    requires s.db == Tables([Client()], [ClientCert()], [], [], []) && s.lastRegen == map[]
    requires StandsFor(s.db, TARGET, 0, 0)
    ensures var u := Apply(s, Call(q, now, Some(vault)));
            && CoreInv(u) && |u.db.certs| == 1 && NewestNames(u, TARGET, 0)
            && u.settings == s.settings && u.lastRegen == map[TARGET := now]
  {
    var (u, o) := GetOrRegenerate(s, q, now, Some(vault));
    assert LatestRow(s.db, TARGET) == None by { assert Revisions([]) == []; }
    CallStart(s, q);
    assert !UpToDate(s, q, now) && !Throttled(s, q, now);
    ReadNames(s, TARGET, 0);
    hide CoreInv, EnsureTrustListCurrent, Entries, ReadTrustList, ListsCert;
    hide LatestArtifact, GetOrRegenerate, UpToDate, Throttled;
    CallCases(s, q, now, Some(vault), u, o);
    RebuildSetsClock(s, q, now, vault);
  }

  /** What a call reads names every certificate that stands for an application of the target. */
  lemma ReadNames(s: Server, target: Target, c: nat)
    requires CoreInv(s) && StandsFor(s.db, target, 0, c) && c < |s.db.certs|
             && s.db.certs[c].applicationId < |s.db.apps|
    ensures ReadTrustList(AfterEnsure(s, target), target).Some?
    ensures ListsCert(ReadTrustList(AfterEnsure(s, target), target).value.certs, c)
  {
    EnsureMembersExact(s.db, target, target);
    var s1 := AfterEnsure(s, target);
    EntriesName(s1.db, s1.db.lists[LatestList(s1.db, target).value].members, c);
  }

  // ---- a revocation between a call's read and its lock ----

  /** The call reads, the certificate is revoked elsewhere, the call rebuilds. */
  function StaleRebuild(w: World, now: Time, vault: VaultMaterial): World {
    var q := Request(TARGET, true, false);
    var read := React(React(w, Begin(0, q)), ReadList(0));
    var revoked := React(read, Elsewhere(RevokeCertificate(0, now)));
    React(React(revoked, FirstLock(0, now)), SecondLock(0, now, Some(vault)))
  }

  /** The history ends with a row that names the revoked certificate. */
  lemma StaleRebuildNamesRevoked(settings: Settings, keyId: string, fingerprint: string, now: Time,
                                 vault: VaultMaterial)
    ensures var t := StaleRebuild(World(OneClient(settings, keyId, fingerprint), map[]), now, vault).server.db;
            && |t.artifacts| == 1 && IsRevoked(t, 0)
            && t.artifacts[0].artifact.certificates.Some?
            && ListsCert(t.artifacts[0].artifact.certificates.value, 0)
  {
    var q := Request(TARGET, true, false);
    var s := OneClient(settings, keyId, fingerprint);
    OneClientState(settings, keyId, fingerprint);
    ReadForRebuild(s);
    hide CoreInv, ReadValid, RegenerateUnderLock, ListsCert, ReadTrustList;
    hide EnsureTrustListCurrent, OneClient, Apply, StaleRebuild;
    hide StandsFor;
    var s1 := AfterEnsure(s, TARGET);
    var read := ReadTrustList(s1, TARGET).value;
    var s2 := Apply(s1, RevokeCertificate(0, now));
    RevokedState(s1, 0, now);
    ReadStaysValid(s1.db, s2.db, read);
    StaleSections(s, s1, read, now, vault);
    RebuildNamesWhatWasRead(s2, read, q, now, Some(vault), 0);
    RegenerateFrame(s2, read, q, now, Some(vault));
    RebuiltHasCertificates(s2, read, q, now, Some(vault));
    var t := RegenerateUnderLock(s2, read, q, now, Some(vault)).0.db;
    assert t.certs == s2.db.certs;
    assert IsRevoked(t, 0);
  }

  /** What the call reads before its lock. */
  lemma ReadForRebuild(s: Server)
    requires CoreInv(s) && StandsFor(s.db, TARGET, 0, 0) && |s.db.certs| == 1 && s.db.certs[0].applicationId == 0
    requires s.db.artifacts == []
    ensures var s1 := AfterEnsure(s, TARGET);
            && CoreInv(s1) && |s1.db.certs| == 1 && s1.db.artifacts == []
            && ReadTrustList(s1, TARGET).Some? && ReadTrustList(s1, TARGET).value.target == TARGET
            && ReadValid(s1.db, ReadTrustList(s1, TARGET).value)
            && ListsCert(ReadTrustList(s1, TARGET).value.certs, 0)
  {
    ReadNames(s, TARGET, 0);
    CallStart(s, Request(TARGET, true, false));
    EnsureFrame(s.db, TARGET);
  }

  lemma RebuiltHasCertificates(s: Server, read: Read, q: Request, now: Time, vault: Option<VaultMaterial>)
    requires CoreInv(s) && ReadValid(s.db, read) && RegenerateUnderLock(s, read, q, now, vault).1.Regenerated?
    ensures var u := RegenerateUnderLock(s, read, q, now, vault).0;
            |u.db.artifacts| == |s.db.artifacts| + 1 && u.db.artifacts[|s.db.artifacts|].artifact.certificates.Some?
  {
    hide RegenerateUnderLock, CoreInv, ReadValid, LatestArtifact, TablesInv;
    RegeneratedRow(s, read, q, now, vault, read.target);
  }

  /** The sections of that history, one after the other. */
  lemma StaleSections(s: Server, s1: Server, read: Read, now: Time, vault: VaultMaterial)
    requires s1 == AfterEnsure(s, TARGET) && ReadTrustList(s1, TARGET) == Some(read)
    ensures var q := Request(TARGET, true, false);
            var s2 := Apply(s1, RevokeCertificate(0, now));
            var (u, locked) := RegenerateUnderLock(s2, read, q, now, Some(vault));
            locked.Regenerated? && StaleRebuild(World(s, map[]), now, vault).server == u
  {
    hide EnsureTrustListCurrent, ReadTrustList, ApplyToTables, BuildSignedArtifact, InsertArtifact, LatestArtifact;
  }

  // ---- an expired artifact ----

  /** With a threshold that is not positive, age alone never makes a call renew. */
  lemma NothingToRenew(s: Server, q: Request, now: Time)
    requires CoreInv(s) && !q.force && ThresholdSeconds(s.settings) <= 0
    requires EnsureTrustListCurrent(s.db, q.target) == s.db && LatestRow(s.db, q.target).Some?
    requires var r := LatestRow(s.db, q.target).value;
             && r.trustlistVersion == LatestVersion(s.db, q.target)
             && r.signerKeyId == s.key.keyId && r.signerFingerprint == s.key.fingerprint
    ensures UpToDate(s, q, now)
  {
    CallStart(s, q);
    hide CoreInv, EnsureTrustListCurrent, LatestRow, Entries, LatestVersion, ReadValid, ReadTrustList, ThresholdSeconds;
  }

  /** A server without applications whose newest list is empty has nothing to publish. */
  lemma EmptyListIsCurrent(t: Tables, target: Target)
    requires t.apps == [] && LatestList(t, target).Some? && t.lists[LatestList(t, target).value].members == []
    ensures EnsureTrustListCurrent(t, target) == t
  {
  }

  /** The first call on an empty installation: one empty list, one artifact of its version, signed by this process. */
  lemma FirstEmptyCall(s: Server, q: Request, now: Time, vault: VaultMaterial)
    requires CoreInv(s) && s.db == Tables([], [], [], [], []) && s.lastRegen == map[]
    requires !q.force && now >= s.settings.minIntervalSeconds * SECOND
    ensures var u := GetOrRegenerate(s, q, now, Some(vault)).0;
            && CoreInv(u) && u.settings == s.settings && u.key == s.key
            && EnsureTrustListCurrent(u.db, q.target) == u.db && LatestRow(u.db, q.target).Some?
            && var r := LatestRow(u.db, q.target).value;
            && r.trustlistVersion == LatestVersion(u.db, q.target)
            && r.signerKeyId == s.key.keyId && r.signerFingerprint == s.key.fingerprint
            && r.expiresAt == now + s.settings.ttlSeconds * SECOND
  {
    var (u, o) := GetOrRegenerate(s, q, now, Some(vault));
    assert LatestRow(s.db, q.target) == None by { assert Revisions([]) == []; }
    CallStart(s, q);
    assert !UpToDate(s, q, now) && !Throttled(s, q, now);
    EnsuredListIsEmpty(s, q.target);
    hide CoreInv, EnsureTrustListCurrent, GetOrRegenerate, LatestArtifact, UpToDate;
    hide Throttled, ReadTrustList, LatestList;
    CallCases(s, q, now, Some(vault), u, o);
    SameListsSameNewest(AfterEnsure(s, q.target).db, u.db, q.target);
    EmptyListIsCurrent(u.db, q.target);
    NewestAt(u, q.target, |s.db.artifacts|);
  }

  lemma NewestAt(u: Server, target: Target, i: nat)
    requires LatestArtifact(u.db, target) == Some(i)
    ensures i < |u.db.artifacts| && LatestRow(u.db, target) == Some(u.db.artifacts[i])
  {
  }

  lemma SameListsSameNewest(t: Tables, u: Tables, target: Target)
    requires t.lists == u.lists
    ensures LatestList(t, target) == LatestList(u, target) && LatestVersion(t, target) == LatestVersion(u, target)
  {
  }

  lemma EnsuredListIsEmpty(s: Server, target: Target)
    requires CoreInv(s) && s.db.apps == []
    ensures var t := AfterEnsure(s, target).db;
            t.apps == [] && LatestList(t, target).Some? && t.lists[LatestList(t, target).value].members == []
  {
    EnsureMembersExact(s.db, target, target);
    hide CoreInv, EnsureTrustListCurrent, LatestList;
    var t := AfterEnsure(s, target).db;
    var members := t.lists[LatestList(t, target).value].members;
    forall c ensures c !in members {
      assert forall app: nat :: !StandsFor(s.db, target, app, c);
      assert c in members <==> exists app: nat :: StandsFor(s.db, target, app, c);
    }
    SomeMember(members);
  }

  lemma SomeMember(s: seq<int>)
    ensures s != [] ==> s[0] in s
  {
  }

  /**
   * One call, then another after the lifetime has passed, with a renewal
   * threshold of zero percent: the expired artifact is served.
   */
  lemma ZeroThresholdServesExpired(keyId: string, fingerprint: string, fallsShort: bool, vault: VaultMaterial,
                                   first: Time, second: Time)
    requires first >= 0 && second >= first + 10 * SECOND
    ensures var q := Request(TARGET, false, false);
            var s := Apply(Start(Settings(10, 0, 0, fallsShort), keyId, fingerprint), Call(q, first, Some(vault)));
            var (u, o) := GetOrRegenerate(s, q, second, Some(vault));
            && o.Served? && o.row < |u.db.artifacts| && u.db.artifacts[o.row].expiresAt <= second
  {
    var q := Request(TARGET, false, false);
    var s0 := Start(Settings(10, 0, 0, fallsShort), keyId, fingerprint);
    StartHasInv(Settings(10, 0, 0, fallsShort), keyId, fingerprint);
    FirstEmptyCall(s0, q, first, vault);
    var s := GetOrRegenerate(s0, q, first, Some(vault)).0;
    NothingToRenew(s, q, second);
    hide CoreInv, EnsureTrustListCurrent, GetOrRegenerate, LatestRow, UpToDate, LatestVersion;
    var (u, o) := GetOrRegenerate(s, q, second, Some(vault));
    UpToDateServesNewest(s, q, second, Some(vault), u, o);
    ExpiredServedIff(s, q, second, Some(vault), u, o);
  }

  lemma UpToDateServesNewest(s: Server, q: Request, now: Time, vault: Option<VaultMaterial>, u: Server,
                             o: Publication.Outcome)
    requires CoreInv(s) && CallResult(s, q, now, vault, u, o) && UpToDate(s, q, now) && LatestRow(s.db, q.target).Some?
    ensures o.Served?
  {
    CallCases(s, q, now, vault, u, o);
  }

  // ---- a false replay alarm ----

  /** What a throttled call leaves alone, and what it serves. */
  lemma ThrottledCallKeeps(s: Server, q: Request, now: Time, vault: Option<VaultMaterial>, i: nat)
    requires CoreInv(s) && Throttled(s, q, now) && EnsureTrustListCurrent(s.db, q.target) == s.db
    requires LatestArtifact(s.db, q.target) == Some(i)
    ensures var (u, o) := GetOrRegenerate(s, q, now, vault);
            && CoreInv(u) && u.db == s.db && u.lastRegen == s.lastRegen && u.settings == s.settings && u.key == s.key
            && o.Served? && o.row == i
  {
    var (u, o) := GetOrRegenerate(s, q, now, vault);
    CallCases(s, q, now, vault, u, o);
    ThrottledKeepsClock(s, q, now, vault);
  }

  lemma ThrottledKeepsClock(s: Server, q: Request, now: Time, vault: Option<VaultMaterial>)
    requires Throttled(s, q, now)
    ensures GetOrRegenerate(s, q, now, vault).0.lastRegen == s.lastRegen
  {
    hide EnsureTrustListCurrent, Entries, LatestList, ReasonNow, TooSoon, LatestArtifact;
  }

  /** Whether a call is throttled depends on tables, clocks, settings and key, not on the cache. */
  lemma ThrottledIgnoresCache(s: Server, u: Server, q: Request, now: Time)
    requires Throttled(s, q, now)
    requires u.db == s.db && u.lastRegen == s.lastRegen && u.settings == s.settings && u.key == s.key
    ensures Throttled(u, q, now)
  {
    hide EnsureTrustListCurrent, LatestArtifact, RegenerationReason, Entries, LatestList;
  }

  /** A pull whose two requests are throttled gets the newest row twice. */
  lemma ThrottledPull(s: Server, target: Target, at: Time, vault: Option<VaultMaterial>, agentNow: Time, i: nat)
    requires CoreInv(s) && EnsureTrustListCurrent(s.db, target) == s.db && LatestArtifact(s.db, target) == Some(i)
    requires Throttled(s, Request(target, false, false), at)
    ensures var x := Requests(s, Pull(target, at, vault, [], at, vault, agentNow));
            && CoreInv(x.server) && x.server.db == s.db && i < |s.db.artifacts|
            && ResponseOf(x) == Delivered(s.db.artifacts[i].artifact, SignatureOf(s.db.artifacts[i]))
  {
    hide CoreInv, EnsureTrustListCurrent, GetOrRegenerate, Throttled, SignatureOf;
    var q := Request(target, false, false);
    ThrottledCallKeeps(s, q, at, vault, i);
    var u := GetOrRegenerate(s, q, at, vault).0;
    ThrottledIgnoresCache(s, u, q, at);
    ThrottledCallKeeps(u, q, at, vault, i);
    assert PublicationRuns.Run(u, []) == u;
  }

  /** The worlds of two overlapping rebuilds have every invariant but, at the end, the version order. */
  lemma OneRebuiltKeepsInv(settings: Settings, key: SigningKey, target: Target, now: Time, vault: VaultMaterial)
    requires Lower(key.fingerprint) == key.fingerprint
    ensures WorldInv(OneRebuilt(EmptyWorld(settings, key, target), target, now, vault))
  {
    EmptyWorldInv(settings, key, target);
    hide WorldInv, React, EmptyWorld;
    var q := Request(target, true, false);
    var w0 := EmptyWorld(settings, key, target);
    EventKeepsInv(w0, Begin(0, q));
    EventKeepsInv(React(w0, Begin(0, q)), ReadList(0));
    var w1 := React(React(w0, Begin(0, q)), ReadList(0));
    EventKeepsInv(w1, Elsewhere(Build(target)));
    var w2 := React(w1, Elsewhere(Build(target)));
    EventKeepsInv(w2, Begin(1, q));
    EventKeepsInv(React(w2, Begin(1, q)), ReadList(1));
    RebuildKeepsInv(BothHaveRead(w0, target), 1, now, vault);
  }

  lemma OverlappedKeepsCore(settings: Settings, key: SigningKey, target: Target, now: Time, vault: VaultMaterial)
    requires Lower(key.fingerprint) == key.fingerprint
    ensures CoreInv(Overlapped(EmptyWorld(settings, key, target), target, now, vault).server)
  {
    OneRebuiltKeepsInv(settings, key, target, now, vault);
    hide WorldInv, Rebuild, EmptyWorld, OneRebuilt;
    RebuildKeepsInv(OneRebuilt(EmptyWorld(settings, key, target), target, now, vault), 0, now, vault);
    InvIsCoreInv(Overlapped(EmptyWorld(settings, key, target), target, now, vault));
  }

  lemma InvIsCoreInv(w: World)
    requires WorldInv(w)
    ensures CoreInv(w.server)
  {
  }

  lemma RebuildKeepsInv(w: World, id: nat, now: Time, vault: VaultMaterial)
    requires WorldInv(w)
    ensures WorldInv(Rebuild(w, id, now, vault))
  {
    hide WorldInv, React;
    EventKeepsInv(w, FirstLock(id, now));
    EventKeepsInv(React(w, FirstLock(id, now)), SecondLock(id, now, Some(vault)));
  }

  lemma EmptyWorldInv(settings: Settings, key: SigningKey, target: Target)
    requires Lower(key.fingerprint) == key.fingerprint
    ensures WorldInv(EmptyWorld(settings, key, target))
  {
    var s := EmptyWorld(settings, key, target).server;
    assert Versions([TrustList(target, 1, [])]) == [(target, 1)] && [(target, 1)][..0] == [];
    assert Revisions([]) == [];
    assert ListsNumbered(s.db);
  }

  /** The newest list and row of the inverted tables. */
  lemma InvertedNewest(settings: Settings, key: SigningKey, target: Target, vault: VaultMaterial, now: Time)
    ensures var t := InvertedTables(settings, key, target, vault, now);
            && EnsureTrustListCurrent(t, target) == t
            && LatestList(t, target) == Some(1) && LatestArtifact(t, target) == Some(1)
            && t.artifacts[0].target == t.artifacts[1].target == target
            && t.artifacts[0].trustlistVersion == 2 && t.artifacts[1].trustlistVersion == 1
  {
    RebuiltRowNumbers(settings, key, target, 2, 1, vault, now);
    RebuiltRowNumbers(settings, key, target, 1, 2, vault, now);
    hide RebuiltRow;
    var t := InvertedTables(settings, key, target, vault, now);
    assert Versions(t.lists) == [(target, 1), (target, 2)] && Revisions(t.artifacts) == [(target, 1), (target, 2)];
    assert [(target, 1), (target, 2)][..1] == [(target, 1)] && [(target, 1)][..0] == [];
    assert Latest([(target, 1), (target, 2)], target) == Some(1);
    EmptyListIsCurrent(t, target);
  }

  /**
   * A request for a list of version 2 while the newest row says 1 wants renewal, and
   * within the interval is throttled.
   */
  lemma InvertedIsThrottled(s: Server, target: Target, vault: VaultMaterial, now: Time, later: Time)
    requires s.db == InvertedTables(s.settings, s.key, target, vault, now) && s.lastRegen == map[target := now]
    requires later - now < s.settings.minIntervalSeconds * SECOND
    ensures Throttled(s, Request(target, false, false), later)
  {
    InvertedNewest(s.settings, s.key, target, vault, now);
    hide RebuiltRow, EnsureTrustListCurrent, LatestArtifact, LatestList;
  }

  /** A rebuilt row, delivered whole and in time, is accepted by an agent without a cached copy. */
  lemma RebuiltRowIsAcceptable(s: Server, i: nat, target: Target, version: int, revision: int, vault: VaultMaterial,
                               now: Time, agentNow: Time)
    requires CoreInv(s) && i < |s.db.artifacts| && Lower(s.key.fingerprint) == s.key.fingerprint
    requires s.db.artifacts[i] == RebuiltRow(s.settings, s.key, target, version, revision, vault, now)
    requires Contains(vault.caChain, "BEGIN CERTIFICATE") && vault.crl.wellFormed
    requires agentNow <= now + s.settings.ttlSeconds * SECOND
    ensures var r := s.db.artifacts[i];
            && var d := Delivery(target, Delivered(r.artifact, SignatureOf(r)), agentNow);
            && Judge(NoFile, d, s.key.fingerprint).Accepted?
            && SignedCompatible(Stored(r.artifact), s.key.fingerprint)
  {
    RowsVerifyIff(s, i, i, s.key.fingerprint);
    hide CoreInv, VerifySignedArtifact, SignatureOf, CanonicalPayload, Contains;
    assert Lower("opcua_trustlist") == "opcua_trustlist";
  }

  /**
   * After two overlapping rebuilds, an agent that pulled between them and pulls
   * again within the throttle interval reports a replay, though nobody replayed
   * anything.
   */
  lemma HonestPullLooksLikeReplay(settings: Settings, key: SigningKey, target: Target, vault: VaultMaterial,
                                  now: Time, later: Time, agentNow: Time)
    requires Lower(key.fingerprint) == key.fingerprint
    requires Contains(vault.caChain, "BEGIN CERTIFICATE") && vault.crl.wellFormed
    requires later - now < settings.minIntervalSeconds * SECOND && agentNow <= now + settings.ttlSeconds * SECOND
    ensures var s := Overlapped(EmptyWorld(settings, key, target), target, now, vault).server;
            && |s.db.artifacts| == 2
            && var f := Stored(s.db.artifacts[0].artifact);
               var d := ResponseOf(Requests(s, Pull(target, later, Some(vault), [], later, Some(vault), agentNow)));
               Judge(f, Delivery(target, d, agentNow), key.fingerprint) == Rejected(ReplayDetected)
  {
    var s := Overlapped(EmptyWorld(settings, key, target), target, now, vault).server;
    OverlappedState(settings, key, target, now, vault);
    OverlappedKeepsCore(settings, key, target, now, vault);
    InvertedNewest(settings, key, target, vault, now);
    InvertedIsThrottled(s, target, vault, now, later);
    RebuiltRowIsAcceptable(s, 0, target, 2, 1, vault, now, agentNow);
    RebuiltRowIsAcceptable(s, 1, target, 1, 2, vault, now, agentNow);
    ThrottledPull(s, target, later, Some(vault), agentNow, 1);
    hide Overlapped, CoreInv, RebuiltRow, EnsureTrustListCurrent, Requests;
    hide ResponseOf, Judge, SignedCompatible, Throttled;
    hide LatestArtifact, SignatureOf;
    NewestAt(s, target, 1);
    PullReportsReplayIff(s, Pull(target, later, Some(vault), [], later, Some(vault), agentNow),
                         Stored(s.db.artifacts[0].artifact), 0, key.fingerprint);
  }

  // ---- a false replay alarm from a rebuild during the pull ----

  /** The agent's request reads the list, call 0 rebuilds from its older one, the request reaches its locks. */
  function DuringPull(now: Time, later: Time, vault: VaultMaterial): seq<Interleaving.Event> {
    [ReadList(2), FirstLock(0, now), SecondLock(0, now, Some(vault)), FirstLock(2, later)]
  }

  lemma HistoryOfFour(w: World, a: Interleaving.Event, b: Interleaving.Event, c: Interleaving.Event,
                      d: Interleaving.Event)
    ensures History(w, [a, b, c, d]) == React(React(React(React(w, a), b), c), d)
  {
    HistoryOfThree(w, a, b, c);
    HistoryOfTwo(React(w, a), b, c);
    hide React;
    assert [a, b, c, d][..3] == [a, b, c];
  }

  /** A request that begins while version 2 is the newest list and artifact reads version 2. */
  lemma PullReads(w: World, target: Target, settings: Settings, key: SigningKey, now: Time, vault: VaultMaterial)
    requires 2 !in w.calls
    requires var t := InvertedTables(settings, key, target, vault, now);
             w.server == Server(t.(artifacts := [RebuiltRow(settings, key, target, 2, 1, vault, now)]), map[],
                                map[target := now], settings, key)
    ensures var q := Request(target, false, false);
            React(React(w, Begin(2, q)), ReadList(2))
              == World(w.server, w.calls[2 := HasRead(q, Read(target, 2, [], None))])
  {
    hide RebuiltRow;
    var q, t := Request(target, false, false), w.server.db;
    assert Versions(t.lists) == [(target, 1), (target, 2)];
    assert [(target, 1), (target, 2)][..1] == [(target, 1)] && [(target, 1)][..0] == [];
    assert LatestList(t, target) == Some(1);
    EmptyListIsCurrent(t, target);
    hide EnsureTrustListCurrent, LatestList;
    assert React(w, Begin(2, q)) == World(w.server, w.calls[2 := Ensured(q)]);
  }

  /** At its locks it finds version 1 and is throttled, so the newest row, of version 1, is settled. */
  lemma PullIsSettled(x: World, target: Target, vault: VaultMaterial, now: Time, later: Time)
    requires x.server.db == InvertedTables(x.server.settings, x.server.key, target, vault, now)
    requires x.server.lastRegen == map[target := now]
    requires later - now < x.server.settings.minIntervalSeconds * SECOND
    requires 2 in x.calls && x.calls[2] == HasRead(Request(target, false, false), Read(target, 2, [], None))
    ensures var q, y := Request(target, false, false), React(x, FirstLock(2, later));
            && y.server == x.server && 2 in y.calls && y.calls[2] == WantsRebuild(q, Read(target, 2, [], None))
            && Settles(y, SecondLock(2, later, Some(vault)), 2, later)
            && var z := React(y, SecondLock(2, later, Some(vault)));
            z.server == x.server && z.calls[2].row == Some(1)
            && TooSoon(x.server, target, later) && NewestIsOlder(x.server, target, 0)
  {
    InvertedNewest(x.server.settings, x.server.key, target, vault, now);
    hide RebuiltRow, EnsureTrustListCurrent, LatestArtifact, LatestList, BuildSignedArtifact;
  }

  lemma AtLockIs(w: World, target: Target, now: Time, later: Time, vault: VaultMaterial)
    ensures var r := React(React(w, Begin(2, Request(target, false, false))), ReadList(2));
            AtLock(w, 2, target, DuringPull(now, later, vault))
              == React(Rebuild(r, 0, now, vault), FirstLock(2, later))
  {
    var begun := React(w, Begin(2, Request(target, false, false)));
    HistoryOfFour(begun, ReadList(2), FirstLock(0, now), SecondLock(0, now, Some(vault)), FirstLock(2, later));
    hide React, History;
  }

  /** The worlds of the scenario: before the pull, at its deciding lock, and after it. */
  lemma DuringPullWorlds(settings: Settings, key: SigningKey, target: Target, vault: VaultMaterial, now: Time,
                         later: Time)
    requires later - now < settings.minIntervalSeconds * SECOND
    ensures var w := OneRebuilt(EmptyWorld(settings, key, target), target, now, vault);
            var y := AtLock(w, 2, target, DuringPull(now, later, vault));
            var e := SecondLock(2, later, Some(vault));
            var z := React(y, e);
            && w.server.db.artifacts == [RebuiltRow(settings, key, target, 2, 1, vault, now)] && 2 !in w.calls
            && y.server == Server(InvertedTables(settings, key, target, vault, now), map[], map[target := now],
                                  settings, key)
            && Settles(y, e, 2, later) && y.calls[2].q == Request(target, false, false)
            && z.server == y.server && z.calls[2].row == Some(1)
            && TooSoon(y.server, target, later) && NewestIsOlder(y.server, target, 0)
  {
    var w, q := OneRebuilt(EmptyWorld(settings, key, target), target, now, vault), Request(target, false, false);
    OneRebuiltState(settings, key, target, now, vault);
    PullReads(w, target, settings, key, now, vault);
    hide InvertedTables, EmptyWorld, OneRebuilt, RebuiltRow, React, Rebuild;
    hide TooSoon, NewestIsOlder, AtLock, DuringPull, Settles;
    var r := React(React(w, Begin(2, q)), ReadList(2));
    SecondRebuildState(r.server, r.calls, target, now, vault);
    PullIsSettled(Rebuild(r, 0, now, vault), target, vault, now, later);
    AtLockIs(w, target, now, later, vault);
  }

  /**
   * Nothing is inverted when the agent begins its second pull.  A rebuild that read an
   * older list completes during it, and the agent reports a replay.
   */
  lemma RebuildDuringPullLooksLikeReplay(settings: Settings, key: SigningKey, target: Target, vault: VaultMaterial,
                                         now: Time, later: Time, agentNow: Time)
    requires Lower(key.fingerprint) == key.fingerprint
    requires Contains(vault.caChain, "BEGIN CERTIFICATE") && vault.crl.wellFormed
    requires later - now < settings.minIntervalSeconds * SECOND && agentNow <= now + settings.ttlSeconds * SECOND
    ensures var w := OneRebuilt(EmptyWorld(settings, key, target), target, now, vault);
            var y := AtLock(w, 2, target, DuringPull(now, later, vault));
            var z := React(y, SecondLock(2, later, Some(vault)));
            && |w.server.db.artifacts| == 1 && 2 in z.calls && z.calls[2].Finishing? && z.calls[2].row == Some(1)
            && |z.server.db.artifacts| == 2
            && var f, r := Stored(w.server.db.artifacts[0].artifact), z.server.db.artifacts[1];
               Judge(f, Delivery(target, Delivered(r.artifact, SignatureOf(r)), agentNow), key.fingerprint)
                 == Rejected(ReplayDetected)
  {
    var w := OneRebuilt(EmptyWorld(settings, key, target), target, now, vault);
    DuringPullWorlds(settings, key, target, vault, now, later);
    OneRebuiltKeepsInv(settings, key, target, now, vault);
    OverlappedKeepsCore(settings, key, target, now, vault);
    OverlappedState(settings, key, target, now, vault);
    RebuiltRowNumbers(settings, key, target, 2, 1, vault, now);
    hide Overlapped, OneRebuilt, RebuiltRow, WorldInv, React, AtLock, DuringPull, CoreInv;
    hide Judge, SignedCompatible, SignatureOf, TooSoon, NewestIsOlder;
    var s := AtLock(w, 2, target, DuringPull(now, later, vault)).server;
    RebuiltRowIsAcceptable(s, 0, target, 2, 1, vault, now, agentNow);
    RebuiltRowIsAcceptable(s, 1, target, 1, 2, vault, now, agentNow);
    InterleavedPullReportsReplayIff(w, 2, target, DuringPull(now, later, vault), SecondLock(2, later, Some(vault)),
                                    later, SignatureOf(s.db.artifacts[1]), agentNow,
                                    Stored(w.server.db.artifacts[0].artifact), 0, key.fingerprint);
  }
}
