/**
 * The agent against a server whose calls interleave: torn reads are still
 * caught, and replay alarms can be false.  Exactly when.
 */
module Replay {
  import opened Common
  import opened Numbering
  import opened Artifacts
  import opened TrustTables
  import opened Publication
  import opened PublicationRuns
  import opened Interleaving
  import opened AgentSync

  /**
   * An artifact fetched in one world and a signature fetched in a later one,
   * with any interleaving between: accepted exactly when both came from one row
   * that the anchor key signed.
   */
  lemma TornReadUnderInterleaving(w: World, events: seq<Interleaving.Event>, i: nat, j: nat, anchor: string)
    requires WorldInv(w) && Lower(anchor) == anchor && i < |w.server.db.artifacts|
    requires j < |History(w, events).server.db.artifacts|
    ensures var a, b := w.server.db.artifacts[i], History(w, events).server.db.artifacts[j];
            var v := VerifySignedArtifact(a.artifact, SignatureOf(b), a.target, anchor);
            && (v.Verified? <==> i == j && a.signerFingerprint == anchor)
            && (v.Verified? ==> v.digest == a.sha256)
  {
    HistoryKeepsInv(w, events);
    hide CoreInv, VerifySignedArtifact, History;
    RowsVerifyIff(History(w, events).server, i, j, anchor);
  }

  // ---- when a served pair is behind a stored one ----

  /** Row `a` is behind row `b` in the order the agent compares. */
  predicate Behind(a: ArtifactRow, b: ArtifactRow) {
    PairLess(a.trustlistVersion, a.revision, b.trustlistVersion, b.revision)
  }

  /** The newest row of the target has an older list version than row `j`. */
  predicate NewestIsOlder(s: Server, target: Target, j: nat)
    requires j < |s.db.artifacts|
  {
    LatestRow(s.db, target).Some? && LatestRow(s.db, target).value.trustlistVersion < s.db.artifacts[j].trustlistVersion
  }

  /** Every stored version was published, so none is above the newest list. */
  lemma RowVersionBound(s: Server, j: nat)
    requires CoreInv(s) && j < |s.db.artifacts|
    ensures s.db.artifacts[j].trustlistVersion <= LatestVersion(s.db, s.db.artifacts[j].target)
  {
    var r := s.db.artifacts[j];
    PublishedVersionBound(s.db, r.target, r.trustlistVersion, r.artifact.certificates.value);
  }

  /** The newest row of a target has its greatest revision. */
  lemma NewestHasGreatestRevision(s: Server, j: nat)
    requires CoreInv(s) && j < |s.db.artifacts|
    ensures var newest := LatestRow(s.db, s.db.artifacts[j].target);
            newest.Some? && newest.value.revision >= s.db.artifacts[j].revision
  {
    var rows := Revisions(s.db.artifacts);
    assert rows[j] == (s.db.artifacts[j].target, s.db.artifacts[j].revision);
    RowsUpToLatest(rows, j);
    LatestIsLast(rows, s.db.artifacts[j].target);
  }

  lemma NewestBehindIff(s: Server, j: nat)
    requires CoreInv(s) && j < |s.db.artifacts|
    ensures var target := s.db.artifacts[j].target;
            && LatestRow(s.db, target).Some?
            && (Behind(LatestRow(s.db, target).value, s.db.artifacts[j]) <==> NewestIsOlder(s, target, j))
  {
    NewestHasGreatestRevision(s, j);
  }

  /** The row a call would serve from the table or, with Vault sealed, fall back on. */
  predicate NotRenewed(s: Server, q: Request, now: Time, vault: Option<VaultMaterial>) {
    Throttled(s, q, now) || vault.None?
  }

  /**
   * A call serves a pair below that of a stored row exactly when it is
   * throttled and the newest row is of an older list version than that row.
   * Once the order is lost, the first call that is not throttled restores it.
   */
  lemma ServedBehindIff(s: Server, q: Request, now: Time, vault: Option<VaultMaterial>, u: Server,
                        o: Publication.Outcome, j: nat)
    requires CoreInv(s) && CallResult(s, q, now, vault, u, o) && o.Served?
    requires j < |s.db.artifacts| && s.db.artifacts[j].target == q.target
    ensures o.row < |u.db.artifacts|
    ensures Behind(u.db.artifacts[o.row], s.db.artifacts[j]) <==> Throttled(s, q, now) && NewestIsOlder(s, q.target, j)
  {
    ServedIsNewest(s, q, now, vault, u, o, j);
    ServedCases(s, q, now, vault, u, o);
    CallStart(s, q);
    RowVersionBound(s, j);
    VersionsPrefixOfEnsure(s, q.target);
    hide CallResult, CoreInv, EnsureTrustListCurrent, LatestVersion, LatestRow, ReadValid, TooSoon, ReasonNow;
  }

  /** A served row has the greatest revision, so it is behind another only by its version. */
  lemma ServedIsNewest(s: Server, q: Request, now: Time, vault: Option<VaultMaterial>, u: Server,
                       o: Publication.Outcome, j: nat)
    requires CoreInv(s) && CallResult(s, q, now, vault, u, o) && o.Served?
    requires j < |s.db.artifacts| && s.db.artifacts[j].target == q.target
    ensures o.row < |u.db.artifacts|
    ensures var r := u.db.artifacts[o.row];
            Behind(r, s.db.artifacts[j]) <==> r.trustlistVersion < s.db.artifacts[j].trustlistVersion
  {
    CallServesNewest(s, q, now, vault, u, o);
    hide CallResult, CoreInv, LatestArtifact;
    NewestHasGreatestRevision(u, j);
    assert u.db.artifacts[j] == s.db.artifacts[j];
  }

  /**
   * The artifact endpoint hands out a pair below that of a stored row exactly
   * when it does not renew (throttled, or Vault sealed) and the newest row is of
   * an older list version than that row.
   */
  lemma EndpointBehindIff(s: Server, target: Target, at: Time, vault: Option<VaultMaterial>, j: nat)
    requires CoreInv(s) && j < |s.db.artifacts| && s.db.artifacts[j].target == target
    requires ArtifactEndpoint(s, target, at, vault).1.Some?
    ensures var (u, row) := ArtifactEndpoint(s, target, at, vault);
            && row.value < |u.db.artifacts|
            && (Behind(u.db.artifacts[row.value], s.db.artifacts[j]) <==>
                  NotRenewed(s, Request(target, false, false), at, vault) && NewestIsOlder(s, target, j))
  {
    var q := Request(target, false, false);
    var (u, o) := GetOrRegenerate(s, q, at, vault);
    NewestBehindIff(s, j);
    if o.Served? {
      ServedBehindIff(s, q, at, vault, u, o, j);
      if vault.None? { SealedServesCurrent(s, q, at, u, o, j); }
    } else {
      hide CoreInv, EnsureTrustListCurrent, LatestArtifact, ReasonNow, TooSoon, GetOrRegenerate, FreshRow;
      CallCases(s, q, at, vault, u, o);
      SameRowsSameNewest(s, u, target);
    }
  }

  /** With Vault sealed a call that is served and not throttled found nothing to renew. */
  lemma SealedServesCurrent(s: Server, q: Request, now: Time, u: Server, o: Publication.Outcome, j: nat)
    requires CoreInv(s) && CallResult(s, q, now, None, u, o) && o.Served?
    requires j < |s.db.artifacts| && s.db.artifacts[j].target == q.target
    ensures !Throttled(s, q, now) ==> !NewestIsOlder(s, q.target, j)
  {
    hide GetOrRegenerate, CoreInv, EnsureTrustListCurrent, LatestArtifact, ReasonNow;
    hide TooSoon, FreshRow, LatestRow, LatestVersion;
    CallCases(s, q, now, None, u, o);
    if UpToDate(s, q, now) {
      UpToDateIsCurrent(s, q, now);
      RowVersionBound(s, j);
      VersionsPrefixOfEnsure(s, q.target);
    }
  }

  lemma SameRowsSameNewest(s: Server, u: Server, target: Target)
    requires u.db.artifacts == s.db.artifacts
    ensures LatestRow(u.db, target) == LatestRow(s.db, target)
            && LatestArtifact(u.db, target) == LatestArtifact(s.db, target)
  {
  }

  lemma VersionsPrefixOfEnsure(s: Server, target: Target)
    requires CoreInv(s)
    ensures LatestVersion(s.db, target) <= LatestVersion(AfterEnsure(s, target).db, target)
  {
    EnsureKeepsCore(s, target);
    VersionsPrefix(s.db, AfterEnsure(s, target).db, target);
  }

  /** With nothing to renew, the newest row has the version of the newest list. */
  lemma UpToDateIsCurrent(s: Server, q: Request, now: Time)
    requires CoreInv(s) && UpToDate(s, q, now)
    ensures LatestRow(s.db, q.target).Some?
    ensures LatestRow(s.db, q.target).value.trustlistVersion == LatestVersion(AfterEnsure(s, q.target).db, q.target)
  {
    CallStart(s, q);
  }

  // ---- when the agent reports a replay ----

  /**
   * A pull by an agent that holds row `j` reports a replay exactly when an agent
   * without a cached copy would accept what it got, the copy is one it compares
   * with, the artifact request did not renew, and the newest row is of an older
   * list version than row `j`.
   */
  lemma PullReportsReplayIff(s: Server, p: Pull, f: CachedFile, j: nat, anchor: string)
    requires CoreInv(s) && CachedFromRow(s, p.target, f, j)
    ensures var d := Delivery(p.target, ResponseOf(Requests(s, p)), p.agentNow);
            Judge(f, d, anchor) == Rejected(ReplayDetected) <==>
            && Judge(NoFile, d, anchor).Accepted? && SignedCompatible(f, anchor)
            && NotRenewed(s, Request(p.target, false, false), p.at, p.vault) && NewestIsOlder(s, p.target, j)
  {
    hide CoreInv, Requests, Judge, NotRenewed, NewestIsOlder, SignedCompatible, ResponseOf, Regresses;
    var d := Delivery(p.target, ResponseOf(Requests(s, p)), p.agentNow);
    ReplayIsRegression(f, d, anchor);
    if Judge(NoFile, d, anchor).Accepted? {
      AcceptedIsDelivered(d, anchor);
      DeliveredPairs(s, p, j);
      RegressesAgainstRow(s, p.target, f, j, d.response.artifact, anchor);
    }
  }

  /** Comparing with a cached copy of row `j` is comparing with the row. */
  lemma RegressesAgainstRow(s: Server, target: Target, f: CachedFile, j: nat, a: Artifact, anchor: string)
    requires CoreInv(s) && CachedFromRow(s, target, f, j) && a.version.Some? && a.revision.Some?
    ensures Regresses(f, anchor, a.version.value, a.revision.value) <==>
            && SignedCompatible(f, anchor)
            && PairLess(a.version.value, a.revision.value,
                        s.db.artifacts[j].trustlistVersion, s.db.artifacts[j].revision)
  {
    RowNumbers(s, j);
  }

  lemma AcceptedIsDelivered(d: Delivery, anchor: string)
    requires Judge(NoFile, d, anchor).Accepted?
    ensures d.response.Delivered?
  {
  }

  /** A replay alarm is the last of the checks: all others have passed. */
  lemma ReplayIsRegression(f: CachedFile, d: Delivery, anchor: string)
    requires f.Stored?
    ensures Judge(f, d, anchor) == Rejected(ReplayDetected) <==>
            && Judge(NoFile, d, anchor).Accepted?
            && d.response.artifact.version.Some? && d.response.artifact.revision.Some?
            && Regresses(f, anchor, d.response.artifact.version.value, d.response.artifact.revision.value)
  {
    hide VerifySignedArtifact, PayloadWellFormed;
  }

  /** What a pull delivers, as a row, and how it stands to row `j`. */
  lemma DeliveredPairs(s: Server, p: Pull, j: nat)
    requires CoreInv(s) && j < |s.db.artifacts| && s.db.artifacts[j].target == p.target
    requires ResponseOf(Requests(s, p)).Delivered?
    ensures var a := ResponseOf(Requests(s, p)).artifact;
            && a.version.Some? && a.revision.Some?
            && (PairLess(a.version.value, a.revision.value,
                         s.db.artifacts[j].trustlistVersion, s.db.artifacts[j].revision) <==>
                  NotRenewed(s, Request(p.target, false, false), p.at, p.vault) && NewestIsOlder(s, p.target, j))
  {
    var x := Requests(s, p);
    ExchangeRows(s, p);
    var i := x.artifactRow.value;
    EndpointBehindIff(s, p.target, p.at, p.vault, j);
    EndpointRowStays(s, p);
    RowNumbers(x.server, i);
  }

  /** The row the artifact endpoint handed out is still the same row when the signature has been fetched. */
  lemma EndpointRowStays(s: Server, p: Pull)
    requires CoreInv(s) && ArtifactEndpoint(s, p.target, p.at, p.vault).1.Some?
    ensures var (u, row) := ArtifactEndpoint(s, p.target, p.at, p.vault);
            var x := Requests(s, p);
            && x.artifactRow == row && row.value < |u.db.artifacts| <= |x.server.db.artifacts|
            && x.server.db.artifacts[row.value] == u.db.artifacts[row.value]
  {
    hide GetOrRegenerate, CoreInv, Latest;
    var q := Request(p.target, false, false);
    var (u, o) := GetOrRegenerate(s, q, p.at, p.vault);
    CallServesNewest(s, q, p.at, p.vault, u, o);
    RunKeepsCore(u, p.between);
    var w := PublicationRuns.Run(u, p.between);
    var (v, o') := GetOrRegenerate(w, q, p.sigAt, p.sigVault);
    CallServesNewest(w, q, p.sigAt, p.sigVault, v, o');
  }

  // ---- the same when the sections of the request interleave with other calls ----

  /**
   * Whatever signature document comes with it, now or later: an agent that holds row
   * `j` and is sent the artifact of row `i` reports a replay exactly when it would
   * otherwise accept it, compares with its copy, and row `i` is behind row `j`.
   */
  lemma RowReportsReplayIff(s: Server, i: nat, sg: SignatureDoc, agentNow: Time, f: CachedFile, j: nat,
                            anchor: string)
    requires CoreInv(s) && i < |s.db.artifacts| && CachedFromRow(s, s.db.artifacts[i].target, f, j)
    ensures var r := s.db.artifacts[i];
            var d := Delivery(r.target, Delivered(r.artifact, sg), agentNow);
            Judge(f, d, anchor) == Rejected(ReplayDetected) <==>
            Judge(NoFile, d, anchor).Accepted? && SignedCompatible(f, anchor) && Behind(r, s.db.artifacts[j])
  {
    hide CoreInv, Judge, SignedCompatible, Regresses;
    var r := s.db.artifacts[i];
    RowNumbers(s, i);
    ReplayIsRegression(f, Delivery(r.target, Delivered(r.artifact, sg), agentNow), anchor);
    RegressesAgainstRow(s, r.target, f, j, r.artifact, anchor);
  }

  /** The newest list of the target has reached the version, and so has what the call read, if it has. */
  predicate ReadsSince(w: World, id: nat, target: Target, version: int) {
    && LatestVersion(w.server.db, target) >= version
    && (id in w.calls && (w.calls[id].HasRead? || w.calls[id].WantsRebuild?) && w.calls[id].q.target == target ==>
          w.calls[id].read.version >= version)
  }

  lemma ListsGrow(w: World, e: Interleaving.Event, target: Target)
    requires WorldInv(w)
    ensures LatestVersion(w.server.db, target) <= LatestVersion(React(w, e).server.db, target)
  {
    EventKeepsInv(w, e);
    hide React;
    CoreLists(React(w, e).server);
    hide CoreInv;
    VersionsPrefix(w.server.db, React(w, e).server.db, target);
  }

  /** Only its own read gives a call a list; every other event leaves it with the one it has, or with none. */
  lemma OnlyReadsRead(w: World, e: Interleaving.Event, id: nat)
    requires e != ReadList(id)
    ensures var v := React(w, e);
            id in v.calls && (v.calls[id].HasRead? || v.calls[id].WantsRebuild?) ==>
              && id in w.calls && (w.calls[id].HasRead? || w.calls[id].WantsRebuild?)
              && v.calls[id].q == w.calls[id].q && v.calls[id].read == w.calls[id].read
  {
    hide ReadTrustList, AfterEnsure, ReasonNow, RegenerateUnderLock, Apply, Deliver, LatestArtifact;
  }

  lemma EventKeepsReadsSince(w: World, e: Interleaving.Event, id: nat, target: Target, version: int)
    requires WorldInv(w) && ReadsSince(w, id, target, version)
    ensures ReadsSince(React(w, e), id, target, version)
  {
    ListsGrow(w, e, target);
    hide LatestVersion, WorldInv;
    if e == ReadList(id) {
      ReadKeepsReadsSince(w, id, target, version);
    } else {
      OnlyReadsRead(w, e, id);
      hide React;
    }
  }

  lemma ReadKeepsReadsSince(w: World, id: nat, target: Target, version: int)
    requires WorldInv(w) && ReadsSince(w, id, target, version)
    ensures ReadsSince(React(w, ReadList(id)), id, target, version)
  {
    hide LatestVersion;
    if id in w.calls && w.calls[id].Ensured? && ReadTrustList(w.server, w.calls[id].q.target).Some? {
      ReadListReads(w, id);
      ReadIsLatest(w.server, w.calls[id].q.target);
      hide React, ReadTrustList, WorldInv;
    } else {
      hide ReadTrustList, WorldInv;
    }
  }

  lemma {:induction false} HistoryKeepsReadsSince(w: World, events: seq<Interleaving.Event>, id: nat, target: Target,
                                                  version: int)
    requires WorldInv(w) && ReadsSince(w, id, target, version)
    ensures ReadsSince(History(w, events), id, target, version)
  {
    if events != [] {
      hide ReadsSince, React, WorldInv;
      var before := History(w, events[..|events| - 1]);
      HistoryKeepsReadsSince(w, events[..|events| - 1], id, target, version);
      HistoryKeepsInv(w, events[..|events| - 1]);
      EventKeepsReadsSince(before, events[|events| - 1], id, target, version);
    }
  }

  /** A section of call `id` that looks at the clock `now` under the lock. */
  predicate LocksAt(e: Interleaving.Event, id: nat, now: Time) {
    (e.FirstLock? || e.SecondLock?) && e.id == id && e.now == now
  }

  /** The lock section that settles which row the call will return. */
  predicate Settles(w: World, e: Interleaving.Event, id: nat, now: Time) {
    && LocksAt(e, id, now) && id in w.calls && (w.calls[id].HasRead? || w.calls[id].WantsRebuild?)
    && id in React(w, e).calls && React(w, e).calls[id].Finishing?
  }

  lemma NoReasonIsCurrent(s: Server, read: Read, q: Request, now: Time)
    requires ReasonNow(s, read, q, now).None?
    ensures LatestRow(s.db, read.target).Some?
            && LatestRow(s.db, read.target).value.trustlistVersion == read.version
  {
  }

  /** The row a section kept or built, against a row no newer than what the call read. */
  lemma SectionRowBehindIff(s: Server, read: Read, q: Request, now: Time, vault: Option<VaultMaterial>, j: nat)
    requires CoreInv(s) && ReadValid(s.db, read) && read.target == q.target
    requires j < |s.db.artifacts| && s.db.artifacts[j].target == q.target
    requires read.version >= s.db.artifacts[j].trustlistVersion
    requires !RegenerateUnderLock(s, read, q, now, vault).1.VaultFailed?
    ensures var (u, locked) := RegenerateUnderLock(s, read, q, now, vault);
            var row := if locked.Kept? then locked.row else Some(locked.rowId);
            && row.Some? && row.value < |u.db.artifacts| && u.db.artifacts[row.value].target == q.target
            && (Behind(u.db.artifacts[row.value], s.db.artifacts[j]) <==>
                  !q.force && TooSoon(s, q.target, now) && NewestIsOlder(s, q.target, j))
  {
    hide CoreInv, RegenerateUnderLock, ReadValid, LatestArtifact, TooSoon, ReasonNow, TablesInv;
    NewestBehindIff(s, j);
    RegenerateKeepsCore(s, read, q, now, vault);
    RegenerateFrame(s, read, q, now, vault);
    if ReasonNow(s, read, q, now).None? { NoReasonIsCurrent(s, read, q, now); }
    var (u, locked) := RegenerateUnderLock(s, read, q, now, vault);
    if locked.Regenerated? {
      RegeneratedRow(s, read, q, now, vault, q.target);
      NewestHasGreatestRevision(u, j);
      assert u.db.artifacts[j] == s.db.artifacts[j];
    }
  }

  lemma SettledRowBehindIff(w: World, e: Interleaving.Event, id: nat, now: Time, j: nat)
    requires WorldInv(w) && Settles(w, e, id, now)
    requires j < |w.server.db.artifacts| && w.server.db.artifacts[j].target == w.calls[id].q.target
    requires w.calls[id].read.version >= w.server.db.artifacts[j].trustlistVersion
    ensures var (q, u, row) := (w.calls[id].q, React(w, e).server.db, React(w, e).calls[id].row);
            && row.Some? && row.value < |u.artifacts| && u.artifacts[row.value].target == q.target
            && (Behind(u.artifacts[row.value], w.server.db.artifacts[j]) <==>
                  !q.force && TooSoon(w.server, q.target, now) && NewestIsOlder(w.server, q.target, j))
  {
    assert PhaseValid(w.server.db, w.calls[id]);
    var q, read := w.calls[id].q, w.calls[id].read;
    if e.FirstLock? {
      if ReasonNow(w.server, read, q, now).None? { NoReasonIsCurrent(w.server, read, q, now); }
      hide CoreInv, ReadValid, LatestArtifact, TooSoon, ReasonNow;
      NewestBehindIff(w.server, j);
    } else {
      SectionRowBehindIff(w.server, read, q, now, e.vault, j);
      hide CoreInv, ReadValid, LatestArtifact, TooSoon, RegenerateUnderLock, Behind, NewestIsOlder;
    }
  }

  /** The world in which the agent's artifact request reaches its deciding lock. */
  function AtLock(w: World, id: nat, target: Target, events: seq<Interleaving.Event>): World {
    History(React(w, Begin(id, Request(target, false, false))), events)
  }

  lemma BeginReadsSince(w: World, id: nat, q: Request, j: nat)
    requires WorldInv(w) && id !in w.calls && j < |w.server.db.artifacts| && w.server.db.artifacts[j].target == q.target
    ensures var v := React(w, Begin(id, q));
            && WorldInv(v) && Extends(w.server.db, v.server.db)
            && ReadsSince(v, id, q.target, w.server.db.artifacts[j].trustlistVersion)
  {
    RowVersionBound(w.server, j);
    EventKeepsInv(w, Begin(id, q));
    ListsGrow(w, Begin(id, q), q.target);
    hide LatestVersion, WorldInv, AfterEnsure;
  }

  /**
   * A pull whose sections interleave with any other calls, steps and restarts, from its
   * begin to the lock that settles its row, and with any signature document: an agent that
   * held row `j` when it asked reports a replay exactly when it would otherwise accept what
   * it gets, compares with its copy, and at that lock the throttle stops the request while
   * the newest row is of an older list version than row `j`.
   */
  lemma InterleavedPullReportsReplayIff(w: World, id: nat, target: Target, events: seq<Interleaving.Event>,
                                        e: Interleaving.Event, now: Time, sg: SignatureDoc, agentNow: Time,
                                        f: CachedFile, j: nat, anchor: string)
    requires WorldInv(w) && id !in w.calls && CachedFromRow(w.server, target, f, j)
    requires Settles(AtLock(w, id, target, events), e, id, now)
    requires AtLock(w, id, target, events).calls[id].q == Request(target, false, false)
    ensures var v := AtLock(w, id, target, events);
            var (t, row) := (React(v, e).server.db, React(v, e).calls[id].row);
            && row.Some? && row.value < |t.artifacts| && j < |v.server.db.artifacts|
            && var d := Delivery(target, Delivered(t.artifacts[row.value].artifact, sg), agentNow);
            (Judge(f, d, anchor) == Rejected(ReplayDetected) <==>
              && Judge(NoFile, d, anchor).Accepted? && SignedCompatible(f, anchor)
              && TooSoon(v.server, target, now) && NewestIsOlder(v.server, target, j))
  {
    var q := Request(target, false, false);
    var begun := React(w, Begin(id, q));
    BeginReadsSince(w, id, q, j);
    HistoryKeepsInv(begun, events);
    HistoryKeepsReadsSince(begun, events, id, target, w.server.db.artifacts[j].trustlistVersion);
    var v := AtLock(w, id, target, events);
    assert v.server.db.artifacts[j] == w.server.db.artifacts[j];
    EventKeepsInv(v, e);
    WorldIsCore(React(v, e));
    hide History, React, WorldInv, CoreInv, LatestVersion, TooSoon, NewestIsOlder, Judge, SignedCompatible, Behind;
    SettledRowBehindIff(v, e, id, now, j);
    RowReportsReplayIff(React(v, e).server, React(v, e).calls[id].row.value, sg, agentNow, f, j, anchor);
  }

  lemma WorldIsCore(w: World)
    requires WorldInv(w)
    ensures CoreInv(w.server)
  {
  }

  /** The artifact such a request returns, however long after its lock, is the one stored in the settled row. */
  lemma FinishReturnsSettledRow(x: World, id: nat, later: seq<Interleaving.Event>)
    requires WorldInv(x) && id in x.calls && x.calls[id].Finishing? && x.calls[id].row.Some?
    ensures var p := x.calls[id];
            && p.row.value < |x.server.db.artifacts|
            && Deliver(History(x, later).server, p.read, p.row, p.built).1
                 == Served(p.read.version, p.row.value, x.server.db.artifacts[p.row.value].artifact)
  {
    var p, y := x.calls[id], History(x, later);
    HistoryKeepsInv(x, later);
    assert PhaseValid(x.server.db, p);
    PhaseStaysValid(x.server.db, y.server.db, p);
    hide History, CoreInv, ReadValid, Deliver;
    DeliverKeepsCore(y.server, p.read, p.row, p.built);
  }

  /** With Vault sealed the endpoint falls back on the newest row, of whatever moment: an alarm is due exactly then. */
  lemma FallbackReportsReplayIff(s: Server, target: Target, sg: SignatureDoc, agentNow: Time, f: CachedFile, j: nat,
                                 anchor: string)
    requires CoreInv(s) && CachedFromRow(s, target, f, j)
    ensures LatestRow(s.db, target).Some?
    ensures var d := Delivery(target, Delivered(LatestRow(s.db, target).value.artifact, sg), agentNow);
            Judge(f, d, anchor) == Rejected(ReplayDetected) <==>
            && Judge(NoFile, d, anchor).Accepted? && SignedCompatible(f, anchor) && NewestIsOlder(s, target, j)
  {
    NewestBehindIff(s, j);
    var i := LatestArtifact(s.db, target).value;
    hide CoreInv, LatestArtifact, Behind, NewestIsOlder, Judge, SignedCompatible;
    RowReportsReplayIff(s, i, sg, agentNow, f, j, anchor);
  }
}
