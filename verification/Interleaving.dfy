/**
 * The same publication code with calls split where other threads can run: the
 * list is ensured and read outside the lock, the decision and the rebuild are
 * two separate locked sections, and the cache is written after the lock.
 */
module Interleaving {
  import opened Common
  import opened Numbering
  import opened Artifacts
  import opened TrustTables
  import opened Publication
  import opened PublicationRuns

  /** Where a call stands between two of its sections. */
  datatype Phase =
    | Ensured(q: Request)
    | HasRead(q: Request, read: Read)
    | WantsRebuild(q: Request, read: Read)
    | Finishing(q: Request, read: Read, row: Option<nat>, built: Option<Artifact>)

  datatype World = World(server: Server, calls: map<nat, Phase>)

  datatype Event =
    | Begin(id: nat, q: Request)
    | ReadList(id: nat)
    | FirstLock(id: nat, now: Time)
    | SecondLock(id: nat, now: Time, vault: Option<VaultMaterial>)
    | Finish(id: nat)
    | Elsewhere(step: Step)

  function Advance(w: World, id: nat, server: Server, phase: Phase): World {
    World(server, w.calls[id := phase])
  }

  function Drop(w: World, id: nat, server: Server): World {
    World(server, w.calls - {id})
  }

  /** One section of one call, or a whole step of somebody else; a restart forgets the calls in flight. */
  function React(w: World, e: Event): World {
    var s := w.server;
    match e
    case Begin(id, q) =>
      if id in w.calls then w else Advance(w, id, AfterEnsure(s, q.target), Ensured(q))
    case ReadList(id) =>
      if id !in w.calls || !w.calls[id].Ensured? then w
      else (match ReadTrustList(s, w.calls[id].q.target)
            case None => Drop(w, id, s)
            case Some(read) => Advance(w, id, s, HasRead(w.calls[id].q, read)))
    case FirstLock(id, now) =>
      if id !in w.calls || !w.calls[id].HasRead? then w
      else
        var (q, read) := (w.calls[id].q, w.calls[id].read);
        Advance(w, id, s, if ReasonNow(s, read, q, now).Some? then WantsRebuild(q, read)
                          else Finishing(q, read, LatestArtifact(s.db, read.target), None))
    case SecondLock(id, now, vault) =>
      if id !in w.calls || !w.calls[id].WantsRebuild? then w
      else
        var (q, read) := (w.calls[id].q, w.calls[id].read);
        var (u, locked) := RegenerateUnderLock(s, read, q, now, vault);
        (match locked
         case Kept(row) => Advance(w, id, u, Finishing(q, read, row, None))
         case Regenerated(row, artifact) => Advance(w, id, u, Finishing(q, read, Some(row), Some(artifact)))
         case VaultFailed => Drop(w, id, u))
    case Finish(id) =>
      if id !in w.calls || !w.calls[id].Finishing? then w
      else
        var p := w.calls[id];
        Drop(w, id, Deliver(s, p.read, p.row, p.built).0)
    case Elsewhere(step) =>
      World(Apply(s, step), if step.Restart? then map[] else w.calls)
  }

  function History(w: World, events: seq<Event>): World {
    if events == [] then w else React(History(w, events[..|events| - 1]), events[|events| - 1])
  }

  // ---- the invariant ----

  ghost predicate PhaseValid(t: Tables, p: Phase) {
    match p
    case Ensured(q) => true
    case HasRead(q, read) => read.target == q.target && ReadValid(t, read)
    case WantsRebuild(q, read) => read.target == q.target && ReadValid(t, read)
    case Finishing(q, read, row, built) =>
      && read.target == q.target && ReadValid(t, read)
      && (row.Some? ==> row.value < |t.artifacts| && t.artifacts[row.value].target == read.target)
      && (built.Some? ==> row.Some? && built.value == t.artifacts[row.value].artifact)
  }

  ghost predicate WorldInv(w: World) {
    CoreInv(w.server) && forall id :: id in w.calls ==> PhaseValid(w.server.db, w.calls[id])
  }

  lemma PhaseStaysValid(t: Tables, u: Tables, p: Phase)
    requires PhaseValid(t, p) && Extends(t, u)
    ensures PhaseValid(u, p)
  {
    if !p.Ensured? {
      ReadStaysValid(t, u, p.read);
    }
  }

  lemma CallsStayValid(w: World, u: Server)
    requires WorldInv(w) && Extends(w.server.db, u.db)
    ensures forall id :: id in w.calls ==> PhaseValid(u.db, w.calls[id])
  {
    forall id | id in w.calls ensures PhaseValid(u.db, w.calls[id]) {
      PhaseStaysValid(w.server.db, u.db, w.calls[id]);
    }
  }

  lemma EventKeepsInv(w: World, e: Event)
    requires WorldInv(w)
    ensures WorldInv(React(w, e)) && Extends(w.server.db, React(w, e).server.db)
  {
    hide EnsureTrustListCurrent, Entries, LatestList, LatestArtifact, RegenerateUnderLock, CoreInv, ReadValid, Apply;
    var s := w.server;
    match e
    case Begin(id, q) =>
      EnsureKeepsCore(s, q.target);
      CallsStayValid(w, AfterEnsure(s, q.target));
    case ReadList(id) =>
      if id in w.calls && w.calls[id].Ensured? && ReadTrustList(s, w.calls[id].q.target).Some? {
        ReadIsValid(s, w.calls[id].q.target);
      }
    case FirstLock(id, now) =>
    case SecondLock(id, now, vault) =>
      if id in w.calls && w.calls[id].WantsRebuild? {
        SecondLockKeepsInv(w, id, now, vault);
      }
    case Finish(id) =>
      if id in w.calls && w.calls[id].Finishing? {
        assert PhaseValid(s.db, w.calls[id]);
        DeliverKeepsCore(s, w.calls[id].read, w.calls[id].row, w.calls[id].built);
      }
    case Elsewhere(step) =>
      StepKeepsCore(s, step);
      CallsStayValid(w, Apply(s, step));
  }

  lemma SecondLockKeepsInv(w: World, id: nat, now: Time, vault: Option<VaultMaterial>)
    requires WorldInv(w) && id in w.calls && w.calls[id].WantsRebuild?
    ensures var e := SecondLock(id, now, vault);
            WorldInv(React(w, e)) && Extends(w.server.db, React(w, e).server.db)
  {
    hide LatestArtifact, RegenerateUnderLock, CoreInv, ReadValid;
    var s, q, read := w.server, w.calls[id].q, w.calls[id].read;
    assert PhaseValid(s.db, w.calls[id]);
    var (u, locked) := RegenerateUnderLock(s, read, q, now, vault);
    RegenerateKeepsCore(s, read, q, now, vault);
    CallsStayValid(w, u);
    if locked.Regenerated? {
      RegeneratedRow(s, read, q, now, vault, q.target);
    }
  }

  /**
   * Over every interleaving of sections, steps and restarts: per target the
   * revisions are sequential, signed JSON and row agree, the cache agrees with
   * the table, and nothing published is rewritten.
   */
  lemma {:induction false} HistoryKeepsInv(w: World, events: seq<Event>)
    requires WorldInv(w)
    ensures WorldInv(History(w, events)) && Extends(w.server.db, History(w, events).server.db)
  {
    if events != [] {
      HistoryKeepsInv(w, events[..|events| - 1]);
      EventKeepsInv(History(w, events[..|events| - 1]), events[|events| - 1]);
    }
  }

  // ---- the cache never shows ----

  /** The phase without the cache entry the call may have read. */
  function Uncached(p: Phase): Phase {
    match p
    case Ensured(q) => p
    case HasRead(q, read) => HasRead(q, read.(cacheEntry := None))
    case WantsRebuild(q, read) => WantsRebuild(q, read.(cacheEntry := None))
    case Finishing(q, read, row, built) => Finishing(q, read.(cacheEntry := None), row, built)
  }

  /** The same but for what is, or was, in the cache. */
  predicate SameButCache(w: World, x: World) {
    && x.server == w.server.(cache := x.server.cache) && x.calls.Keys == w.calls.Keys
    && forall id :: id in w.calls ==> Uncached(x.calls[id]) == Uncached(w.calls[id])
  }

  lemma AdvanceSame(w: World, x: World, id: nat, server: Server, server': Server, p: Phase, p': Phase)
    requires SameButCache(w, x) && server' == server.(cache := server'.cache) && Uncached(p') == Uncached(p)
    ensures SameButCache(Advance(w, id, server, p), Advance(x, id, server', p'))
  {
    hide Uncached;
  }

  lemma DropSame(w: World, x: World, id: nat, server: Server, server': Server)
    requires SameButCache(w, x) && server' == server.(cache := server'.cache)
    ensures SameButCache(Drop(w, id, server), Drop(x, id, server'))
  {
    hide Uncached;
  }

  /** What a call in flight carries, in two worlds that differ in the cache only. */
  lemma SameCarried(w: World, x: World, id: nat)
    requires WorldInv(w) && WorldInv(x) && SameButCache(w, x) && id in w.calls
    ensures id in x.calls && x.calls[id].q == w.calls[id].q
    ensures x.calls[id].Ensured? == w.calls[id].Ensured? && x.calls[id].HasRead? == w.calls[id].HasRead?
    ensures x.calls[id].WantsRebuild? == w.calls[id].WantsRebuild?
    ensures w.calls[id].Finishing? ==> x.calls[id].row == w.calls[id].row && x.calls[id].built == w.calls[id].built
    ensures !w.calls[id].Ensured? ==>
              && (var r := x.calls[id].read; r == w.calls[id].read.(cacheEntry := r.cacheEntry))
              && ReadValid(w.server.db, w.calls[id].read) && ReadValid(w.server.db, x.calls[id].read)
  {
    hide CoreInv, ReadValid;
    assert Uncached(x.calls[id]) == Uncached(w.calls[id]);
    assert PhaseValid(w.server.db, w.calls[id]) && PhaseValid(x.server.db, x.calls[id]);
  }

  lemma ReadIgnoresCache(w: World, x: World, id: nat)
    requires SameButCache(w, x) && id in w.calls && id in x.calls && x.calls[id] == w.calls[id] && w.calls[id].Ensured?
    ensures SameButCache(React(w, ReadList(id)), React(x, ReadList(id)))
  {
    var target := w.calls[id].q.target;
    hide SameButCache, LatestList, Entries;
    var before, after := ReadTrustList(w.server, target), ReadTrustList(x.server, target);
    SameServers(w, x);
    if before.None? {
      DropSame(w, x, id, w.server, x.server);
    } else {
      var q := w.calls[id].q;
      AdvanceSame(w, x, id, w.server, x.server, HasRead(q, before.value), HasRead(q, after.value));
    }
  }

  lemma SameServers(w: World, x: World)
    requires SameButCache(w, x)
    ensures x.server == w.server.(cache := x.server.cache) && x.calls.Keys == w.calls.Keys
    ensures forall id :: id in w.calls <==> id in x.calls
  {
    hide Uncached;
    assert forall id :: id in w.calls <==> id in w.calls.Keys;
    assert forall id :: id in x.calls <==> id in x.calls.Keys;
  }

  lemma FirstLockIgnoresCache(w: World, x: World, id: nat, now: Time)
    requires WorldInv(w) && WorldInv(x) && SameButCache(w, x) && id in w.calls && w.calls[id].HasRead?
    ensures SameButCache(React(w, FirstLock(id, now)), React(x, FirstLock(id, now)))
  {
    hide SameButCache, WorldInv, RegenerationReason, LatestArtifact, ReadValid;
    SameCarried(w, x, id);
    SameServers(w, x);
    var (q, r, r') := (w.calls[id].q, w.calls[id].read, x.calls[id].read);
    assert ReasonNow(w.server, r, q, now) == ReasonNow(x.server, r', q, now);
    var row := LatestArtifact(w.server.db, r.target);
    if ReasonNow(w.server, r, q, now).Some? {
      AdvanceSame(w, x, id, w.server, x.server, WantsRebuild(q, r), WantsRebuild(q, r'));
    } else {
      AdvanceSame(w, x, id, w.server, x.server, Finishing(q, r, row, None), Finishing(q, r', row, None));
    }
  }

  lemma SecondLockIgnoresCache(w: World, x: World, id: nat, now: Time, vault: Option<VaultMaterial>)
    requires WorldInv(w) && WorldInv(x) && SameButCache(w, x) && id in w.calls && w.calls[id].WantsRebuild?
    ensures SameButCache(React(w, SecondLock(id, now, vault)), React(x, SecondLock(id, now, vault)))
  {
    hide SameButCache, WorldInv, ReadValid, RegenerateUnderLock;
    SameCarried(w, x, id);
    SameServers(w, x);
    var (q, r, r') := (w.calls[id].q, w.calls[id].read, x.calls[id].read);
    RegenerateIgnoresCache(w.server, x.server, r, r', q, now, vault);
    var (v, locked) := RegenerateUnderLock(w.server, r, q, now, vault);
    var v' := RegenerateUnderLock(x.server, r', q, now, vault).0;
    match locked
    case Kept(row) => AdvanceSame(w, x, id, v, v', Finishing(q, r, row, None), Finishing(q, r', row, None));
    case Regenerated(row, a) =>
      AdvanceSame(w, x, id, v, v', Finishing(q, r, Some(row), Some(a)), Finishing(q, r', Some(row), Some(a)));
    case VaultFailed => DropSame(w, x, id, v, v');
  }

  /** Nor in what a call returns in the end. */
  lemma FinishIgnoresCache(w: World, x: World, id: nat)
    requires WorldInv(w) && WorldInv(x) && SameButCache(w, x) && id in w.calls && w.calls[id].Finishing?
    ensures id in x.calls && x.calls[id].Finishing?
    ensures var (p, p') := (w.calls[id], x.calls[id]);
            Deliver(x.server, p'.read, p'.row, p'.built).1 == Deliver(w.server, p.read, p.row, p.built).1
    ensures SameButCache(React(w, Finish(id)), React(x, Finish(id)))
  {
    hide ReadValid, Deliver, WorldInv, Uncached, SameButCache;
    SameCarried(w, x, id);
    SameServers(w, x);
    var (p, p') := (w.calls[id], x.calls[id]);
    DeliverIgnoresCache(w.server, x.server, p.read, p'.read, p.row, p.built);
    DropSame(w, x, id, Deliver(w.server, p.read, p.row, p.built).0, Deliver(x.server, p'.read, p.row, p.built).0);
  }

  lemma EventIgnoresCache(w: World, x: World, e: Event)
    requires WorldInv(w) && WorldInv(x) && SameButCache(w, x)
    ensures SameButCache(React(w, e), React(x, e))
  {
    SameServers(w, x);
    ServersSound(w, x);
    if e.Elsewhere? {
      StepIgnoresCache(w.server, x.server, e.step);
      ElsewhereSame(w, x, e.step);
    } else {
      if e.id in w.calls { SameCarried(w, x, e.id); }
      hide SameButCache, WorldInv, React, ReadValid, Apply;
      if OutOfTurn(w, e) {
        OffTurn(w, e);
        OffTurn(x, e);
      }
      match e
      case Begin(id, q) =>
        if id !in w.calls {
          BeginSame(w, x, id, q);
        }
      case ReadList(id) =>
        if id in w.calls && w.calls[id].Ensured? {
          EnsuredSame(w, x, id);
          ReadIgnoresCache(w, x, id);
        }
      case FirstLock(id, now) => if id in w.calls && w.calls[id].HasRead? { FirstLockIgnoresCache(w, x, id, now); }
      case SecondLock(id, now, vault) =>
        if id in w.calls && w.calls[id].WantsRebuild? { SecondLockIgnoresCache(w, x, id, now, vault); }
      case Finish(id) => if id in w.calls && w.calls[id].Finishing? { FinishIgnoresCache(w, x, id); }
    }
  }

  lemma ServersSound(w: World, x: World)
    requires WorldInv(w) && WorldInv(x)
    ensures CoreInv(w.server) && CoreInv(x.server)
  {
  }

  lemma EnsuredSame(w: World, x: World, id: nat)
    requires SameButCache(w, x) && id in w.calls && id in x.calls && w.calls[id].Ensured?
    ensures x.calls[id] == w.calls[id]
  {
    assert Uncached(x.calls[id]) == Uncached(w.calls[id]);
  }

  lemma BeginSame(w: World, x: World, id: nat, q: Request)
    requires SameButCache(w, x) && id !in w.calls
    ensures SameButCache(React(w, Begin(id, q)), React(x, Begin(id, q)))
  {
    SameServers(w, x);
    hide SameButCache, EnsureTrustListCurrent;
    AdvanceSame(w, x, id, AfterEnsure(w.server, q.target), AfterEnsure(x.server, q.target), Ensured(q), Ensured(q));
  }

  lemma ElsewhereSame(w: World, x: World, step: Step)
    requires SameButCache(w, x) && Apply(x.server, step) == Apply(w.server, step).(cache := Apply(x.server, step).cache)
    ensures SameButCache(React(w, Elsewhere(step)), React(x, Elsewhere(step)))
  {
    hide Apply, Uncached;
  }

  /** The call is not where the event expects it. */
  predicate OutOfTurn(w: World, e: Event)
    requires !e.Elsewhere?
  {
    if e.id !in w.calls then !e.Begin?
    else
      match e
      case Begin(_, _) => true
      case ReadList(id) => !w.calls[id].Ensured?
      case FirstLock(id, _) => !w.calls[id].HasRead?
      case SecondLock(id, _, _) => !w.calls[id].WantsRebuild?
      case Finish(id) => !w.calls[id].Finishing?
  }

  lemma OffTurn(w: World, e: Event)
    requires !e.Elsewhere? && OutOfTurn(w, e)
    ensures React(w, e) == w
  {
  }

  /**
   * Over every history: what the cache held at its start never shows in a table, a clock,
   * the row a call in flight has settled or, by `FinishIgnoresCache`, its answer.
   */
  lemma {:induction false} HistoryIgnoresCache(w: World, x: World, events: seq<Event>)
    requires WorldInv(w) && WorldInv(x) && SameButCache(w, x)
    ensures SameButCache(History(w, events), History(x, events))
  {
    if events != [] {
      var init := events[..|events| - 1];
      HistoryIgnoresCache(w, x, init);
      HistoryKeepsInv(w, init);
      HistoryKeepsInv(x, init);
      EventIgnoresCache(History(w, init), History(x, init), events[|events| - 1]);
      hide React, WorldInv, SameButCache;
    }
  }

  /** Gapless revisions under every interleaving, from an empty installation. */
  lemma RevisionsGaplessUnderInterleaving(settings: Settings, keyId: string, fingerprint: string,
                                          events: seq<Event>, target: Target, revision: int)
    ensures var t := History(World(Start(settings, keyId, fingerprint), map[]), events).server.db;
            && (1 <= revision <= CountOf(Revisions(t.artifacts), target) <==>
                  exists i :: 0 <= i < |t.artifacts| && t.artifacts[i].target == target
                      && t.artifacts[i].revision == revision)
            && (forall i :: 0 <= i < |t.artifacts| ==>
                  && t.artifacts[i].artifact.revision == Some(t.artifacts[i].revision)
                  && t.artifacts[i].artifact.version == Some(t.artifacts[i].trustlistVersion))
  {
    var w := World(Start(settings, keyId, fingerprint), map[]);
    StartHasInv(settings, keyId, fingerprint);
    HistoryKeepsInv(w, events);
    RevisionsAreGapless(History(w, events).server, target, revision);
    var t := History(w, events).server.db;
    forall i | 0 <= i < |t.artifacts| ensures t.artifacts[i].artifact.version == Some(t.artifacts[i].trustlistVersion) {
      assert RowSound(t.artifacts[i]);
    }
  }

  // ---- revocation under interleaving ----

  /** The newest list of the target does not name the certificate. */
  predicate ListOmits(t: Tables, target: Target, c: nat) {
    var l := LatestList(t, target);
    l.Some? ==> c !in t.lists[l.value].members
  }

  /** What the call will publish, if it gets to, does not name the certificate. */
  predicate CallOmits(t: Tables, p: Phase, c: nat) {
    match p
    case Ensured(q) => ListOmits(t, q.target, c)
    case HasRead(q, read) => !ListsCert(read.certs, c)
    case WantsRebuild(q, read) => !ListsCert(read.certs, c)
    case Finishing(q, read, row, built) => true
  }

  /** The certificate is revoked, and no call in flight got hold of a list that names it. */
  predicate Gone(w: World, c: nat) {
    IsRevoked(w.server.db, c) && forall id :: id in w.calls ==> CallOmits(w.server.db, w.calls[id], c)
  }

  lemma EnsureOmits(t: Tables, target: Target, other: Target, c: nat)
    requires ListsNumbered(t) && MembersDistinct(t) && IsRevoked(t, c)
    ensures ListOmits(EnsureTrustListCurrent(t, target), target, c)
    ensures ListOmits(t, other, c) ==> ListOmits(EnsureTrustListCurrent(t, target), other, c)
  {
    hide EnsureTrustListCurrent, LatestList, ListsNumbered, MembersDistinct;
    EnsureMembersExact(t, target, other);
    assert forall app: nat :: !StandsFor(t, target, app, c);
  }

  lemma BuildOmits(t: Tables, target: Target, other: Target, c: nat)
    requires ListsNumbered(t) && MembersDistinct(t) && IsRevoked(t, c)
    ensures ListOmits(BuildTrustList(t, target), target, c)
    ensures ListOmits(t, other, c) ==> ListOmits(BuildTrustList(t, target), other, c)
  {
    hide LatestList, ListsNumbered, MembersDistinct;
    BuildMakesLatest(t, target, other);
    InsertMembersIsUnion([], Desired(t, target));
    DesiredMembers(t, target, |t.apps|, c);
    assert forall app: nat :: !StandsFor(t, target, app, c);
  }

  lemma ReadOmits(s: Server, target: Target, c: nat)
    requires CoreInv(s) && ListOmits(s.db, target, c) && ReadTrustList(s, target).Some?
    ensures !ListsCert(ReadTrustList(s, target).value.certs, c)
  {
    var members := s.db.lists[LatestList(s.db, target).value].members;
    EntriesAreMembers(s.db, members, members);
  }

  lemma {:induction false} EntriesName(t: Tables, ids: seq<int>, c: nat)
    requires c in ids && c < |t.certs| && t.certs[c].applicationId < |t.apps|
    ensures ListsCert(Entries(t, ids), c)
    decreases |ids|
  {
    if ids[0] == c {
      assert Entries(t, ids)[0].certificateId == Some(c);
      assert Entries(t, ids)[0] in Entries(t, ids);
    } else {
      assert ids == [ids[0]] + ids[1..];
      EntriesName(t, ids[1..], c);
      var e :| e in Entries(t, ids[1..]) && e.certificateId == Some(c);
      assert e in Entries(t, ids);
    }
  }

  /** No row inserted from `t` to `u` names the certificate. */
  predicate NewRowsOmit(t: Tables, u: Tables, c: nat) {
    forall i :: |t.artifacts| <= i < |u.artifacts| ==>
      u.artifacts[i].artifact.certificates.Some? && !ListsCert(u.artifacts[i].artifact.certificates.value, c)
  }

  lemma ProceedOmits(s: Server, read: Read, q: Request, now: Time, vault: Option<VaultMaterial>, c: nat)
    requires CoreInv(s) && ReadValid(s.db, read) && !ListsCert(read.certs, c)
    ensures var u := Proceed(s, read, q, now, vault).0;
            NewRowsOmit(s.db, u.db, c) && u.db.lists == s.db.lists
  {
    hide CoreInv, ReadValid, LatestArtifact, Proceed, ListsCert, Regenerates;
    ProceedCases(s, read, q, now, vault);
  }

  lemma EnsuredCallOmits(s: Server, q: Request, now: Time, vault: Option<VaultMaterial>, other: Target, c: nat)
    requires CoreInv(s) && ListOmits(s.db, q.target, c) && ReadTrustList(s, q.target).Some?
    ensures var u := Proceed(s, ReadTrustList(s, q.target).value, q, now, vault).0;
            NewRowsOmit(s.db, u.db, c) && (ListOmits(s.db, other, c) ==> ListOmits(u.db, other, c))
  {
    var read := ReadTrustList(s, q.target).value;
    ReadOmits(s, q.target, c);
    ReadIsValid(s, q.target);
    hide ReadTrustList, Proceed, ListsCert, CoreInv, ListOmits, ReadValid, NewRowsOmit;
    ProceedOmits(s, read, q, now, vault, c);
    if ListOmits(s.db, other, c) { SameListsOmit(s.db, Proceed(s, read, q, now, vault).0.db, other, c); }
  }

  lemma AtomicCallOmits(s: Server, q: Request, now: Time, vault: Option<VaultMaterial>, other: Target, c: nat)
    requires CoreInv(s) && IsRevoked(s.db, c)
    ensures var u := GetOrRegenerate(s, q, now, vault).0;
            NewRowsOmit(s.db, u.db, c) && (ListOmits(s.db, other, c) ==> ListOmits(u.db, other, c))
  {
    EnsureKeepsCore(s, q.target);
    CoreLists(s);
    hide EnsureTrustListCurrent, ReadTrustList, Proceed, ListsCert, CoreInv, ListOmits, ReadValid;
    hide ListsNumbered, MembersDistinct, Extends, IsRevoked;
    EnsureOmits(s.db, q.target, other, c);
    EnsureFrame(s.db, q.target);
    var s1 := AfterEnsure(s, q.target);
    if ReadTrustList(s1, q.target).Some? {
      EnsuredCallOmits(s1, q, now, vault, other, c);
    }
  }

  lemma SameRowsOmit(t: Tables, u: Tables, c: nat)
    requires t.artifacts == u.artifacts
    ensures NewRowsOmit(t, u, c)
  {
  }

  lemma SameListsOmit(t: Tables, u: Tables, target: Target, c: nat)
    requires t.lists == u.lists && ListOmits(t, target, c)
    ensures ListOmits(u, target, c)
  {
  }

  lemma StepOmits(s: Server, step: Step, other: Target, c: nat)
    requires CoreInv(s) && IsRevoked(s.db, c)
    ensures var u := Apply(s, step);
            NewRowsOmit(s.db, u.db, c) && (ListOmits(s.db, other, c) ==> ListOmits(u.db, other, c))
  {
    CoreLists(s);
    hide GetOrRegenerate, ApplyToTables, BuildTrustList, CoreInv, ListOmits;
    hide ListsNumbered, MembersDistinct, NewRowsOmit, IsRevoked;
    TableStepFrame(s.db, step);
    match step
    case Call(q, now, vault) => AtomicCallOmits(s, q, now, vault, other, c);
    case Build(target) =>
      BuildOmits(s.db, target, other, c);
      BuildFrame(s.db, target);
      SameRowsOmit(s.db, Apply(s, step).db, c);
    case _ =>
      SameRowsOmit(s.db, Apply(s, step).db, c);
      if ListOmits(s.db, other, c) { SameListsOmit(s.db, Apply(s, step).db, other, c); }
  }

  lemma BuildFrame(t: Tables, target: Target)
    ensures BuildTrustList(t, target).artifacts == t.artifacts && BuildTrustList(t, target).certs == t.certs
  {
  }

  /** The row a rebuild appends names what the call read, no more and no less. */
  lemma RebuildNamesWhatWasRead(s: Server, read: Read, q: Request, now: Time, vault: Option<VaultMaterial>, c: nat)
    requires CoreInv(s) && ReadValid(s.db, read) && RegenerateUnderLock(s, read, q, now, vault).1.Regenerated?
    ensures var u := RegenerateUnderLock(s, read, q, now, vault).0;
            && |u.db.artifacts| == |s.db.artifacts| + 1
            && (NewRowsOmit(s.db, u.db, c) <==> !ListsCert(read.certs, c))
  {
    hide RegenerateUnderLock, CoreInv, ReadValid, LatestArtifact, ListsCert, TablesInv;
    RegeneratedRow(s, read, q, now, vault, read.target);
  }

  lemma SecondLockOmits(w: World, id: nat, now: Time, vault: Option<VaultMaterial>, c: nat)
    requires WorldInv(w) && Gone(w, c) && id in w.calls && w.calls[id].WantsRebuild?
    ensures var u := React(w, SecondLock(id, now, vault)).server;
            NewRowsOmit(w.server.db, u.db, c) && u.db.lists == w.server.db.lists && u.db.certs == w.server.db.certs
  {
    var s, q, read := w.server, w.calls[id].q, w.calls[id].read;
    assert PhaseValid(s.db, w.calls[id]) && CallOmits(s.db, w.calls[id], c);
    hide RegenerateUnderLock, CoreInv, ReadValid, LatestArtifact, ListsCert, LatestList, PhaseValid, ListOmits;
    RegenerateFrame(s, read, q, now, vault);
    if RegenerateUnderLock(s, read, q, now, vault).1.Regenerated? {
      RebuildNamesWhatWasRead(s, read, q, now, vault, c);
    } else {
      KeptLeavesTables(s, read, q, now, vault);
    }
  }

  lemma EventKeepsGone(w: World, e: Event, c: nat)
    requires WorldInv(w) && Gone(w, c)
    ensures Gone(React(w, e), c) && NewRowsOmit(w.server.db, React(w, e).server.db, c)
  {
    hide EnsureTrustListCurrent, LatestList, ListsCert, Apply, Deliver;
    hide RegenerateUnderLock, CoreInv, ReadTrustList, ListOmits;
    var s, u := w.server, React(w, e);
    match e
    case Begin(id, q) =>
      EnsureFrame(s.db, q.target);
      CoreLists(s);
      forall target
        ensures ListOmits(s.db, target, c) || target == q.target ==> ListOmits(AfterEnsure(s, q.target).db, target, c)
      {
        EnsureOmits(s.db, q.target, target, c);
      }
    case ReadList(id) =>
      if id in w.calls && w.calls[id].Ensured? && ReadTrustList(s, w.calls[id].q.target).Some? {
        assert CallOmits(s.db, w.calls[id], c);
        ReadOmits(s, w.calls[id].q.target, c);
      }
    case FirstLock(id, now) =>
      if id in w.calls { assert CallOmits(s.db, w.calls[id], c); }
    case SecondLock(id, now, vault) =>
      if id in w.calls && w.calls[id].WantsRebuild? {
        SecondLockOmits(w, id, now, vault, c);
        forall target | ListOmits(s.db, target, c) ensures ListOmits(u.server.db, target, c) {
          SameListsOmit(s.db, u.server.db, target, c);
        }
      }
    case Finish(id) =>
      if id in w.calls && w.calls[id].Finishing? {
        FinishFrame(s, w.calls[id]);
      }
    case Elsewhere(step) =>
      RevokedStaysRevoked(s, step, c);
      forall target ensures NewRowsOmit(s.db, Apply(s, step).db, c)
        && (ListOmits(s.db, target, c) ==> ListOmits(Apply(s, step).db, target, c))
      {
        StepOmits(s, step, target, c);
      }
      StepOmits(s, step, Target("", ""), c);
  }

  lemma FinishFrame(s: Server, p: Phase)
    requires p.Finishing?
    ensures Deliver(s, p.read, p.row, p.built).0.db == s.db
  {
  }

  /**
   * Revocation under every interleaving: once a certificate is revoked and no
   * call in flight carries a list that names it, no artifact inserted later
   * names it, however the sections of later calls are interleaved.
   */
  lemma {:induction false} RevokedForeverUnderInterleaving(w: World, events: seq<Event>, c: nat)
    requires WorldInv(w) && Gone(w, c)
    ensures Gone(History(w, events), c) && NewRowsOmit(w.server.db, History(w, events).server.db, c)
  {
    if events != [] {
      var before := History(w, events[..|events| - 1]);
      RevokedForeverUnderInterleaving(w, events[..|events| - 1], c);
      HistoryKeepsInv(w, events[..|events| - 1]);
      EventKeepsGone(before, events[|events| - 1], c);
      EventKeepsInv(before, events[|events| - 1]);
    }
  }

  /** A restart ends the calls in flight, so after one nothing revoked before it can be published. */
  lemma RestartForgetsReads(w: World, settings: Settings, keyId: string, fingerprint: string, events: seq<Event>,
                            c: nat)
    requires WorldInv(w) && IsRevoked(w.server.db, c)
    ensures var u := React(w, Elsewhere(Restart(settings, keyId, fingerprint)));
            NewRowsOmit(w.server.db, History(u, events).server.db, c)
  {
    var e := Elsewhere(Restart(settings, keyId, fingerprint));
    RestartEndsCalls(w, settings, keyId, fingerprint);
    hide WorldInv, History, NewRowsOmit, React;
    EventKeepsInv(w, e);
    RevokedForeverUnderInterleaving(React(w, e), events, c);
  }

  lemma RestartEndsCalls(w: World, settings: Settings, keyId: string, fingerprint: string)
    ensures var u := React(w, Elsewhere(Restart(settings, keyId, fingerprint)));
            u.server.db == w.server.db && u.calls == map[]
  {
  }

  /** The two locks of a call that has read are the second locked section on the tables as they are. */
  lemma LocksRegenerate(w: World, id: nat, now: Time, vault: VaultMaterial)
    requires id in w.calls && (w.calls[id].HasRead? || w.calls[id].WantsRebuild?)
    ensures History(w, [FirstLock(id, now), SecondLock(id, now, Some(vault))]).server
         == RegenerateUnderLock(w.server, w.calls[id].read, w.calls[id].q, now, Some(vault)).0
  {
    HistoryOfTwo(w, FirstLock(id, now), SecondLock(id, now, Some(vault)));
    FirstLockLeaves(w, id, now, vault);
    SecondLockLeaves(React(w, FirstLock(id, now)), id, now, vault);
    hide RegenerateUnderLock, History, React;
  }

  lemma FirstLockLeaves(w: World, id: nat, now: Time, vault: VaultMaterial)
    requires id in w.calls && (w.calls[id].HasRead? || w.calls[id].WantsRebuild?)
    ensures var (v, p) := (React(w, FirstLock(id, now)), w.calls[id]);
            && v.server == w.server && id in v.calls
            && (|| v.calls[id] == WantsRebuild(p.q, p.read)
                || (v.calls[id].Finishing? &&
                    RegenerateUnderLock(w.server, p.read, p.q, now, Some(vault)).0 == w.server))
  {
    var p := w.calls[id];
    if ReasonNow(w.server, p.read, p.q, now).None? {
      WithoutReasonKept(w.server, p.read, p.q, now, Some(vault));
    }
    hide RegenerateUnderLock, ReasonNow, LatestArtifact;
  }

  lemma SecondLockLeaves(w: World, id: nat, now: Time, vault: VaultMaterial)
    requires id in w.calls
    ensures var (u, p) := (React(w, SecondLock(id, now, Some(vault))).server, w.calls[id]);
            && (p.WantsRebuild? ==> u == RegenerateUnderLock(w.server, p.read, p.q, now, Some(vault)).0)
            && (p.Finishing? ==> u == w.server)
  {
    hide RegenerateUnderLock;
  }

  lemma WithoutReasonKept(s: Server, read: Read, q: Request, now: Time, vault: Option<VaultMaterial>)
    requires ReasonNow(s, read, q, now).None?
    ensures RegenerateUnderLock(s, read, q, now, vault).0 == s
  {
  }

  /** The second locked section publishes the certificate exactly when it rebuilds from a list that names it. */
  lemma RegeneratePublishesIff(s: Server, read: Read, q: Request, now: Time, vault: VaultMaterial, c: nat)
    requires CoreInv(s) && ReadValid(s.db, read) && IsRevoked(s.db, c)
    ensures var u := RegenerateUnderLock(s, read, q, now, Some(vault)).0;
            && IsRevoked(u.db, c)
            && |u.db.artifacts| == |s.db.artifacts| + (if Regenerates(s, read, q, now) then 1 else 0)
            && (NewRowsOmit(s.db, u.db, c) <==> (Regenerates(s, read, q, now) ==> !ListsCert(read.certs, c)))
  {
    RegenerateFrame(s, read, q, now, Some(vault));
    KeptLeavesTables(s, read, q, now, Some(vault));
    hide RegenerateUnderLock, CoreInv, ReadValid, LatestArtifact, ListsCert, NewRowsOmit, Regenerates;
    if Regenerates(s, read, q, now) {
      RebuildNamesWhatWasRead(s, read, q, now, Some(vault), c);
    } else {
      SameRowsOmit(s.db, s.db, c);
    }
  }

  /**
   * The condition is needed.  A call past its read that will rebuild, forced or not, has only
   * to take its locks to publish the revoked certificate, exactly when its list names it.
   */
  lemma StaleReadPublishesRevoked(w: World, id: nat, now: Time, vault: VaultMaterial, c: nat)
    requires WorldInv(w) && IsRevoked(w.server.db, c) && id in w.calls
    requires w.calls[id].HasRead? || w.calls[id].WantsRebuild?
    ensures var (p, t) := (w.calls[id], w.server.db);
            var u := History(w, [FirstLock(id, now), SecondLock(id, now, Some(vault))]).server.db;
            var rebuilds := Regenerates(w.server, p.read, p.q, now);
            && IsRevoked(u, c) && |u.artifacts| == |t.artifacts| + (if rebuilds then 1 else 0)
            && (NewRowsOmit(t, u, c) <==> (rebuilds ==> CallOmits(t, p, c)))
  {
    assert PhaseValid(w.server.db, w.calls[id]);
    LocksRegenerate(w, id, now, vault);
    hide RegenerateUnderLock, NewRowsOmit, ListsCert, React, History, IsRevoked, Regenerates, ReadValid, CoreInv;
    RegeneratePublishesIff(w.server, w.calls[id].read, w.calls[id].q, now, vault, c);
  }

  /**
   * So does a call between its ensure and its read, exactly when the newest list of its
   * target still names the certificate.
   */
  lemma UnreadCallPublishesRevoked(w: World, id: nat, now: Time, vault: VaultMaterial, c: nat)
    requires WorldInv(w) && IsRevoked(w.server.db, c) && id in w.calls && w.calls[id].Ensured?
    requires w.server.db.certs[c].applicationId < |w.server.db.apps|
    requires ReadTrustList(w.server, w.calls[id].q.target).Some?
    ensures var (q, t) := (w.calls[id].q, w.server.db);
            var u := History(w, [ReadList(id), FirstLock(id, now), SecondLock(id, now, Some(vault))]).server.db;
            var rebuilds := Regenerates(w.server, ReadTrustList(w.server, q.target).value, q, now);
            && IsRevoked(u, c) && |u.artifacts| == |t.artifacts| + (if rebuilds then 1 else 0)
            && (NewRowsOmit(t, u, c) <==> (rebuilds ==> CallOmits(t, w.calls[id], c)))
  {
    var read := React(w, ReadList(id));
    HistoryOfThree(w, ReadList(id), FirstLock(id, now), SecondLock(id, now, Some(vault)));
    EventKeepsInv(w, ReadList(id));
    ReadNamesIff(w.server, w.calls[id].q.target, c);
    ReadListReads(w, id);
    hide WorldInv, NewRowsOmit, ListsCert, React, History, IsRevoked, Regenerates, ReadTrustList, ListOmits;
    StaleReadPublishesRevoked(read, id, now, vault, c);
  }

  lemma ReadListReads(w: World, id: nat)
    requires id in w.calls && w.calls[id].Ensured? && ReadTrustList(w.server, w.calls[id].q.target).Some?
    ensures var v, q := React(w, ReadList(id)), w.calls[id].q;
            && v.server == w.server && id in v.calls
            && v.calls[id] == HasRead(q, ReadTrustList(w.server, q.target).value)
  {
    hide ReadTrustList;
  }

  /** A read names a certificate of a known application exactly when the list it reads does. */
  lemma ReadNamesIff(s: Server, target: Target, c: nat)
    requires CoreInv(s) && ReadTrustList(s, target).Some?
    requires c < |s.db.certs| && s.db.certs[c].applicationId < |s.db.apps|
    ensures ListsCert(ReadTrustList(s, target).value.certs, c) <==> !ListOmits(s.db, target, c)
  {
    if ListOmits(s.db, target, c) {
      ReadOmits(s, target, c);
    } else {
      EntriesName(s.db, s.db.lists[LatestList(s.db, target).value].members, c);
    }
  }

  lemma HistoryOfTwo(w: World, first: Event, second: Event)
    ensures History(w, [first, second]) == React(React(w, first), second)
  {
    hide React;
    assert [first, second][..1] == [first] && [first][..0] == [];
    assert History(w, [first]) == React(w, first);
  }

  lemma HistoryOfThree(w: World, first: Event, second: Event, third: Event)
    ensures History(w, [first, second, third]) == History(React(w, first), [second, third])
  {
    HistoryOfTwo(w, first, second);
    HistoryOfTwo(React(w, first), second, third);
    hide React;
    assert [first, second, third][..2] == [first, second];
  }

  // ---- atomic calls are one of the interleavings ----

  /** Running a call's sections back to back is the atomic call. */
  lemma SectionsComposeToCall(w: World, id: nat, q: Request, now: Time, vault: Option<VaultMaterial>)
    requires id !in w.calls
    ensures var w1 := React(w, Begin(id, q));
            var w2 := React(w1, ReadList(id));
            var w3 := React(w2, FirstLock(id, now));
            var w4 := React(w3, SecondLock(id, now, vault));
            React(w4, Finish(id)) == World(GetOrRegenerate(w.server, q, now, vault).0, w.calls)
  {
    hide EnsureTrustListCurrent, Entries, LatestList, LatestArtifact;
    hide BuildSignedArtifact, InsertArtifact, RegenerationReason;
    hide TooSoon, ReasonNow, RegenerateUnderLock, Deliver, ReadTrustList;
    var s1 := AfterEnsure(w.server, q.target);
    var w1 := React(w, Begin(id, q));
    var w2 := React(w1, ReadList(id));
    var w3 := React(w2, FirstLock(id, now));
    var w4 := React(w3, SecondLock(id, now, vault));
    var w5 := React(w4, Finish(id));
    assert w5.calls == w.calls;
  }

  // ---- what the split costs: the version order ----

  /** No row of a target is above its newest one in version, while the order holds. */
  lemma NewestRowBounds(s: Server, target: Target)
    requires CoreInv(s) && VersionsAscend(s.db)
    ensures forall i :: 0 <= i < |s.db.artifacts| && s.db.artifacts[i].target == target ==>
              LatestRow(s.db, target).Some?
                  && s.db.artifacts[i].trustlistVersion <= LatestRow(s.db, target).value.trustlistVersion
  {
    var rows := Revisions(s.db.artifacts);
    forall i | 0 <= i < |s.db.artifacts| && s.db.artifacts[i].target == target
      ensures LatestRow(s.db, target).Some?
              && s.db.artifacts[i].trustlistVersion <= LatestRow(s.db, target).value.trustlistVersion
    {
      assert rows[i].0 == target;
      RowsUpToLatest(rows, i);
    }
  }

  lemma AppendOrderIff(t: Tables, u: Tables, r: ArtifactRow, newest: Option<nat>)
    requires VersionsAscend(t) && u.artifacts == t.artifacts + [r] && u.lists == t.lists
    requires r.trustlistVersion <= LatestVersion(t, r.target)
    requires newest.Some? ==> newest.value < |t.artifacts| && t.artifacts[newest.value].target == r.target
    requires forall i :: 0 <= i < |t.artifacts| && t.artifacts[i].target == r.target ==>
               newest.Some? && t.artifacts[i].trustlistVersion <= t.artifacts[newest.value].trustlistVersion
    ensures VersionsAscend(u) <==> newest.None? || r.trustlistVersion >= t.artifacts[newest.value].trustlistVersion
  {
    var n := |t.artifacts|;
    assert u.artifacts[n] == r;
    assert forall i :: 0 <= i < n ==> u.artifacts[i] == t.artifacts[i];
  }

  /**
   * A rebuild keeps the artifacts of its target in version order exactly when
   * the trust list it read before the lock is not older than the newest
   * artifact it finds inside the lock.
   */
  lemma RebuildKeepsOrderIff(s: Server, read: Read, q: Request, now: Time, vault: Option<VaultMaterial>)
    requires CoreInv(s) && ReadValid(s.db, read) && VersionsAscend(s.db)
    requires RegenerateUnderLock(s, read, q, now, vault).1.Regenerated?
    ensures VersionsAscend(RegenerateUnderLock(s, read, q, now, vault).0.db) <==>
            LatestRow(s.db, read.target).None? || read.version >= LatestRow(s.db, read.target).value.trustlistVersion
  {
    hide RegenerateUnderLock, LatestArtifact, VersionsAscend, LatestVersion;
    var (u, locked) := RegenerateUnderLock(s, read, q, now, vault);
    RegeneratedRow(s, read, q, now, vault, read.target);
    NewestRowBounds(s, read.target);
    PublishedVersionBound(s.db, read.target, read.version, read.certs);
    var r := u.db.artifacts[|s.db.artifacts|];
    assert u.db.artifacts == s.db.artifacts + [r];
    AppendOrderIff(s.db, u.db, r, LatestArtifact(s.db, read.target));
  }

  lemma PublishedVersionBound(t: Tables, target: Target, version: int, entries: seq<CertEntry>)
    requires ListsNumbered(t) && FromList(t, target, version, entries)
    ensures version <= LatestVersion(t, target)
  {
    var l: nat :| ListHolds(t, l, target, version, entries);
    assert Versions(t.lists)[l] == (target, version);
    RowsUpToLatest(Versions(t.lists), l);
  }

  /** A rebuild whose list is still the newest one never disturbs the order. */
  lemma RebuildFromNewestListKeepsOrder(s: Server, read: Read, q: Request, now: Time, vault: Option<VaultMaterial>)
    requires CoreInv(s) && ReadValid(s.db, read) && VersionsAscend(s.db)
    requires RegenerateUnderLock(s, read, q, now, vault).1.Regenerated?
    requires read.version == LatestVersion(s.db, read.target)
    ensures VersionsAscend(RegenerateUnderLock(s, read, q, now, vault).0.db)
  {
    hide RegenerateUnderLock;
    RebuildKeepsOrderIff(s, read, q, now, vault);
  }

  /** A world with one target whose list, version 1, has no members. */
  function EmptyWorld(settings: Settings, key: SigningKey, target: Target): World {
    World(Server(Tables([], [], [], [TrustList(target, 1, [])], []), map[], map[], settings, key), map[])
  }

  /** Call 0 reads the list, version 2 is published, call 1 reads. */
  function BothHaveRead(w: World, target: Target): World {
    var q := Request(target, true, false);
    var first := React(React(w, Begin(0, q)), ReadList(0));
    var published := React(first, Elsewhere(Build(target)));
    React(React(published, Begin(1, q)), ReadList(1))
  }

  function Rebuild(w: World, id: nat, now: Time, vault: VaultMaterial): World {
    React(React(w, FirstLock(id, now)), SecondLock(id, now, Some(vault)))
  }

  /** Both calls have read, and call 1 has rebuilt. */
  function OneRebuilt(w: World, target: Target, now: Time, vault: VaultMaterial): World {
    Rebuild(BothHaveRead(w, target), 1, now, vault)
  }

  /** Two overlapping forced rebuilds: call 1, which read last, rebuilds first. */
  function Overlapped(w: World, target: Target, now: Time, vault: VaultMaterial): World {
    Rebuild(OneRebuilt(w, target, now, vault), 0, now, vault)
  }

  /** The row a forced rebuild of an empty list appends. */
  function RebuiltRow(settings: Settings, key: SigningKey, target: Target, version: int, revision: int,
                      vault: VaultMaterial, now: Time): ArtifactRow {
    var b := BuildSignedArtifact(key, settings.ttlSeconds, target, version, [], vault, revision, "force_rebuild", now);
    ArtifactRow(target, version, revision, b.artifact, b.sha256, b.signature, key.keyId, key.fingerprint,
                b.generatedAt, b.expiresAt, "force_rebuild")
  }

  /** The tables those rebuilds leave: version 2 as revision 1, then version 1 as revision 2. */
  function InvertedTables(settings: Settings, key: SigningKey, target: Target, vault: VaultMaterial, now: Time): Tables
  {
    Tables([], [], [], [TrustList(target, 1, []), TrustList(target, 2, [])],
           [RebuiltRow(settings, key, target, 2, 1, vault, now), RebuiltRow(settings, key, target, 1, 2, vault, now)])
  }

  lemma BothReadState(settings: Settings, key: SigningKey, target: Target)
    ensures var w := BothHaveRead(EmptyWorld(settings, key, target), target);
            var q := Request(target, true, false);
            var lists := [TrustList(target, 1, []), TrustList(target, 2, [])];
            w == World(Server(Tables([], [], [], lists, []), map[], map[], settings, key),
                       map[0 := HasRead(q, Read(target, 1, [], None)), 1 := HasRead(q, Read(target, 2, [], None))])
  {
    var q := Request(target, true, false);
    var w0 := EmptyWorld(settings, key, target);
    var l1, l2 := TrustList(target, 1, []), TrustList(target, 2, []);
    var t1 := w0.server.db;
    assert Versions([l1]) == [(target, 1)];
    assert Desired(t1, target) == [];
    assert LatestList(t1, target) == Some(0) && ListIsCurrent(t1, target);
    var w1 := React(React(w0, Begin(0, q)), ReadList(0));
    assert w1 == World(w0.server, map[0 := HasRead(q, Read(target, 1, [], None))]);
    var w2 := React(w1, Elsewhere(Build(target)));
    var t2 := t1.(lists := [l1, l2]);
    assert [(target, 1)][..0] == [] && MaxNumber([(target, 1)], target) == Some(1);
    assert BuildTrustList(t1, target) == t2;
    assert w2 == World(w0.server.(db := t2), w1.calls);
    assert Versions([l1, l2]) == [(target, 1), (target, 2)];
    assert [(target, 1), (target, 2)][..1] == [(target, 1)];
    assert LatestList(t2, target) == Some(1);
    assert Desired(t2, target) == [] && ListIsCurrent(t2, target);
  }

  /** One such rebuild on tables whose revisions of the target are 1..n. */
  lemma RebuildState(s: Server, calls: map<nat, Phase>, id: nat, target: Target, version: int, revision: int,
                     now: Time, vault: VaultMaterial)
    requires id in calls && calls[id] == HasRead(Request(target, true, false), Read(target, version, [], None))
    requires revision == (if LatestRow(s.db, target).None? then 1 else LatestRow(s.db, target).value.revision + 1)
    requires revision == NextNumber(Revisions(s.db.artifacts), target)
    ensures var w := Rebuild(World(s, calls), id, now, vault);
            && w.server == s.(db := s.db.(artifacts := s.db.artifacts
                                            + [RebuiltRow(s.settings, s.key, target, version, revision, vault, now)]),
                              lastRegen := s.lastRegen[target := now])
            && forall other :: other != id ==>
                 (other in w.calls <==> other in calls) && (other in calls ==> w.calls[other] == calls[other])
  {
    hide BuildSignedArtifact, NextNumber, LatestArtifact;
  }

  /** Then version 2 is revision 1, and call 0 still carries version 1. */
  lemma OneRebuiltState(settings: Settings, key: SigningKey, target: Target, now: Time, vault: VaultMaterial)
    ensures var w := OneRebuilt(EmptyWorld(settings, key, target), target, now, vault);
            var t := InvertedTables(settings, key, target, vault, now);
            && w.server == Server(t.(artifacts := [RebuiltRow(settings, key, target, 2, 1, vault, now)]), map[],
                                  map[target := now], settings, key)
            && 0 in w.calls && w.calls[0] == HasRead(Request(target, true, false), Read(target, 1, [], None))
            && 2 !in w.calls
  {
    BothReadState(settings, key, target);
    hide BuildSignedArtifact, Rebuild, BothHaveRead, RebuiltRow;
    var w3 := BothHaveRead(EmptyWorld(settings, key, target), target);
    assert Revisions([]) == [];
    RebuildState(w3.server, w3.calls, 1, target, 2, 1, now, vault);
  }

  /** From there, with whatever other calls in flight, call 0 completes the inversion. */
  lemma SecondRebuildState(s: Server, calls: map<nat, Phase>, target: Target, now: Time, vault: VaultMaterial)
    requires 0 in calls && calls[0] == HasRead(Request(target, true, false), Read(target, 1, [], None))
    requires s.db.artifacts == [RebuiltRow(s.settings, s.key, target, 2, 1, vault, now)]
    ensures var w := Rebuild(World(s, calls), 0, now, vault);
            && w.server == s.(db := s.db.(artifacts := InvertedTables(s.settings, s.key, target, vault, now).artifacts),
                              lastRegen := s.lastRegen[target := now])
            && forall other :: other != 0 ==>
                 (other in w.calls <==> other in calls) && (other in calls ==> w.calls[other] == calls[other])
  {
    var a := RebuiltRow(s.settings, s.key, target, 2, 1, vault, now);
    RebuiltRowNumbers(s.settings, s.key, target, 2, 1, vault, now);
    hide BuildSignedArtifact, Rebuild, RebuiltRow;
    assert Revisions([a]) == [(target, 1)] && [(target, 1)][..0] == [];
    assert MaxNumber([(target, 1)], target) == Some(1);
    assert s.db.artifacts == [a];
    RebuildState(s, calls, 0, target, 1, 2, now, vault);
  }

  lemma OverlappedState(settings: Settings, key: SigningKey, target: Target, now: Time, vault: VaultMaterial)
    ensures var s := Overlapped(EmptyWorld(settings, key, target), target, now, vault).server;
            s == Server(InvertedTables(settings, key, target, vault, now), map[], map[target := now], settings, key)
  {
    OneRebuiltState(settings, key, target, now, vault);
    hide Rebuild, OneRebuilt, RebuiltRow;
    var w := OneRebuilt(EmptyWorld(settings, key, target), target, now, vault);
    SecondRebuildState(w.server, w.calls, target, now, vault);
  }

  lemma RebuiltRowNumbers(settings: Settings, key: SigningKey, target: Target, version: int, revision: int,
                          vault: VaultMaterial, now: Time)
    ensures var r := RebuiltRow(settings, key, target, version, revision, vault, now);
            r.target == target && r.trustlistVersion == version && r.revision == revision
  {
  }

  /**
   * The order does get lost: two overlapping forced rebuilds, with a new list
   * version published between their reads, publish version 2 as revision 1 and
   * then version 1 as revision 2.
   */
  lemma OverlappingRebuildsInvertVersions(settings: Settings, key: SigningKey, target: Target, now: Time,
                                          vault: VaultMaterial)
    ensures var t := Overlapped(EmptyWorld(settings, key, target), target, now, vault).server.db;
            && |t.artifacts| == 2
            && t.artifacts[0].trustlistVersion == 2 && t.artifacts[0].revision == 1
            && t.artifacts[1].trustlistVersion == 1 && t.artifacts[1].revision == 2
            && !VersionsAscend(t)
  {
    OverlappedState(settings, key, target, now, vault);
    RebuiltRowNumbers(settings, key, target, 2, 1, vault, now);
    RebuiltRowNumbers(settings, key, target, 1, 2, vault, now);
    hide RebuiltRow, Overlapped;
    var rows := InvertedTables(settings, key, target, vault, now).artifacts;
    assert rows[0].target == rows[1].target;
  }
}
