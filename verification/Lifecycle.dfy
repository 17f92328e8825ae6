/**
 * The certificate-package lifecycle: a state machine that ignores regressions,
 * first with the read and the write of an update as one step, then split.
 */
module Lifecycle {
  import opened Common
  import opened TrustTables

  /** PACKAGE_LIFECYCLE_ORDER.get(state, -1). */
  function Rank(state: string): int {
    if state == "ISSUED" then 10
    else if state == "PACKAGED" then 20
    else if state == "PULLED" then 30
    else if state == "VERIFIED" then 40
    else if state == "STAGED" then 50
    else if state == "APPROVED" then 60
    else if state == "ACTIVATED" then 70
    else if state == "ROLLED_BACK" then 80
    else if state == "REVOKED" then 90
    else if state == "EXPIRED" then 100
    else -1
  }

  function UpperChar(c: char): char {
    if 'a' <= c <= 'z' then (c as int - 32) as char else c
  }

  /** Python's `str.upper`, for ASCII text. */
  function Upper(s: string): string {
    seq(|s|, i requires 0 <= i < |s| => UpperChar(s[i]))
  }

  /** The 26 small letters, and nothing else, are changed. */
  lemma UpperAlphabet()
    ensures Upper("abcdefghijklmnopqrstuvwxyz") == "ABCDEFGHIJKLMNOPQRSTUVWXYZ"
    ensures forall c: char :: c !in "abcdefghijklmnopqrstuvwxyz" ==> Upper([c]) == [c]
  {
    var letters := "abcdefghijklmnopqrstuvwxyz";
    forall c: char | 'a' <= c <= 'z' ensures c in letters {
      assert letters[c as int - 'a' as int] == c;
    }
  }

  datatype Update = Updated(row: Package) | UnsupportedState

  /** The UPDATE statement: the state is stored, and REVOKED also marks the row. */
  function Store(p: Package, state: string): Package {
    p.(lifecycle := state, status := if state == "REVOKED" then RevokedPackage else p.status)
  }

  function TargetState(current: string, requested: string): string {
    if Rank(requested) < Rank(Upper(current)) then Upper(current) else requested
  }

  /** `update_certificate_package_lifecycle` on an existing row. */
  function UpdateLifecycle(p: Package, requested: string): Update {
    var state := Upper(requested);
    if Rank(state) < 0 then UnsupportedState else Updated(Store(p, TargetState(p.lifecycle, state)))
  }

  /** `post_certificate_package_event`: an event of another type is recorded but changes nothing. */
  function PostEvent(p: Package, requested: string, eventType: Option<string>): Update {
    var byDefault := "package_" + Lower(requested);
    if eventType.Some? && eventType.value != "" && eventType.value != byDefault then Updated(p)
    else UpdateLifecycle(p, requested)
  }

  /** What one atomic request leaves; an unsupported one is refused and changes nothing. */
  function Updates(p: Package, requested: string): Package {
    match UpdateLifecycle(p, requested)
    case Updated(row) => row
    case UnsupportedState => p
  }

  /** A whole history of state requests, each one atomic. */
  function Run(p: Package, requests: seq<string>): Package {
    if requests == [] then p else Updates(Run(p, requests[..|requests| - 1]), requests[|requests| - 1])
  }

  /** The highest rank among a starting rank and the supported requests. */
  function HighestRank(start: int, requests: seq<string>): int {
    if requests == [] then start
    else
      var before := HighestRank(start, requests[..|requests| - 1]);
      var r := Rank(Upper(requests[|requests| - 1]));
      if r > before then r else before
  }

  predicate Known(state: string) {
    Rank(state) > 0 && Upper(state) == state
  }

  lemma RankIsInjective(a: string, b: string)
    requires Rank(a) == Rank(b) && Rank(a) > 0
    ensures a == b
  {
  }

  lemma UpperIsIdempotent(s: string)
    ensures Upper(Upper(s)) == Upper(s)
  {
  }

  // ---- one update, stated on the names of the states ----

  /** The states in the order in which a package passes through them. */
  const STAGES: seq<string> := ["ISSUED", "PACKAGED", "PULLED", "VERIFIED", "STAGED", "APPROVED", "ACTIVATED",
                                "ROLLED_BACK", "REVOKED", "EXPIRED"]

  lemma RankOfStage(i: nat)
    requires i < |STAGES|
    ensures Rank(STAGES[i]) == 10 * i + 10
  {
  }

  lemma StageIsUpper(i: nat)
    requires i < |STAGES|
    ensures Upper(STAGES[i]) == STAGES[i]
  {
    assert forall k :: 0 <= k < |STAGES[i]| ==> !('a' <= STAGES[i][k] <= 'z');
  }

  lemma SupportedIsStage(state: string)
    ensures Rank(state) >= 0 <==> state in STAGES
  {
  }

  /**
   * A request in any case moves the package to the later of its state and the one asked
   * for; reaching REVOKED marks it; anything but the ten states is refused.
   */
  lemma UpdateTakesTheLater(p: Package, requested: string, i: nat)
    requires i < |STAGES| && p.lifecycle == STAGES[i]
    ensures UpdateLifecycle(p, requested).UnsupportedState? <==> Upper(requested) !in STAGES
    ensures forall j: nat :: j < |STAGES| && Upper(requested) == STAGES[j] ==>
              var later := if i < j then j else i;
              UpdateLifecycle(p, requested)
                == Updated(p.(lifecycle := STAGES[later],
                              status := if STAGES[later] == "REVOKED" then RevokedPackage else p.status))
  {
    SupportedIsStage(Upper(requested));
    RankOfStage(i);
    StageIsUpper(i);
    forall j: nat | j < |STAGES| ensures Rank(STAGES[j]) == 10 * j + 10 { RankOfStage(j); }
    hide Rank, Upper;
  }

  /** After any history the state is the highest-ranked of the initial state and all supported requests. */
  lemma {:induction false} StateIsHighest(p: Package, requests: seq<string>)
    requires Known(p.lifecycle)
    ensures var q := Run(p, requests);
            && Known(q.lifecycle)
            && Rank(q.lifecycle) == HighestRank(Rank(p.lifecycle), requests)
            && q == p.(lifecycle := q.lifecycle, status := q.status)
  {
    if requests != [] {
      StateIsHighest(p, requests[..|requests| - 1]);
      UpperIsIdempotent(requests[|requests| - 1]);
    }
  }

  lemma {:induction false} HighestRankBounds(start: int, requests: seq<string>)
    ensures var h := HighestRank(start, requests);
            && h >= start
            && (forall r :: r in requests ==> h >= Rank(Upper(r)))
            && (h == start || exists r :: r in requests && h == Rank(Upper(r)))
  {
    if requests != [] {
      var init := requests[..|requests| - 1];
      HighestRankBounds(start, init);
      assert requests == init + [requests[|requests| - 1]];
    }
  }

  /** Order and repetition of the requests do not matter: only which states were asked for. */
  lemma OrderDoesNotMatter(p: Package, one: seq<string>, other: seq<string>)
    requires Known(p.lifecycle)
    requires forall r :: r in one <==> r in other
    ensures Run(p, one).lifecycle == Run(p, other).lifecycle
  {
    StateIsHighest(p, one);
    StateIsHighest(p, other);
    HighestRankBounds(Rank(p.lifecycle), one);
    HighestRankBounds(Rank(p.lifecycle), other);
    RankIsInjective(Run(p, one).lifecycle, Run(p, other).lifecycle);
  }

  /** Some supported request of the history left the package in REVOKED. */
  predicate PassedThroughRevoked(p: Package, requests: seq<string>) {
    requests != [] &&
    (|| PassedThroughRevoked(p, requests[..|requests| - 1])
     || (Rank(Upper(requests[|requests| - 1])) > 0 && Run(p, requests).lifecycle == "REVOKED"))
  }

  /**
   * The revoked mark is permanent and is set exactly when some step left the
   * package in REVOKED.
   */
  lemma {:induction false} RevokedMarkIff(p: Package, requests: seq<string>)
    requires Known(p.lifecycle)
    ensures Run(p, requests).status == RevokedPackage <==>
            p.status == RevokedPackage || PassedThroughRevoked(p, requests)
  {
    if requests != [] {
      RevokedMarkIff(p, requests[..|requests| - 1]);
      StateIsHighest(p, requests[..|requests| - 1]);
    }
  }

  lemma ExpiredStays(p: Package, requested: string)
    requires p.lifecycle == "EXPIRED"
    ensures Updates(p, requested) == p
  {
    assert Upper("EXPIRED") == "EXPIRED";
    var r := Upper(requested);
    hide Upper;
    assert Rank("EXPIRED") == 100;
    if Rank(r) >= 100 {
      RankIsInjective(r, "EXPIRED");
      hide Rank;
    }
  }

  /** Hence a REVOKED request that comes after EXPIRED changes nothing at all. */
  lemma {:induction false} ExpiredBlocksRevocation(p: Package, requests: seq<string>)
    requires p.lifecycle == "EXPIRED"
    ensures Run(p, requests) == p
  {
    if requests != [] {
      ExpiredBlocksRevocation(p, requests[..|requests| - 1]);
      ExpiredStays(p, requests[|requests| - 1]);
      hide Updates;
    }
  }

  // ---- events as agents post them ----

  datatype PostedEvent = PostedEvent(requested: string, eventType: Option<string>)

  function Post(p: Package, e: PostedEvent): Package {
    match PostEvent(p, e.requested, e.eventType)
    case Updated(row) => row
    case UnsupportedState => p
  }

  function PostAll(p: Package, events: seq<PostedEvent>): Package {
    if events == [] then p else Post(PostAll(p, events[..|events| - 1]), events[|events| - 1])
  }

  /** The event carries no type of its own, or the one its state implies. */
  predicate ChangesState(e: PostedEvent) {
    e.eventType.None? || e.eventType.value == "" || e.eventType.value == "package_" + Lower(e.requested)
  }

  function StateRequests(events: seq<PostedEvent>): seq<string> {
    if events == [] then []
    else
      var before := StateRequests(events[..|events| - 1]);
      if ChangesState(events[|events| - 1]) then before + [events[|events| - 1].requested] else before
  }

  /** A history of posted events is the history of its state-changing requests; all others leave the row alone. */
  lemma {:induction false} PostedEventsAreRequests(p: Package, events: seq<PostedEvent>)
    ensures PostAll(p, events) == Run(p, StateRequests(events))
  {
    if events != [] {
      hide UpdateLifecycle;
      var init, last := events[..|events| - 1], events[|events| - 1];
      PostedEventsAreRequests(p, init);
      if ChangesState(last) {
        var requests := StateRequests(init);
        assert (requests + [last.requested])[..|requests|] == requests;
      }
    }
  }

  // ---- the update split into its SELECT and its UPDATE ----

  /** One statement of a concurrent history on one row: a SELECT by a session, or that session's UPDATE. */
  datatype Statement = Select(session: nat) | Write(session: nat, requested: string)

  datatype Row = Row(package: Package, seen: map<nat, string>)

  function Execute(r: Row, st: Statement): Row {
    match st
    case Select(i) => r.(seen := r.seen[i := r.package.lifecycle])
    case Write(i, requested) =>
      if i !in r.seen || Rank(Upper(requested)) < 0 then r
      else Row(Store(r.package, TargetState(r.seen[i], Upper(requested))), r.seen - {i})
  }

  function ExecuteAll(r: Row, history: seq<Statement>): Row {
    if history == [] then r
    else Execute(ExecuteAll(r, history[..|history| - 1]), history[|history| - 1])
  }

  /** Under every interleaving of reads and writes, a package once marked revoked stays marked. */
  lemma {:induction false} RevokedMarkSurvivesInterleaving(r: Row, history: seq<Statement>)
    requires r.package.status == RevokedPackage
    ensures ExecuteAll(r, history).package.status == RevokedPackage
  {
    if history != [] {
      RevokedMarkSurvivesInterleaving(r, history[..|history| - 1]);
    }
  }

  lemma ExecuteOneMore(r: Row, history: seq<Statement>, st: Statement)
    ensures ExecuteAll(r, history + [st]) == Execute(ExecuteAll(r, history), st)
  {
    assert (history + [st])[..|history|] == history;
  }

  /** The state does not: a session that read before a revocation can write an older state over REVOKED. */
  lemma StateCanRegressWhenInterleaved(p: Package)
    requires p.lifecycle == "PULLED"
    ensures var history := [Select(0), Select(1), Write(1, "REVOKED"), Write(0, "VERIFIED")];
            ExecuteAll(Row(p, map[]), history).package == p.(lifecycle := "VERIFIED", status := RevokedPackage)
  {
    assert Upper("PULLED") == "PULLED" && Upper("REVOKED") == "REVOKED" && Upper("VERIFIED") == "VERIFIED";
    var r0 := Row(p, map[]);
    var (st1, st2, st3, st4) := (Select(0), Select(1), Write(1, "REVOKED"), Write(0, "VERIFIED"));
    assert [] + [st1] == [st1] && [st1] + [st2] == [st1, st2];
    assert [st1, st2] + [st3] == [st1, st2, st3] && [st1, st2, st3] + [st4] == [st1, st2, st3, st4];
    ExecuteOneMore(r0, [], st1);
    ExecuteOneMore(r0, [st1], st2);
    ExecuteOneMore(r0, [st1, st2], st3);
    ExecuteOneMore(r0, [st1, st2, st3], st4);
    assert ExecuteAll(r0, []) == r0;
    hide ExecuteAll, Upper;
    assert ExecuteAll(r0, [st1, st2]) == Row(p, map[0 := "PULLED", 1 := "PULLED"]);
    assert ExecuteAll(r0, [st1, st2, st3]) == Row(Store(p, "REVOKED"), map[0 := "PULLED", 1 := "PULLED"] - {1});
  }

  /**
   * A single write keeps or raises the rank exactly when what it read is not below the
   * row's present state or the request is not.
   */
  lemma WriteKeepsRankIff(r: Row, session: nat, requested: string)
    requires session in r.seen && Known(r.seen[session]) && Known(r.package.lifecycle) && Known(requested)
    ensures Rank(Execute(r, Write(session, requested)).package.lifecycle) >= Rank(r.package.lifecycle)
            <==> Rank(requested) >= Rank(r.package.lifecycle) || Rank(r.seen[session]) >= Rank(r.package.lifecycle)
  {
  }

  // ---- when a split history is as good as a serial one ----

  /** Requests one after the other, each read and written before the next begins. */
  function Serial(sessions: seq<nat>, requests: seq<string>): seq<Statement>
    requires |sessions| == |requests|
  {
    var n := |requests|;
    if n == 0 then []
    else
      var i, last := sessions[n - 1], requests[n - 1];
      Serial(sessions[..n - 1], requests[..n - 1]) + [Select(i), Write(i, last)]
  }

  /** A SELECT and its own UPDATE with nothing in between are the atomic update. */
  lemma SelectThenWrite(r: Row, i: nat, requested: string)
    ensures Execute(Execute(r, Select(i)), Write(i, requested)).package == Updates(r.package, requested)
  {
    hide Rank, Upper;
  }

  lemma RunOneMore(p: Package, requests: seq<string>, requested: string)
    ensures Run(p, requests + [requested]) == Updates(Run(p, requests), requested)
  {
    hide Updates;
    assert (requests + [requested])[..|requests|] == requests;
  }

  /** Run one after the other, by whatever sessions, the split updates are the atomic ones. */
  lemma {:induction false} SerialHistoryIsRun(r: Row, sessions: seq<nat>, requests: seq<string>)
    requires |sessions| == |requests|
    ensures ExecuteAll(r, Serial(sessions, requests)).package == Run(r.package, requests)
    decreases |requests|
  {
    if requests != [] {
      hide Execute, Updates;
      var n := |requests| - 1;
      var init, i, last := Serial(sessions[..n], requests[..n]), sessions[n], requests[n];
      SerialHistoryIsRun(r, sessions[..n], requests[..n]);
      ExecuteOneMore(r, init, Select(i));
      ExecuteOneMore(r, init + [Select(i)], Write(i, last));
      SelectThenWrite(ExecuteAll(r, init), i, last);
      RunOneMore(r.package, requests[..n], last);
      assert requests == requests[..n] + [last];
      assert Serial(sessions, requests) == init + [Select(i)] + [Write(i, last)];
    }
  }

  /** The row's state and everything any session still holds are states of the lifecycle. */
  predicate AllKnown(r: Row) {
    Known(r.package.lifecycle) && forall i :: i in r.seen ==> Known(r.seen[i])
  }

  lemma ExecuteKeepsKnown(r: Row, st: Statement)
    requires AllKnown(r)
    ensures AllKnown(Execute(r, st))
  {
    if st.Write? { UpperIsIdempotent(st.requested); }
    hide Rank, Upper;
  }

  lemma {:induction false} HistoryKeepsKnown(r: Row, history: seq<Statement>)
    requires AllKnown(r)
    ensures AllKnown(ExecuteAll(r, history))
  {
    if history != [] {
      hide AllKnown, Execute;
      HistoryKeepsKnown(r, history[..|history| - 1]);
      ExecuteKeepsKnown(ExecuteAll(r, history[..|history| - 1]), history[|history| - 1]);
    }
  }

  /** An UPDATE that meets a row above both what its session read and what it was asked for. */
  predicate LosesUpdate(r: Row, st: Statement) {
    && st.Write? && st.session in r.seen && Rank(Upper(st.requested)) >= 0
    && Rank(r.seen[st.session]) < Rank(r.package.lifecycle)
    && Rank(Upper(st.requested)) < Rank(r.package.lifecycle)
  }

  lemma StepLowersRankIff(r: Row, st: Statement)
    requires AllKnown(r)
    ensures Rank(Execute(r, st).package.lifecycle) < Rank(r.package.lifecycle) <==> LosesUpdate(r, st)
  {
    if st.Write? && st.session in r.seen && Rank(Upper(st.requested)) >= 0 {
      UpperIsIdempotent(st.requested);
      WriteKeepsRankIff(r, st.session, Upper(st.requested));
    }
    hide Rank, Upper;
  }

  /** Every statement finds the row as the statements before it left it. */
  function Before(r: Row, history: seq<Statement>, k: nat): Row
    requires k <= |history|
  {
    ExecuteAll(r, history[..k])
  }

  predicate LowersAt(r: Row, history: seq<Statement>, k: nat)
    requires k < |history|
  {
    Rank(Before(r, history, k + 1).package.lifecycle) < Rank(Before(r, history, k).package.lifecycle)
  }

  predicate LosesAt(r: Row, history: seq<Statement>, k: nat)
    requires k < |history|
  {
    LosesUpdate(Before(r, history, k), history[k])
  }

  /**
   * A history never lowers the state of the row exactly when none of its UPDATEs
   * meets a row above both what its session read and what it was asked for.
   */
  lemma NeverLowersIff(r: Row, history: seq<Statement>)
    requires AllKnown(r)
    ensures (forall k :: 0 <= k < |history| ==> !LowersAt(r, history, k)) <==>
            (forall k :: 0 <= k < |history| ==> !LosesAt(r, history, k))
  {
    forall k | 0 <= k < |history| ensures LowersAt(r, history, k) <==> LosesAt(r, history, k) {
      assert history[..k + 1] == history[..k] + [history[k]];
      ExecuteOneMore(r, history[..k], history[k]);
      HistoryKeepsKnown(r, history[..k]);
      hide Rank, LosesUpdate, ExecuteAll, AllKnown, Execute;
      StepLowersRankIff(Before(r, history, k), history[k]);
    }
  }

  /** The requests whose UPDATE was executed, in order. */
  function Executed(r: Row, history: seq<Statement>): seq<string> {
    if history == [] then []
    else
      var init, last := history[..|history| - 1], history[|history| - 1];
      if last.Write? && last.session in ExecuteAll(r, init).seen then Executed(r, init) + [last.requested]
      else Executed(r, init)
  }

  /** No session holds a state above the row's. */
  predicate SeenBelow(r: Row) {
    forall i :: i in r.seen ==> Rank(r.seen[i]) <= Rank(r.package.lifecycle)
  }

  /** An UPDATE that loses nothing is the atomic update of the row as it is. */
  lemma HarmlessWriteIsAtomic(r: Row, st: Statement)
    requires AllKnown(r) && SeenBelow(r) && !LosesUpdate(r, st)
    ensures SeenBelow(Execute(r, st))
    ensures st.Write? && st.session in r.seen ==>
              Execute(r, st).package == Updates(r.package, st.requested)
    ensures !(st.Write? && st.session in r.seen) ==> Execute(r, st).package == r.package
  {
    StepLowersRankIff(r, st);
    if st.Write? && st.session in r.seen && Rank(r.seen[st.session]) == Rank(r.package.lifecycle) {
      KnownByRank(r.seen[st.session], r.package.lifecycle);
    }
    hide Rank, Upper;
  }

  lemma KnownByRank(a: string, b: string)
    requires Known(a) && Known(b) && Rank(a) == Rank(b)
    ensures a == b
  {
  }

  /**
   * A history in which no UPDATE loses another one ends exactly as its requests run
   * one after the other, however its statements were interleaved.
   */
  lemma {:induction false} LosslessHistoryIsSerial(r: Row, history: seq<Statement>)
    requires AllKnown(r) && SeenBelow(r)
    requires forall k :: 0 <= k < |history| ==> !LosesAt(r, history, k)
    ensures ExecuteAll(r, history).package == Run(r.package, Executed(r, history))
    ensures SeenBelow(ExecuteAll(r, history))
  {
    if history != [] {
      hide AllKnown, SeenBelow, LosesUpdate, Updates, Execute;
      var n := |history| - 1;
      var init, last := history[..n], history[n];
      forall k | 0 <= k < n ensures !LosesAt(r, init, k) {
        assert init[..k] == history[..k];
        assert !LosesAt(r, history, k);
      }
      LosslessHistoryIsSerial(r, init);
      HistoryKeepsKnown(r, init);
      assert !LosesAt(r, history, n);
      HarmlessWriteIsAtomic(ExecuteAll(r, init), last);
      if last.Write? && last.session in ExecuteAll(r, init).seen {
        RunOneMore(r.package, Executed(r, init), last.requested);
      }
    }
  }
}
