/**
 * Moving revoked certificates out of the runtime tree: for every eligible
 * candidate copy, check the copy's digest, unlink.  And the later validation
 * of the receipt.  The disk is adversarial, as in Activation.
 */
module Quarantine {
  import opened Common
  import opened Paths

  /** An entry of the plan's `quarantine_candidates`. */
  datatype Candidate = NoCandidate | Candidate(path: string)

  /** The runtime tree and the plan's quarantine directory. */
  datatype State = State(runtime: Tree, quarantine: Tree)

  datatype Moved = Moved(from: string, digest: Sha)
  datatype Outcome = Done | CopyFailed(path: string) | ChecksumMismatch(path: string)

  // ---- the plan ----

  /** A trust entry the revocation report names, and a certificate file found in the runtime. */
  datatype Reported = NoReport | Reported(path: string, fingerprint: string)
  datatype RuntimeFile = RuntimeFile(path: string, fingerprint: string)

  datatype Decision = NoRevokedEntries | NoEligibleEntries | ReadyForQuarantine
  datatype Plan = Plan(active: seq<string>, candidates: seq<Candidate>, preserved: seq<string>, decision: Decision)

  function KeyOf(path: string, fingerprint: string): (string, string) {
    (NormalizeRelative(path), Lower(Strip(fingerprint)))
  }

  /** `_runtime_cert_entry_map` has this key. */
  predicate Indexed(files: seq<RuntimeFile>, key: (string, string)) {
    key.0 != "" && key.1 != "" && exists i :: 0 <= i < |files| && KeyOf(files[i].path, files[i].fingerprint) == key
  }

  /** The reported entry is still in the runtime, under this normalised path. */
  predicate StillPresent(e: Reported, files: seq<RuntimeFile>, path: string) {
    e.Reported? && NormalizeRelative(e.path) == path && Indexed(files, KeyOf(e.path, e.fingerprint))
  }

  /** The report names the path, and the runtime has a certificate there with the same fingerprint. */
  ghost predicate ReportedAndFound(affected: seq<Reported>, files: seq<RuntimeFile>, path: string) {
    path != "" &&
    exists e, f :: e in affected && f in files && e.Reported?
              && NormalizeRelative(e.path) == path && NormalizeRelative(f.path) == path
              && Lower(Strip(e.fingerprint)) == Lower(Strip(f.fingerprint)) && Lower(Strip(e.fingerprint)) != ""
  }

  lemma PresentIffFound(affected: seq<Reported>, files: seq<RuntimeFile>, path: string)
    ensures (exists i :: 0 <= i < |affected| && StillPresent(affected[i], files, path)) <==>
            ReportedAndFound(affected, files, path)
  {
    hide NormalizeRelative, Lower, Strip;
    if i :| 0 <= i < |affected| && StillPresent(affected[i], files, path) {
      var e := affected[i];
      var j :| 0 <= j < |files| && KeyOf(files[j].path, files[j].fingerprint) == KeyOf(e.path, e.fingerprint);
      assert e in affected && files[j] in files;
    }
    if ReportedAndFound(affected, files, path) {
      var e, f :| e in affected && f in files && e.Reported?
        && NormalizeRelative(e.path) == path && NormalizeRelative(f.path) == path
        && Lower(Strip(e.fingerprint)) == Lower(Strip(f.fingerprint)) && Lower(Strip(e.fingerprint)) != "";
      var j :| 0 <= j < |files| && files[j] == f;
      assert KeyOf(files[j].path, files[j].fingerprint) == KeyOf(e.path, e.fingerprint);
      var i :| 0 <= i < |affected| && affected[i] == e;
      assert StillPresent(affected[i], files, path);
    }
  }

  /** What the plan lists and decides, stated on the report and the listing. */
  ghost predicate Plans(plan: Plan, affected: seq<Reported>, files: seq<RuntimeFile>) {
    && (forall p :: p in plan.active <==> ReportedAndFound(affected, files, p))
    && (forall p :: Candidate(p) in plan.candidates <==> ReportedAndFound(affected, files, p) && MayLeave(p))
    && (forall p :: p in plan.preserved <==> ReportedAndFound(affected, files, p) && !MayLeave(p))
    && (plan.decision == ReadyForQuarantine <==> exists p :: ReportedAndFound(affected, files, p) && MayLeave(p))
    && (plan.decision == NoRevokedEntries <==> forall p :: !ReportedAndFound(affected, files, p))
  }

  lemma PresentAreFound(affected: seq<Reported>, files: seq<RuntimeFile>)
    ensures forall p :: (exists i :: 0 <= i < |affected| && StillPresent(affected[i], files, p)) <==>
              ReportedAndFound(affected, files, p)
  {
    forall p ensures (exists i :: 0 <= i < |affected| && StillPresent(affected[i], files, p)) <==>
                     ReportedAndFound(affected, files, p)
    {
      PresentIffFound(affected, files, p);
    }
  }

  lemma EligibleMayLeave()
    ensures forall p :: IsQuarantineEligible(p) <==> MayLeave(p)
  {
    forall p ensures IsQuarantineEligible(p) <==> MayLeave(p) {
      MayLeaveIff(p);
    }
  }

  lemma PlanPlans(plan: Plan, affected: seq<Reported>, files: seq<RuntimeFile>)
    requires forall c :: c in plan.candidates ==> c.Candidate?
    requires forall p :: p in plan.active <==> ReportedAndFound(affected, files, p)
    requires forall p :: Candidate(p) in plan.candidates <==> p in plan.active && MayLeave(p)
    requires forall p :: p in plan.preserved <==> p in plan.active && !MayLeave(p)
    requires plan.decision == (if plan.active == [] then NoRevokedEntries
                               else if plan.candidates == [] then NoEligibleEntries else ReadyForQuarantine)
    ensures Plans(plan, affected, files)
  {
    hide ReportedAndFound, MayLeave;
    if plan.active != [] { assert plan.active[0] in plan.active; }
    if plan.candidates != [] {
      assert plan.candidates[0] in plan.candidates;
      assert ReportedAndFound(affected, files, plan.candidates[0].path) && MayLeave(plan.candidates[0].path);
    }
  }

  /** The entries of `quarantine_revoked_dry_run_once`, given its report and the runtime listing. */
  method PlanQuarantine(affected: seq<Reported>, files: seq<RuntimeFile>) returns (plan: Plan)
    ensures forall c :: c in plan.candidates ==> c.Candidate?
    ensures forall p :: p in plan.active <==> exists i :: 0 <= i < |affected| && StillPresent(affected[i], files, p)
    ensures forall p :: Candidate(p) in plan.candidates <==> p in plan.active && IsQuarantineEligible(p)
    ensures forall p :: p in plan.preserved <==> p in plan.active && !IsQuarantineEligible(p)
    ensures plan.decision == (if plan.active == [] then NoRevokedEntries
                              else if plan.candidates == [] then NoEligibleEntries else ReadyForQuarantine)
    ensures Plans(plan, affected, files)
  {
    hide IsQuarantineEligible, KeyOf, NormalizeRelative, Plans, ReportedAndFound, MayLeave;
    var index := IndexFiles(files);
    var active: seq<string>, candidates: seq<Candidate>, preserved: seq<string> := [], [], [];
    var n := 0;
    while n < |affected|
      invariant 0 <= n <= |affected|
      invariant forall c :: c in candidates ==> c.Candidate?
      invariant forall p :: p in active <==> exists i :: 0 <= i < n && StillPresent(affected[i], files, p)
      invariant forall p :: Candidate(p) in candidates <==> p in active && IsQuarantineEligible(p)
      invariant forall p :: p in preserved <==> p in active && !IsQuarantineEligible(p)
    {
      var e := affected[n];
      if e.Reported? && KeyOf(e.path, e.fingerprint) in index {
        var path := NormalizeRelative(e.path);
        active := active + [path];
        if IsQuarantineEligible(path) {
          candidates := candidates + [Candidate(path)];
        } else {
          preserved := preserved + [path];
        }
      }
      n := n + 1;
    }
    plan := Plan(active, candidates, preserved,
                 if active == [] then NoRevokedEntries
                 else if candidates == [] then NoEligibleEntries else ReadyForQuarantine);
    PresentAreFound(affected, files);
    EligibleMayLeave();
    hide StillPresent;
    PlanPlans(plan, affected, files);
  }

  method IndexFiles(files: seq<RuntimeFile>) returns (index: set<(string, string)>)
    ensures forall key :: key in index <==> Indexed(files, key)
  {
    hide KeyOf;
    index := {};
    for i := 0 to |files|
      invariant forall key :: key in index <==> Indexed(files[..i], key)
    {
      var key := KeyOf(files[i].path, files[i].fingerprint);
      IndexedOneMore(files, i);
      if key.0 != "" && key.1 != "" {
        index := index + {key};
      }
    }
    assert files[..|files|] == files;
  }

  lemma IndexedOneMore(files: seq<RuntimeFile>, i: nat)
    requires i < |files|
    ensures forall key :: Indexed(files[..i + 1], key) <==>
              || Indexed(files[..i], key)
              || (key.0 != "" && key.1 != "" && key == KeyOf(files[i].path, files[i].fingerprint))
  {
    hide KeyOf;
    var more, few := files[..i + 1], files[..i];
    assert forall k :: 0 <= k < i ==> more[k] == few[k];
    assert more[i] == files[i];
    forall key ensures Indexed(more, key) <==>
        Indexed(few, key) || (key.0 != "" && key.1 != "" && key == KeyOf(files[i].path, files[i].fingerprint))
    {
      if k :| 0 <= k < |more| && KeyOf(more[k].path, more[k].fingerprint) == key {
        if k < i { assert KeyOf(few[k].path, few[k].fingerprint) == key; }
      }
      if k :| 0 <= k < |few| && KeyOf(few[k].path, few[k].fingerprint) == key {
        assert KeyOf(more[k].path, more[k].fingerprint) == key;
      }
    }
  }

  /** The planner's filter: every candidate's path is eligible. */
  predicate AllEligible(candidates: seq<Candidate>) {
    forall c :: c in candidates && c.Candidate? ==> IsQuarantineEligible(c.path)
  }

  // ---- which files leave ----

  function Source(c: Candidate): (path: string) {
    if c.Candidate? then NormalizeRelative(c.path) else ""
  }

  /** The loop acts on this candidate. */
  predicate Selected(c: Candidate, runtime: Tree) {
    var path := Source(c);
    path != "" && IsQuarantineEligible(path) && path in runtime
  }

  function Leaving(candidates: seq<Candidate>, runtime: Tree): (paths: set<string>) {
    set i | 0 <= i < |candidates| && Selected(candidates[i], runtime) :: Source(candidates[i])
  }

  /** What leaves, stated on the plan's entries and the runtime. */
  lemma LeavingIs(candidates: seq<Candidate>, runtime: Tree)
    ensures forall p :: p in Leaving(candidates, runtime) <==>
              && p in runtime && p != "" && MayLeave(p)
              && exists c :: c in candidates && c.Candidate? && NormalizeRelative(c.path) == p
  {
    forall p ensures IsQuarantineEligible(p) <==> MayLeave(p) {
      MayLeaveIff(p);
    }
    hide NormalizeRelative, MayLeave, IsQuarantineEligible;
    forall p | p in Leaving(candidates, runtime)
      ensures p in runtime && p != "" && MayLeave(p)
              && exists c :: c in candidates && c.Candidate? && NormalizeRelative(c.path) == p
    {
      var i :| 0 <= i < |candidates| && Selected(candidates[i], runtime) && Source(candidates[i]) == p;
      assert candidates[i] in candidates;
    }
    forall p, c | p in runtime && p != "" && MayLeave(p) && c in candidates && c.Candidate?
                  && NormalizeRelative(c.path) == p
      ensures p in Leaving(candidates, runtime)
    {
      var i :| 0 <= i < |candidates| && candidates[i] == c;
      assert Selected(candidates[i], runtime) && Source(candidates[i]) == p;
    }
  }

  lemma LeavingOneMore(candidates: seq<Candidate>, n: nat, runtime: Tree)
    requires n < |candidates|
    ensures Leaving(candidates[..n + 1], runtime)
         == Leaving(candidates[..n], runtime)
             + (if Selected(candidates[n], runtime) then {Source(candidates[n])} else {})
  {
    hide Selected, Source;
    var more, few := candidates[..n + 1], candidates[..n];
    assert forall i :: 0 <= i < n ==> more[i] == few[i];
    if Selected(candidates[n], runtime) {
      assert more[n] == candidates[n];
    }
    forall p | p in Leaving(more, runtime)
      ensures p in Leaving(few, runtime) + (if Selected(candidates[n], runtime) then {Source(candidates[n])} else {})
    {
      var i :| 0 <= i < |more| && Selected(more[i], runtime) && Source(more[i]) == p;
      if i < n { assert few[i] == more[i]; }
    }
    forall p | p in Leaving(few, runtime) ensures p in Leaving(more, runtime) {
      var i :| 0 <= i < |few| && Selected(few[i], runtime) && Source(few[i]) == p;
      assert more[i] == few[i];
    }
  }

  /** What leaves is in the runtime, eligible, and neither key material nor under own/. */
  lemma LeavingIsSafe(candidates: seq<Candidate>, runtime: Tree)
    ensures forall p :: p in Leaving(candidates, runtime) ==>
              p in runtime && IsQuarantineEligible(p) && !IsPrivateKeyPath(p) && !UnderOwn(Lower(Slashes(p)))
  {
    hide IsQuarantineEligible, IsPrivateKeyPath, UnderOwn;
    forall p | p in Leaving(candidates, runtime) ensures !IsPrivateKeyPath(p) && !UnderOwn(Lower(Slashes(p))) {
      EligibleIsSafe(p);
    }
  }

  // ---- the states on the way ----

  /** Exactly `gone` has been moved. */
  function After(start: State, gone: set<string>): State {
    State(start.runtime - gone, start.quarantine + map p | p in gone && p in start.runtime :: start.runtime[p])
  }

  function Copied(s: State, p: string, bytes: Bytes): State {
    s.(quarantine := s.quarantine[p := bytes])
  }

  /** Some candidates have been moved, and possibly one more copied, well or badly, but not unlinked. */
  ghost predicate OnTheWay(start: State, s: State, leaving: set<string>) {
    exists gone: set<string> :: gone <= leaving && (s == After(start, gone) || HalfMoved(start, s, leaving, gone))
  }

  ghost predicate HalfMoved(start: State, s: State, leaving: set<string>, gone: set<string>) {
    exists p, bytes :: p in leaving - gone && s == Copied(After(start, gone), p, bytes)
  }

  /**
   * Every byte that was in the runtime is there still or at its quarantine path, and
   * nothing else is in the runtime.
   */
  ghost predicate Conserves(start: State, s: State) {
    && (forall p :: p in start.runtime ==>
          || (p in s.runtime && s.runtime[p] == start.runtime[p])
          || (IsQuarantineEligible(p) && p in s.quarantine && s.quarantine[p] == start.runtime[p]))
    && (forall p :: p in s.runtime ==> p in start.runtime && s.runtime[p] == start.runtime[p])
    && start.quarantine.Keys <= s.quarantine.Keys
  }

  lemma EveryStepConserves(start: State, s: State, candidates: seq<Candidate>)
    requires OnTheWay(start, s, Leaving(candidates, start.runtime))
    ensures Conserves(start, s)
  {
    LeavingIsSafe(candidates, start.runtime);
    hide IsQuarantineEligible, IsPrivateKeyPath, UnderOwn, Leaving;
  }

  lemma AfterOneMore(start: State, gone: set<string>, p: string)
    requires p in start.runtime && p !in gone
    ensures p in After(start, gone).runtime && After(start, gone).runtime[p] == start.runtime[p]
    ensures After(start, gone + {p})
         == State(After(start, gone).runtime - {p}, After(start, gone).quarantine[p := start.runtime[p]])
  {
    assert start.runtime - (gone + {p}) == start.runtime - gone - {p};
  }

  // ---- validation of the receipt ----

  /** A receipt entry: the path that left, where it went, and the digest recorded (None: empty). */
  datatype Entry = NotAnObject | Entry(from: string, to: string, digest: Option<Sha>)
  datatype ReceiptStatus = Quarantined | NotApplicable | Other
  datatype Verdict = Validated | ValidationNotApplicable | Failed
  datatype Validation =
    Validation(verdict: Verdict, checked: nat, missing: seq<string>, remaining: seq<string>, mismatched: seq<string>)

  predicate Considered(e: Entry) {
    e.Entry? && NormalizeRelative(e.from) != ""
  }

  predicate Remains(e: Entry, s: State, p: string) {
    Considered(e) && NormalizeRelative(e.from) == p && p in s.runtime
  }

  predicate IsMissing(e: Entry, s: State, p: string) {
    Considered(e) && e.to == p && p !in s.quarantine
  }

  /** Entry `e` gives no reason to fail. */
  predicate Settled(e: Entry, s: State) {
    Considered(e) ==>
      && NormalizeRelative(e.from) !in s.runtime
      && e.to in s.quarantine
      && (e.digest.Some? ==> Sha(s.quarantine[e.to]) == e.digest.value)
  }

  function VerdictOf(status: ReceiptStatus, moved: seq<Entry>, s: State): Verdict {
    if status == Quarantined && forall i :: 0 <= i < |moved| ==> Settled(moved[i], s) then Validated
    else if status == NotApplicable then ValidationNotApplicable
    else Failed
  }

  function CountConsidered(moved: seq<Entry>): nat {
    if moved == [] then 0
    else CountConsidered(moved[..|moved| - 1]) + (if Considered(moved[|moved| - 1]) then 1 else 0)
  }

  /** Some entry of the receipt that names a path gives a reason to fail. */
  ghost predicate SomethingWrong(moved: seq<Entry>, s: State) {
    exists e :: e in moved && e.Entry? && NormalizeRelative(e.from) != ""
           && (|| NormalizeRelative(e.from) in s.runtime || e.to !in s.quarantine
               || (e.digest.Some? && Sha(s.quarantine[e.to]) != e.digest.value))
  }

  lemma SettledIff(moved: seq<Entry>, s: State)
    ensures (forall i :: 0 <= i < |moved| ==> Settled(moved[i], s)) <==> !SomethingWrong(moved, s)
  {
    hide NormalizeRelative;
    if i :| 0 <= i < |moved| && !Settled(moved[i], s) {
      assert moved[i] in moved;
    }
    if forall i :: 0 <= i < |moved| ==> Settled(moved[i], s) {
      forall e | e in moved ensures Settled(e, s) {
        var i :| 0 <= i < |moved| && moved[i] == e;
      }
    }
  }

  predicate IsMismatched(e: Entry, s: State, p: string) {
    Considered(e) && e.to == p && p in s.quarantine && e.digest.Some? && Sha(s.quarantine[p]) != e.digest.value
  }

  lemma ListsTellAll(moved: seq<Entry>, s: State, missing: seq<string>, remaining: seq<string>,
                     mismatched: seq<string>)
    requires forall p :: p in remaining <==> exists i :: 0 <= i < |moved| && Remains(moved[i], s, p)
    requires forall p :: p in missing <==> exists i :: 0 <= i < |moved| && IsMissing(moved[i], s, p)
    requires forall p :: p in mismatched <==> exists i :: 0 <= i < |moved| && IsMismatched(moved[i], s, p)
    ensures missing == [] && remaining == [] && mismatched == [] <==>
            forall i :: 0 <= i < |moved| ==> Settled(moved[i], s)
  {
    hide NormalizeRelative;
    if missing != [] { assert missing[0] in missing; }
    if remaining != [] { assert remaining[0] in remaining; }
    if mismatched != [] { assert mismatched[0] in mismatched; }
    if i :| 0 <= i < |moved| && !Settled(moved[i], s) {
      var e := moved[i];
      assert Remains(e, s, NormalizeRelative(e.from)) || IsMissing(e, s, e.to) || IsMismatched(e, s, e.to);
      assert NormalizeRelative(e.from) in remaining || e.to in missing || e.to in mismatched;
    }
  }

  /** The loop over the receipt's entries. */
  method CheckEntries(moved: seq<Entry>, s: State)
    returns (checked: nat, missing: seq<string>, remaining: seq<string>, mismatched: seq<string>)
    ensures forall p :: p in remaining <==> exists i :: 0 <= i < |moved| && Remains(moved[i], s, p)
    ensures forall p :: p in missing <==> exists i :: 0 <= i < |moved| && IsMissing(moved[i], s, p)
    ensures forall p :: p in mismatched <==> exists i :: 0 <= i < |moved| && IsMismatched(moved[i], s, p)
    ensures checked + |missing| == CountConsidered(moved)
  {
    hide NormalizeRelative;
    checked, missing, remaining, mismatched := 0, [], [], [];
    var n := 0;
    while n < |moved|
      invariant 0 <= n <= |moved|
      invariant forall p :: p in remaining <==> exists i :: 0 <= i < n && Remains(moved[i], s, p)
      invariant forall p :: p in missing <==> exists i :: 0 <= i < n && IsMissing(moved[i], s, p)
      invariant forall p :: p in mismatched <==> exists i :: 0 <= i < n && IsMismatched(moved[i], s, p)
      invariant checked + |missing| == CountConsidered(moved[..n])
    {
      assert moved[..n + 1][..n] == moved[..n];
      var e := moved[n];
      if e.Entry? && NormalizeRelative(e.from) != "" {
        var path := NormalizeRelative(e.from);
        if path in s.runtime {
          remaining := remaining + [path];
        }
        if e.to !in s.quarantine {
          missing := missing + [e.to];
        } else {
          checked := checked + 1;
          if e.digest.Some? && e.digest.value != Sha(s.quarantine[e.to]) {
            mismatched := mismatched + [e.to];
          }
        }
      }
      n := n + 1;
    }
    assert moved[..n] == moved;
  }

  /** `validate_revocation_quarantine_once`, given its plan and receipt. */
  method ValidateReceipt(status: ReceiptStatus, moved: seq<Entry>, s: State) returns (v: Validation)
    ensures v.verdict == VerdictOf(status, moved, s)
    ensures forall p :: p in v.remaining <==> exists i :: 0 <= i < |moved| && Remains(moved[i], s, p)
    ensures forall p :: p in v.missing <==> exists i :: 0 <= i < |moved| && IsMissing(moved[i], s, p)
    ensures forall p :: p in v.mismatched <==> exists i :: 0 <= i < |moved| && IsMismatched(moved[i], s, p)
    ensures v.checked + |v.missing| == CountConsidered(moved)
    ensures v.verdict == Validated <==> status == Quarantined && !SomethingWrong(moved, s)
    ensures v.verdict == ValidationNotApplicable <==> status == NotApplicable
  {
    SettledIff(moved, s);
    hide SomethingWrong, Settled, Remains, IsMissing, IsMismatched;
    if moved == [] && status == NotApplicable {
      return Validation(ValidationNotApplicable, 0, [], [], []);
    }
    var checked, missing, remaining, mismatched := CheckEntries(moved, s);
    ListsTellAll(moved, s, missing, remaining, mismatched);
    var verdict := if status == Quarantined && missing == [] && remaining == [] && mismatched == [] then Validated
                   else if status == NotApplicable then ValidationNotApplicable
                   else Failed;
    v := Validation(verdict, checked, missing, remaining, mismatched);
  }

  /** The receipt entries of a finished move. */
  function Entries(moved: seq<Moved>): seq<Entry> {
    seq(|moved|, i requires 0 <= i < |moved| => Entry(moved[i].from, moved[i].from, Some(moved[i].digest)))
  }

  function StatusOf(moved: seq<Moved>): ReceiptStatus {
    if moved != [] then Quarantined else NotApplicable
  }

  /** What a finished move reports. */
  ghost predicate Reports(moved: seq<Moved>, gone: set<string>, runtime: Tree) {
    && (forall m :: m in moved ==> m.from in gone && m.from in runtime && m.digest == Sha(runtime[m.from]))
    && (forall p :: p in gone ==> exists m :: m in moved && m.from == p)
  }

  /**
   * Whoever wrote the plan: with nothing in between, a receipt validates exactly
   * when no moved path normalises, a second time, to a path that is in the
   * runtime and was not moved.
   */
  lemma FreshReceiptValidatesIff(start: State, candidates: seq<Candidate>, moved: seq<Moved>)
    requires Reports(moved, Leaving(candidates, start.runtime), start.runtime)
    ensures var gone := Leaving(candidates, start.runtime);
            (forall i :: 0 <= i < |moved| ==> Settled(Entries(moved)[i], After(start, gone))) <==>
            (forall p :: p in gone ==> NormalizeRelative(p) in start.runtime ==> NormalizeRelative(p) in gone)
  {
    hide NormalizeRelative, Leaving;
    var gone := Leaving(candidates, start.runtime);
    var after := After(start, gone);
    LeavingHasNames(candidates, start.runtime);
    if forall i :: 0 <= i < |moved| ==> Settled(Entries(moved)[i], after) {
      forall p | p in gone && NormalizeRelative(p) in start.runtime ensures NormalizeRelative(p) in gone {
        var m :| m in moved && m.from == p;
        var i :| 0 <= i < |moved| && moved[i] == m;
        assert Settled(Entries(moved)[i], after);
      }
    }
    if forall p :: p in gone ==> NormalizeRelative(p) in start.runtime ==> NormalizeRelative(p) in gone {
      forall i | 0 <= i < |moved| ensures Settled(Entries(moved)[i], after) {
        assert moved[i] in moved;
      }
    }
  }

  lemma LeavingHasNames(candidates: seq<Candidate>, runtime: Tree)
    ensures forall p :: p in Leaving(candidates, runtime) ==> NormalizeRelative(p) != ""
  {
    hide NormalizeRelative, IsPrivateKeyPath, UnderOwn, InQuarantineScope;
    forall p | p in Leaving(candidates, runtime) ensures NormalizeRelative(p) != "" {
      assert IsQuarantineEligible(p);
    }
  }

  /** Whoever wrote the plan: paths already in normal form always validate. */
  lemma NormalFormValidates(start: State, candidates: seq<Candidate>, moved: seq<Moved>)
    requires Reports(moved, Leaving(candidates, start.runtime), start.runtime)
    requires forall p :: p in Leaving(candidates, start.runtime) ==> NormalizeRelative(p) == p
    ensures forall i :: 0 <= i < |moved| ==>
              Settled(Entries(moved)[i], After(start, Leaving(candidates, start.runtime)))
  {
    hide NormalizeRelative, Leaving, Settled, Entries;
    FreshReceiptValidatesIff(start, candidates, moved);
  }

  /**
   * A receipt for a plan the planner wrote always validates with nothing in
   * between: its candidates are eligible, and an eligible path is stable under
   * a second normalisation.
   */
  lemma PlannedReceiptValidates(start: State, candidates: seq<Candidate>, moved: seq<Moved>)
    requires AllEligible(candidates) && Reports(moved, Leaving(candidates, start.runtime), start.runtime)
    ensures VerdictOf(StatusOf(moved), Entries(moved), After(start, Leaving(candidates, start.runtime)))
         == if moved != [] then Validated else ValidationNotApplicable
  {
    var gone := Leaving(candidates, start.runtime);
    forall p | p in gone ensures NormalizeRelative(p) == p {
      var i :| 0 <= i < |candidates| && Selected(candidates[i], start.runtime) && Source(candidates[i]) == p;
      hide NormalizeRelative, IsQuarantineEligible;
      assert candidates[i] in candidates;
      EligibleNormalIsStable(candidates[i].path);
    }
    hide NormalizeRelative, IsQuarantineEligible, Leaving, Settled, After;
    NormalFormValidates(start, candidates, moved);
  }

  lemma NormalFormsOfOneName()
    ensures NormalizeRelative("/ rejected/a") == " rejected/a" && NormalizeRelative(" rejected/a") == "rejected/a"
  {
    var twice, once, plain := "/ rejected/a", " rejected/a", "rejected/a";
    assert Slashes(twice) == twice && Slashes(once) == once;
    assert twice[1..] == once && once[1..] == plain && plain[9] == 'a';
    assert StripRight(twice) == twice && StripRight(plain) == plain;
    assert StripLeft(once) == StripLeft(plain) == plain;
    assert DropSlashes(twice) == DropSlashes(once) == once;
    assert NormalizeRelative(once) == plain;
  }

  lemma EligibleByNormalForm(path: string, plain: string)
    requires NormalizeRelative(path) == plain && Lower(plain) == plain && plain != ""
    requires !IsPrivateKeyPath(plain) && !UnderOwn(plain) && InQuarantineScope(plain)
    ensures IsQuarantineEligible(path)
  {
    hide NormalizeRelative, IsPrivateKeyPath, UnderOwn, InQuarantineScope;
  }

  lemma PlainNameIsEligible()
    ensures var plain := "rejected/a";
            Lower(plain) == plain && !IsPrivateKeyPath(plain) && !UnderOwn(plain) && InQuarantineScope(plain)
  {
    hide BaseName;
    var plain := "rejected/a";
    assert Lower(plain) == plain && Slashes(plain) == plain;
    assert BaseName(plain) == "a" by {
      BaseNameAfter(plain, 8);
      assert plain[9..] == "a";
    }
    Lacks(plain, "private", 0);
    Lacks(plain, "keys", 0);
    Lacks("a", ".key", 0);
    Lacks("a", "private", 0);
    Lacks(plain, "own/", 0);
    Lacks(plain, "/own/", 1);
    assert plain[..9] == "rejected/";
  }

  /**
   * The planner's filter is needed: `strip` comes before the slashes are
   * dropped, so a plan edited by hand to name "/ rejected/a" moves " rejected/a"
   * and is then checked against "rejected/a".
   */
  lemma EditedPlanCanFail(start: State, bytes: Bytes)
    requires start.runtime == map[" rejected/a" := bytes, "rejected/a" := bytes]
    ensures var candidates := [Candidate("/ rejected/a")];
            var entry := Entry(" rejected/a", " rejected/a", Some(Sha(bytes)));
            && !AllEligible(candidates) && Leaving(candidates, start.runtime) == {" rejected/a"}
            && !Settled(entry, After(start, {" rejected/a"}))
  {
    hide NormalizeRelative, IsQuarantineEligible;
    NormalFormsOfOneName();
    assert IsQuarantineEligible(" rejected/a") by {
      PlainNameIsEligible();
      EligibleByNormalForm(" rejected/a", "rejected/a");
    }
    var candidates := [Candidate("/ rejected/a")];
    assert Selected(candidates[0], start.runtime);
    assert " rejected/a"[0] != "rejected/a"[0];
    assert !IsQuarantineEligible("/ rejected/a") by { StartsWithSpaceIsIneligible(); }
    assert candidates[0] in candidates;
  }

  lemma StartsWithSpaceIsIneligible()
    ensures !IsQuarantineEligible("/ rejected/a")
  {
    NormalFormsOfOneName();
    hide NormalizeRelative, IsPrivateKeyPath, UnderOwn;
    var once := " rejected/a";
    assert Lower(once)[0] == ' ';
    if InQuarantineScope(Lower(once)) { ScopeStartsWithLetter(Lower(once)); }
  }

  // ---- the code ----

  class Runtime {
    var runtime: Tree
    var quarantine: Tree
    /** Every state the two trees have been in: Store and Unlink are the only methods that write. */
    ghost var seen: set<State>

    constructor (runtime: Tree, quarantine: Tree)
      ensures Now() == State(runtime, quarantine) && seen == {Now()}
    {
      this.runtime, this.quarantine := runtime, quarantine;
      seen := {State(runtime, quarantine)};
    }

    ghost function Now(): State
      reads this
    {
      State(runtime, quarantine)
    }

    method Store(path: string, bytes: Bytes)
      modifies this`quarantine, this`seen
      ensures quarantine == old(quarantine)[path := bytes] && seen == old(seen) + {Now()}
    {
      quarantine := quarantine[path := bytes];
      seen := seen + {Now()};
    }

    method Unlink(path: string)
      modifies this`runtime, this`seen
      ensures runtime == old(runtime) - {path} && seen == old(seen) + {Now()}
    {
      runtime := runtime - {path};
      seen := seen + {Now()};
    }

    /** Copy, check, unlink. */
    method MoveOne(path: string, write: Write) returns (outcome: Outcome, digest: Sha)
      requires path in runtime
      modifies this
      ensures outcome == if write.Raises? then CopyFailed(path)
                         else if write.bytes != old(runtime)[path] then ChecksumMismatch(path) else Done
      ensures outcome == Done ==> digest == Sha(old(runtime)[path])
      ensures outcome == Done ==> Now() == State(old(runtime) - {path}, old(quarantine)[path := old(runtime)[path]])
      ensures outcome != Done ==> Now() == if write.Raises? then old(Now()) else Copied(old(Now()), path, write.bytes)
      ensures seen == old(seen) + (if write.Raises? then {} else {Copied(old(Now()), path, write.bytes)})
                                + (if outcome == Done then {Now()} else {})
    {
      var before := Sha(runtime[path]);
      digest := before;
      if write.Raises? {
        return CopyFailed(path), digest;
      }
      Store(path, write.bytes);
      digest := Sha(quarantine[path]);
      if before != digest {
        return ChecksumMismatch(path), digest;
      }
      Unlink(path);
      outcome := Done;
    }

    /** The loop of `activate_revocation_quarantine_once`, once nothing blocks it. */
    method QuarantineAll(candidates: seq<Candidate>, disk: string -> Write)
      returns (outcome: Outcome, moved: seq<Moved>)
      modifies this
      // at every step nothing is lost
      ensures OnTheWaySince(old(seen), seen, old(Now()), Leaving(candidates, old(runtime)))
      ensures OnTheWay(old(Now()), Now(), Leaving(candidates, old(runtime)))
      // it finishes exactly when every selected file is copied faithfully
      ensures outcome == Done <==>
              forall p :: p in Leaving(candidates, old(runtime)) ==> disk(p) == Stores(old(runtime)[p])
      // and then exactly the reported files have left
      ensures outcome == Done ==>
                && Now() == After(old(Now()), Leaving(candidates, old(runtime)))
                && Reports(moved, Leaving(candidates, old(runtime)), old(runtime))
      ensures FailureIsReal(candidates, old(runtime), disk, outcome)
    {
      FailuresAreReal(candidates, runtime, disk);
      hide IsQuarantineEligible, NormalizeRelative, OnTheWay, OnTheWaySince, After, Leaving, Source, FailureIsReal;
      ghost var start := Now();
      ghost var leaving := Leaving(candidates, runtime);
      ghost var gone: set<string> := {};
      moved, outcome := [], Done;
      Begin(seen, start, candidates);
      var n := 0;
      while n < |candidates|
        invariant 0 <= n <= |candidates| && outcome == Done
        invariant gone == Leaving(candidates[..n], start.runtime) && gone <= leaving && Now() == After(start, gone)
        invariant forall p :: p in gone ==> p in start.runtime && disk(p) == Stores(start.runtime[p])
        invariant Reports(moved, gone, start.runtime)
        invariant OnTheWay(start, Now(), leaving) && OnTheWaySince(old(seen), seen, start, leaving)
      {
        var c := candidates[n];
        var path := Source(c);
        LeavingOneMore(candidates, n, start.runtime);
        SelectionStep(start, candidates, n, gone);
        if path != "" && IsQuarantineEligible(path) && path in runtime {
          AfterOneMore(start, gone, path);
          ghost var sofar := seen;
          var digest;
          ghost var between := if disk(path).Raises? then start else Copied(After(start, gone), path, disk(path).bytes);
          outcome, digest := MoveOne(path, disk(path));
          Between(old(seen), sofar, start, leaving, gone, path, disk(path));
          if outcome != Done {
            assert path in leaving && disk(path) != Stores(start.runtime[path]);
            assert disk(path).Raises? ==> seen == sofar;
            assert disk(path).Stores? ==> seen == sofar + {between};
            return;
          }
          Settle(old(seen), sofar + {between}, start, leaving, gone + {path});
          moved := moved + [Moved(path, digest)];
          gone := gone + {path};
        }
        n := n + 1;
      }
      assert candidates[..n] == candidates;
    }
  }

  /** A move that stops names a file of the plan whose copy raised or went wrong. */
  ghost predicate FailureIsReal(candidates: seq<Candidate>, runtime: Tree, disk: string -> Write, outcome: Outcome) {
    outcome.Done? ||
    (&& outcome.path in runtime && MayLeave(outcome.path)
     && (exists c :: c in candidates && c.Candidate? && NormalizeRelative(c.path) == outcome.path)
     && (outcome.CopyFailed? ==> disk(outcome.path).Raises?)
     && (outcome.ChecksumMismatch? ==> disk(outcome.path).Stores? && disk(outcome.path).bytes != runtime[outcome.path]))
  }

  lemma FailuresAreReal(candidates: seq<Candidate>, runtime: Tree, disk: string -> Write)
    ensures FailureIsReal(candidates, runtime, disk, Done)
    ensures forall p :: p in Leaving(candidates, runtime) && disk(p).Raises? ==>
              FailureIsReal(candidates, runtime, disk, CopyFailed(p))
    ensures forall p :: p in Leaving(candidates, runtime) && disk(p).Stores? && disk(p).bytes != runtime[p] ==>
              FailureIsReal(candidates, runtime, disk, ChecksumMismatch(p))
  {
    LeavingIs(candidates, runtime);
    hide Leaving, MayLeave, NormalizeRelative;
  }

  lemma Begin(seen: set<State>, start: State, candidates: seq<Candidate>)
    ensures Leaving(candidates[..0], start.runtime) == {} && After(start, {}) == start
    ensures OnTheWay(start, start, Leaving(candidates, start.runtime))
    ensures OnTheWaySince(seen, seen, start, Leaving(candidates, start.runtime))
  {
    hide Selected, Source;
    Settle(seen, seen, start, Leaving(candidates, start.runtime), {});
  }

  /** In the loop a candidate is acted on exactly when it was selected at the start and has not left yet. */
  lemma SelectionStep(start: State, candidates: seq<Candidate>, n: nat, gone: set<string>)
    requires n < |candidates|
    ensures Selected(candidates[n], After(start, gone).runtime)
       <==> Selected(candidates[n], start.runtime) && Source(candidates[n]) !in gone
    ensures Selected(candidates[n], start.runtime) ==> Source(candidates[n]) in Leaving(candidates, start.runtime)
  {
    hide IsQuarantineEligible, NormalizeRelative;
  }

  /** The states seen since `before` are all on the way. */
  ghost predicate OnTheWaySince(before: set<State>, seen: set<State>, start: State, leaving: set<string>) {
    before <= seen && forall s :: s in seen && s !in before ==> OnTheWay(start, s, leaving)
  }

  lemma Settle(before: set<State>, seen: set<State>, start: State, leaving: set<string>, gone: set<string>)
    requires gone <= leaving
    ensures OnTheWay(start, After(start, gone), leaving)
    ensures OnTheWaySince(before, seen, start, leaving) ==>
            OnTheWaySince(before, seen + {After(start, gone)}, start, leaving)
  {
    hide After;
  }

  lemma Between(before: set<State>, seen: set<State>, start: State, leaving: set<string>, gone: set<string>,
                path: string, write: Write)
    requires gone <= leaving && path in leaving - gone && OnTheWaySince(before, seen, start, leaving)
    ensures write.Stores? ==>
              var between := Copied(After(start, gone), path, write.bytes);
              OnTheWay(start, between, leaving) && OnTheWaySince(before, seen + {between}, start, leaving)
  {
    hide After;
    if write.Stores? {
      assert HalfMoved(start, Copied(After(start, gone), path, write.bytes), leaving, gone);
    }
  }
}
