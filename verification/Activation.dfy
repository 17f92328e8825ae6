/**
 * Live activation of a staged certificate package: snapshot the non-private
 * runtime files, then copy every staged non-preserved file over the runtime
 * tree, checking each copy.
 *
 * The disk is adversarial: a copy may raise, and one that returns may have
 * stored other bytes than it read.  Files are visited in an arbitrary order,
 * so what holds here holds for the sorted one.
 */
module Activation {
  import opened Common
  import opened Paths

  /** For each path, its copy into the snapshot and its copy into the runtime. */
  datatype Disk = Disk(toSnapshot: string -> Write, toRuntime: string -> Write)

  /** The shadow trust store and its checksum file. */
  datatype Stage = Stage(shadow: Tree, checksums: map<string, Sha>)

  /** The runtime tree and the rollback directory of the plan being activated. */
  datatype State = State(runtime: Tree, snapshot: Tree)

  datatype Change = Change(before: Option<Sha>, after: Sha)
  datatype Outcome =
    | TargetNotEnabled | KeyMissing | CertificateMismatch
    | AlreadyActivated(key: Sha)
    | SnapshotFailed | StagedFileMissing(path: string) | CopyFailed(path: string) | ChecksumMismatch(path: string)
    | Activated(changed: map<string, Change>, keyBefore: Sha, keyAfter: Sha)

  // ---- decisions ----

  /** `_runtime_private_key_path`: the first candidate that exists. */
  function FirstPresent(candidates: seq<string>, runtime: Tree): (r: Option<string>)
    ensures r.Some? ==> r.value in runtime && r.value in candidates
    ensures r.None? <==> forall p :: p in candidates ==> p !in runtime
  {
    if candidates == [] then None
    else if candidates[0] in runtime then Some(candidates[0])
    else FirstPresent(candidates[1..], runtime)
  }

  function KeyPath(target: string, runtime: Tree): (r: Option<string>)
    ensures r.Some? ==> r.value in runtime && r.value in KeyCandidates(target)
  {
    FirstPresent(KeyCandidates(target), runtime)
  }

  /** The staged paths an activation writes. */
  function ToWrite(stage: Stage): (r: set<string>)
    ensures r <= stage.checksums.Keys
  {
    set p | p in stage.checksums && !IsPreserved(p)
  }

  predicate Matches(tree: Tree, p: string, digest: Sha) {
    p in tree && Sha(tree[p]) == digest
  }

  /** `_runtime_stage_mismatches`. */
  function Mismatches(runtime: Tree, stage: Stage): set<string> {
    set p | p in ToWrite(stage) && !Matches(runtime, p, stage.checksums[p])
  }

  /** The outcome before anything is touched; None: go ahead.  `matches` is the certificate's test of a key file. */
  function Decide(target: string, matches: Bytes -> bool, runtime: Tree, stage: Stage): Option<Outcome> {
    if target !in TARGETS then Some(TargetNotEnabled)
    else if KeyPath(target, runtime).None? then Some(KeyMissing)
    else if !matches(runtime[KeyPath(target, runtime).value]) then Some(CertificateMismatch)
    else if Mismatches(runtime, stage) == {} then Some(AlreadyActivated(Sha(runtime[KeyPath(target, runtime).value])))
    else None
  }

  // ---- the states an activation passes through ----

  function Copyable(runtime: Tree): set<string> {
    set p | p in runtime && !IsPrivateKeyPath(p)
  }

  /** The copies of `done` that reached the disk. */
  function Stored(done: set<string>, writes: string -> Write): Tree {
    map p | p in done && writes(p).Stores? :: writes(p).bytes
  }

  function After(tree: Tree, done: set<string>, writes: string -> Write): Tree {
    tree + Stored(done, writes)
  }

  lemma AfterNone(tree: Tree, writes: string -> Write)
    ensures After(tree, {}, writes) == tree
  {
  }

  lemma AfterOneMore(tree: Tree, done: set<string>, p: string, writes: string -> Write)
    requires p !in done
    ensures writes(p).Stores? ==> After(tree, done + {p}, writes) == After(tree, done, writes)[p := writes(p).bytes]
    ensures (p in After(tree, done, writes) <==> p in tree) && (p in tree ==> After(tree, done, writes)[p] == tree[p])
  {
  }

  /** The runtime tree with some of the staged files copied. */
  ghost predicate PartlyCopied(start: Tree, runtime: Tree, stage: Stage, disk: Disk) {
    exists done: set<string> :: done <= ToWrite(stage) && runtime == After(start, done, disk.toRuntime)
  }

  predicate CopiesWell(p: string, stage: Stage, disk: Disk)
    requires p in stage.checksums
  {
    Reaches(p, stage, disk) && Sha(disk.toRuntime(p).bytes) == stage.checksums[p]
  }

  /** The copy puts bytes at `p`, right or wrong. */
  predicate Reaches(p: string, stage: Stage, disk: Disk) {
    p in stage.shadow && disk.toRuntime(p).Stores?
  }

  /** What the copy of one staged file reports when it is the one that fails. */
  function Failure(p: string, stage: Stage, disk: Disk): Outcome {
    if p !in stage.shadow then StagedFileMissing(p)
    else if disk.toRuntime(p).Raises? then CopyFailed(p)
    else ChecksumMismatch(p)
  }

  lemma AllCopiedMatch(start: Tree, stage: Stage, disk: Disk)
    requires forall p :: p in ToWrite(stage) ==> CopiesWell(p, stage, disk)
    ensures Mismatches(After(start, ToWrite(stage), disk.toRuntime), stage) == {}
  {
    hide IsPreserved;
  }

  function ChangeOf(start: Tree, stage: Stage, p: string): Change
    requires p in stage.checksums
  {
    Change(if p in start then Some(Sha(start[p])) else None, stage.checksums[p])
  }

  function Changes(start: Tree, stage: Stage, done: set<string>): map<string, Change>
    requires done <= ToWrite(stage)
  {
    map p | p in done :: ChangeOf(start, stage, p)
  }

  /** A file not yet copied looks to the loop as it did at the start; a good copy reaches the disk. */
  lemma CopyKeepsUnwritten(start: Tree, stage: Stage, disk: Disk, done: set<string>, p: string)
    requires p in ToWrite(stage) && p !in done
    ensures ChangeOf(After(start, done, disk.toRuntime), stage, p) == ChangeOf(start, stage, p)
    ensures CopiesWell(p, stage, disk) ==> Reaches(p, stage, disk)
  {
    AfterOneMore(start, done, p, disk.toRuntime);
  }

  lemma ChangesNone(start: Tree, stage: Stage)
    ensures Changes(start, stage, {}) == map[]
  {
  }

  lemma ChangesOneMore(start: Tree, stage: Stage, done: set<string>, p: string)
    requires done <= ToWrite(stage) && p in ToWrite(stage)
    ensures Changes(start, stage, done + {p}) == Changes(start, stage, done)[p := ChangeOf(start, stage, p)]
  {
    hide ToWrite;
  }

  /** The rollback manifest: the digest of what each copy stored, not of what it read. */
  function Manifest(done: set<string>, writes: string -> Write): map<string, Sha> {
    map p | p in Stored(done, writes) :: Sha(Stored(done, writes)[p])
  }

  lemma ManifestOneMore(done: set<string>, p: string, writes: string -> Write)
    ensures Manifest({}, writes) == map[]
    ensures writes(p).Stores? ==> Manifest(done + {p}, writes) == Manifest(done, writes)[p := Sha(writes(p).bytes)]
  {
  }

  /** Some of the runtime has been snapshotted. */
  ghost predicate Snapshotting(start: State, s: State, disk: Disk) {
    && s.runtime == start.runtime
    && exists done: set<string> :: done <= Copyable(start.runtime)
         && s.snapshot == After(start.snapshot, done, disk.toSnapshot)
  }

  /** The states seen since `before` are snapshotting states of `start`. */
  ghost predicate SnapshottingSince(before: set<State>, seen: set<State>, start: State, disk: Disk) {
    before <= seen && forall s :: s in seen && s !in before ==> Snapshotting(start, s, disk)
  }

  lemma SnapshottingAt(before: set<State>, seen: set<State>, start: State, snapshot: Tree, done: set<string>,
                       disk: Disk)
    requires done <= Copyable(start.runtime) && snapshot == After(start.snapshot, done, disk.toSnapshot)
    ensures Snapshotting(start, State(start.runtime, snapshot), disk)
    ensures SnapshottingSince(before, before, start, disk)
    ensures SnapshottingSince(before, seen, start, disk) ==>
              SnapshottingSince(before, seen + {State(start.runtime, snapshot)}, start, disk)
  {
    hide Copyable, After;
  }

  /** The states seen since `before` have the complete snapshot and some of the staged files. */
  ghost predicate CopyingSince(before: set<State>, seen: set<State>, start: State, stage: Stage, disk: Disk) {
    before <= seen
    && forall s :: s in seen && s !in before ==>
         s.snapshot == start.snapshot && PartlyCopied(start.runtime, s.runtime, stage, disk)
  }

  lemma CopyingAt(before: set<State>, seen: set<State>, start: State, runtime: Tree, done: set<string>, stage: Stage,
                  disk: Disk)
    requires done <= ToWrite(stage) && runtime == After(start.runtime, done, disk.toRuntime)
    ensures PartlyCopied(start.runtime, runtime, stage, disk)
    ensures CopyingSince(before, before, start, stage, disk)
    ensures CopyingSince(before, seen, start, stage, disk) ==>
              CopyingSince(before, seen + {State(runtime, start.snapshot)}, start, stage, disk)
  {
    hide ToWrite, After;
  }

  /** All of it has, and some staged files have been copied. */
  ghost predicate Copying(start: State, s: State, stage: Stage, disk: Disk) {
    && (forall p :: p in Copyable(start.runtime) ==> disk.toSnapshot(p).Stores?)
    && s.snapshot == After(start.snapshot, Copyable(start.runtime), disk.toSnapshot)
    && PartlyCopied(start.runtime, s.runtime, stage, disk)
  }

  ghost predicate Reachable(start: State, s: State, stage: Stage, disk: Disk) {
    Snapshotting(start, s, disk) || Copying(start, s, stage, disk)
  }

  // ---- recoverability ----

  /** Overlaying the snapshot on the runtime tree gives back the bytes `p` had in `original`. */
  predicate Recovers(s: State, original: Tree, p: string)
    requires p in original
  {
    p in s.runtime + s.snapshot && (s.runtime + s.snapshot)[p] == original[p]
  }

  ghost predicate Recoverable(s: State, original: Tree) {
    forall p :: p in original ==> Recovers(s, original, p)
  }

  /** The snapshot copies that returned stored what they read. */
  predicate FaithfulSnapshot(runtime: Tree, disk: Disk) {
    forall p :: p in Copyable(runtime) && disk.toSnapshot(p).Stores? ==> disk.toSnapshot(p).bytes == runtime[p]
  }

  /** Snapshots hold no private-key paths, so overlaying one never touches a key. */
  predicate KeyFree(snapshot: Tree) {
    forall p :: p in snapshot ==> !IsPrivateKeyPath(p)
  }

  /**
   * With faithful snapshot copies every failure point of an activation is
   * recoverable exactly when the starting point is, that is, when the plan's
   * rollback directory holds nothing stale.
   */
  lemma EveryFailurePointRecoversIff(start: State, stage: Stage, disk: Disk)
    requires FaithfulSnapshot(start.runtime, disk)
    ensures (forall s :: Reachable(start, s, stage, disk) ==> Recoverable(s, start.runtime)) <==>
            (forall p :: p in start.runtime && p in start.snapshot ==> start.snapshot[p] == start.runtime[p])
  {
    hide IsPrivateKeyPath, IsPreserved;
    if forall s :: Reachable(start, s, stage, disk) ==> Recoverable(s, start.runtime) {
      assert {} <= Copyable(start.runtime) && start.snapshot == After(start.snapshot, {}, disk.toSnapshot);
      assert Reachable(start, start, stage, disk);
      forall p | p in start.runtime && p in start.snapshot ensures start.snapshot[p] == start.runtime[p] {
        assert Recovers(start, start.runtime, p);
      }
    }
    if forall p :: p in start.runtime && p in start.snapshot ==> start.snapshot[p] == start.runtime[p] {
      forall s | Reachable(start, s, stage, disk) ensures Recoverable(s, start.runtime) {
        forall p | p in start.runtime ensures Recovers(s, start.runtime, p) {
          if Snapshotting(start, s, disk) {
            SnapshottingRecovers(start, s, disk, p);
          } else {
            CopyingRecoversIff(start, s, stage, disk, p);
          }
        }
      }
    }
  }

  lemma SnapshottingRecovers(start: State, s: State, disk: Disk, p: string)
    requires FaithfulSnapshot(start.runtime, disk) && Snapshotting(start, s, disk)
    requires p in start.runtime && (p in start.snapshot ==> start.snapshot[p] == start.runtime[p])
    ensures Recovers(s, start.runtime, p)
  {
    hide IsPrivateKeyPath;
  }

  /**
   * Once the snapshot is complete, a path is recoverable exactly when what the
   * snapshot holds for it is right: for a non-private path, what its copy
   * stored; for a private-key path, whatever an earlier run left there.
   * Corruption of the runtime copies never matters.
   */
  lemma CopyingRecoversIff(start: State, s: State, stage: Stage, disk: Disk, p: string)
    requires Copying(start, s, stage, disk) && p in start.runtime
    ensures Recovers(s, start.runtime, p) <==>
            if IsPrivateKeyPath(p) then p in start.snapshot ==> start.snapshot[p] == start.runtime[p]
            else disk.toSnapshot(p) == Stores(start.runtime[p])
  {
    hide IsPrivateKeyPath;
  }

  /** No reachable state has lost a file, gained one that is not staged, or changed a preserved one. */
  lemma NothingElseChanges(start: State, s: State, stage: Stage, disk: Disk, p: string)
    requires Reachable(start, s, stage, disk)
    ensures p in start.runtime ==> p in s.runtime
    ensures p !in ToWrite(stage) ==> (p in s.runtime <==> p in start.runtime)
    ensures p !in ToWrite(stage) && p in start.runtime ==> s.runtime[p] == start.runtime[p]
    ensures KeyFree(start.snapshot) ==> KeyFree(s.snapshot)
  {
    hide IsPrivateKeyPath;
  }

  lemma {:induction false} FirstPresentStable(candidates: seq<string>, a: Tree, b: Tree)
    requires forall p :: p in candidates ==> (p in a <==> p in b)
    ensures FirstPresent(candidates, a) == FirstPresent(candidates, b)
    decreases |candidates|
  {
    if candidates != [] {
      assert candidates[0] in candidates;
      FirstPresentStable(candidates[1..], a, b);
    }
  }

  /** The private key found, and its bytes, are the same in every reachable state, whatever the stage contains. */
  lemma KeyUntouched(target: string, start: State, s: State, stage: Stage, disk: Disk)
    requires Reachable(start, s, stage, disk)
    ensures KeyPath(target, s.runtime) == KeyPath(target, start.runtime)
    ensures KeyPath(target, start.runtime).Some? ==>
              s.runtime[KeyPath(target, s.runtime).value] == start.runtime[KeyPath(target, start.runtime).value]
  {
    hide IsPrivateKeyPath, KeyCandidates, ToWrite, Reachable;
    forall p | p in KeyCandidates(target)
      ensures (p in s.runtime <==> p in start.runtime) && (p in start.runtime ==> s.runtime[p] == start.runtime[p])
    {
      var i :| 0 <= i < |KeyCandidates(target)| && KeyCandidates(target)[i] == p;
      CandidateIsPrivate(target, i);
      NotWritten(stage, p);
      NothingElseChanges(start, s, stage, disk, p);
    }
    FirstPresentStable(KeyCandidates(target), s.runtime, start.runtime);
  }

  lemma NotWritten(stage: Stage, p: string)
    requires IsPrivateKeyPath(p)
    ensures p !in ToWrite(stage)
  {
    hide IsPrivateKeyPath;
  }

  /** After a successful activation a second one decides that there is nothing to do. */
  lemma SecondActivationIsNoop(target: string, matches: Bytes -> bool, start: State, s: State, stage: Stage, disk: Disk)
    requires Decide(target, matches, start.runtime, stage).None?
    requires Reachable(start, s, stage, disk) && Mismatches(s.runtime, stage) == {}
    ensures Decide(target, matches, s.runtime, stage)
         == Some(AlreadyActivated(Sha(start.runtime[KeyPath(target, start.runtime).value])))
  {
    hide Mismatches, KeyPath, Reachable;
    KeyUntouched(target, start, s, stage, disk);
  }

  /**
   * A retry forgets the original: it snapshots what the failed attempt left.
   * From then on a non-private file of the first attempt can be recovered
   * exactly when that attempt had not changed it.
   */
  lemma RetryForgets(first: State, s: State, again: State, stage: Stage, disk: Disk, retry: Disk, p: string)
    requires Copying(first, s, stage, disk) && Copying(s, again, stage, retry)
    requires FaithfulSnapshot(s.runtime, retry)
    requires p in first.runtime && !IsPrivateKeyPath(p)
    ensures p in s.runtime
    ensures Recovers(again, first.runtime, p) <==> s.runtime[p] == first.runtime[p]
  {
    hide IsPrivateKeyPath;
    assert p in Copyable(s.runtime);
  }

  // ---- the rollback manifest ----

  /** One item of `copied_files`; the digest is None unless the field has 64 characters. */
  datatype Entry = NotAnObject | Entry(path: string, digest: Option<Sha>)

  predicate WellFormed(e: Entry) {
    e.Entry? && Strip(e.path) != "" && e.digest.Some?
  }

  predicate Missing(e: Entry, snapshot: Tree) {
    WellFormed(e) && Strip(e.path) !in snapshot
  }

  predicate Verified(e: Entry, snapshot: Tree) {
    WellFormed(e) && Matches(snapshot, Strip(e.path), e.digest.value)
  }

  datatype Integrity = Integrity(ok: bool, checked: nat, missing: seq<string>, mismatched: seq<string>, invalid: nat)

  /** `_rollback_manifest_integrity`: every entry is accounted for, and the verdict is that all of them verify. */
  method RollbackManifestIntegrity(entries: seq<Entry>, snapshot: Tree) returns (r: Integrity)
    ensures r.ok <==> forall i :: 0 <= i < |entries| ==> Verified(entries[i], snapshot)
    ensures r.checked + |r.missing| + r.invalid == |entries|
    ensures r.ok ==> r.checked == |entries|
    ensures forall p :: p in r.missing <==>
            exists i :: 0 <= i < |entries| && Missing(entries[i], snapshot) && Strip(entries[i].path) == p
    ensures forall p :: p in r.mismatched <==>
              exists i :: 0 <= i < |entries| && WellFormed(entries[i]) && !Missing(entries[i], snapshot)
                       && !Verified(entries[i], snapshot) && Strip(entries[i].path) == p
  {
    var checked, invalid: nat, missing, mismatched := 0, 0, [], [];
    var n := 0;
    while n < |entries|
      invariant 0 <= n <= |entries|
      invariant checked + |missing| + invalid == n && |mismatched| <= checked
      invariant missing == [] && mismatched == [] && invalid == 0 <==>
                forall i :: 0 <= i < n ==> Verified(entries[i], snapshot)
      invariant forall p :: p in missing <==>
                exists i :: 0 <= i < n && Missing(entries[i], snapshot) && Strip(entries[i].path) == p
      invariant forall p :: p in mismatched <==>
                exists i :: 0 <= i < n && WellFormed(entries[i]) && !Missing(entries[i], snapshot)
                         && !Verified(entries[i], snapshot) && Strip(entries[i].path) == p
    {
      var e := entries[n];
      if e.NotAnObject? || Strip(e.path) == "" || e.digest.None? {
        invalid := invalid + 1;
      } else {
        var path := Strip(e.path);
        if path !in snapshot {
          missing := missing + [path];
        } else {
          checked := checked + 1;
          if Sha(snapshot[path]) != e.digest.value {
            mismatched := mismatched + [path];
          }
        }
      }
      n := n + 1;
    }
    r := Integrity(missing == [] && mismatched == [] && invalid == 0, checked, missing, mismatched, invalid);
  }

  /** The entries an activation writes into its manifest, in whatever order. */
  ghost predicate Lists(entries: seq<Entry>, manifest: map<string, Sha>) {
    && (forall i :: 0 <= i < |entries| ==>
          && entries[i].Entry? && entries[i].path in manifest
          && entries[i].digest == Some(manifest[entries[i].path]))
    && (forall p :: p in manifest ==> exists i :: 0 <= i < |entries| && entries[i] == Entry(p, Some(manifest[p])))
  }

  /**
   * The check of a completed, untouched snapshot succeeds exactly when no
   * copied path is changed by the `strip()` it is read back with, or stripping
   * leads to an equal file.  It says nothing about whether the copies are right:
   * see CopyingRecoversIff.
   */
  lemma UntouchedSnapshotVerifiesIff(start: State, s: State, stage: Stage, disk: Disk, entries: seq<Entry>)
    requires Copying(start, s, stage, disk)
    requires Lists(entries, Manifest(Copyable(start.runtime), disk.toSnapshot))
    ensures (forall i :: 0 <= i < |entries| ==> Verified(entries[i], s.snapshot)) <==>
            (forall p :: p in Copyable(start.runtime) ==>
               Strip(p) != "" && Strip(p) in s.snapshot && s.snapshot[Strip(p)] == s.snapshot[p])
  {
    hide IsPrivateKeyPath, Strip, PartlyCopied;
    var manifest := Manifest(Copyable(start.runtime), disk.toSnapshot);
    assert forall p :: p in Copyable(start.runtime) ==> p in manifest && manifest[p] == Sha(s.snapshot[p]);
    if forall i :: 0 <= i < |entries| ==> Verified(entries[i], s.snapshot) {
      forall p | p in Copyable(start.runtime)
        ensures Strip(p) != "" && Strip(p) in s.snapshot && s.snapshot[Strip(p)] == s.snapshot[p]
      {
        var i :| 0 <= i < |entries| && entries[i] == Entry(p, Some(manifest[p]));
        assert Verified(entries[i], s.snapshot);
      }
    }
  }

  /** In particular it succeeds when no copied path begins or ends with white space. */
  lemma TrimmedSnapshotVerifies(start: State, s: State, stage: Stage, disk: Disk, entries: seq<Entry>)
    requires Copying(start, s, stage, disk)
    requires Lists(entries, Manifest(Copyable(start.runtime), disk.toSnapshot))
    requires forall p :: p in Copyable(start.runtime) ==> Trimmed(p)
    ensures forall i :: 0 <= i < |entries| ==> Verified(entries[i], s.snapshot)
  {
    forall p | p in Copyable(start.runtime) ensures Strip(p) == p && p in s.snapshot {
      StripLeavesTrimmed(p);
    }
    hide IsPrivateKeyPath, Strip, Copying, Lists, Verified, Manifest;
    UntouchedSnapshotVerifiesIff(start, s, stage, disk, entries);
  }

  predicate Trimmed(p: string) {
    p != "" && !Space(p[0]) && !Space(p[|p| - 1])
  }

  lemma StripLeavesTrimmed(p: string)
    requires Trimmed(p)
    ensures Strip(p) == p
  {
  }

  // ---- inputs on which recovery and the check go wrong ----

  /**
   * A disk that stores the same bytes for every copy into the snapshot, and the same
   * for every one into the runtime.
   */
  function ConstantDisk(snapshot: Bytes, runtime: Bytes): Disk {
    Disk(_ => Stores(snapshot), _ => Stores(runtime))
  }

  function OneFile(p: string, bytes: Bytes): Stage {
    Stage(map[p := bytes], map[p := Sha(bytes)])
  }

  lemma OneFileSets(p: string, before: Bytes, staged: Bytes)
    requires !IsPreserved(p)
    ensures Copyable(map[p := before]) == {p} && ToWrite(OneFile(p, staged)) == {p}
  {
    hide IsPrivateKeyPath;
    assert p in Copyable(map[p := before]);
  }

  lemma OneFileAfter(p: string, before: Tree, stored: Bytes, writes: string -> Write)
    requires writes(p) == Stores(stored) && before.Keys <= {p}
    ensures After(before, {p}, writes) == map[p := stored]
    ensures Manifest({p}, writes) == map[p := Sha(stored)]
  {
    assert Stored({p}, writes) == map[p := stored];
  }

  /** An activation of one ordinary file, at the point where it has been snapshotted and copied. */
  lemma OneFileCopying(p: string, before: Bytes, stored: Bytes, staged: Bytes, written: Bytes, snapshot: Tree)
    requires !IsPreserved(p) && snapshot.Keys <= {p}
    ensures var start, disk := State(map[p := before], snapshot), ConstantDisk(stored, written);
            && Copying(start, State(map[p := written], map[p := stored]), OneFile(p, staged), disk)
            && Manifest(Copyable(start.runtime), disk.toSnapshot) == map[p := Sha(stored)]
  {
    var start, disk := State(map[p := before], snapshot), ConstantDisk(stored, written);
    OneFileSets(p, before, staged);
    OneFileAfter(p, snapshot, stored, disk.toSnapshot);
    OneFileAfter(p, start.runtime, written, disk.toRuntime);
    hide IsPreserved, Copyable, ToWrite, After, Manifest, OneFile;
    assert PartlyCopied(start.runtime, map[p := written], OneFile(p, staged), disk) by {
      assert {p} <= ToWrite(OneFile(p, staged));
    }
  }

  lemma OneFileFaithful(p: string, before: Bytes, written: Bytes)
    ensures FaithfulSnapshot(map[p := before], ConstantDisk(before, written))
  {
    hide IsPrivateKeyPath;
  }

  lemma OneFileRecovers(p: string, original: Bytes, now: Bytes, stored: Bytes)
    ensures var s := State(map[p := now], map[p := stored]);
            && (Recovers(s, map[p := original], p) <==> stored == original)
            && (Recoverable(s, map[p := original]) <==> stored == original)
  {
    var s := State(map[p := now], map[p := stored]);
    assert p in map[p := original];
    assert (s.runtime + s.snapshot)[p] == stored;
    if Recoverable(s, map[p := original]) {
      assert Recovers(s, map[p := original], p);
    }
  }

  /**
   * One file, every snapshot copy faithful: the first attempt stores wrong bytes in
   * the runtime and fails its check, the original can still be recovered, and after
   * the retry it cannot.
   */
  lemma RetryLosesOriginal(original: Bytes, staged: Bytes, wrong: Bytes)
    requires wrong != original && wrong != staged
    ensures var p, stage := "a", OneFile("a", staged);
            var first, disk := State(map[p := original], map[]), ConstantDisk(original, wrong);
            var failed, retry := State(map[p := wrong], map[p := original]), ConstantDisk(wrong, staged);
            var again := State(map[p := staged], map[p := wrong]);
            && Copying(first, failed, stage, disk) && FaithfulSnapshot(first.runtime, disk)
            && !CopiesWell(p, stage, disk) && Recoverable(failed, first.runtime)
            && Copying(failed, again, stage, retry) && FaithfulSnapshot(failed.runtime, retry)
            && CopiesWell(p, stage, retry) && !Recovers(again, first.runtime, p)
  {
    OrdinaryName("a");
    var p := "a";
    OneFileCopying(p, original, original, staged, wrong, map[]);
    OneFileCopying(p, wrong, wrong, staged, staged, map[p := original]);
    OneFileFaithful(p, original, wrong);
    OneFileFaithful(p, wrong, staged);
    OneFileRecovers(p, original, wrong, original);
    OneFileRecovers(p, original, staged, wrong);
    hide IsPreserved, Copying, FaithfulSnapshot, Recoverable, Recovers;
  }

  /** A manifest of one entry, and when that entry verifies. */
  lemma OneEntry(p: string, stored: Bytes)
    ensures var e := Entry(p, Some(Sha(stored)));
            && Lists([e], map[p := Sha(stored)])
            && (Verified(e, map[p := stored]) <==> Strip(p) == p && p != "")
  {
    hide Strip;
    var e := Entry(p, Some(Sha(stored)));
    assert [e][0] == e;
  }

  /** A snapshot copy that stored wrong bytes: the manifest vouches for them, and the file cannot be recovered. */
  lemma CorruptSnapshotVerifies(original: Bytes, wrong: Bytes, staged: Bytes)
    requires wrong != original
    ensures var p := "a";
            var start, disk := State(map[p := original], map[]), ConstantDisk(wrong, staged);
            var s, entry := State(map[p := staged], map[p := wrong]), Entry(p, Some(Sha(wrong)));
            && Copying(start, s, OneFile(p, staged), disk)
            && Lists([entry], Manifest(Copyable(start.runtime), disk.toSnapshot))
            && Verified(entry, s.snapshot) && !Recovers(s, start.runtime, p)
  {
    OrdinaryName("a");
    var p := "a";
    StripLeavesTrimmed(p);
    OneFileCopying(p, original, wrong, staged, staged, map[]);
    OneFileRecovers(p, original, staged, wrong);
    OneEntry(p, wrong);
    hide IsPreserved, Copying, Recovers, Lists, Verified, Strip, Manifest, Copyable;
  }

  /** A path that ends in a space, faithfully copied: everything can be recovered, and the check fails. */
  lemma PaddedPathFailsCheck(original: Bytes, staged: Bytes)
    ensures var p := "a ";
            var start, disk := State(map[p := original], map[]), ConstantDisk(original, staged);
            var s, entry := State(map[p := staged], map[p := original]), Entry(p, Some(Sha(original)));
            && Copying(start, s, OneFile(p, staged), disk) && Recoverable(s, start.runtime)
            && Lists([entry], Manifest(Copyable(start.runtime), disk.toSnapshot))
            && !Verified(entry, s.snapshot)
  {
    OrdinaryName("a ");
    var p := "a ";
    StripPadded(p);
    OneFileCopying(p, original, original, staged, staged, map[]);
    OneFileRecovers(p, original, staged, original);
    OneEntry(p, original);
    hide IsPreserved, Copying, Recoverable, Lists, Verified, Strip, Manifest, Copyable;
  }

  lemma StripPadded(p: string)
    requires p != "" && Space(p[|p| - 1])
    ensures Strip(p) != p
  {
    hide Space;
    var a := StripLeftDrops(p);
    StripRightEnds(p[a..]);
    StripRightDrops(p[a..]);
  }

  // ---- refusals, success and failures, stated on the trees ----

  /** The staged file replaces a runtime file or is added. */
  ghost predicate Replaces(stage: Stage, p: string) {
    p in stage.checksums && !Untouchable(p)
  }

  lemma ToWriteIs(stage: Stage)
    ensures forall p :: p in ToWrite(stage) <==> Replaces(stage, p)
  {
    forall p ensures IsPreserved(p) <==> Untouchable(p) {
      PreservedIff(p);
    }
    hide IsPreserved, Untouchable;
  }

  lemma CopyableIs(runtime: Tree)
    ensures forall p :: p in Copyable(runtime) <==> p in runtime && !KeyMaterial(p)
  {
    forall p ensures IsPrivateKeyPath(p) <==> KeyMaterial(p) {
      PrivateIff(p);
    }
    hide IsPrivateKeyPath, KeyMaterial;
  }

  /** Every staged file that would be written is in the runtime already. */
  ghost predicate InPlace(runtime: Tree, stage: Stage) {
    forall p :: Replaces(stage, p) ==> p in runtime && Sha(runtime[p]) == stage.checksums[p]
  }

  lemma FirstPresentIn(candidates: seq<string>, runtime: Tree, i: nat)
    requires i < |candidates| && candidates[i] in runtime && forall j :: 0 <= j < i ==> candidates[j] !in runtime
    ensures FirstPresent(candidates, runtime) == Some(candidates[i])
    decreases i
  {
    if i > 0 {
      FirstPresentIn(candidates[1..], runtime, i - 1);
    }
  }

  lemma KeyPathIs(target: string, runtime: Tree, k: string)
    requires KnownTarget(target)
    ensures FirstKeyOf(target, runtime, k) <==> KeyPath(target, runtime) == Some(k)
  {
    var c := KeyCandidates(target);
    hide KnownTarget;
    if target == "fuxa" {
      assert c == ["own/private/private_key.pem"];
      if c[0] in runtime { FirstPresentIn(c, runtime, 0); }
    } else {
      hide FirstPresent;
      KeyPathOfGateway(target, runtime, k);
    }
  }

  lemma KeyPathOfGateway(target: string, runtime: Tree, k: string)
    requires KnownTarget(target) && target != "fuxa"
    ensures FirstKeyOf(target, runtime, k) <==> KeyPath(target, runtime) == Some(k)
  {
    var c := KeyCandidates(target);
    hide FirstPresent;
    var found := FirstPresent(c, runtime);
    if c[0] in runtime { FirstPresentIn(c, runtime, 0); }
    else if c[1] in runtime { FirstPresentIn(c, runtime, 1); }
    else if c[2] in runtime { FirstPresentIn(c, runtime, 2); }
    else if |c| == 4 && c[3] in runtime { FirstPresentIn(c, runtime, 3); }
  }

  /**
   * Unknown targets, missing keys and certificates that do not fit the key found first are refused before
   * anything is touched; when all staged files are in place nothing is done.
   */
  ghost predicate Gated(target: string, matches: Bytes -> bool, before: Tree, stage: Stage, outcome: Outcome,
                        touched: bool)
  {
    && (outcome == TargetNotEnabled <==> !KnownTarget(target))
    && (outcome == KeyMissing <==> KnownTarget(target) && forall k :: !FirstKeyOf(target, before, k))
    && (forall k :: KnownTarget(target) && FirstKeyOf(target, before, k) ==>
          && (outcome == CertificateMismatch <==> !matches(before[k]))
          && (outcome == AlreadyActivated(Sha(before[k])) <==> matches(before[k]) && InPlace(before, stage)))
    && (touched || outcome.Activated? || outcome.AlreadyActivated? ==>
          KnownTarget(target) && exists k :: FirstKeyOf(target, before, k) && matches(before[k]))
    && (touched || outcome.Activated? ==> !InPlace(before, stage))
  }

  /** What is in the runtime, the snapshot and the report after a success. */
  ghost predicate Succeeded(before: Tree, after: Tree, snapshot: Tree, stage: Stage, outcome: Outcome,
                            manifest: map<string, Sha>)
    requires outcome.Activated?
  {
    && (forall p :: Replaces(stage, p) ==> p in after && Sha(after[p]) == stage.checksums[p])
    && (forall p :: !Replaces(stage, p) ==> (p in after <==> p in before) && (p in before ==> after[p] == before[p]))
    && (forall p :: p in outcome.changed <==> Replaces(stage, p))
    && (forall p :: p in outcome.changed && p in after ==>
          && outcome.changed[p].before == (if p in before then Some(Sha(before[p])) else None)
          && outcome.changed[p].after == Sha(after[p]))
    && (forall p :: p in manifest <==> p in before && !KeyMaterial(p))
    && (forall p :: p in manifest ==> p in snapshot && manifest[p] == Sha(snapshot[p]))
    && outcome.keyBefore == outcome.keyAfter
  }

  /** A failure after the gate names something that failed. */
  ghost predicate FailureIsReal(before: Tree, stage: Stage, disk: Disk, outcome: Outcome) {
    match outcome
    case SnapshotFailed => exists p :: p in before && !KeyMaterial(p) && disk.toSnapshot(p).Raises?
    case StagedFileMissing(p) => Replaces(stage, p) && p !in stage.shadow
    case CopyFailed(p) => Replaces(stage, p) && p in stage.shadow && disk.toRuntime(p).Raises?
    case ChecksumMismatch(p) =>
      && Replaces(stage, p) && p in stage.shadow && disk.toRuntime(p).Stores?
      && Sha(disk.toRuntime(p).bytes) != stage.checksums[p]
    case _ => true
  }

  lemma TargetsAreKnown(target: string)
    ensures target in TARGETS <==> KnownTarget(target)
  {
  }

  lemma KeyIs(target: string, runtime: Tree)
    requires KnownTarget(target)
    ensures forall k :: FirstKeyOf(target, runtime, k) <==> KeyPath(target, runtime) == Some(k)
  {
    forall k ensures FirstKeyOf(target, runtime, k) <==> KeyPath(target, runtime) == Some(k) {
      KeyPathIs(target, runtime, k);
    }
    hide FirstKeyOf, KeyPath, KnownTarget;
  }

  lemma DecisionIsGated(target: string, matches: Bytes -> bool, before: Tree, stage: Stage)
    ensures var d := Decide(target, matches, before, stage);
            && (d.Some? ==> Gated(target, matches, before, stage, d.value, false))
            && (d.None? ==> && KnownTarget(target) && !InPlace(before, stage)
                            && exists k :: FirstKeyOf(target, before, k) && matches(before[k]))
  {
    hide KnownTarget, FirstKeyOf, KeyPath, InPlace, Mismatches;
    TargetsAreKnown(target);
    if KnownTarget(target) {
      InPlaceIff(before, stage);
      KeyIs(target, before);
      KnownIsGated(target, matches, before, stage);
    }
  }

  lemma KnownIsGated(target: string, matches: Bytes -> bool, before: Tree, stage: Stage)
    requires KnownTarget(target) && target in TARGETS
    requires InPlace(before, stage) <==> Mismatches(before, stage) == {}
    requires forall k :: FirstKeyOf(target, before, k) <==> KeyPath(target, before) == Some(k)
    ensures var d := Decide(target, matches, before, stage);
            && (d.Some? ==> Gated(target, matches, before, stage, d.value, false))
            && (d.None? ==> !InPlace(before, stage) && exists k :: FirstKeyOf(target, before, k) && matches(before[k]))
  {
    hide KnownTarget, FirstKeyOf, InPlace, Mismatches, FirstPresent;
    var key := KeyPath(target, before);
    if key.Some? {
      assert FirstKeyOf(target, before, key.value);
    }
  }

  lemma RefusalIsNoFailure(target: string, matches: Bytes -> bool, before: Tree, stage: Stage, disk: Disk)
    requires Decide(target, matches, before, stage).Some?
    ensures FailureIsReal(before, stage, disk, Decide(target, matches, before, stage).value)
  {
    hide KeyPath, Mismatches;
  }

  lemma InPlaceIff(runtime: Tree, stage: Stage)
    ensures InPlace(runtime, stage) <==> Mismatches(runtime, stage) == {}
  {
    ToWriteIs(stage);
    hide ToWrite, Replaces;
    if InPlace(runtime, stage) {
      assert forall p :: p in ToWrite(stage) ==> Matches(runtime, p, stage.checksums[p]);
    } else {
      var p :| Replaces(stage, p) && !(p in runtime && Sha(runtime[p]) == stage.checksums[p]);
      assert p in Mismatches(runtime, stage);
    }
  }

  /** Past the gate only the outcomes of the copying are left. */
  lemma PastTheGate(target: string, matches: Bytes -> bool, before: Tree, stage: Stage, outcome: Outcome, touched: bool)
    requires Decide(target, matches, before, stage).None?
    requires outcome.Activated? || outcome.SnapshotFailed? || outcome.StagedFileMissing? || outcome.CopyFailed?
             || outcome.ChecksumMismatch?
    ensures Gated(target, matches, before, stage, outcome, touched)
  {
    DecisionIsGated(target, matches, before, stage);
    KeyIsUnique(target, matches, before, stage);
    hide Decide, KnownTarget, FirstKeyOf, InPlace;
  }

  lemma KeyIsUnique(target: string, matches: Bytes -> bool, before: Tree, stage: Stage)
    requires Decide(target, matches, before, stage).None?
    ensures forall k :: FirstKeyOf(target, before, k) ==> matches(before[k])
  {
    hide KnownTarget, FirstKeyOf, KeyPath, Mismatches;
    TargetsAreKnown(target);
    KeyIs(target, before);
  }

  lemma SuccessIs(start: State, now: State, stage: Stage, disk: Disk, outcome: Outcome, manifest: map<string, Sha>)
    requires outcome.Activated? && outcome.keyBefore == outcome.keyAfter
    requires now.runtime == After(start.runtime, ToWrite(stage), disk.toRuntime)
    requires now.snapshot == After(start.snapshot, Copyable(start.runtime), disk.toSnapshot)
    requires manifest == Manifest(Copyable(start.runtime), disk.toSnapshot)
    requires outcome.changed == Changes(start.runtime, stage, ToWrite(stage))
    requires forall p :: p in Copyable(start.runtime) ==> disk.toSnapshot(p).Stores?
    requires forall p :: p in ToWrite(stage) ==> CopiesWell(p, stage, disk)
    ensures Succeeded(start.runtime, now.runtime, now.snapshot, stage, outcome, manifest)
    ensures FailureIsReal(start.runtime, stage, disk, outcome)
  {
    ToWriteIs(stage);
    CopyableIs(start.runtime);
    hide ToWrite, Copyable, Replaces, KeyMaterial;
  }

  lemma FailureIs(before: Tree, stage: Stage, disk: Disk, p: string)
    requires p in ToWrite(stage) && !CopiesWell(p, stage, disk)
    ensures FailureIsReal(before, stage, disk, Failure(p, stage, disk))
  {
    ToWriteIs(stage);
    hide ToWrite, Replaces, KeyMaterial;
  }

  lemma SnapshotFailureIs(before: Tree, stage: Stage, disk: Disk)
    requires !forall p :: p in Copyable(before) ==> disk.toSnapshot(p).Stores?
    ensures FailureIsReal(before, stage, disk, SnapshotFailed)
  {
    CopyableIs(before);
    hide Copyable, KeyMaterial;
    var p :| p in Copyable(before) && !disk.toSnapshot(p).Stores?;
  }

  // ---- the code ----

  class Agent {
    var runtime: Tree
    var snapshot: Tree
    /** Every state the two trees have been in: the two Store methods are the only ones that write. */
    ghost var seen: set<State>

    constructor (runtime: Tree, snapshot: Tree)
      ensures Now() == State(runtime, snapshot) && seen == {Now()}
    {
      this.runtime, this.snapshot := runtime, snapshot;
      seen := {State(runtime, snapshot)};
    }

    ghost function Now(): State
      reads this
    {
      State(runtime, snapshot)
    }

    method StoreInSnapshot(p: string, bytes: Bytes)
      modifies this`snapshot, this`seen
      ensures snapshot == old(snapshot)[p := bytes] && seen == old(seen) + {Now()}
    {
      snapshot := snapshot[p := bytes];
      seen := seen + {Now()};
    }

    method StoreInRuntime(p: string, bytes: Bytes)
      modifies this`runtime, this`seen
      ensures runtime == old(runtime)[p := bytes] && seen == old(seen) + {Now()}
    {
      runtime := runtime[p := bytes];
      seen := seen + {Now()};
    }

    /** `_snapshot_runtime_non_private`; the manifest records the digest of what was stored, not of what was read. */
    method SnapshotRuntime(disk: Disk) returns (ok: bool, manifest: map<string, Sha>)
      modifies this`snapshot, this`seen
      ensures ok <==> forall p :: p in Copyable(runtime) ==> disk.toSnapshot(p).Stores?
      ensures ok ==> snapshot == After(old(snapshot), Copyable(runtime), disk.toSnapshot)
      ensures ok ==> manifest == Manifest(Copyable(runtime), disk.toSnapshot)
      ensures Snapshotting(old(Now()), Now(), disk) && SnapshottingSince(old(seen), seen, old(Now()), disk)
    {
      hide IsPrivateKeyPath, Copyable, After, Stored, Manifest, Snapshotting, SnapshottingSince;
      ghost var start := Now();
      var all, done := Copyable(runtime), {};
      manifest := map[];
      AfterNone(snapshot, disk.toSnapshot);
      ManifestOneMore({}, "", disk.toSnapshot);
      SnapshottingAt(seen, seen, start, snapshot, done, disk);
      while all - done != {}
        invariant done <= all
        invariant forall p :: p in done ==> disk.toSnapshot(p).Stores?
        invariant snapshot == After(start.snapshot, done, disk.toSnapshot)
        invariant manifest == Manifest(done, disk.toSnapshot)
        invariant Snapshotting(start, Now(), disk) && SnapshottingSince(old(seen), seen, start, disk)
        decreases all - done
      {
        var p :| p in all - done;
        AfterOneMore(start.snapshot, done, p, disk.toSnapshot);
        ManifestOneMore(done, p, disk.toSnapshot);
        if disk.toSnapshot(p).Raises? {
          return false, manifest;
        }
        ghost var sofar := seen;
        StoreInSnapshot(p, disk.toSnapshot(p).bytes);
        manifest := manifest[p := Sha(snapshot[p])];
        done := done + {p};
        SnapshottingAt(old(seen), sofar, start, snapshot, done, disk);
      }
      assert done == all by {
        forall p | p in all ensures p in done { assert p !in all - done; }
      }
      ok := true;
    }

    /** One round of the copy loop: the copy, then the check of what it stored. */
    method CopyOne(p: string, stage: Stage, disk: Disk) returns (failed: Option<Outcome>, change: Change)
      requires p in stage.checksums
      modifies this`runtime, this`seen
      ensures failed == if CopiesWell(p, stage, disk) then None else Some(Failure(p, stage, disk))
      ensures runtime == if Reaches(p, stage, disk) then old(runtime)[p := disk.toRuntime(p).bytes] else old(runtime)
      ensures seen == if Reaches(p, stage, disk) then old(seen) + {Now()} else old(seen)
      ensures failed.None? ==> change == ChangeOf(old(runtime), stage, p)
    {
      change := Change(if p in runtime then Some(Sha(runtime[p])) else None, stage.checksums[p]);
      if p !in stage.shadow {
        return Some(StagedFileMissing(p)), change;
      }
      if disk.toRuntime(p).Raises? {
        return Some(CopyFailed(p)), change;
      }
      StoreInRuntime(p, disk.toRuntime(p).bytes);
      var after := Sha(runtime[p]);
      if after != stage.checksums[p] {
        return Some(ChecksumMismatch(p)), change;
      }
      failed, change := None, change.(after := after);
    }

    /** The copy loop of `activate_package_runtime`; None: every file was copied and matched its checksum. */
    method CopyStaged(stage: Stage, disk: Disk) returns (failed: Option<Outcome>, changed: map<string, Change>)
      modifies this`runtime, this`seen
      ensures failed.None? ==> runtime == After(old(runtime), ToWrite(stage), disk.toRuntime)
      ensures failed.None? ==> changed == Changes(old(runtime), stage, ToWrite(stage))
      ensures failed.Some? ==>
              exists p :: p in ToWrite(stage) && !CopiesWell(p, stage, disk) && failed.value == Failure(p, stage, disk)
      ensures failed.None? ==> forall p :: p in ToWrite(stage) ==> CopiesWell(p, stage, disk)
      ensures PartlyCopied(old(runtime), runtime, stage, disk) && CopyingSince(old(seen), seen, old(Now()), stage, disk)
    {
      hide IsPreserved, After, Stored, Changes, ToWrite, CopyingSince, PartlyCopied, CopiesWell, Failure, ChangeOf;
      failed, changed := None, map[];
      ghost var start := Now();
      var all, done := ToWrite(stage), {};
      AfterNone(runtime, disk.toRuntime);
      ChangesNone(start.runtime, stage);
      CopyingAt(seen, seen, start, runtime, done, stage, disk);
      while all - done != {}
        invariant done <= all
        invariant failed.None? && forall p :: p in done ==> CopiesWell(p, stage, disk)
        invariant runtime == After(start.runtime, done, disk.toRuntime)
        invariant changed == Changes(start.runtime, stage, done)
        invariant PartlyCopied(start.runtime, runtime, stage, disk) && CopyingSince(old(seen), seen, start, stage, disk)
        decreases all - done
      {
        var p :| p in all - done;
        CopyKeepsUnwritten(start.runtime, stage, disk, done, p);
        AfterOneMore(start.runtime, done, p, disk.toRuntime);
        ChangesOneMore(start.runtime, stage, done, p);
        ghost var sofar := seen;
        var change;
        failed, change := CopyOne(p, stage, disk);
        if Reaches(p, stage, disk) {
          CopyingAt(old(seen), sofar, start, runtime, done + {p}, stage, disk);
        }
        if failed.Some? {
          assert p in ToWrite(stage) && !CopiesWell(p, stage, disk);
          return;
        }
        changed := changed[p := change];
        done := done + {p};
      }
      assert done == all by {
        forall p | p in all ensures p in done { assert p !in all - done; }
      }
    }

    /** `activate_package_runtime`. */
    method ActivatePackageRuntime(target: string, matches: Bytes -> bool, stage: Stage, disk: Disk)
      returns (outcome: Outcome, manifest: map<string, Sha>)
      modifies this
      // refused or nothing to do: no file is touched
      ensures var decision := Decide(target, matches, old(runtime), stage);
              decision.Some? ==> outcome == decision.value && seen == old(seen) && Now() == old(Now())
      // otherwise every state on the way is a reachable one
      ensures old(seen) <= seen && forall s :: s in seen && s !in old(seen) ==> Reachable(old(Now()), s, stage, disk)
      ensures Reachable(old(Now()), Now(), stage, disk)
      // success: exactly the staged non-preserved files have new bytes, and they match
      ensures outcome.Activated? <==>
                && Decide(target, matches, old(runtime), stage).None?
                && (forall p :: p in Copyable(old(runtime)) ==> disk.toSnapshot(p).Stores?)
                && forall p :: p in ToWrite(stage) ==> CopiesWell(p, stage, disk)
      ensures outcome.Activated? ==>
                && runtime == After(old(runtime), ToWrite(stage), disk.toRuntime)
                && snapshot == After(old(snapshot), Copyable(old(runtime)), disk.toSnapshot)
                && manifest == Manifest(Copyable(old(runtime)), disk.toSnapshot)
                && Mismatches(runtime, stage) == {}
                && outcome.changed == Changes(old(runtime), stage, ToWrite(stage))
                && outcome.keyBefore == outcome.keyAfter
      // the same, stated on the trees
      ensures Gated(target, matches, old(runtime), stage, outcome, seen != old(seen) || Now() != old(Now()))
      ensures outcome.Activated? ==> Succeeded(old(runtime), runtime, snapshot, stage, outcome, manifest)
      ensures FailureIsReal(old(runtime), stage, disk, outcome)
    {
      hide IsPrivateKeyPath, IsPreserved, KeyCandidates, Mismatches, KeyPath, PartlyCopied;
      manifest := map[];
      ghost var start := Now();
      hide Gated, Succeeded, FailureIsReal;
      var decision := Decide(target, matches, runtime, stage);
      if decision.Some? {
        DecisionIsGated(target, matches, runtime, stage);
        RefusalIsNoFailure(target, matches, runtime, stage, disk);
        assert {} <= Copyable(runtime) && snapshot == After(snapshot, {}, disk.toSnapshot);
        return decision.value, manifest;
      }
      var keyBefore := Sha(runtime[KeyPath(target, runtime).value]);
      var ok;
      ok, manifest := SnapshotRuntime(disk);
      if !ok {
        SnapshotFailureIs(start.runtime, stage, disk);
        PastTheGate(target, matches, start.runtime, stage, SnapshotFailed, seen != old(seen) || Now() != start);
        return SnapshotFailed, manifest;
      }
      var failed, changed := CopyStaged(stage, disk);
      assert Copying(start, Now(), stage, disk);
      if failed.Some? {
        var p :| p in ToWrite(stage) && !CopiesWell(p, stage, disk) && failed.value == Failure(p, stage, disk);
        FailureIs(start.runtime, stage, disk, p);
        PastTheGate(target, matches, start.runtime, stage, failed.value, seen != old(seen) || Now() != start);
        return failed.value, manifest;
      }
      KeyUntouched(target, start, Now(), stage, disk);
      AllCopiedMatch(start.runtime, stage, disk);
      outcome := Activated(changed, keyBefore, Sha(runtime[KeyPath(target, runtime).value]));
      SuccessIs(start, Now(), stage, disk, outcome, manifest);
      PastTheGate(target, matches, start.runtime, stage, outcome, seen != old(seen) || Now() != start);
    }
  }
}
