/**
 * The two transactions that replace CRL files: the trust-only path
 * (`_write_target_stage_material`) and the package path
 * (`_write_package_stage_material`).  Snapshot, clean, write, validate, and on
 * a validation failure restore.
 */
module CrlApply {
  import opened Common
  import opened Artifacts
  import opened CrlFiles

  datatype Outcome = Applied | DecodeFailed | WriteFailed | ReadFailed | ValidationFailed

  // ---- the trust-only path ----

  /** Where CRLs go; the compatibility directory may refuse writes, which is tolerated. */
  datatype Layout = Layout(issuerDir: string, trustedDir: string, compatDir: Option<string>, compatWritable: bool)

  /** The two incoming base64 texts; None when empty or missing. */
  datatype Incoming = Incoming(root: Option<Base64>, intermediate: Option<Base64>)

  function Dirs(l: Layout): set<string> {
    {l.issuerDir, l.trustedDir} + (if l.compatDir.Some? then {l.compatDir.value} else {})
  }

  predicate Writable(l: Layout, dir: string) {
    l.compatDir == Some(dir) ==> l.compatWritable
  }

  function PutIfWritable(tree: Tree, l: Layout, dir: string, name: string, bytes: Bytes): Tree {
    if Writable(l, dir) then Put(tree, Path(dir, name), bytes) else tree
  }

  /** `<alias>.crl` into the issuer, trusted and compatibility directories. */
  function PutAlias(tree: Tree, l: Layout, alias: string, bytes: Bytes): Tree {
    var a := PutIfWritable(tree, l, l.issuerDir, alias + ".crl", bytes);
    var b := PutIfWritable(a, l, l.trustedDir, alias + ".crl", bytes);
    if l.compatDir.Some? then PutIfWritable(b, l, l.compatDir.value, alias + ".crl", bytes) else b
  }

  /** The writing loop; an undecodable text or a refused mandatory write raises where it stands. */
  function WriteRoot(tree: Tree, l: Layout, item: Option<Base64>): (Tree, Option<Outcome>) {
    match item
    case None => (tree, None)
    case Some(NotBase64) => (tree, Some(DecodeFailed))
    case Some(Decodes(bytes)) => (PutAlias(tree, l, "root_ca", bytes), None)
  }

  function WriteIntermediate(tree: Tree, l: Layout, item: Option<Base64>): (Tree, Option<Outcome>) {
    match item
    case None => (tree, None)
    case Some(NotBase64) => (tree, Some(DecodeFailed))
    case Some(Decodes(bytes)) =>
      var a := PutAlias(tree, l, "vault_intermediate", bytes);
      if !Writable(l, l.issuerDir) then (a, Some(WriteFailed))
      else
        var b := Put(a, Path(l.issuerDir, "current.crl"), bytes);
        if !Writable(l, l.trustedDir) then (b, Some(WriteFailed))
        else (Put(b, Path(l.trustedDir, "current.crl"), bytes), None)
  }

  function WriteItems(tree: Tree, l: Layout, items: Incoming): (Tree, Option<Outcome>) {
    var (a, failed) := WriteRoot(tree, l, items.root);
    if failed.Some? then (a, failed) else WriteIntermediate(a, l, items.intermediate)
  }

  /** Validation and, on problems, the restore; a file that cannot be read raises without a restore. */
  function Conclude(tree: Tree, dirs: set<string>, snapshot: map<Path, Bytes>, strict: bool, now: Time)
    : (Tree, Outcome)
  {
    if Unreadable(tree, dirs) != {} then (tree, ReadFailed)
    else if Problems(tree, dirs, strict, now) != {} then (WithFiles(tree, snapshot), ValidationFailed)
    else (tree, Applied)
  }

  function ApplyTrust(tree: Tree, stuck: set<Path>, l: Layout, items: Incoming, strict: bool, now: Time)
    : (Tree, Outcome)
  {
    if items.root.None? && items.intermediate.None? then (tree, Applied)
    else
      var (written, failed) := WriteItems(Cleaned(tree, Dirs(l), stuck), l, items);
      if failed.Some? then (written, failed.value)
      else Conclude(written, Dirs(l), Snapshot(tree, Dirs(l)), strict, now)
  }

  // ---- the package path ----

  function LastDot(name: string): (r: int)
    ensures -1 <= r < |name|
    ensures r >= 0 ==> name[r] == '.'
  {
    if name == "" then -1
    else if name[|name| - 1] == '.' then |name| - 1
    else LastDot(name[..|name| - 1])
  }

  /** pathlib's `with_suffix`: only the last suffix is replaced. */
  function WithSuffix(name: string, suffix: string): string {
    var i := LastDot(name);
    if 0 < i < |name| - 1 then name[..i] + suffix else name + suffix
  }

  /**
   * What happens when the manifest carries a CRL (without one, nothing does):
   * the base64 text goes to `crlPath`, the decoded CRL beside it and to the
   * trusted directory.
   */
  function ApplyPackage(tree: Tree, stuck: set<Path>, crlPath: Path, trustedDir: string, text: Bytes, strict: bool,
                        now: Time)
    : (Tree, Outcome)
  {
    match text.base64
    case NotBase64 => (tree, DecodeFailed)
    case Decodes(content) =>
      var dirs := {crlPath.dir, trustedDir};
      var a := Put(Cleaned(tree, dirs, stuck), crlPath, text);
      var b := Put(a, Path(crlPath.dir, WithSuffix(crlPath.name, ".crl")), content);
      var c := Put(b, Path(trustedDir, "current.crl"), content);
      Conclude(c, dirs, Snapshot(tree, dirs), strict, now)
  }

  // ---- the code ----

  class Stage {
    const disk: Disk

    constructor (disk: Disk)
      ensures this.disk == disk
    {
      this.disk := disk;
    }

    method WriteAlias(l: Layout, alias: string, bytes: Bytes)
      modifies disk
      ensures disk.tree == PutAlias(old(disk.tree), l, alias, bytes)
    {
      var directories := [l.issuerDir, l.trustedDir] + (if l.compatDir.Some? then [l.compatDir.value] else []);
      var i := 0;
      while i < |directories|
        invariant 0 <= i <= |directories|
        invariant disk.tree == PutUpTo(old(disk.tree), l, directories, alias + ".crl", bytes, i)
      {
        if Writable(l, directories[i]) {
          disk.AtomicWrite(Path(directories[i], alias + ".crl"), bytes);
        }
        i := i + 1;
      }
      assert PutUpTo(old(disk.tree), l, directories, alias + ".crl", bytes, 0) == old(disk.tree);
      assert PutUpTo(old(disk.tree), l, directories, alias + ".crl", bytes, 2)
          == PutIfWritable(PutIfWritable(old(disk.tree), l, l.issuerDir, alias + ".crl", bytes),
                           l, l.trustedDir, alias + ".crl", bytes);
    }

    method ConcludeApply(dirs: set<string>, snapshot: map<Path, Bytes>, strict: bool, now: Time) returns (o: Outcome)
      modifies disk
      ensures (disk.tree, o) == Conclude(old(disk.tree), dirs, snapshot, strict, now)
    {
      var raised, problems := disk.ValidateCrlDirs(dirs, strict, now);
      if raised {
        return ReadFailed;
      }
      if problems != {} {
        disk.RestoreSnapshot(snapshot);
        return ValidationFailed;
      }
      o := Applied;
    }

    /** The CRL part of `_write_target_stage_material`. */
    method WriteTargetStageCrls(l: Layout, items: Incoming, strict: bool, now: Time) returns (o: Outcome)
      modifies disk
      ensures (disk.tree, o) == ApplyTrust(old(disk.tree), disk.stuck, l, items, strict, now)
      // passed, strict or not: what the server scans parses, has nextUpdate and, if strict, is not due
      ensures o == Applied && SomethingIncoming(items) ==> AllSound(disk.tree, Dirs(l), strict, now)
    {
      if SomethingIncoming(items) { TrustAppliedIsSound(disk.tree, disk.stuck, l, items, strict, now); }
      hide AllSound;
      if items.root.None? && items.intermediate.None? {
        return Applied;
      }
      var snapshot := disk.SnapshotCrlDirs(Dirs(l));
      var _ := disk.RemoveStaleAliases(Dirs(l));
      if items.root.Some? {
        if items.root.value.NotBase64? {
          return DecodeFailed;
        }
        WriteAlias(l, "root_ca", items.root.value.content);
      }
      if items.intermediate.Some? {
        if items.intermediate.value.NotBase64? {
          return DecodeFailed;
        }
        var bytes := items.intermediate.value.content;
        WriteAlias(l, "vault_intermediate", bytes);
        if !Writable(l, l.issuerDir) {
          return WriteFailed;
        }
        disk.AtomicWrite(Path(l.issuerDir, "current.crl"), bytes);
        if !Writable(l, l.trustedDir) {
          return WriteFailed;
        }
        disk.AtomicWrite(Path(l.trustedDir, "current.crl"), bytes);
      }
      o := ConcludeApply(Dirs(l), snapshot, strict, now);
    }

    /** The CRL part of `_write_package_stage_material`. */
    method WritePackageStageCrls(crlPath: Path, trustedDir: string, text: Bytes, strict: bool, now: Time)
      returns (o: Outcome)
      modifies disk
      ensures (disk.tree, o) == ApplyPackage(old(disk.tree), disk.stuck, crlPath, trustedDir, text, strict, now)
      ensures o == Applied ==> AllSound(disk.tree, {crlPath.dir, trustedDir}, strict, now)
    {
      PackageAppliedIsSound(disk.tree, disk.stuck, crlPath, trustedDir, text, strict, now);
      hide AllSound;
      if text.base64.NotBase64? {
        return DecodeFailed;
      }
      var dirs := {crlPath.dir, trustedDir};
      var snapshot := disk.SnapshotCrlDirs(dirs);
      var _ := disk.RemoveStaleAliases(dirs);
      disk.AtomicWrite(crlPath, text);
      disk.AtomicWrite(Path(crlPath.dir, WithSuffix(crlPath.name, ".crl")), text.base64.content);
      disk.AtomicWrite(Path(trustedDir, "current.crl"), text.base64.content);
      o := ConcludeApply(dirs, snapshot, strict, now);
    }
  }

  function PutUpTo(tree: Tree, l: Layout, dirs: seq<string>, name: string, bytes: Bytes, n: nat): Tree
    requires n <= |dirs|
  {
    if n == 0 then tree else PutIfWritable(PutUpTo(tree, l, dirs, name, bytes, n - 1), l, dirs[n - 1], name, bytes)
  }

  // ---- any replacement of CRL files ----

  /** The tree handed to validation: stale aliases gone, `written` in place. */
  function Replaced(tree: Tree, stuck: set<Path>, dirs: set<string>, written: map<Path, Bytes>): Tree {
    WithFiles(Cleaned(tree, dirs, stuck), written)
  }

  predicate WrittenFresh(dirs: set<string>, written: map<Path, Bytes>, strict: bool, now: Time) {
    forall p :: p in written && ScannedIn(dirs, p) ==> Fresh(CrlOf(p, written[p]), strict, now)
  }

  /** A CRL file that is neither deleted nor overwritten: a foreign one, or an alias that could not be deleted. */
  predicate Survives(dirs: set<string>, stuck: set<Path>, written: set<Path>, p: Path) {
    ScannedIn(dirs, p) && !Removed(dirs, stuck, p) && p !in written
  }

  predicate SurvivorsFresh(tree: Tree, stuck: set<Path>, dirs: set<string>, written: set<Path>, strict: bool,
                           now: Time)
  {
    forall p :: p in tree && Survives(dirs, stuck, written, p) ==>
      tree[p].readable && Fresh(CrlOf(p, tree[p].bytes), strict, now)
  }

  /** Validation passes exactly when what was written and every surviving CRL file is fresh. */
  lemma ReplacedPassesIff(tree: Tree, stuck: set<Path>, dirs: set<string>, written: map<Path, Bytes>, strict: bool,
                          now: Time)
    ensures var w := Replaced(tree, stuck, dirs, written);
            Unreadable(w, dirs) == {} && Problems(w, dirs, strict, now) == {} <==>
            WrittenFresh(dirs, written, strict, now) && SurvivorsFresh(tree, stuck, dirs, written.Keys, strict, now)
  {
    hide Controlled, CrlNamed, CrlOf, Fresh;
    var w := Replaced(tree, stuck, dirs, written);
    if Unreadable(w, dirs) == {} && Problems(w, dirs, strict, now) == {} {
      forall p | p in written && ScannedIn(dirs, p) ensures Fresh(CrlOf(p, written[p]), strict, now) {
        assert p !in Problems(w, dirs, strict, now);
      }
      forall p | p in tree && Survives(dirs, stuck, written.Keys, p)
        ensures tree[p].readable && Fresh(CrlOf(p, tree[p].bytes), strict, now)
      {
        assert p in w && w[p] == tree[p];
        assert p !in Unreadable(w, dirs) && p !in Problems(w, dirs, strict, now);
      }
    }
    if WrittenFresh(dirs, written, strict, now) && SurvivorsFresh(tree, stuck, dirs, written.Keys, strict, now) {
      forall p | p in w && ScannedIn(dirs, p)
        ensures p !in Unreadable(w, dirs) && p !in Problems(w, dirs, strict, now)
      {
        if p !in written {
          assert p in tree && w[p] == tree[p] && Survives(dirs, stuck, written.Keys, p);
        }
      }
    }
  }

  /**
   * After a validation failure, relative to the tree before: what is back, what was
   * never touched, what is left over.
   */
  predicate RolledBack(before: Tree, after: Tree, dirs: set<string>, written: set<Path>) {
    && (forall p :: p in before && ScannedIn(dirs, p) && before[p].readable ==> p in after && after[p] == before[p])
    && (forall p :: p in before && !ScannedIn(dirs, p) && p !in written ==> p in after && after[p] == before[p])
    && (forall p :: p in after && p !in before ==> p in written)
  }

  /** A file the rollback puts back, or that the write did not change. */
  predicate Recovered(tree: Tree, dirs: set<string>, p: Path, bytes: Bytes) {
    p in tree && ((ScannedIn(dirs, p) && tree[p].readable) || tree[p] == File(bytes, true))
  }

  lemma AllControlledAreScanned(dirs: set<string>)
    ensures forall p :: ControlledIn(dirs, p) ==> ScannedIn(dirs, p)
  {
    hide Controlled, CrlNamed;
    forall p | ControlledIn(dirs, p) ensures ScannedIn(dirs, p) {
      ControlledIsScanned(p.name);
    }
  }

  lemma FailureRollsBack(tree: Tree, stuck: set<Path>, dirs: set<string>, written: map<Path, Bytes>, strict: bool,
                         now: Time)
    requires Conclude(Replaced(tree, stuck, dirs, written), dirs, Snapshot(tree, dirs), strict, now).1
             == ValidationFailed
    ensures RolledBack(tree, Conclude(Replaced(tree, stuck, dirs, written), dirs, Snapshot(tree, dirs), strict, now).0,
                       dirs, written.Keys)
  {
    AllControlledAreScanned(dirs);
    hide Controlled, CrlNamed, Problems, Unreadable;
  }

  /** The rollback is complete exactly when every written file is recovered and no deleted alias was unreadable. */
  lemma RollbackCompleteIff(tree: Tree, stuck: set<Path>, dirs: set<string>, written: map<Path, Bytes>, strict: bool,
                            now: Time)
    requires Conclude(Replaced(tree, stuck, dirs, written), dirs, Snapshot(tree, dirs), strict, now).1
             == ValidationFailed
    ensures Conclude(Replaced(tree, stuck, dirs, written), dirs, Snapshot(tree, dirs), strict, now).0 == tree <==>
            && (forall p :: p in written ==> Recovered(tree, dirs, p, written[p]))
            && (forall p :: p in tree && Removed(dirs, stuck, p) && p !in written ==> tree[p].readable)
  {
    AllControlledAreScanned(dirs);
    hide Controlled, CrlNamed, Problems, Unreadable;
    var after := Conclude(Replaced(tree, stuck, dirs, written), dirs, Snapshot(tree, dirs), strict, now).0;
    assert after == WithFiles(Replaced(tree, stuck, dirs, written), Snapshot(tree, dirs));
    if after == tree {
      forall p | p in written ensures Recovered(tree, dirs, p, written[p]) {
        assert p in after;
      }
      forall p | p in tree && Removed(dirs, stuck, p) && p !in written ensures tree[p].readable {
        assert p in after;
      }
    }
    if (forall p :: p in written ==> Recovered(tree, dirs, p, written[p]))
       && (forall p :: p in tree && Removed(dirs, stuck, p) && p !in written ==> tree[p].readable) {
      forall p | p in tree ensures p in after && after[p] == tree[p] {
        if p in written { assert Recovered(tree, dirs, p, written[p]); }
      }
      assert after.Keys == tree.Keys;
    }
  }

  // ---- what the trust-only path writes ----

  /** `<name>` in every directory that accepts writes. */
  function AliasPaths(l: Layout, name: string): set<Path> {
    set d | d in Dirs(l) && Writable(l, d) :: Path(d, name)
  }

  function AliasFiles(l: Layout, name: string, bytes: Bytes): map<Path, Bytes> {
    map p | p in AliasPaths(l, name) :: bytes
  }

  function CurrentFiles(l: Layout, bytes: Bytes): map<Path, Bytes> {
    map[Path(l.issuerDir, "current.crl") := bytes, Path(l.trustedDir, "current.crl") := bytes]
  }

  /** Every incoming text decodes, and an intermediate CRL finds its two mandatory directories open for writes. */
  predicate Deliverable(l: Layout, items: Incoming) {
    && (items.intermediate.Some? ==> Writable(l, l.issuerDir) && Writable(l, l.trustedDir))
    && (items.root.Some? ==> items.root.value.Decodes?)
    && (items.intermediate.Some? ==> items.intermediate.value.Decodes?)
  }

  /** Some directory takes a root CRL. */
  predicate Lands(l: Layout) {
    Writable(l, l.issuerDir) || Writable(l, l.trustedDir)
  }

  predicate SomethingIncoming(items: Incoming) {
    items.root.Some? || items.intermediate.Some?
  }

  /** The files the trust-only path writes and their bytes. */
  function WrittenFiles(l: Layout, items: Incoming): map<Path, Bytes>
    requires Deliverable(l, items)
  {
    (if items.root.Some? then AliasFiles(l, "root_ca.crl", items.root.value.content) else map[])
    + (if items.intermediate.Some? then
         AliasFiles(l, "vault_intermediate.crl", items.intermediate.value.content)
         + CurrentFiles(l, items.intermediate.value.content)
       else map[])
  }

  lemma PutAliasEffect(tree: Tree, l: Layout, alias: string, bytes: Bytes)
    ensures PutAlias(tree, l, alias, bytes) == WithFiles(tree, AliasFiles(l, alias + ".crl", bytes))
  {
  }

  lemma PutCurrentEffect(tree: Tree, l: Layout, bytes: Bytes)
    ensures Put(Put(tree, Path(l.issuerDir, "current.crl"), bytes), Path(l.trustedDir, "current.crl"), bytes)
         == WithFiles(tree, CurrentFiles(l, bytes))
  {
  }

  lemma WriteIntermediateEffect(tree: Tree, l: Layout, bytes: Bytes)
    requires Writable(l, l.issuerDir) && Writable(l, l.trustedDir)
    ensures WriteIntermediate(tree, l, Some(Decodes(bytes)))
         == (WithFiles(tree, AliasFiles(l, "vault_intermediate.crl", bytes) + CurrentFiles(l, bytes)), None)
  {
    hide AliasFiles, CurrentFiles, PutAlias, WithFiles, Put;
    assert "vault_intermediate" + ".crl" == "vault_intermediate.crl";
    var alias := AliasFiles(l, "vault_intermediate.crl", bytes);
    PutAliasEffect(tree, l, "vault_intermediate", bytes);
    PutCurrentEffect(WithFiles(tree, alias), l, bytes);
    WithFilesTwice(tree, alias, CurrentFiles(l, bytes));
  }

  lemma WriteRootEffect(tree: Tree, l: Layout, bytes: Bytes)
    ensures WriteRoot(tree, l, Some(Decodes(bytes))) == (WithFiles(tree, AliasFiles(l, "root_ca.crl", bytes)), None)
  {
    hide AliasFiles, PutAlias, WithFiles;
    assert "root_ca" + ".crl" == "root_ca.crl";
    PutAliasEffect(tree, l, "root_ca", bytes);
  }

  /** The writes put exactly the written files in place. */
  lemma WriteItemsEffect(tree: Tree, l: Layout, items: Incoming)
    requires Deliverable(l, items)
    ensures WriteItems(tree, l, items) == (WithFiles(tree, WrittenFiles(l, items)), None)
  {
    hide AliasFiles, CurrentFiles, PutAlias, Writable;
    var first := if items.root.Some? then AliasFiles(l, "root_ca.crl", items.root.value.content) else map[];
    if items.root.Some? { WriteRootEffect(tree, l, items.root.value.content); }
    assert items.root.None? ==> WithFiles(tree, first) == tree;
    assert WriteRoot(tree, l, items.root) == (WithFiles(tree, first), None);
    if items.intermediate.Some? {
      var bytes := items.intermediate.value.content;
      var second := AliasFiles(l, "vault_intermediate.crl", bytes) + CurrentFiles(l, bytes);
      WriteIntermediateEffect(WithFiles(tree, first), l, bytes);
      WithFilesTwice(tree, first, second);
      assert WrittenFiles(l, items) == first + second;
    } else {
      assert first + map[] == first;
    }
  }

  lemma EndChar(s: string, suffix: string)
    requires EndsWith(s, suffix) && suffix != ""
    ensures s != "" && s[|s| - 1] == suffix[|suffix| - 1]
  {
    assert s[|s| - |suffix|..][|suffix| - 1] == s[|s| - 1];
  }

  /** A lower-case alias that ends in `.crl`. */
  lemma AliasName(name: string)
    requires name in CONTROLLED && Lower(name) == name && name != "" && name[|name| - 1] == 'l'
    ensures Controlled(name) && !EndsWith(Lower(name), ".crl.b64")
  {
    if EndsWith(name, ".crl.b64") {
      EndChar(name, ".crl.b64");
    }
  }

  lemma LowerLetters(s: string)
    requires forall k :: 0 <= k < |s| ==> !('A' <= s[k] <= 'Z')
    ensures Lower(s) == s
  {
  }

  lemma RootName()
    ensures var name := "root_ca.crl"; Controlled(name) && EndsWith(name, ".crl") && !EndsWith(Lower(name), ".crl.b64")
  {
    var name := "root_ca.crl";
    LowerLetters(name);
    assert name[7..] == ".crl";
    AliasName(name);
  }

  lemma IntermediateName()
    ensures var name := "vault_intermediate.crl";
            Controlled(name) && EndsWith(name, ".crl") && !EndsWith(Lower(name), ".crl.b64")
  {
    var name := "vault_intermediate.crl";
    LowerLetters(name);
    assert name[18..] == ".crl";
    AliasName(name);
  }

  lemma CurrentName()
    ensures var name := "current.crl"; Controlled(name) && EndsWith(name, ".crl") && !EndsWith(Lower(name), ".crl.b64")
  {
    var name := "current.crl";
    LowerLetters(name);
    assert name[7..] == ".crl";
    AliasName(name);
  }

  lemma FixedNames()
    ensures Controlled("root_ca.crl") && Controlled("vault_intermediate.crl") && Controlled("current.crl")
    ensures forall name :: name in {"root_ca.crl", "vault_intermediate.crl", "current.crl"} ==>
              EndsWith(name, ".crl") && !EndsWith(Lower(name), ".crl.b64")
  {
    hide Controlled, EndsWith, Lower;
    RootName();
    IntermediateName();
    CurrentName();
  }

  lemma WrittenAreAliases(l: Layout, items: Incoming)
    requires Deliverable(l, items)
    ensures forall p :: p in WrittenFiles(l, items) ==>
              ControlledIn(Dirs(l), p) && EndsWith(p.name, ".crl")
                  && CrlOf(p, WrittenFiles(l, items)[p]) == WrittenFiles(l, items)[p].der
  {
    FixedNames();
    hide Controlled, EndsWith, Lower, Writable;
    forall p | p in WrittenFiles(l, items)
      ensures p.dir in Dirs(l) && p.name in {"root_ca.crl", "vault_intermediate.crl", "current.crl"}
    {
    }
  }

  // ---- the trust-only path: success ----

  predicate IncomingFresh(l: Layout, items: Incoming, strict: bool, now: Time)
    requires items.root.Some? ==> items.root.value.Decodes?
    requires items.intermediate.Some? ==> items.intermediate.value.Decodes?
  {
    && (items.root.Some? && Lands(l) ==> Fresh(items.root.value.content.der, strict, now))
    && (items.intermediate.Some? ==> Fresh(items.intermediate.value.content.der, strict, now))
  }

  function RootDir(l: Layout): string {
    if Writable(l, l.issuerDir) then l.issuerDir else l.trustedDir
  }

  /** Each incoming CRL that finds a directory is delivered, and nothing else is. */
  lemma WrittenContents(l: Layout, items: Incoming)
    requires Deliverable(l, items)
    ensures var written := WrittenFiles(l, items);
            && (items.root.Some? && Lands(l) ==>
                 (Path(RootDir(l), "root_ca.crl"), items.root.value.content) in written.Items)
            && (items.intermediate.Some? ==>
                 (Path(l.issuerDir, "current.crl"), items.intermediate.value.content) in written.Items)
            && forall p :: p in written ==>
                 || (items.root.Some? && Lands(l) && written[p] == items.root.value.content)
                 || (items.intermediate.Some? && written[p] == items.intermediate.value.content)
  {
    assert "root_ca.crl"[0] != "vault_intermediate.crl"[0] && "root_ca.crl"[0] != "current.crl"[0];
    if items.root.Some? && Lands(l) {
      assert Path(RootDir(l), "root_ca.crl") in AliasPaths(l, "root_ca.crl");
    }
    assert !Lands(l) ==> AliasPaths(l, "root_ca.crl") == {};
  }

  lemma IncomingFreshIffWritten(l: Layout, items: Incoming, strict: bool, now: Time)
    requires Deliverable(l, items)
    ensures IncomingFresh(l, items, strict, now) <==> WrittenFresh(Dirs(l), WrittenFiles(l, items), strict, now)
  {
    WrittenContents(l, items);
    WrittenAreAliases(l, items);
    AllControlledAreScanned(Dirs(l));
    hide Controlled, EndsWith, CrlNamed, CrlOf, Fresh, WrittenFiles, Dirs;
  }

  /** What the trust-only path concludes from. */
  lemma TrustConcludes(tree: Tree, stuck: set<Path>, l: Layout, items: Incoming, strict: bool, now: Time)
    requires Deliverable(l, items) && SomethingIncoming(items)
    ensures ApplyTrust(tree, stuck, l, items, strict, now)
         == Conclude(Replaced(tree, stuck, Dirs(l), WrittenFiles(l, items)), Dirs(l), Snapshot(tree, Dirs(l)), strict,
             now)
  {
    hide Conclude, WrittenFiles, WriteItems, Cleaned, Snapshot, WithFiles, Dirs;
    WriteItemsEffect(Cleaned(tree, Dirs(l), stuck), l, items);
  }

  /**
   * The exact success condition of the trust-only stage: the incoming CRLs and
   * every CRL file that survives the clean-up and the writes parse, carry
   * nextUpdate and, in strict mode, lie in the future.
   */
  lemma TrustApplySucceedsIff(tree: Tree, stuck: set<Path>, l: Layout, items: Incoming, strict: bool, now: Time)
    requires Deliverable(l, items) && SomethingIncoming(items)
    ensures ApplyTrust(tree, stuck, l, items, strict, now).1 == Applied <==>
            IncomingFresh(l, items, strict, now)
            && SurvivorsFresh(tree, stuck, Dirs(l), WrittenFiles(l, items).Keys, strict, now)
  {
    WrittenAreAliases(l, items);
    TrustConcludes(tree, stuck, l, items, strict, now);
    ReplacedPassesIff(tree, stuck, Dirs(l), WrittenFiles(l, items), strict, now);
    IncomingFreshIffWritten(l, items, strict, now);
    hide Controlled, EndsWith, CrlNamed, CrlOf, Fresh, WrittenFiles, Snapshot;
    hide ApplyTrust, Replaced, IncomingFresh, WrittenFresh, Dirs;
  }

  /** CRL files with a name the GDS does not control are readable and fresh. */
  predicate ForeignFresh(tree: Tree, dirs: set<string>, strict: bool, now: Time) {
    forall p :: p in tree && ScannedIn(dirs, p) && !Controlled(p.name) ==>
      tree[p].readable && Fresh(CrlOf(p, tree[p].bytes), strict, now)
  }

  lemma ForeignSurvives(l: Layout, stuck: set<Path>, items: Incoming, p: Path)
    requires Deliverable(l, items) && p.dir in Dirs(l) && CrlNamed(p.name) && !Controlled(p.name)
    ensures Survives(Dirs(l), stuck, WrittenFiles(l, items).Keys, p)
  {
    WrittenAreAliases(l, items);
    hide Controlled, EndsWith, CrlNamed, CrlOf, WrittenFiles, Dirs, Deliverable;
  }

  /** While every alias can be deleted, only foreign files matter: a stale alias never blocks the stage. */
  lemma StaleAliasesNeverBlock(tree: Tree, stuck: set<Path>, l: Layout, items: Incoming, strict: bool, now: Time)
    requires Deliverable(l, items) && SomethingIncoming(items)
    requires forall p :: p in tree && ControlledIn(Dirs(l), p) ==> p !in stuck
    ensures ApplyTrust(tree, stuck, l, items, strict, now).1 == Applied <==>
            IncomingFresh(l, items, strict, now) && ForeignFresh(tree, Dirs(l), strict, now)
  {
    WrittenAreAliases(l, items);
    TrustApplySucceedsIff(tree, stuck, l, items, strict, now);
    hide Controlled, EndsWith, CrlNamed, CrlOf, Fresh, WrittenFiles, ApplyTrust, IncomingFresh, Dirs, Deliverable;
    var written := WrittenFiles(l, items).Keys;
    assert forall p :: p in tree && ScannedIn(Dirs(l), p) ==>
        (Survives(Dirs(l), stuck, written, p) <==> !Controlled(p.name));
  }

  /**
   * An alias that cannot be deleted, is not rewritten and is not fresh does block it,
   * whatever fresh CRLs come in.
   */
  lemma StuckAliasBlocks(tree: Tree, stuck: set<Path>, l: Layout, items: Incoming, strict: bool, now: Time, p: Path)
    requires Deliverable(l, items) && SomethingIncoming(items)
    requires p in tree && ControlledIn(Dirs(l), p) && p in stuck && p !in WrittenFiles(l, items)
    requires !Fresh(CrlOf(p, tree[p].bytes), strict, now)
    ensures ApplyTrust(tree, stuck, l, items, strict, now).1 != Applied
  {
    AllControlledAreScanned(Dirs(l));
    TrustApplySucceedsIff(tree, stuck, l, items, strict, now);
    hide Controlled, CrlNamed, CrlOf, Fresh, WrittenFiles, ApplyTrust, IncomingFresh, Dirs, Deliverable;
    assert Survives(Dirs(l), stuck, WrittenFiles(l, items).Keys, p);
  }

  /**
   * After a success the controlled files present are those just written and those
   * that could not be deleted, and nothing else changed.
   */
  lemma TrustApplyResult(tree: Tree, stuck: set<Path>, l: Layout, items: Incoming, strict: bool, now: Time)
    requires Deliverable(l, items) && SomethingIncoming(items)
    requires ApplyTrust(tree, stuck, l, items, strict, now).1 == Applied
    ensures var after, written := ApplyTrust(tree, stuck, l, items, strict, now).0, WrittenFiles(l, items);
            && (forall p :: Removed(Dirs(l), stuck, p) ==> (p in after <==> p in written))
            && (forall p :: p in written ==> p in after && after[p] == File(written[p], true))
            && (forall p :: !Removed(Dirs(l), stuck, p) && p !in written ==>
                  (p in after <==> p in tree) && (p in tree ==> after[p] == tree[p]))
  {
    WrittenAreAliases(l, items);
    TrustConcludes(tree, stuck, l, items, strict, now);
    hide Controlled, EndsWith, CrlNamed, CrlOf, WrittenFiles, Snapshot, ApplyTrust, Problems, Unreadable, Dirs;
  }

  // ---- the trust-only path: failure ----

  /**
   * When validation fails, every CRL file that could be read has its bytes
   * again, all other files are untouched, and the only new files are written
   * controlled `.crl` aliases that were absent before.
   */
  lemma TrustApplyRollsBack(tree: Tree, stuck: set<Path>, l: Layout, items: Incoming, strict: bool, now: Time)
    requires Deliverable(l, items)
    requires ApplyTrust(tree, stuck, l, items, strict, now).1 == ValidationFailed
    ensures RolledBack(tree, ApplyTrust(tree, stuck, l, items, strict, now).0, Dirs(l), WrittenFiles(l, items).Keys)
    ensures forall p :: p in WrittenFiles(l, items) ==> ControlledIn(Dirs(l), p) && EndsWith(p.name, ".crl")
  {
    WrittenAreAliases(l, items);
    TrustConcludes(tree, stuck, l, items, strict, now);
    FailureRollsBack(tree, stuck, Dirs(l), WrittenFiles(l, items), strict, now);
  }

  /**
   * The rollback is complete exactly when every alias it had written was there and
   * readable, and every alias it had deleted was readable.
   */
  lemma TrustRollbackCompleteIff(tree: Tree, stuck: set<Path>, l: Layout, items: Incoming, strict: bool, now: Time)
    requires Deliverable(l, items)
    requires ApplyTrust(tree, stuck, l, items, strict, now).1 == ValidationFailed
    ensures ApplyTrust(tree, stuck, l, items, strict, now).0 == tree <==>
            && (forall p :: p in WrittenFiles(l, items) ==> p in tree && tree[p].readable)
            && (forall p :: p in tree && Removed(Dirs(l), stuck, p) ==> tree[p].readable)
  {
    WrittenAreAliases(l, items);
    AllControlledAreScanned(Dirs(l));
    TrustConcludes(tree, stuck, l, items, strict, now);
    RollbackCompleteIff(tree, stuck, Dirs(l), WrittenFiles(l, items), strict, now);
    hide Controlled, EndsWith, CrlNamed, CrlOf, WrittenFiles, Snapshot, ApplyTrust;
    hide Problems, Unreadable, Dirs, Replaced, Conclude;
  }

  /**
   * A delivery that is not fresh, into directories without any file: validation
   * fails, and the written aliases stay behind.
   */
  lemma StaleDeliveryLeavesAliases(stuck: set<Path>, l: Layout, items: Incoming, strict: bool, now: Time)
    requires Deliverable(l, items) && SomethingIncoming(items) && !IncomingFresh(l, items, strict, now)
    ensures var (after, o) := ApplyTrust(map[], stuck, l, items, strict, now);
            o == ValidationFailed && after == WithFiles(map[], WrittenFiles(l, items)) && after != map[]
  {
    TrustConcludes(map[], stuck, l, items, strict, now);
    TrustApplySucceedsIff(map[], stuck, l, items, strict, now);
    WrittenContents(l, items);
    hide IncomingFresh, Deliverable, WrittenFiles, ApplyTrust, Conclude, Snapshot, Replaced, Dirs, WithFiles;
    EmptyTreeKeepsWritten(stuck, Dirs(l), WrittenFiles(l, items), strict, now);
  }

  lemma EmptyTreeKeepsWritten(stuck: set<Path>, dirs: set<string>, written: map<Path, Bytes>, strict: bool, now: Time)
    requires Conclude(Replaced(map[], stuck, dirs, written), dirs, Snapshot(map[], dirs), strict, now).1 != Applied
    ensures Conclude(Replaced(map[], stuck, dirs, written), dirs, Snapshot(map[], dirs), strict, now)
         == (WithFiles(map[], written), ValidationFailed)
    ensures written != map[] ==> WithFiles(map[], written) != map[]
  {
    hide Controlled, CrlNamed, Problems;
    assert Cleaned(map[], dirs, stuck) == map[] && Snapshot(map[], dirs) == map[];
    var w := WithFiles(map[], written);
    assert Unreadable(w, dirs) == {};
    WithNoFiles(w);
    if p :| p in written { assert p in w; }
  }

  /** The files the loop has written when an undecodable intermediate CRL stops it. */
  function RootFiles(l: Layout, items: Incoming): map<Path, Bytes> {
    if items.root.Some? && items.root.value.Decodes?
    then AliasFiles(l, "root_ca.crl", items.root.value.content)
    else map[]
  }

  /**
   * Only validation failures are rolled back.  An undecodable incoming CRL, the
   * only cause of a decode failure, is noticed after the clean-up: the aliases that
   * can be deleted are gone, and a root CRL that did decode has been written.
   */
  lemma DecodeFailureKeepsDeletions(tree: Tree, stuck: set<Path>, l: Layout, items: Incoming, strict: bool, now: Time)
    ensures ApplyTrust(tree, stuck, l, items, strict, now).1 == DecodeFailed <==>
            items.root == Some(NotBase64) || items.intermediate == Some(NotBase64)
    ensures ApplyTrust(tree, stuck, l, items, strict, now).1 == DecodeFailed ==>
              ApplyTrust(tree, stuck, l, items, strict, now).0 == Replaced(tree, stuck, Dirs(l), RootFiles(l, items))
  {
    hide Controlled, Dirs, AliasFiles, PutAlias, WithFiles, Put;
    if items.root.Some? && items.root.value.Decodes? {
      WriteRootEffect(Cleaned(tree, Dirs(l), stuck), l, items.root.value.content);
    }
    if RootFiles(l, items) == map[] {
      WithNoFiles(Cleaned(tree, Dirs(l), stuck));
    }
  }

  /** One alias and an intermediate CRL that is not base64: the alias is gone. */
  lemma DecodeFailureDeletesAlias(l: Layout, bytes: Bytes, strict: bool, now: Time)
    ensures ApplyTrust(map[Path(l.issuerDir, "current.crl") := File(bytes, true)], {}, l,
                       Incoming(None, Some(NotBase64)), strict, now)
         == (map[], DecodeFailed)
  {
    var tree := map[Path(l.issuerDir, "current.crl") := File(bytes, true)];
    var items := Incoming(None, Some(NotBase64));
    DecodeFailureKeepsDeletions(tree, {}, l, items, strict, now);
    CurrentName();
    hide Controlled, ApplyTrust;
    assert Cleaned(tree, Dirs(l), {}) == map[];
    WithNoFiles(map[]);
  }

  lemma WithNoFiles(tree: Tree)
    ensures WithFiles(tree, map[]) == tree
  {
  }

  /**
   * Such a failure leaves the tree as it was exactly when the clean-up removed nothing
   * that was not rewritten alike.
   */
  lemma DecodeFailureHarmlessIff(tree: Tree, stuck: set<Path>, l: Layout, items: Incoming, strict: bool, now: Time)
    requires ApplyTrust(tree, stuck, l, items, strict, now).1 == DecodeFailed
    ensures ApplyTrust(tree, stuck, l, items, strict, now).0 == tree <==>
            && (forall p :: p in tree && Removed(Dirs(l), stuck, p) ==> p in RootFiles(l, items))
            && (forall p :: p in RootFiles(l, items) ==> p in tree && tree[p] == File(RootFiles(l, items)[p], true))
  {
    DecodeFailureKeepsDeletions(tree, stuck, l, items, strict, now);
    hide Controlled, Dirs, RootFiles, ApplyTrust;
    var after := ApplyTrust(tree, stuck, l, items, strict, now).0;
    var files := RootFiles(l, items);
    if after == tree {
      forall p | p in tree && Removed(Dirs(l), stuck, p) ensures p in files {
        assert p in after;
      }
      forall p | p in files ensures p in tree && tree[p] == File(files[p], true) {
        assert p in after;
      }
    }
    if (forall p :: p in tree && Removed(Dirs(l), stuck, p) ==> p in files)
       && (forall p :: p in files ==> p in tree && tree[p] == File(files[p], true)) {
      assert forall p :: p in after <==> p in tree;
      assert forall p :: p in tree ==> after[p] == tree[p];
    }
  }

  predicate SurvivesUnreadable(tree: Tree, stuck: set<Path>, dirs: set<string>, written: set<Path>, p: Path) {
    p in tree && Survives(dirs, stuck, written, p) && !tree[p].readable
  }

  /** Validation raises exactly when such a file exists, and then nothing is restored. */
  lemma ReadFailsIff(tree: Tree, stuck: set<Path>, dirs: set<string>, written: map<Path, Bytes>, strict: bool,
                     now: Time)
    ensures var w := Replaced(tree, stuck, dirs, written);
            var (after, o) := Conclude(w, dirs, Snapshot(tree, dirs), strict, now);
            && (o == ReadFailed <==> exists p :: SurvivesUnreadable(tree, stuck, dirs, written.Keys, p))
            && (o == ReadFailed ==> after == w)
  {
    hide Controlled, CrlNamed, Problems;
    var w := Replaced(tree, stuck, dirs, written);
    if p :| p in Unreadable(w, dirs) {
      assert SurvivesUnreadable(tree, stuck, dirs, written.Keys, p);
    }
    if p :| SurvivesUnreadable(tree, stuck, dirs, written.Keys, p) {
      assert p in Unreadable(w, dirs);
    }
  }

  /**
   * The trust-only stage stops on an unreadable file exactly when one survives its
   * clean-up and writes; it restores nothing.
   */
  lemma TrustReadFailsIff(tree: Tree, stuck: set<Path>, l: Layout, items: Incoming, strict: bool, now: Time)
    requires Deliverable(l, items) && SomethingIncoming(items)
    ensures var (after, o) := ApplyTrust(tree, stuck, l, items, strict, now);
            && (o == ReadFailed <==>
                 exists p :: SurvivesUnreadable(tree, stuck, Dirs(l), WrittenFiles(l, items).Keys, p))
            && (o == ReadFailed ==> after == Replaced(tree, stuck, Dirs(l), WrittenFiles(l, items)))
  {
    WrittenAreAliases(l, items);
    TrustConcludes(tree, stuck, l, items, strict, now);
    ReadFailsIff(tree, stuck, Dirs(l), WrittenFiles(l, items), strict, now);
    hide Controlled, CrlNamed, CrlOf, EndsWith, WrittenFiles, ApplyTrust, Conclude, Snapshot, Replaced, Dirs;
  }

  /** A root alias that cannot be deleted, not fresh and alone: a delivery without a root CRL fails on it. */
  lemma StuckRootBlocks(l: Layout, root: Bytes, intermediate: Bytes, strict: bool, now: Time)
    requires Writable(l, l.issuerDir) && Writable(l, l.trustedDir) && !Fresh(root.der, strict, now)
    ensures var alias := Path(l.issuerDir, "root_ca.crl");
            ApplyTrust(map[alias := File(root, true)], {alias}, l, Incoming(None, Some(Decodes(intermediate))), strict,
                       now).1 != Applied
  {
    var alias, items := Path(l.issuerDir, "root_ca.crl"), Incoming(None, Some(Decodes(intermediate)));
    var tree := map[alias := File(root, true)];
    RootName();
    RootNotWritten(l, items);
    assert CrlOf(alias, root) == root.der;
    hide Controlled, CrlOf, Fresh, ApplyTrust, WrittenFiles, Dirs, EndsWith;
    StuckAliasBlocks(tree, {alias}, l, items, strict, now, alias);
  }

  lemma ForeignName()
    ensures CrlNamed("x.crl") && !Controlled("x.crl")
  {
    var name := "x.crl";
    LowerLetters(name);
    assert name[1..] == ".crl";
    assert |name| == 5;
  }

  /**
   * A root alias beside a foreign CRL file that cannot be read: a delivery without
   * a root CRL stops on the foreign file, and the root alias is gone.
   */
  lemma UnreadableFileLosesAlias(l: Layout, root: Bytes, foreign: Bytes, intermediate: Bytes, strict: bool, now: Time)
    requires Writable(l, l.issuerDir) && Writable(l, l.trustedDir)
    ensures var alias, unreadable := Path(l.issuerDir, "root_ca.crl"), Path(l.issuerDir, "x.crl");
            var tree := map[alias := File(root, true), unreadable := File(foreign, false)];
            var (after, o) := ApplyTrust(tree, {}, l, Incoming(None, Some(Decodes(intermediate))), strict, now);
            && alias in tree && o == ReadFailed && alias !in after
            && unreadable in after && after[unreadable] == File(foreign, false)
  {
    var alias, unreadable := Path(l.issuerDir, "root_ca.crl"), Path(l.issuerDir, "x.crl");
    var tree, items := map[alias := File(root, true), unreadable := File(foreign, false)],
      Incoming(None, Some(Decodes(intermediate)));
    ForeignName();
    RootName();
    RootNotWritten(l, items);
    ForeignSurvives(l, {}, items, unreadable);
    assert |alias.name| == 11 && |unreadable.name| == 5;
    assert Deliverable(l, items);
    hide Controlled, CrlNamed, ApplyTrust, WrittenFiles, Writable, Dirs, EndsWith, Deliverable, Survives;
    ReadFailureLosesAlias(tree, {}, l, items, strict, now, alias, unreadable);
  }

  /** In any tree: an unreadable file that survives stops the stage, and a deleted alias is not restored. */
  lemma ReadFailureLosesAlias(tree: Tree, stuck: set<Path>, l: Layout, items: Incoming, strict: bool, now: Time,
                              alias: Path, unreadable: Path)
    requires Deliverable(l, items) && SomethingIncoming(items)
    requires Removed(Dirs(l), stuck, alias) && alias !in WrittenFiles(l, items)
    requires SurvivesUnreadable(tree, stuck, Dirs(l), WrittenFiles(l, items).Keys, unreadable)
    ensures var (after, o) := ApplyTrust(tree, stuck, l, items, strict, now);
            o == ReadFailed && alias !in after && unreadable in after && after[unreadable] == tree[unreadable]
  {
    TrustReadFailsIff(tree, stuck, l, items, strict, now);
    hide Controlled, CrlNamed, ApplyTrust, WrittenFiles, Dirs, Deliverable;
  }

  lemma RootNotWritten(l: Layout, items: Incoming)
    requires Deliverable(l, items) && items.root.None?
    ensures Path(l.issuerDir, "root_ca.crl") !in WrittenFiles(l, items) && l.issuerDir in Dirs(l)
  {
    assert "root_ca.crl"[0] != "vault_intermediate.crl"[0] && "root_ca.crl"[0] != "current.crl"[0];
  }

  // ---- the package path ----

  /** The literal files the package path writes; a later one wins over an equal earlier one. */
  function PackageFiles(crlPath: Path, trustedDir: string, text: Bytes): map<Path, Bytes>
    requires text.base64.Decodes?
  {
    map[crlPath := text]
       [Path(crlPath.dir, WithSuffix(crlPath.name, ".crl")) := text.base64.content]
       [Path(trustedDir, "current.crl") := text.base64.content]
  }

  lemma PackageConcludes(tree: Tree, stuck: set<Path>, crlPath: Path, trustedDir: string, text: Bytes, strict: bool,
                         now: Time)
    requires text.base64.Decodes?
    ensures var dirs := {crlPath.dir, trustedDir};
            ApplyPackage(tree, stuck, crlPath, trustedDir, text, strict, now)
              == Conclude(Replaced(tree, stuck, dirs, PackageFiles(crlPath, trustedDir, text)), dirs,
                          Snapshot(tree, dirs), strict, now)
  {
    hide Conclude, WithSuffix, Snapshot, Put, WithFiles, Cleaned;
    var clean := Cleaned(tree, {crlPath.dir, trustedDir}, stuck);
    var twin := Path(crlPath.dir, WithSuffix(crlPath.name, ".crl"));
    PutThree(clean, crlPath, twin, Path(trustedDir, "current.crl"), text, text.base64.content);
  }

  lemma PutThree(tree: Tree, a: Path, b: Path, c: Path, text: Bytes, content: Bytes)
    ensures Put(Put(Put(tree, a, text), b, content), c, content)
         == WithFiles(tree, map[a := text][b := content][c := content])
  {
    var x := Put(Put(Put(tree, a, text), b, content), c, content);
    var y := WithFiles(tree, map[a := text][b := content][c := content]);
    forall p ensures (p in x <==> p in y) && (p in x ==> x[p] == y[p]) {
    }
  }

  /**
   * For any file name: success exactly when the written files the server scans and
   * every other foreign CRL file are fresh.
   */
  lemma PackageApplySucceedsIff(tree: Tree, stuck: set<Path>, crlPath: Path, trustedDir: string, text: Bytes,
                                strict: bool, now: Time)
    requires text.base64.Decodes?
    ensures var dirs, written := {crlPath.dir, trustedDir}, PackageFiles(crlPath, trustedDir, text);
            ApplyPackage(tree, stuck, crlPath, trustedDir, text, strict, now).1 == Applied <==>
            WrittenFresh(dirs, written, strict, now) && SurvivorsFresh(tree, stuck, dirs, written.Keys, strict, now)
  {
    PackageConcludes(tree, stuck, crlPath, trustedDir, text, strict, now);
    ReplacedPassesIff(tree, stuck, {crlPath.dir, trustedDir}, PackageFiles(crlPath, trustedDir, text), strict, now);
    hide Controlled, CrlNamed, CrlOf, Fresh, PackageFiles, Snapshot, ApplyPackage, Replaced;
  }

  /** For any file name: the rollback, whose leftovers are the three literal names. */
  lemma PackageApplyRollsBack(tree: Tree, stuck: set<Path>, crlPath: Path, trustedDir: string, text: Bytes,
                              strict: bool, now: Time)
    requires ApplyPackage(tree, stuck, crlPath, trustedDir, text, strict, now).1 == ValidationFailed
    ensures text.base64.Decodes?
    ensures RolledBack(tree, ApplyPackage(tree, stuck, crlPath, trustedDir, text, strict, now).0,
            {crlPath.dir, trustedDir},
                       PackageFiles(crlPath, trustedDir, text).Keys)
  {
    PackageConcludes(tree, stuck, crlPath, trustedDir, text, strict, now);
    FailureRollsBack(tree, stuck, {crlPath.dir, trustedDir}, PackageFiles(crlPath, trustedDir, text), strict, now);
  }

  /** It is complete exactly when every file it wrote is recovered and no deleted alias was unreadable. */
  lemma PackageRollbackCompleteIff(tree: Tree, stuck: set<Path>, crlPath: Path, trustedDir: string, text: Bytes,
                                   strict: bool, now: Time)
    requires ApplyPackage(tree, stuck, crlPath, trustedDir, text, strict, now).1 == ValidationFailed
    ensures text.base64.Decodes?
    ensures var dirs, written := {crlPath.dir, trustedDir}, PackageFiles(crlPath, trustedDir, text);
            ApplyPackage(tree, stuck, crlPath, trustedDir, text, strict, now).0 == tree <==>
            && (forall p :: p in written ==> Recovered(tree, dirs, p, written[p]))
            && (forall p :: p in tree && Removed(dirs, stuck, p) && p !in written ==> tree[p].readable)
  {
    PackageConcludes(tree, stuck, crlPath, trustedDir, text, strict, now);
    RollbackCompleteIff(tree, stuck, {crlPath.dir, trustedDir}, PackageFiles(crlPath, trustedDir, text), strict, now);
  }

  /** The package stage stops on an unreadable file exactly when a foreign one survives; it restores nothing. */
  lemma PackageReadFailsIff(tree: Tree, stuck: set<Path>, crlPath: Path, trustedDir: string, text: Bytes, strict: bool,
                            now: Time)
    requires text.base64.Decodes?
    ensures var dirs, written := {crlPath.dir, trustedDir}, PackageFiles(crlPath, trustedDir, text);
            var (after, o) := ApplyPackage(tree, stuck, crlPath, trustedDir, text, strict, now);
            && (o == ReadFailed <==> exists p :: SurvivesUnreadable(tree, stuck, dirs, written.Keys, p))
            && (o == ReadFailed ==> after == Replaced(tree, stuck, dirs, written))
  {
    PackageConcludes(tree, stuck, crlPath, trustedDir, text, strict, now);
    ReadFailsIff(tree, stuck, {crlPath.dir, trustedDir}, PackageFiles(crlPath, trustedDir, text), strict, now);
  }

  lemma SuffixOfDefaultName()
    ensures WithSuffix("current.crl.b64", ".crl") == "current.crl.crl"
    ensures CrlNamed("current.crl.crl") && !Controlled("current.crl.crl")
    ensures !EndsWith(Lower("current.crl.crl"), ".crl.b64")
    ensures Controlled("current.crl.b64") && EndsWith(Lower("current.crl.b64"), ".crl.b64")
  {
    var n := "current.crl.b64";
    assert LastDot(n[..12]) == 11 by { assert n[..12][11] == '.'; }
    assert n[..13][..12] == n[..12] && n[..13][12] == 'b';
    assert LastDot(n[..13]) == 11;
    assert n[..14][..13] == n[..13] && n[..14][13] == '6';
    assert LastDot(n[..14]) == 11;
    assert n[..15][..14] == n[..14] && n[..15] == n && n[14] == '4';
    assert LastDot(n) == 11;
    assert n[..11] == "current.crl";
    assert Lower(n) == n;
    var m := "current.crl.crl";
    assert Lower(m) == m;
    if EndsWith(m, ".crl.b64") {
      EndChar(m, ".crl.b64");
    }
    assert m[|m| - 4..] == ".crl";
    assert n[|n| - 8..] == ".crl.b64";
  }

  /** The decoded twin the package path leaves beside `current.crl.b64`. */
  function Twin(crlPath: Path): Path {
    Path(crlPath.dir, "current.crl.crl")
  }

  lemma DefaultPackageFiles(crlPath: Path, trustedDir: string, text: Bytes)
    requires crlPath.name == "current.crl.b64" && text.base64.Decodes?
    ensures var files, content := PackageFiles(crlPath, trustedDir, text), text.base64.content;
            && files == map[crlPath := text, Twin(crlPath) := content, Path(trustedDir, "current.crl") := content]
            && forall p :: p in files ==>
                 && CrlOf(p, files[p]) == content.der
                 && ScannedIn({crlPath.dir, trustedDir}, p)
                 && (Controlled(p.name) <==> p != Twin(crlPath))
  {
    DefaultFileFacts(crlPath, trustedDir, text);
    TwinIsWritten(crlPath);
    hide Controlled, CrlOf, CrlNamed, WithSuffix, Twin, PackageFiles;
    var files, twin, current := PackageFiles(crlPath, trustedDir, text), Twin(crlPath), Path(trustedDir, "current.crl");
    ThreeFiles(crlPath, trustedDir, text, twin, current);
    assert twin.dir == crlPath.dir;
    forall p | p in files ensures p == crlPath || p == twin || p == current {
    }
  }

  lemma TwinIsWritten(crlPath: Path)
    requires crlPath.name == "current.crl.b64"
    ensures Twin(crlPath) == Path(crlPath.dir, WithSuffix(crlPath.name, ".crl"))
  {
    SuffixOfDefaultName();
    hide WithSuffix, Controlled, CrlNamed;
  }

  lemma ThreeFiles(crlPath: Path, trustedDir: string, text: Bytes, twin: Path, current: Path)
    requires text.base64.Decodes?
    requires twin == Path(crlPath.dir, WithSuffix(crlPath.name, ".crl")) && current == Path(trustedDir, "current.crl")
    requires crlPath != twin && crlPath != current && twin != current
    ensures var files, content := PackageFiles(crlPath, trustedDir, text), text.base64.content;
            && files == map[crlPath := text, twin := content, current := content]
            && files.Keys == {crlPath, twin, current}
            && files[crlPath] == text && files[twin] == content && files[current] == content
  {
    hide WithSuffix;
  }

  lemma DefaultFileFacts(crlPath: Path, trustedDir: string, text: Bytes)
    requires crlPath.name == "current.crl.b64" && text.base64.Decodes?
    ensures var content, current := text.base64.content, Path(trustedDir, "current.crl");
            && CrlOf(crlPath, text) == content.der && CrlOf(Twin(crlPath), content) == content.der
            && CrlOf(current, content) == content.der
            && CrlNamed(crlPath.name) && CrlNamed(Twin(crlPath).name) && CrlNamed(current.name)
            && Controlled(crlPath.name) && !Controlled(Twin(crlPath).name) && Controlled(current.name)
            && current != Twin(crlPath) && current != crlPath && Twin(crlPath) != crlPath
  {
    SuffixOfDefaultName();
    FixedNames();
    ControlledIsScanned("current.crl.b64");
    ControlledIsScanned("current.crl");
    assert |"current.crl"| == 11 && |"current.crl.crl"| == 15 && |"current.crl.b64"| == 15;
    hide Controlled, EndsWith, Lower, CrlNamed;
  }

  /**
   * For the default file name the stage succeeds exactly when the decoded CRL
   * is fresh and so is every CRL file it neither deletes nor overwrites; a
   * previous `current.crl.crl` is overwritten.
   */
  lemma DefaultPackageSucceedsIff(tree: Tree, stuck: set<Path>, crlPath: Path, trustedDir: string, text: Bytes,
                                  strict: bool, now: Time)
    requires crlPath.name == "current.crl.b64" && text.base64.Decodes?
    ensures ApplyPackage(tree, stuck, crlPath, trustedDir, text, strict, now).1 == Applied <==>
            Fresh(text.base64.content.der, strict, now)
            && SurvivorsFresh(tree, stuck, {crlPath.dir, trustedDir},
                              {crlPath, Twin(crlPath), Path(trustedDir, "current.crl")}, strict, now)
  {
    var dirs, written := {crlPath.dir, trustedDir}, PackageFiles(crlPath, trustedDir, text);
    DefaultPackageFiles(crlPath, trustedDir, text);
    assert crlPath in written && Twin(crlPath) in written;
    PackageApplySucceedsIff(tree, stuck, crlPath, trustedDir, text, strict, now);
    hide Controlled, CrlNamed, CrlOf, Fresh, PackageFiles, ApplyPackage, WrittenFresh, SurvivorsFresh, ScannedIn, Twin;
    SameCrlFresh(dirs, written, crlPath, text.base64.content.der, strict, now);
    assert written.Keys == {crlPath, Twin(crlPath), Path(trustedDir, "current.crl")};
  }

  /** Files that all hold one CRL are fresh exactly when it is. */
  lemma SameCrlFresh(dirs: set<string>, written: map<Path, Bytes>, one: Path, crl: Crl, strict: bool, now: Time)
    requires one in written
    requires forall p :: p in written ==> CrlOf(p, written[p]) == crl && ScannedIn(dirs, p)
    ensures WrittenFresh(dirs, written, strict, now) <==> Fresh(crl, strict, now)
  {
    hide CrlOf, Fresh, ScannedIn;
  }

  /** A package CRL that is not fresh, into directories without any file: its three files stay behind. */
  lemma StalePackageLeavesFiles(stuck: set<Path>, crlPath: Path, trustedDir: string, text: Bytes, strict: bool,
                                now: Time)
    requires crlPath.name == "current.crl.b64" && text.base64.Decodes?
    requires !Fresh(text.base64.content.der, strict, now)
    ensures var (after, o) := ApplyPackage(map[], stuck, crlPath, trustedDir, text, strict, now);
            && o == ValidationFailed && after != map[]
            && after == WithFiles(map[], PackageFiles(crlPath, trustedDir, text))
  {
    DefaultPackageSucceedsIff(map[], stuck, crlPath, trustedDir, text, strict, now);
    PackageConcludes(map[], stuck, crlPath, trustedDir, text, strict, now);
    assert crlPath in PackageFiles(crlPath, trustedDir, text);
    hide ApplyPackage, PackageFiles, Conclude, Replaced, Snapshot, WithFiles, Fresh;
    EmptyTreeKeepsWritten(stuck, {crlPath.dir, trustedDir}, PackageFiles(crlPath, trustedDir, text), strict, now);
  }

  /** An undecodable package CRL is noticed before anything is touched. */
  lemma PackageDecodeFailureIsClean(tree: Tree, stuck: set<Path>, crlPath: Path, trustedDir: string, text: Bytes,
                                    strict: bool, now: Time)
    ensures ApplyPackage(tree, stuck, crlPath, trustedDir, text, strict, now).1 == DecodeFailed <==>
            text.base64.NotBase64?
    ensures text.base64.NotBase64? ==> ApplyPackage(tree, stuck, crlPath, trustedDir, text, strict, now).0 == tree
  {
  }

  /**
   * The two paths together: the twin a successful package stage leaves is not a
   * controlled alias, so once its nextUpdate has passed, every strict trust-only
   * stage over that directory fails, whatever fresh CRLs it brings.
   */
  lemma ExpiredTwinBlocksTrustApply(tree: Tree, stuck: set<Path>, crlPath: Path, trustedDir: string, text: Bytes,
                                    earlier: Time, l: Layout, later: set<Path>, items: Incoming, now: Time)
    requires crlPath.name == "current.crl.b64" && l.issuerDir == crlPath.dir
    requires ApplyPackage(tree, stuck, crlPath, trustedDir, text, true, earlier).1 == Applied
    requires text.base64.content.der.NextUpdate? && text.base64.content.der.at <= now
    requires Deliverable(l, items) && SomethingIncoming(items)
    ensures var after := ApplyPackage(tree, stuck, crlPath, trustedDir, text, true, earlier).0;
            ApplyTrust(after, later, l, items, true, now).1 != Applied
  {
    TwinSurvives(tree, stuck, crlPath, trustedDir, text, earlier);
    var after := ApplyPackage(tree, stuck, crlPath, trustedDir, text, true, earlier).0;
    TrustApplySucceedsIff(after, later, l, items, true, now);
    ForeignSurvives(l, later, items, Twin(crlPath));
    hide Controlled, CrlNamed, CrlOf, ApplyPackage, ApplyTrust, Twin, IncomingFresh, Deliverable;
    hide WrittenFiles, Survives, Dirs;
  }

  /** From an empty tree: a CRL that is fresh when the package is staged and no longer is when the trust list comes. */
  lemma FreshPackageBlocksLater(crlPath: Path, trustedDir: string, text: Bytes, earlier: Time, l: Layout,
                                items: Incoming, now: Time)
    requires crlPath.name == "current.crl.b64" && l.issuerDir == crlPath.dir
    requires text.base64.Decodes? && text.base64.content.der.NextUpdate?
    requires earlier < text.base64.content.der.at <= now
    requires Deliverable(l, items) && SomethingIncoming(items)
    ensures var (after, o) := ApplyPackage(map[], {}, crlPath, trustedDir, text, true, earlier);
            o == Applied && ApplyTrust(after, {}, l, items, true, now).1 != Applied
  {
    hide ApplyPackage, ApplyTrust, Deliverable, Survives;
    DefaultPackageSucceedsIff(map[], {}, crlPath, trustedDir, text, true, earlier);
    ExpiredTwinBlocksTrustApply(map[], {}, crlPath, trustedDir, text, earlier, l, {}, items, now);
  }

  lemma TwinSurvives(tree: Tree, stuck: set<Path>, crlPath: Path, trustedDir: string, text: Bytes, now: Time)
    requires crlPath.name == "current.crl.b64"
    requires ApplyPackage(tree, stuck, crlPath, trustedDir, text, true, now).1 == Applied
    ensures text.base64.Decodes?
    ensures var after := ApplyPackage(tree, stuck, crlPath, trustedDir, text, true, now).0;
            (Twin(crlPath), File(text.base64.content, true)) in after.Items
    ensures Twin(crlPath).dir == crlPath.dir && CrlNamed(Twin(crlPath).name) && !Controlled(Twin(crlPath).name)
    ensures CrlOf(Twin(crlPath), text.base64.content) == text.base64.content.der
  {
    PackageConcludes(tree, stuck, crlPath, trustedDir, text, true, now);
    DefaultPackageFiles(crlPath, trustedDir, text);
    hide Controlled, CrlNamed, CrlOf, PackageFiles, ApplyPackage, Problems, Unreadable, Snapshot;
  }

  // ---- both stages, stated on names, directories and CRLs ----

  /** One of the directories of the trust-only stage. */
  predicate Within(l: Layout, dir: string) {
    dir == l.issuerDir || dir == l.trustedDir || l.compatDir == Some(dir)
  }

  /** A directory of the layout that takes the aliases: the compatibility directory only if it accepts writes. */
  predicate Receives(l: Layout, dir: string) {
    Within(l, dir) && (l.compatDir == Some(dir) ==> l.compatWritable)
  }

  /** The delivery puts these bytes at this path. */
  predicate Delivers(l: Layout, items: Incoming, p: Path, bytes: Bytes) {
    || (items.root == Some(Decodes(bytes)) && p.name == "root_ca.crl" && Receives(l, p.dir))
    || (items.intermediate == Some(Decodes(bytes)) && p.name == "vault_intermediate.crl" && Receives(l, p.dir))
    || (items.intermediate == Some(Decodes(bytes)) && p.name == "current.crl" && p.dir in {l.issuerDir, l.trustedDir})
  }

  lemma DirsAre(l: Layout)
    ensures forall d :: d in Dirs(l) <==> Within(l, d)
  {
  }

  lemma NamesDiffer()
    ensures "root_ca.crl" != "vault_intermediate.crl" && "root_ca.crl" != "current.crl"
    ensures "vault_intermediate.crl" != "current.crl"
  {
    assert "root_ca.crl"[0] == 'r' && "current.crl"[0] == 'c' && "vault_intermediate.crl"[0] == 'v';
  }

  /** The files written are exactly those delivered. */
  lemma WrittenAreDelivered(l: Layout, items: Incoming)
    requires Deliverable(l, items)
    ensures forall p, bytes :: (p in WrittenFiles(l, items) && WrittenFiles(l, items)[p] == bytes) <==>
              Delivers(l, items, p, bytes)
  {
    NamesDiffer();
    DirsAre(l);
    var w := WrittenFiles(l, items);
    hide Dirs, Within;
    forall p, bytes ensures (p in w && w[p] == bytes) <==> Delivers(l, items, p, bytes) {
      AliasPathsAre(l, p);
    }
  }

  lemma AliasPathsAre(l: Layout, p: Path)
    ensures forall name :: p in AliasPaths(l, name) <==> p.name == name && Receives(l, p.dir)
  {
    DirsAre(l);
    hide Dirs, Within;
  }

  /** A mandatory directory that is also the compatibility directory, and read-only, fails the stage. */
  lemma WriteFailsIff(tree: Tree, stuck: set<Path>, l: Layout, items: Incoming, strict: bool, now: Time)
    ensures ApplyTrust(tree, stuck, l, items, strict, now).1 == WriteFailed <==>
            && items.root != Some(NotBase64) && items.intermediate.Some? && items.intermediate.value.Decodes?
            && !l.compatWritable && (l.compatDir == Some(l.issuerDir) || l.compatDir == Some(l.trustedDir))
  {
    hide Controlled, Dirs, PutAlias, Put, Cleaned;
  }

  /** Neither deleted nor overwritten. */
  predicate Remaining(l: Layout, stuck: set<Path>, items: Incoming, p: Path) {
    && !(Alias(p) && p !in stuck)
    && !(items.root.Some? && p.name == "root_ca.crl" && Receives(l, p.dir))
    && !(items.intermediate.Some? && p.name == "vault_intermediate.crl" && Receives(l, p.dir))
    && !(items.intermediate.Some? && p.name == "current.crl" && p.dir in {l.issuerDir, l.trustedDir})
  }

  /** Every CRL file of the directories can be read and gives no trouble. */
  ghost predicate AllSound(tree: Tree, dirs: set<string>, strict: bool, now: Time) {
    forall p :: p in tree && Scanned(dirs, p) ==> tree[p].readable && !Troubled(p, tree[p].bytes, strict, now)
  }

  lemma ConcludesSound(tree: Tree, dirs: set<string>, snapshot: map<Path, Bytes>, strict: bool, now: Time)
    ensures Conclude(tree, dirs, snapshot, strict, now).1 == Applied <==> AllSound(tree, dirs, strict, now)
    ensures Conclude(tree, dirs, snapshot, strict, now).1 == Applied ==>
              Conclude(tree, dirs, snapshot, strict, now).0 == tree
  {
    ProblemsAre(tree, dirs, strict, now);
    hide Problems, Unreadable, Scanned, Troubled, WithFiles;
    if Conclude(tree, dirs, snapshot, strict, now).1 == Applied {
      forall p | p in tree && Scanned(dirs, p) ensures tree[p].readable && !Troubled(p, tree[p].bytes, strict, now) {
        assert p !in Unreadable(tree, dirs) && p !in Problems(tree, dirs, strict, now);
      }
    }
  }

  /**
   * After a success, strict or not, every CRL file of the directories parses and carries
   * nextUpdate (in strict mode one in the future), and the delivered files are in place.
   */
  lemma TrustLeavesSound(tree: Tree, stuck: set<Path>, l: Layout, items: Incoming, strict: bool, now: Time)
    requires SomethingIncoming(items) && ApplyTrust(tree, stuck, l, items, strict, now).1 == Applied
    ensures var after := ApplyTrust(tree, stuck, l, items, strict, now).0;
            && AllSound(after, Dirs(l), strict, now)
            && forall p, bytes :: Delivers(l, items, p, bytes) ==> p in after && after[p] == File(bytes, true)
  {
    AppliedIsDeliverable(tree, stuck, l, items, strict, now);
    TrustConcludes(tree, stuck, l, items, strict, now);
    WrittenAreDelivered(l, items);
    var w := Replaced(tree, stuck, Dirs(l), WrittenFiles(l, items));
    ConcludesSound(w, Dirs(l), Snapshot(tree, Dirs(l)), strict, now);
    hide ApplyTrust, Conclude, AllSound, WrittenFiles, Delivers, Dirs, Cleaned, Snapshot;
  }

  lemma TrustAppliedIsSound(tree: Tree, stuck: set<Path>, l: Layout, items: Incoming, strict: bool, now: Time)
    requires SomethingIncoming(items)
    ensures ApplyTrust(tree, stuck, l, items, strict, now).1 == Applied ==>
              AllSound(ApplyTrust(tree, stuck, l, items, strict, now).0, Dirs(l), strict, now)
  {
    hide ApplyTrust, AllSound, Dirs;
    if ApplyTrust(tree, stuck, l, items, strict, now).1 == Applied {
      TrustLeavesSound(tree, stuck, l, items, strict, now);
    }
  }

  lemma PackageAppliedIsSound(tree: Tree, stuck: set<Path>, crlPath: Path, trustedDir: string, text: Bytes,
                              strict: bool, now: Time)
    ensures ApplyPackage(tree, stuck, crlPath, trustedDir, text, strict, now).1 == Applied ==>
              AllSound(ApplyPackage(tree, stuck, crlPath, trustedDir, text, strict, now).0,
                       {crlPath.dir, trustedDir}, strict, now)
  {
    hide ApplyPackage, AllSound;
    if ApplyPackage(tree, stuck, crlPath, trustedDir, text, strict, now).1 == Applied {
      PackageAppliedIs(tree, stuck, crlPath, trustedDir, text, strict, now);
    }
  }

  lemma AppliedIsDeliverable(tree: Tree, stuck: set<Path>, l: Layout, items: Incoming, strict: bool, now: Time)
    requires SomethingIncoming(items) && ApplyTrust(tree, stuck, l, items, strict, now).1 == Applied
    ensures Deliverable(l, items)
  {
    hide Conclude, PutAlias, Put, Cleaned, Snapshot, Dirs;
  }

  lemma SoundIffFresh(crl: Crl, strict: bool, now: Time)
    ensures Fresh(crl, strict, now) <==> !Trouble(crl, strict, now)
  {
  }

  lemma SurvivesIffRemaining(l: Layout, stuck: set<Path>, items: Incoming)
    requires Deliverable(l, items)
    ensures forall p :: Survives(Dirs(l), stuck, WrittenFiles(l, items).Keys, p) <==>
              Scanned(Dirs(l), p) && Remaining(l, stuck, items, p)
  {
    WrittenAreDelivered(l, items);
    var w := WrittenFiles(l, items);
    forall p ensures Survives(Dirs(l), stuck, w.Keys, p) <==> Scanned(Dirs(l), p) && Remaining(l, stuck, items, p) {
      ScannedIff(Dirs(l), p);
      AliasByName(p);
      hide Controlled, CrlNamed, Alias, Ends, Dirs, Within, WrittenFiles, Writable;
      assert p in w <==> (p in w && Delivers(l, items, p, w[p]));
      if items.root.Some? { assert (p in w && w[p] == items.root.value.content)
          <==> Delivers(l, items, p, items.root.value.content); }
      if items.intermediate.Some? { assert (p in w && w[p] == items.intermediate.value.content)
          <==> Delivers(l, items, p, items.intermediate.value.content); }
    }
  }

  /** When the trust-only stage passes, stated on the CRLs that come in and the files that remain. */
  lemma TrustPassesIff(tree: Tree, stuck: set<Path>, l: Layout, items: Incoming, strict: bool, now: Time)
    requires Deliverable(l, items) && SomethingIncoming(items)
    ensures ApplyTrust(tree, stuck, l, items, strict, now).1 == Applied <==>
            && (items.root.Some? && (Receives(l, l.issuerDir) || Receives(l, l.trustedDir)) ==>
                  !Trouble(items.root.value.content.der, strict, now))
            && (items.intermediate.Some? ==> !Trouble(items.intermediate.value.content.der, strict, now))
            && forall p :: p in tree && Scanned(Dirs(l), p) && Remaining(l, stuck, items, p) ==>
                 tree[p].readable && !Troubled(p, tree[p].bytes, strict, now)
  {
    TrustApplySucceedsIff(tree, stuck, l, items, strict, now);
    SurvivesIffRemaining(l, stuck, items);
    if items.root.Some? { SoundIffFresh(items.root.value.content.der, strict, now); }
    if items.intermediate.Some? { SoundIffFresh(items.intermediate.value.content.der, strict, now); }
    forall p | p in tree
      ensures Fresh(CrlOf(p, tree[p].bytes), strict, now) <==> !Troubled(p, tree[p].bytes, strict, now)
    {
      TroubledIff(p, tree[p].bytes, strict, now);
    }
    hide ApplyTrust, Survives, Scanned, Remaining, Fresh, CrlOf, Troubled, Trouble, WrittenFiles, Dirs;
  }

  /** An expired CRL is delivered when the check is lenient, and not when it is strict. */
  lemma LenientAcceptsExpired(l: Layout, crl: Bytes, at: Time, now: Time)
    requires Writable(l, l.issuerDir) && Writable(l, l.trustedDir) && crl.der == NextUpdate(at) && at <= now
    ensures ApplyTrust(map[], {}, l, Incoming(None, Some(Decodes(crl))), false, now).1 == Applied
    ensures ApplyTrust(map[], {}, l, Incoming(None, Some(Decodes(crl))), true, now).1 == ValidationFailed
  {
    var items := Incoming(None, Some(Decodes(crl)));
    assert Deliverable(l, items);
    TrustPassesIff(map[], {}, l, items, false, now);
    hide ApplyTrust, Writable, Deliverable;
    StaleDeliveryLeavesAliases({}, l, items, true, now);
  }

  /** Lenient or strict, a foreign CRL file without nextUpdate fails the stage, whatever comes in. */
  lemma MissingNextUpdateFails(l: Layout, foreign: Bytes, items: Incoming, strict: bool, now: Time)
    requires Deliverable(l, items) && SomethingIncoming(items) && foreign.der == NoNextUpdate
    ensures ApplyTrust(map[Path(l.issuerDir, "x.crl") := File(foreign, true)], {}, l, items, strict, now).1
              == ValidationFailed
  {
    var p := Path(l.issuerDir, "x.crl");
    var tree := map[p := File(foreign, true)];
    ForeignName();
    EndsIff(p.name, ".crl");
    EndsIff(p.name, ".crl.b64");
    AliasByName(p);
    assert |p.name| == 5;
    assert !Fresh(CrlOf(p, foreign), strict, now);
    TrustApplySucceedsIff(tree, {}, l, items, strict, now);
    TrustReadFailsIff(tree, {}, l, items, strict, now);
    ForeignSurvives(l, {}, items, p);
    TrustOutcomes(tree, {}, l, items, strict, now);
    DirsAre(l);
    hide ApplyTrust, Deliverable, Controlled, CrlNamed, CrlOf, WrittenFiles, Dirs, Survives, IncomingFresh;
  }

  /** A deliverable delivery ends in one of three ways. */
  lemma TrustOutcomes(tree: Tree, stuck: set<Path>, l: Layout, items: Incoming, strict: bool, now: Time)
    requires Deliverable(l, items) && SomethingIncoming(items)
    ensures ApplyTrust(tree, stuck, l, items, strict, now).1 in {Applied, ReadFailed, ValidationFailed}
  {
    TrustConcludes(tree, stuck, l, items, strict, now);
    hide ApplyTrust, Deliverable;
  }

  // ---- the package stage ----

  /** After a success the package's three files are in place and every CRL file of its directories is sound. */
  lemma PackageLeavesSound(tree: Tree, stuck: set<Path>, crlPath: Path, trustedDir: string, text: Bytes, strict: bool,
                           now: Time)
    requires ApplyPackage(tree, stuck, crlPath, trustedDir, text, strict, now).1 == Applied
    ensures var after := ApplyPackage(tree, stuck, crlPath, trustedDir, text, strict, now).0;
            && text.base64.Decodes? && AllSound(after, {crlPath.dir, trustedDir}, strict, now)
            && (Path(trustedDir, "current.crl"), File(text.base64.content, true)) in after.Items
            && (crlPath.name == "current.crl.b64" ==>
                  && (crlPath, File(text, true)) in after.Items
                  && (Twin(crlPath), File(text.base64.content, true)) in after.Items)
  {
    PackageAppliedIs(tree, stuck, crlPath, trustedDir, text, strict, now);
    FilesAreIn(Cleaned(tree, {crlPath.dir, trustedDir}, stuck), PackageFiles(crlPath, trustedDir, text));
    PackageFilesInclude(crlPath, trustedDir, text);
    hide ApplyPackage, AllSound, WithFiles, Twin, PackageFiles, Cleaned;
  }

  lemma PackageFilesInclude(crlPath: Path, trustedDir: string, text: Bytes)
    requires text.base64.Decodes?
    ensures var files, content := PackageFiles(crlPath, trustedDir, text), text.base64.content;
            && Path(trustedDir, "current.crl") in files && files[Path(trustedDir, "current.crl")] == content
            && (crlPath.name == "current.crl.b64" ==>
                  && crlPath in files && files[crlPath] == text
                  && Twin(crlPath) in files && files[Twin(crlPath)] == content)
  {
    if crlPath.name == "current.crl.b64" {
      TwinIsWritten(crlPath);
      DefaultFileFacts(crlPath, trustedDir, text);
    }
    hide Twin, CrlOf, CrlNamed, Controlled, WithSuffix;
  }

  lemma PackageAppliedIs(tree: Tree, stuck: set<Path>, crlPath: Path, trustedDir: string, text: Bytes, strict: bool,
                         now: Time)
    requires ApplyPackage(tree, stuck, crlPath, trustedDir, text, strict, now).1 == Applied
    ensures text.base64.Decodes?
    ensures var after, dirs := ApplyPackage(tree, stuck, crlPath, trustedDir, text, strict, now).0,
                               {crlPath.dir, trustedDir};
            && after == WithFiles(Cleaned(tree, dirs, stuck), PackageFiles(crlPath, trustedDir, text))
            && AllSound(after, dirs, strict, now)
  {
    var dirs, files := {crlPath.dir, trustedDir}, PackageFiles(crlPath, trustedDir, text);
    PackageConcludes(tree, stuck, crlPath, trustedDir, text, strict, now);
    ConcludesSound(Replaced(tree, stuck, dirs, files), dirs, Snapshot(tree, dirs), strict, now);
    hide ApplyPackage, Conclude, PackageFiles, AllSound, Snapshot, Cleaned, WithFiles;
  }

  lemma FilesAreIn(tree: Tree, files: map<Path, Bytes>)
    ensures forall p :: p in files ==> (p, File(files[p], true)) in WithFiles(tree, files).Items
  {
  }

  /** When it passes, stated on the files it writes and those that remain. */
  lemma PackagePassesIff(tree: Tree, stuck: set<Path>, crlPath: Path, trustedDir: string, text: Bytes, strict: bool,
                         now: Time)
    requires text.base64.Decodes?
    ensures var dirs, files := {crlPath.dir, trustedDir}, PackageFiles(crlPath, trustedDir, text);
            ApplyPackage(tree, stuck, crlPath, trustedDir, text, strict, now).1 == Applied <==>
            && (forall p :: p in files && Scanned(dirs, p) ==> !Troubled(p, files[p], strict, now))
            && (forall p :: p in tree && Scanned(dirs, p) && !(Alias(p) && p !in stuck) && p !in files ==>
                  tree[p].readable && !Troubled(p, tree[p].bytes, strict, now))
  {
    var dirs, files := {crlPath.dir, trustedDir}, PackageFiles(crlPath, trustedDir, text);
    PackageApplySucceedsIff(tree, stuck, crlPath, trustedDir, text, strict, now);
    forall p ensures ScannedIn(dirs, p) <==> Scanned(dirs, p) { ScannedIff(dirs, p); }
    forall p: Path ensures Controlled(p.name) <==> Alias(p) { AliasByName(p); }
    forall p: Path, bytes ensures Fresh(CrlOf(p, bytes), strict, now) <==> !Troubled(p, bytes, strict, now) {
      TroubledIff(p, bytes, strict, now);
    }
    hide ApplyPackage, PackageFiles, Fresh, CrlOf, Troubled, Controlled, Alias, CrlNamed, Ends;
  }

  /** pathlib's rule: the last dot starts the suffix unless it is the first or the last character. */
  lemma WithSuffixIs(name: string, stem: string, extension: string, suffix: string)
    requires '.' !in extension
    ensures stem != "" && extension != "" && name == stem + "." + extension ==>
              WithSuffix(name, suffix) == stem + suffix
    ensures name == "." + extension || name == extension || (extension == "" && name == stem + ".") ==>
              WithSuffix(name, suffix) == name + suffix
  {
    LastDotIs(name, stem, extension);
    hide LastDot;
    if stem != "" && extension != "" && name == stem + "." + extension {
      assert name[..|stem|] == stem;
    }
  }

  lemma {:induction false} LastDotIs(name: string, stem: string, extension: string)
    requires '.' !in extension
    ensures name == stem + "." + extension ==> LastDot(name) == |stem|
    ensures name == "." + extension ==> LastDot(name) == 0
    ensures name == extension ==> LastDot(name) == -1
    ensures extension == "" && name == stem + "." ==> LastDot(name) == |stem|
    decreases |extension|
  {
    if extension != "" && |name| > 0 {
      var shorter := extension[..|extension| - 1];
      assert extension == shorter + [extension[|extension| - 1]];
      LastDotIs(name[..|name| - 1], stem, shorter);
      if name == stem + "." + extension { assert name[..|name| - 1] == stem + "." + shorter; }
      if name == "." + extension { assert name[..|name| - 1] == "." + shorter; }
    }
  }
}
