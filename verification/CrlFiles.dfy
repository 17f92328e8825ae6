/**
 * CRL files on disk and the helpers both apply paths share: snapshot, alias
 * clean-up, validation, restore.  A file's bytes carry what the DER parser and
 * the base64 decoder make of them.
 */
module CrlFiles {
  import opened Common
  import opened Artifacts

  /** A CRL as RFC 5280 section 5.1.2.5 matters here: unreadable as DER, without nextUpdate, or with one. */
  datatype Crl = Unparseable | NoNextUpdate | NextUpdate(at: Time)
  datatype Base64 = NotBase64 | Decodes(content: Bytes)
  datatype Bytes = Bytes(id: nat, der: Crl, base64: Base64)

  datatype Path = Path(dir: string, name: string)
  datatype File = File(bytes: Bytes, readable: bool)
  type Tree = map<Path, File>

  /** Files the server scans: `.crl` and `.crl.b64`, in any case. */
  predicate CrlNamed(name: string) {
    EndsWith(Lower(name), ".crl") || EndsWith(Lower(name), ".crl.b64")
  }

  const CONTROLLED: set<string> := {
    "vault_intermediate.crl", "vault_intermediate.crl.b64", "root_ca.crl", "root_ca.crl.b64",
    "current.crl", "current.crl.b64"}

  /** The aliases only the GDS writes. */
  predicate Controlled(name: string) {
    Lower(name) in CONTROLLED
  }

  predicate ControlledIn(dirs: set<string>, p: Path) {
    p.dir in dirs && Controlled(p.name)
  }

  predicate ScannedIn(dirs: set<string>, p: Path) {
    p.dir in dirs && CrlNamed(p.name)
  }

  // ---- what the helpers compute ----

  function Snapshot(tree: Tree, dirs: set<string>): map<Path, Bytes> {
    map p | p in tree && ScannedIn(dirs, p) && tree[p].readable :: tree[p].bytes
  }

  /** An alias the clean-up deletes: the file system refuses to unlink those in `stuck`, which is only logged. */
  predicate Removed(dirs: set<string>, stuck: set<Path>, p: Path) {
    ControlledIn(dirs, p) && p !in stuck
  }

  function Cleaned(tree: Tree, dirs: set<string>, stuck: set<Path>): Tree {
    map p | p in tree && !Removed(dirs, stuck, p) :: tree[p]
  }

  /** The tree with these files written over it: a restore is this with a snapshot. */
  function WithFiles(tree: Tree, files: map<Path, Bytes>): Tree {
    tree + map p | p in files :: File(files[p], true)
  }

  lemma WithFilesTwice(tree: Tree, first: map<Path, Bytes>, second: map<Path, Bytes>)
    ensures WithFiles(WithFiles(tree, first), second) == WithFiles(tree, first + second)
  {
    var a, b := WithFiles(WithFiles(tree, first), second), WithFiles(tree, first + second);
    forall q ensures (q in a <==> q in b) && (q in a ==> a[q] == b[q]) {
      assert q in first + second <==> q in first || q in second;
    }
  }

  /** `_parse_crl_file`. */
  function CrlOf(p: Path, bytes: Bytes): Crl {
    if EndsWith(Lower(p.name), ".crl.b64") then
      match bytes.base64
      case NotBase64 => Unparseable
      case Decodes(content) => content.der
    else bytes.der
  }

  predicate Fresh(crl: Crl, strict: bool, now: Time) {
    crl.NextUpdate? && (strict ==> crl.at > now)
  }

  function Problems(tree: Tree, dirs: set<string>, strict: bool, now: Time): set<Path> {
    set p | p in tree && ScannedIn(dirs, p) && !Fresh(CrlOf(p, tree[p].bytes), strict, now)
  }

  function Unreadable(tree: Tree, dirs: set<string>): set<Path> {
    set p | p in tree && ScannedIn(dirs, p) && !tree[p].readable
  }

  function Put(tree: Tree, p: Path, bytes: Bytes): Tree {
    tree[p := File(bytes, true)]
  }

  lemma RestoreOne(tree: Tree, rest: map<Path, Bytes>, p: Path)
    requires p in rest
    ensures WithFiles(Put(tree, p, rest[p]), rest - {p}) == WithFiles(tree, rest)
  {
    var a, b := WithFiles(Put(tree, p, rest[p]), rest - {p}), WithFiles(tree, rest);
    forall q ensures (q in a <==> q in b) && (q in a ==> a[q] == b[q]) {
      assert q in rest - {p} <==> q in rest && q != p;
    }
  }

  lemma ControlledIsScanned(name: string)
    requires Controlled(name)
    ensures CrlNamed(name)
  {
  }

  // ---- names and freshness, stated on the text and the parsed CRL ----

  /** The name is this stem and this ending, in any case. */
  predicate Named(name: string, stem: string, ending: string) {
    Lower(name) == stem + ending
  }

  ghost predicate Ends(name: string, ending: string) {
    exists stem :: Named(name, stem, ending)
  }

  lemma EndsIff(name: string, ending: string)
    ensures EndsWith(Lower(name), ending) <==> Ends(name, ending)
  {
    if EndsWith(Lower(name), ending) {
      var stem := Lower(name)[..|name| - |ending|];
      assert Lower(name) == stem + ending;
      assert Named(name, stem, ending);
    }
    if stem :| Named(name, stem, ending) {
      assert Lower(name)[|name| - |ending|..] == ending;
    }
  }

  /** A file in one of the directories whose name ends in .crl or .crl.b64. */
  ghost predicate Scanned(dirs: set<string>, p: Path) {
    p.dir in dirs && (Ends(p.name, ".crl") || Ends(p.name, ".crl.b64"))
  }

  /** One of the three names only the GDS writes, with one of the two endings. */
  predicate Alias(p: Path) {
    exists stem | stem in {"root_ca", "vault_intermediate", "current"} ::
      Named(p.name, stem, ".crl") || Named(p.name, stem, ".crl.b64")
  }

  /** What the file says as a CRL. */
  ghost predicate Says(p: Path, bytes: Bytes, crl: Crl) {
    if !Ends(p.name, ".crl.b64") then crl == bytes.der
    else if bytes.base64 == NotBase64 then crl == Unparseable
    else crl == bytes.base64.content.der
  }

  /** It does not parse, has no nextUpdate or, in strict mode, one that has come. */
  predicate Trouble(crl: Crl, strict: bool, now: Time) {
    match crl
    case Unparseable => true
    case NoNextUpdate => true
    case NextUpdate(at) => strict && at <= now
  }

  ghost predicate Troubled(p: Path, bytes: Bytes, strict: bool, now: Time) {
    exists crl :: Says(p, bytes, crl) && Trouble(crl, strict, now)
  }

  lemma ScannedIff(dirs: set<string>, p: Path)
    ensures ScannedIn(dirs, p) <==> Scanned(dirs, p)
  {
    EndsIff(p.name, ".crl");
    EndsIff(p.name, ".crl.b64");
    hide Ends, EndsWith, Lower;
  }

  lemma ControlledNames()
    ensures "root_ca" + ".crl" == "root_ca.crl" && "root_ca" + ".crl.b64" == "root_ca.crl.b64"
    ensures "current" + ".crl" == "current.crl" && "current" + ".crl.b64" == "current.crl.b64"
    ensures "vault_intermediate" + ".crl" == "vault_intermediate.crl"
    ensures "vault_intermediate" + ".crl.b64" == "vault_intermediate.crl.b64"
  {
  }

  lemma AliasByName(p: Path)
    ensures Controlled(p.name) <==> Alias(p)
  {
    ControlledNames();
    hide Lower;
    var name := Lower(p.name);
    if Controlled(p.name) {
      assert Named(p.name, "root_ca", ".crl") || Named(p.name, "root_ca", ".crl.b64")
        || Named(p.name, "current", ".crl") || Named(p.name, "current", ".crl.b64")
        || Named(p.name, "vault_intermediate", ".crl") || Named(p.name, "vault_intermediate", ".crl.b64");
    }
    if Alias(p) {
      var stem :| stem in {"root_ca", "vault_intermediate", "current"}
        && (Named(p.name, stem, ".crl") || Named(p.name, stem, ".crl.b64"));
      assert name == stem + ".crl" || name == stem + ".crl.b64";
    }
  }

  lemma TroubledIff(p: Path, bytes: Bytes, strict: bool, now: Time)
    ensures Fresh(CrlOf(p, bytes), strict, now) <==> !Troubled(p, bytes, strict, now)
  {
    EndsIff(p.name, ".crl.b64");
    hide Ends, EndsWith, Lower;
    assert Says(p, bytes, CrlOf(p, bytes));
  }

  /** The problems, stated on names and CRLs. */
  lemma ProblemsAre(tree: Tree, dirs: set<string>, strict: bool, now: Time)
    ensures forall p :: p in Problems(tree, dirs, strict, now) <==>
              p in tree && Scanned(dirs, p) && Troubled(p, tree[p].bytes, strict, now)
    ensures forall p :: p in Unreadable(tree, dirs) <==> p in tree && Scanned(dirs, p) && !tree[p].readable
  {
    forall p ensures ScannedIn(dirs, p) <==> Scanned(dirs, p) {
      ScannedIff(dirs, p);
    }
    forall p | p in tree
      ensures Fresh(CrlOf(p, tree[p].bytes), strict, now) <==> !Troubled(p, tree[p].bytes, strict, now)
    {
      TroubledIff(p, tree[p].bytes, strict, now);
    }
    hide ScannedIn, Scanned, Fresh, CrlOf, Troubled;
  }

  /** Each of the six names, in any case, is deleted by the clean-up if the file system lets it. */
  lemma AliasesAreRemoved(tree: Tree, dirs: set<string>, stuck: set<Path>)
    ensures forall p: Path :: p in Cleaned(tree, dirs, stuck) <==>
              p in tree && !(p.dir in dirs && Alias(p) && p !in stuck)
  {
    forall p: Path ensures Controlled(p.name) <==> Alias(p) {
      AliasByName(p);
    }
    hide Controlled, Alias;
  }

  // ---- the helpers themselves ----

  class Disk {
    var tree: Tree
    /** The files that cannot be unlinked, for instance because their directory is read-only. */
    const stuck: set<Path>

    constructor (tree: Tree, stuck: set<Path>)
      ensures this.tree == tree && this.stuck == stuck
    {
      this.tree, this.stuck := tree, stuck;
    }

    method SnapshotCrlDirs(dirs: set<string>) returns (snapshot: map<Path, Bytes>)
      ensures snapshot == Snapshot(tree, dirs)
    {
      snapshot := map[];
      var todo := set p | p in tree && ScannedIn(dirs, p);
      while todo != {}
        invariant forall p :: p in todo ==> p in tree && ScannedIn(dirs, p)
        invariant snapshot == map p | p in Snapshot(tree, dirs) && p !in todo :: tree[p].bytes
        decreases |todo|
      {
        var p :| p in todo;
        if tree[p].readable {
          snapshot := snapshot[p := tree[p].bytes];
        }
        todo := todo - {p};
      }
    }

    method RemoveStaleAliases(dirs: set<string>) returns (deleted: set<Path>)
      modifies this
      ensures tree == Cleaned(old(tree), dirs, stuck)
      ensures deleted == set p | p in old(tree) && Removed(dirs, stuck, p)
      ensures forall p: Path :: p in tree <==> p in old(tree) && !(p.dir in dirs && Alias(p) && p !in stuck)
    {
      AliasesAreRemoved(tree, dirs, stuck);
      hide Controlled, CrlNamed, Alias;
      deleted := {};
      var todo := set p | p in tree && ControlledIn(dirs, p);
      while todo != {}
        invariant forall p :: p in todo ==> p in old(tree) && ControlledIn(dirs, p)
        invariant deleted == set p | p in old(tree) && Removed(dirs, stuck, p) && p !in todo
        invariant tree == map p | p in old(tree) && (Removed(dirs, stuck, p) ==> p in todo) :: old(tree)[p]
        decreases |todo|
      {
        var p :| p in todo;
        if p !in stuck {
          tree := tree - {p};
          deleted := deleted + {p};
        }
        todo := todo - {p};
      }
    }

    method RestoreSnapshot(snapshot: map<Path, Bytes>)
      modifies this
      ensures tree == WithFiles(old(tree), snapshot)
    {
      var rest := snapshot;
      while rest != map[]
        invariant rest.Keys <= snapshot.Keys && forall p :: p in rest ==> rest[p] == snapshot[p]
        invariant WithFiles(tree, rest) == WithFiles(old(tree), snapshot)
        decreases rest.Keys
      {
        var p :| p in rest;
        RestoreOne(tree, rest, p);
        tree := Put(tree, p, rest[p]);
        rest := rest - {p};
      }
      assert WithFiles(tree, map[]) == tree;
    }

    /** A file that cannot be read raises out of the scan; everything else becomes a problem entry. */
    method ValidateCrlDirs(dirs: set<string>, strict: bool, now: Time) returns (raised: bool, problems: set<Path>)
      ensures raised <==> Unreadable(tree, dirs) != {}
      ensures !raised ==> problems == Problems(tree, dirs, strict, now)
      ensures raised <==> exists p :: p in tree && Scanned(dirs, p) && !tree[p].readable
      ensures !raised ==> forall p :: p in problems <==>
                p in tree && Scanned(dirs, p) && Troubled(p, tree[p].bytes, strict, now)
    {
      ProblemsAre(tree, dirs, strict, now);
      hide CrlNamed, CrlOf, Fresh, Scanned, Troubled;
      problems := {};
      var todo := set p | p in tree && ScannedIn(dirs, p);
      while todo != {}
        invariant forall p :: p in todo ==> p in tree && ScannedIn(dirs, p)
        invariant forall p :: p in tree && ScannedIn(dirs, p) && p !in todo ==> tree[p].readable
        invariant problems == set p | p in Problems(tree, dirs, strict, now) && p !in todo
        decreases |todo|
      {
        var p :| p in todo;
        if !tree[p].readable {
          assert p in Unreadable(tree, dirs);
          return true, problems;
        }
        if !Fresh(CrlOf(p, tree[p].bytes), strict, now) {
          problems := problems + {p};
        }
        todo := todo - {p};
      }
      raised := false;
    }

    method AtomicWrite(p: Path, bytes: Bytes)
      modifies this
      ensures tree == Put(old(tree), p, bytes)
    {
      tree := Put(tree, p, bytes);
    }
  }
}
