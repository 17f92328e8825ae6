/**
 * Certificate-package lineage: generations, supersedes links and the signed
 * manifest.  The issuer reads the newest package and inserts the next one in
 * two separate steps; only UNIQUE(application_id, profile_name, generation)
 * and UNIQUE(package_id) stand between concurrent issuers.
 */
module Lineage {
  import opened Common
  import opened Numbering
  import opened Artifacts
  import opened TrustTables
  import Lifecycle

  datatype LineKey = LineKey(applicationId: nat, profile: string)

  function KeyOf(p: Package): LineKey {
    LineKey(p.applicationId, p.profile)
  }

  function Generations(packages: seq<Package>): seq<(LineKey, int)> {
    seq(|packages|, i requires 0 <= i < |packages| => (KeyOf(packages[i]), packages[i].generation))
  }

  // ---- the manifest ----

  /** The part of a manifest that is hashed and signed: hash blanked, signature removed. */
  datatype Canonical = Canonical(packageId: string, generation: int, supersedesPackageId: Option<string>,
                                 supersedesGeneration: Option<int>, profile: string, content: string)
  datatype ManifestHash = Blank | ManifestSha256(canonical: Canonical)
  datatype ManifestSignature = ManifestSigned(keyFingerprint: string, canonical: Canonical)
  datatype Manifest = Manifest(packageId: string, generation: int, supersedesPackageId: Option<string>,
                               supersedesGeneration: Option<int>, profile: string, content: string,
                               manifestSha256: ManifestHash, signature: Option<ManifestSignature>)

  /** `canonical_package_manifest`. */
  function CanonicalManifest(m: Manifest): Canonical {
    Canonical(m.packageId, m.generation, m.supersedesPackageId, m.supersedesGeneration, m.profile, m.content)
  }

  /** `manifest_sha256`. */
  function HashOf(m: Manifest): ManifestHash {
    ManifestSha256(CanonicalManifest(m))
  }

  function FillHash(m: Manifest): Manifest {
    m.(manifestSha256 := HashOf(m))
  }

  /** What a recipient checks: the recorded hash, and the key's signature over the canonical form. */
  predicate ManifestVerifies(m: Manifest, s: ManifestSignature, anchor: string) {
    m.manifestSha256 == HashOf(m) && s == ManifestSigned(anchor, CanonicalManifest(m))
  }

  // ---- issuing ----

  /** What an issuer saw of the newest package of its line. */
  datatype Previous = Previous(packageId: string, generation: int)

  /** `get_latest_certificate_package_for_application`. */
  function LatestPackage(packages: seq<Package>, key: LineKey): Option<Previous> {
    match Latest(Generations(packages), key)
    case None => None
    case Some(i) => Some(Previous(packages[i].packageId, packages[i].generation))
  }

  datatype Order = Order(packageId: string, certificateId: nat, content: string, at: Time)

  function NextPackage(key: LineKey, seen: Option<Previous>, o: Order): Package {
    Package(o.packageId, key.applicationId, Some(o.certificateId),
            if seen.Some? then seen.value.generation + 1 else 1, key.profile,
            if seen.Some? then Some(seen.value.packageId) else None,
            if seen.Some? then Some(seen.value.generation) else None,
            "PACKAGED", ActivePackage, o.at)
  }

  function ManifestOf(p: Package, content: string): Manifest {
    FillHash(Manifest(p.packageId, p.generation, p.supersedesPackageId, p.supersedesGeneration, p.profile, content,
                      Blank, None))
  }

  predicate Conflicts(packages: seq<Package>, p: Package) {
    exists i :: 0 <= i < |packages| &&
      (|| packages[i].packageId == p.packageId
       || (KeyOf(packages[i]) == KeyOf(p) && packages[i].generation == p.generation))
  }

  /** The table with its manifest_json and signature columns alongside. */
  datatype Registry = Registry(packages: seq<Package>, manifests: seq<Manifest>, signatures: seq<ManifestSignature>)

  /** `insert_certificate_package`; None is the integrity error. */
  function InsertPackage(r: Registry, p: Package, m: Manifest, s: ManifestSignature): Option<Registry> {
    if Conflicts(r.packages, p) then None
    else Some(Registry(r.packages + [p], r.manifests + [m], r.signatures + [s]))
  }

  /** The second half of `issue_certificate_package`, from what the first half saw. */
  function InsertNext(r: Registry, key: LineKey, seen: Option<Previous>, o: Order, signer: string): Option<Registry> {
    var p := NextPackage(key, seen, o);
    var m := ManifestOf(p, o.content);
    InsertPackage(r, p, m, ManifestSigned(signer, CanonicalManifest(m)))
  }

  // ---- an issued package, stated on columns ----

  predicate OfLine(p: Package, key: LineKey) {
    p.applicationId == key.applicationId && p.profile == key.profile
  }

  /** Row `i` is of the line, and no row of the line has a greater generation. */
  predicate NewestOfLine(packages: seq<Package>, key: LineKey, i: nat) {
    && i < |packages| && OfLine(packages[i], key)
    && forall k :: 0 <= k < |packages| && OfLine(packages[k], key) ==> packages[k].generation <= packages[i].generation
  }

  predicate LineIsEmpty(packages: seq<Package>, key: LineKey) {
    forall k :: 0 <= k < |packages| ==> !OfLine(packages[k], key)
  }

  /** The package follows the newest of its line, or starts it. */
  ghost predicate Follows(packages: seq<Package>, key: LineKey, p: Package) {
    && OfLine(p, key)
    && (LineIsEmpty(packages, key) ==>
          p.generation == 1 && p.supersedesPackageId == None && p.supersedesGeneration == None)
    && (!LineIsEmpty(packages, key) ==>
          exists i: nat :: NewestOfLine(packages, key, i)
                      && p.generation == packages[i].generation + 1
                      && p.supersedesPackageId == Some(packages[i].packageId)
                      && p.supersedesGeneration == Some(packages[i].generation))
  }

  /** The row, its manifest and the signature carry what was ordered, and the hash and signature cover all of it. */
  predicate IssuedAs(p: Package, m: Manifest, s: ManifestSignature, o: Order, signer: string) {
    && p.packageId == o.packageId && p.certificateId == Some(o.certificateId) && p.createdAt == o.at
    && p.lifecycle == "PACKAGED" && p.status == ActivePackage
    && m.packageId == o.packageId && m.content == o.content && m.generation == p.generation && m.profile == p.profile
    && m.supersedesPackageId == p.supersedesPackageId && m.supersedesGeneration == p.supersedesGeneration
    && m.manifestSha256.ManifestSha256? && Covers(m.manifestSha256.canonical, m)
    && s.keyFingerprint == signer && Covers(s.canonical, m)
  }

  /** Field for field, but for the hash and the signature. */
  predicate Covers(c: Canonical, m: Manifest) {
    && c.packageId == m.packageId && c.generation == m.generation && c.profile == m.profile && c.content == m.content
    && c.supersedesPackageId == m.supersedesPackageId && c.supersedesGeneration == m.supersedesGeneration
  }

  /** A row has the id, or the line and the generation, already. */
  predicate Taken(packages: seq<Package>, p: Package) {
    exists i :: 0 <= i < |packages| &&
      (|| packages[i].packageId == p.packageId
       || (packages[i].applicationId == p.applicationId && packages[i].profile == p.profile
           && packages[i].generation == p.generation))
  }

  /** Exactly one row, following the newest, is added, or nothing changes because a row is in the way. */
  ghost predicate Issues(before: Registry, after: Registry, key: LineKey, o: Order, signer: string,
                         issued: Option<Package>)
  {
    match issued
    case None => after == before &&
                 exists p :: Follows(before.packages, key, p) && p.packageId == o.packageId && Taken(before.packages, p)
    case Some(p) =>
      && Follows(before.packages, key, p) && !Taken(before.packages, p)
      && after.packages == before.packages + [p]
      && |after.manifests| == |before.manifests| + 1 && before.manifests <= after.manifests
      && |after.signatures| == |before.signatures| + 1 && before.signatures <= after.signatures
      && IssuedAs(p, after.manifests[|before.manifests|], after.signatures[|before.signatures|], o, signer)
  }

  lemma NextFollows(packages: seq<Package>, key: LineKey, o: Order)
    ensures Follows(packages, key, NextPackage(key, LatestPackage(packages, key), o))
  {
    var rows := Generations(packages);
    LatestIsGreatest(rows, key);
    assert forall k :: 0 <= k < |packages| ==>
        rows[k] == (LineKey(packages[k].applicationId, packages[k].profile), packages[k].generation);
    if Latest(rows, key).Some? {
      assert NewestOfLine(packages, key, Latest(rows, key).value);
    }
  }

  lemma NextIssues(r: Registry, key: LineKey, o: Order, signer: string)
    ensures var p := NextPackage(key, LatestPackage(r.packages, key), o);
            var next := InsertNext(r, key, LatestPackage(r.packages, key), o, signer);
            if next.Some? then Issues(r, next.value, key, o, signer, Some(p)) else Issues(r, r, key, o, signer, None)
  {
    NextFollows(r.packages, key, o);
    hide Follows, LatestPackage;
    var p := NextPackage(key, LatestPackage(r.packages, key), o);
    assert Taken(r.packages, p) <==> Conflicts(r.packages, p);
  }

  class PackageTable {
    var packages: seq<Package>
    var manifests: seq<Manifest>
    var signatures: seq<ManifestSignature>

    function Contents(): Registry
      reads this
    {
      Registry(packages, manifests, signatures)
    }

    method InsertCertificatePackage(p: Package, m: Manifest, s: ManifestSignature) returns (stored: bool)
      modifies this
      ensures stored <==> InsertPackage(old(Contents()), p, m, s).Some?
      ensures stored <==> !Taken(old(packages), p)
      ensures Contents() == (if stored then InsertPackage(old(Contents()), p, m, s).value else old(Contents()))
    {
      var i := 0;
      while i < |packages|
        invariant 0 <= i <= |packages|
        invariant forall j :: 0 <= j < i ==>
          packages[j].packageId != p.packageId
              && !(KeyOf(packages[j]) == KeyOf(p) && packages[j].generation == p.generation)
      {
        if packages[i].packageId == p.packageId
           || (KeyOf(packages[i]) == KeyOf(p) && packages[i].generation == p.generation)
        {
          return false;
        }
        i := i + 1;
      }
      packages, manifests, signatures := packages + [p], manifests + [m], signatures + [s];
      stored := true;
    }

    /** Read the newest package, number and link the next, fill in and sign the manifest, insert. */
    method IssueCertificatePackage(key: LineKey, o: Order, signer: string) returns (issued: Option<Package>)
      modifies this
      ensures var next := InsertNext(old(Contents()), key, LatestPackage(old(packages), key), o, signer);
              && (issued.Some? <==> next.Some?)
              && Contents() == (if next.Some? then next.value else old(Contents()))
              && (issued.Some? ==> issued.value == NextPackage(key, LatestPackage(old(packages), key), o))
      ensures Issues(old(Contents()), Contents(), key, o, signer, issued)
    {
      NextIssues(Contents(), key, o, signer);
      hide Issues;
      var previous := LatestPackage(packages, key);
      var p := NextPackage(key, previous, o);
      var manifest := Manifest(p.packageId, p.generation, p.supersedesPackageId, p.supersedesGeneration, p.profile,
                               o.content, Blank, None);
      manifest := manifest.(manifestSha256 := HashOf(manifest));
      var stored := InsertCertificatePackage(p, manifest, ManifestSigned(signer, CanonicalManifest(manifest)));
      issued := if stored then Some(p) else None;
    }
  }

  // ---- concurrent issuers ----

  datatype Issuer = Issuer(key: LineKey, seen: Option<Previous>)
  datatype Desk = Desk(registry: Registry, issuers: map<nat, Issuer>)

  datatype Event =
    | ReadNewest(id: nat, key: LineKey)
    | InsertRow(id: nat, order: Order, signer: string)
    | ChangeState(row: nat, requested: string)

  function React(d: Desk, e: Event): Desk {
    match e
    case ReadNewest(id, key) => d.(issuers := d.issuers[id := Issuer(key, LatestPackage(d.registry.packages, key))])
    case InsertRow(id, order, signer) =>
      if id !in d.issuers then d
      else
        var next := InsertNext(d.registry, d.issuers[id].key, d.issuers[id].seen, order, signer);
        Desk(if next.Some? then next.value else d.registry, d.issuers - {id})
    case ChangeState(i, requested) =>
      if i < |d.registry.packages| && Lifecycle.UpdateLifecycle(d.registry.packages[i], requested).Updated? then
        var row := Lifecycle.UpdateLifecycle(d.registry.packages[i], requested).row;
        d.(registry := d.registry.(packages := d.registry.packages[i := row]))
      else d
  }

  function History(d: Desk, events: seq<Event>): Desk {
    if events == [] then d else React(History(d, events[..|events| - 1]), events[|events| - 1])
  }

  predicate IsPredecessor(packages: seq<Package>, i: nat, j: nat) {
    && i < |packages| && j < i
    && KeyOf(packages[j]) == KeyOf(packages[i])
    && packages[j].generation == packages[i].generation - 1
    && packages[i].supersedesPackageId == Some(packages[j].packageId)
    && packages[i].supersedesGeneration == Some(packages[j].generation)
  }

  /** A first generation supersedes nothing; every other names the package one generation before it. */
  ghost predicate Linked(packages: seq<Package>, i: nat)
    requires i < |packages|
  {
    if packages[i].generation == 1 then
      packages[i].supersedesPackageId == None && packages[i].supersedesGeneration == None
    else exists j: nat :: IsPredecessor(packages, i, j)
  }

  predicate DistinctIds(packages: seq<Package>) {
    forall i, j :: 0 <= i < j < |packages| ==> packages[i].packageId != packages[j].packageId
  }

  /** The stored manifest says what the row says, and verifies under its signature. */
  predicate ManifestAgrees(r: Registry, i: nat)
    requires i < |r.packages| == |r.manifests| == |r.signatures|
  {
    var p, m := r.packages[i], r.manifests[i];
    && m.packageId == p.packageId && m.generation == p.generation && m.profile == p.profile
    && m.supersedesPackageId == p.supersedesPackageId && m.supersedesGeneration == p.supersedesGeneration
    && ManifestVerifies(m, r.signatures[i], r.signatures[i].keyFingerprint)
  }

  ghost predicate RegistryInv(r: Registry) {
    && |r.packages| == |r.manifests| == |r.signatures|
    && Sequential(Generations(r.packages))
    && DistinctIds(r.packages)
    && (forall i :: 0 <= i < |r.packages| ==> Linked(r.packages, i))
    && (forall i :: 0 <= i < |r.packages| ==> ManifestAgrees(r, i))
  }

  predicate SawRow(packages: seq<Package>, key: LineKey, seen: Previous, i: nat) {
    i < |packages| && KeyOf(packages[i]) == key && packages[i].packageId == seen.packageId
        && packages[i].generation == seen.generation
  }

  ghost predicate DeskInv(d: Desk) {
    && RegistryInv(d.registry)
    && forall id :: id in d.issuers && d.issuers[id].seen.Some? ==>
         exists i: nat :: SawRow(d.registry.packages, d.issuers[id].key, d.issuers[id].seen.value, i)
  }

  /** The generation of an insert that the uniqueness rules let through is the next free one. */
  lemma InsertTakesNextNumber(packages: seq<Package>, key: LineKey, seen: Option<Previous>, o: Order)
    requires Sequential(Generations(packages)) && !Conflicts(packages, NextPackage(key, seen, o))
    requires seen.Some? ==> exists i: nat :: SawRow(packages, key, seen.value, i)
    ensures NextPackage(key, seen, o).generation == NextNumber(Generations(packages), key)
    ensures Sequential(Generations(packages + [NextPackage(key, seen, o)]))
  {
    var p := NextPackage(key, seen, o);
    var rows := Generations(packages);
    MaxIsCount(rows, key);
    SeenGenerationPositive(packages, key, seen);
    if CountOf(rows, key) >= p.generation {
      NumberIsFree(packages, p);
      NumberOccurs(rows, key, p.generation);
      assert false;
    }
    if seen.Some? {
      var i: nat :| SawRow(packages, key, seen.value, i);
      assert rows[i] == (key, seen.value.generation);
      RowsUpToLatest(rows, i);
    }
    assert Generations(packages + [p]) == rows + [(key, p.generation)];
    AppendSequentialIff(rows, (key, p.generation));
  }

  lemma InsertLinks(packages: seq<Package>, key: LineKey, seen: Option<Previous>, o: Order)
    requires Sequential(Generations(packages)) && forall i :: 0 <= i < |packages| ==> Linked(packages, i)
    requires seen.Some? ==> exists i: nat :: SawRow(packages, key, seen.value, i)
    ensures var q := packages + [NextPackage(key, seen, o)]; forall i :: 0 <= i < |q| ==> Linked(q, i)
  {
    var p := NextPackage(key, seen, o);
    SeenGenerationPositive(packages, key, seen);
    if seen.Some? {
      SeenIsPredecessor(packages, key, seen.value, o);
    }
    forall i | 0 <= i < |packages| ensures Linked(packages + [p], i) {
      LinkedAppend(packages, p, i);
    }
    assert Linked(packages + [p], |packages|);
  }

  /** An insert that the uniqueness rules let through continues the line: MAX + 1, linked to MAX. */
  lemma InsertContinuesLine(r: Registry, key: LineKey, seen: Option<Previous>, o: Order, signer: string)
    requires RegistryInv(r) && InsertNext(r, key, seen, o, signer).Some?
    requires seen.Some? ==> exists i: nat :: SawRow(r.packages, key, seen.value, i)
    ensures RegistryInv(InsertNext(r, key, seen, o, signer).value)
    ensures NextPackage(key, seen, o).generation == NextNumber(Generations(r.packages), key)
  {
    hide Linked, Sequential, CountOf, MaxNumber, SawRow, NextPackage, NextNumber;
    InsertTakesNextNumber(r.packages, key, seen, o);
    InsertLinks(r.packages, key, seen, o);
    var q := InsertNext(r, key, seen, o, signer).value;
    forall i | 0 <= i < |r.packages| ensures ManifestAgrees(q, i) {
      assert ManifestAgrees(r, i);
    }
  }

  lemma NumberIsFree(packages: seq<Package>, p: Package)
    requires !Conflicts(packages, p)
    ensures (KeyOf(p), p.generation) !in Generations(packages)
  {
  }

  lemma SeenGenerationPositive(packages: seq<Package>, key: LineKey, seen: Option<Previous>)
    requires Sequential(Generations(packages))
    requires seen.Some? ==> exists i: nat :: SawRow(packages, key, seen.value, i)
    ensures seen.Some? ==> seen.value.generation >= 1
  {
    if seen.Some? {
      var i: nat :| SawRow(packages, key, seen.value, i);
      assert Generations(packages)[i] == (key, seen.value.generation);
      RowsUpToLatest(Generations(packages), i);
    }
  }

  /** The package read first is the predecessor of the one inserted after it. */
  lemma SeenIsPredecessor(packages: seq<Package>, key: LineKey, seen: Previous, o: Order)
    requires Sequential(Generations(packages))
    requires exists i: nat :: SawRow(packages, key, seen, i)
    ensures exists i: nat :: IsPredecessor(packages + [NextPackage(key, Some(seen), o)], |packages|, i)
  {
    var i: nat :| SawRow(packages, key, seen, i);
    assert IsPredecessor(packages + [NextPackage(key, Some(seen), o)], |packages|, i);
  }

  lemma LinkedAppend(packages: seq<Package>, p: Package, i: nat)
    requires i < |packages| && Linked(packages, i)
    ensures Linked(packages + [p], i)
  {
    if packages[i].generation != 1 {
      var j: nat :| IsPredecessor(packages, i, j);
      assert IsPredecessor(packages + [p], i, j);
    }
  }

  lemma StateChangeKeepsLines(r: Registry, i: nat, row: Package)
    requires RegistryInv(r) && i < |r.packages|
    requires row == r.packages[i].(lifecycle := row.lifecycle, status := row.status)
    ensures RegistryInv(r.(packages := r.packages[i := row]))
  {
    var q := r.(packages := r.packages[i := row]);
    assert Generations(q.packages) == Generations(r.packages);
    forall k | 0 <= k < |q.packages| ensures Linked(q.packages, k) && ManifestAgrees(q, k) {
      assert ManifestAgrees(r, k) && Linked(r.packages, k);
      if q.packages[k].generation != 1 {
        var j: nat :| IsPredecessor(r.packages, k, j);
        assert IsPredecessor(q.packages, k, j);
      }
    }
  }

  lemma EventKeepsInv(d: Desk, e: Event)
    requires DeskInv(d)
    ensures DeskInv(React(d, e))
  {
    hide RegistryInv, NextPackage, ManifestOf, Latest;
    var u := React(d, e);
    match e
    case ReadNewest(id, key) => NewestWasSeen(d.registry.packages, key);
    case InsertRow(id, order, signer) =>
      if id in d.issuers && InsertNext(d.registry, d.issuers[id].key, d.issuers[id].seen, order, signer).Some? {
        InsertContinuesLine(d.registry, d.issuers[id].key, d.issuers[id].seen, order, signer);
        SightingsSurvive(d, u);
      }
    case ChangeState(i, requested) =>
      if i < |d.registry.packages| && Lifecycle.UpdateLifecycle(d.registry.packages[i], requested).Updated? {
        StateChangeKeepsLines(d.registry, i, Lifecycle.UpdateLifecycle(d.registry.packages[i], requested).row);
        SightingsSurvive(d, u);
      }
  }

  lemma NewestWasSeen(packages: seq<Package>, key: LineKey)
    ensures LatestPackage(packages, key).Some? ==>
              exists i: nat :: SawRow(packages, key, LatestPackage(packages, key).value, i)
  {
    var l := Latest(Generations(packages), key);
    if l.Some? {
      assert SawRow(packages, key, LatestPackage(packages, key).value, l.value);
    }
  }

  lemma SightingsSurvive(d: Desk, u: Desk)
    requires DeskInv(d)
    requires forall id :: id in u.issuers ==> id in d.issuers && u.issuers[id] == d.issuers[id]
    requires |d.registry.packages| <= |u.registry.packages|
    requires forall i :: 0 <= i < |d.registry.packages| ==>
               && KeyOf(u.registry.packages[i]) == KeyOf(d.registry.packages[i])
               && u.registry.packages[i].packageId == d.registry.packages[i].packageId
               && u.registry.packages[i].generation == d.registry.packages[i].generation
    ensures forall id :: id in u.issuers && u.issuers[id].seen.Some? ==>
              exists i: nat :: SawRow(u.registry.packages, u.issuers[id].key, u.issuers[id].seen.value, i)
  {
    forall id | id in u.issuers && u.issuers[id].seen.Some?
      ensures exists i: nat :: SawRow(u.registry.packages, u.issuers[id].key, u.issuers[id].seen.value, i)
    {
      var i: nat :| SawRow(d.registry.packages, d.issuers[id].key, d.issuers[id].seen.value, i);
      assert SawRow(u.registry.packages, u.issuers[id].key, u.issuers[id].seen.value, i);
    }
  }

  /** What the issuer read is still the newest package of its line. */
  ghost predicate SawNewest(packages: seq<Package>, i: Issuer) {
    if i.seen.None? then LineIsEmpty(packages, i.key)
    else exists k: nat :: NewestOfLine(packages, i.key, k) && packages[k].packageId == i.seen.value.packageId
  }

  /** The newest package, as the query finds it, is the one seen. */
  lemma SawNewestIff(packages: seq<Package>, i: Issuer)
    requires Sequential(Generations(packages)) && DistinctIds(packages)
    requires i.seen.Some? ==> exists k: nat :: SawRow(packages, i.key, i.seen.value, k)
    ensures SawNewest(packages, i)
            <==> (if i.seen.Some? then i.seen.value.generation else 0) == CountOf(Generations(packages), i.key)
  {
    var rows := Generations(packages);
    forall k | 0 <= k < |packages| ensures OfLine(packages[k], i.key) <==> rows[k].0 == i.key {
    }
    forall k | 0 <= k < |rows| && rows[k].0 == i.key ensures 1 <= rows[k].1 <= CountOf(rows, i.key) {
      RowsUpToLatest(rows, k);
    }
    if CountOf(rows, i.key) > 0 {
      NumberOccurs(rows, i.key, CountOf(rows, i.key));
      var k :| 0 <= k < |rows| && rows[k] == (i.key, CountOf(rows, i.key));
      assert NewestOfLine(packages, i.key, k);
    }
  }

  /**
   * Of the issuers of a line exactly those succeed whose package id is new and who read
   * the package that is still the newest; whoever lost the race adds nothing.
   */
  lemma InsertSucceedsIff(d: Desk, id: nat, o: Order, signer: string)
    requires DeskInv(d) && id in d.issuers
    ensures var u := React(d, InsertRow(id, o, signer));
            && u.issuers == d.issuers - {id}
            && (u.registry == d.registry || |u.registry.packages| == |d.registry.packages| + 1)
            && (u.registry != d.registry <==>
                  && (forall k :: 0 <= k < |d.registry.packages| ==> d.registry.packages[k].packageId != o.packageId)
                  && SawNewest(d.registry.packages, d.issuers[id]))
  {
    var i, packages := d.issuers[id], d.registry.packages;
    SawNewestIff(packages, i);
    var p := NextPackage(i.key, i.seen, o);
    hide Sequential, CountOf, MaxNumber, Linked, ManifestAgrees, SawNewest, SawRow;
    MaxIsCount(Generations(packages), i.key);
    if InsertNext(d.registry, i.key, i.seen, o, signer).Some? {
      InsertContinuesLine(d.registry, i.key, i.seen, o, signer);
    } else if SawNewest(packages, i) {
      var k :| 0 <= k < |packages| && (packages[k].packageId == p.packageId
                                       || (KeyOf(packages[k]) == KeyOf(p) && packages[k].generation == p.generation));
      assert Generations(packages)[k] == (KeyOf(packages[k]), packages[k].generation);
      RowsUpToLatest(Generations(packages), k);
    }
  }

  /** An issuer whose two steps run back to back issues as the atomic operation does. */
  lemma IssueIsReadThenInsert(d: Desk, id: nat, key: LineKey, o: Order, signer: string)
    ensures var u := React(React(d, ReadNewest(id, key)), InsertRow(id, o, signer));
            && u.issuers == d.issuers - {id}
            && exists issued :: Issues(d.registry, u.registry, key, o, signer, issued)
  {
    NextIssues(d.registry, key, o, signer);
    hide Issues, LatestPackage;
  }

  /** Under every interleaving of issuers and lifecycle updates the lines stay well formed. */
  lemma {:induction false} HistoryKeepsInv(d: Desk, events: seq<Event>)
    requires DeskInv(d)
    ensures DeskInv(History(d, events))
  {
    if events != [] {
      HistoryKeepsInv(d, events[..|events| - 1]);
      EventKeepsInv(History(d, events[..|events| - 1]), events[|events| - 1]);
    }
  }

  const EMPTY_DESK := Desk(Registry([], [], []), map[])

  /** Hence, from an empty table: per (application, profile) the generations are exactly 1..n, each once. */
  lemma GenerationsAreGapless(events: seq<Event>, key: LineKey, generation: int)
    ensures var rows := Generations(History(EMPTY_DESK, events).registry.packages);
            && (1 <= generation <= CountOf(rows, key) <==> (key, generation) in rows)
            && forall i, j :: 0 <= i < |rows| && 0 <= j < |rows| && rows[i] == rows[j] ==> i == j
  {
    assert Generations([]) == [];
    HistoryKeepsInv(EMPTY_DESK, events);
    Gapless(Generations(History(EMPTY_DESK, events).registry.packages), key, generation);
  }

  // ---- following the links ----

  function IndexOfPackage(packages: seq<Package>, id: string): (r: Option<nat>)
    ensures r.Some? ==> r.value < |packages| && packages[r.value].packageId == id
  {
    if packages == [] then None
    else if packages[|packages| - 1].packageId == id then Some(|packages| - 1)
    else IndexOfPackage(packages[..|packages| - 1], id)
  }

  lemma {:induction false} IndexFindsPackage(packages: seq<Package>, i: nat)
    requires i < |packages| && DistinctIds(packages)
    ensures IndexOfPackage(packages, packages[i].packageId) == Some(i)
  {
    if i < |packages| - 1 {
      var init := packages[..|packages| - 1];
      assert init[i] == packages[i];
      IndexFindsPackage(init, i);
    }
  }

  /** Follow supersedes_package_id for at most `steps` links; the ids passed, newest first. */
  function Ancestry(packages: seq<Package>, i: nat, steps: nat): seq<nat>
    requires i < |packages|
    decreases steps
  {
    if steps == 0 || packages[i].supersedesPackageId.None? then [i]
    else
      match IndexOfPackage(packages, packages[i].supersedesPackageId.value)
      case None => [i]
      case Some(j) => [i] + Ancestry(packages, j, steps - 1)
  }

  /**
   * From any package the links lead down one generation at a time, within the
   * same line, and end at generation 1 after exactly `generation - 1` links,
   * however many links one is prepared to follow.
   */
  lemma {:induction false} LinksEndAtFirstGeneration(r: Registry, i: nat, steps: nat)
    requires RegistryInv(r) && i < |r.packages|
    requires steps >= r.packages[i].generation
    ensures var chain := Ancestry(r.packages, i, steps);
            && |chain| == r.packages[i].generation
            && (forall k :: 0 <= k < |chain| ==>
                  && chain[k] < |r.packages|
                  && KeyOf(r.packages[chain[k]]) == KeyOf(r.packages[i])
                  && r.packages[chain[k]].generation == r.packages[i].generation - k)
    decreases steps
  {
    var p := r.packages[i];
    assert Generations(r.packages)[i] == (KeyOf(p), p.generation);
    RowsUpToLatest(Generations(r.packages), i);
    assert Linked(r.packages, i);
    if p.generation > 1 {
      var j: nat :| IsPredecessor(r.packages, i, j);
      IndexFindsPackage(r.packages, j);
      LinksEndAtFirstGeneration(r, j, steps - 1);
      var rest := Ancestry(r.packages, j, steps - 1);
      var chain := Ancestry(r.packages, i, steps);
      assert chain == [i] + rest;
      forall k | 0 <= k < |chain|
        ensures chain[k] < |r.packages| && KeyOf(r.packages[chain[k]]) == KeyOf(p)
                && r.packages[chain[k]].generation == p.generation - k
      {
        if k > 0 { assert chain[k] == rest[k - 1]; }
      }
    }
  }

  // ---- manifest integrity ----

  /** A signature fits one manifest only: no field can be changed, not even the hash the signature leaves out. */
  lemma SignatureFixesManifest(m: Manifest, n: Manifest, s: ManifestSignature, anchor: string)
    requires ManifestVerifies(m, s, anchor) && ManifestVerifies(n, s, anchor)
    ensures n.(signature := None) == m.(signature := None)
  {
  }
}
