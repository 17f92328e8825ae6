/**
 * The GDS tables and the queries behind trust lists: which certificate stands
 * for an application, who belongs on a consumer's list, when a new version is
 * published.  A row's id is its position in its table.
 */
module TrustTables {
  import opened Common
  import opened Numbering
  import opened Artifacts

  datatype Application = Application(uri: string, commonName: string, zone: string, role: string,
                                     componentType: string, status: string)
  datatype CertStatus = Active | Revoked | Expired
  datatype Certificate = Certificate(applicationId: nat, fingerprint: string, pem: Pem, status: CertStatus,
                                     createdAt: Time, notBefore: Option<Time>, notAfter: Option<Time>,
                                     revokedAt: Option<Time>)
  datatype PackageStatus = ActivePackage | RevokedPackage
  datatype Package = Package(packageId: string, applicationId: nat, certificateId: Option<nat>, generation: int,
                             profile: string, supersedesPackageId: Option<string>, supersedesGeneration: Option<int>,
                             lifecycle: string, status: PackageStatus, createdAt: Time)
  datatype TrustList = TrustList(target: Target, version: int, members: seq<int>)

  datatype Tables = Tables(apps: seq<Application>, certs: seq<Certificate>, packages: seq<Package>,
                           lists: seq<TrustList>, artifacts: seq<ArtifactRow>)

  // ---- who may be on a list ----

  /** `_trustlist_application_filter`: the OT servers trust two other roles; everyone else its own. */
  predicate AppMatches(app: Application, target: Target) {
    if target == Target("OT", "server") then
      || (app.zone == "DMZ" && app.role == "southbound-client")
      || (app.zone == "OT" && app.role == "scada-client")
    else
      app.zone == target.zone && app.role == target.role
  }

  predicate Authorised(t: Tables, app: nat, target: Target) {
    app < |t.apps| && t.apps[app].status == "active" && AppMatches(t.apps[app], target)
  }

  predicate CertUsable(t: Tables, id: nat) {
    id < |t.certs| && t.certs[id].status.Active? && t.certs[id].revokedAt.None?
  }

  // ---- the certificate that stands for an application ----

  predicate PackageQualifies(t: Tables, app: nat, p: nat) {
    p < |t.packages| &&
    (var k := t.packages[p];
     k.applicationId == app && k.lifecycle == "ACTIVATED" && k.status.ActivePackage?
     && k.certificateId.Some? && CertUsable(t, k.certificateId.value))
  }

  /** ORDER BY created_at DESC, generation DESC, certificate id DESC: p comes strictly before q. */
  predicate PackageBefore(t: Tables, p: nat, q: nat)
    requires p < |t.packages| && q < |t.packages|
    requires t.packages[p].certificateId.Some? && t.packages[q].certificateId.Some?
  {
    var a, b := t.packages[p], t.packages[q];
    || a.createdAt > b.createdAt
    || (a.createdAt == b.createdAt &&
        (|| a.generation > b.generation
         || (a.generation == b.generation && a.certificateId.value > b.certificateId.value)))
  }

  function BestPackage(t: Tables, app: nat, n: nat): (r: Option<nat>)
    requires n <= |t.packages|
    ensures r.Some? ==> r.value < n && PackageQualifies(t, app, r.value)
  {
    if n == 0 then None
    else
      var best := BestPackage(t, app, n - 1);
      if PackageQualifies(t, app, n - 1) && (best.None? || PackageBefore(t, n - 1, best.value)) then Some(n - 1)
      else best
  }

  predicate CertQualifies(t: Tables, app: nat, c: nat) {
    CertUsable(t, c) && t.certs[c].applicationId == app
  }

  /** ORDER BY created_at DESC, not_before DESC (NULLs first), id DESC. */
  predicate CertBefore(t: Tables, p: nat, q: nat)
    requires p < |t.certs| && q < |t.certs|
  {
    var a, b := t.certs[p], t.certs[q];
    || a.createdAt > b.createdAt
    || (a.createdAt == b.createdAt &&
        (|| (a.notBefore.None? && b.notBefore.Some?)
         || (a.notBefore.Some? && b.notBefore.Some? && a.notBefore.value > b.notBefore.value)
         || (a.notBefore == b.notBefore && p > q)))
  }

  function BestCert(t: Tables, app: nat, n: nat): (r: Option<nat>)
    requires n <= |t.certs|
    ensures r.Some? ==> r.value < n && CertQualifies(t, app, r.value)
  {
    if n == 0 then None
    else
      var best := BestCert(t, app, n - 1);
      if CertQualifies(t, app, n - 1) && (best.None? || CertBefore(t, n - 1, best.value)) then Some(n - 1)
      else best
  }

  /** `_active_certificate_id_for_application`: an activated package's certificate, else the newest active one. */
  function ActiveCertificate(t: Tables, app: nat): (r: Option<nat>)
    ensures r.Some? ==> CertUsable(t, r.value)
  {
    match BestPackage(t, app, |t.packages|)
    case Some(p) => Some(t.packages[p].certificateId.value)
    case None => BestCert(t, app, |t.certs|)
  }

  lemma {:induction false} BestPackageIsBest(t: Tables, app: nat, n: nat)
    requires n <= |t.packages|
    ensures var r := BestPackage(t, app, n);
            forall p :: 0 <= p < n && PackageQualifies(t, app, p) ==> r.Some? && !PackageBefore(t, p, r.value)
  {
    if n > 0 {
      BestPackageIsBest(t, app, n - 1);
    }
  }

  lemma {:induction false} BestCertIsBest(t: Tables, app: nat, n: nat)
    requires n <= |t.certs|
    ensures var r := BestCert(t, app, n);
            forall c :: 0 <= c < n && CertQualifies(t, app, c) ==> r.Some? && !CertBefore(t, c, r.value)
  {
    if n > 0 {
      BestCertIsBest(t, app, n - 1);
    }
  }

  /**
   * The resolution rule: a qualifying package wins over any bare certificate,
   * newest first; an application resolves to nothing exactly when it has
   * neither a qualifying package nor a usable certificate of its own.
   */
  lemma ActiveCertificateIsNewest(t: Tables, app: nat)
    ensures var r := ActiveCertificate(t, app);
            if exists p: nat :: PackageQualifies(t, app, p) then
              exists p: nat :: PackageQualifies(t, app, p) && r == t.packages[p].certificateId
                          && forall q: nat :: PackageQualifies(t, app, q) ==> !PackageBefore(t, q, p)
            else if exists c: nat :: CertQualifies(t, app, c) then
              r.Some? && CertQualifies(t, app, r.value)
              && forall c: nat :: CertQualifies(t, app, c) ==> !CertBefore(t, c, r.value)
            else r == None
  {
    BestPackageIsBest(t, app, |t.packages|);
    BestCertIsBest(t, app, |t.certs|);
  }

  // ---- the desired member list ----

  /** `_desired_trustlist_certificate_ids` over the first n application rows. */
  function DesiredUpTo(t: Tables, target: Target, n: nat): seq<int>
    requires n <= |t.apps|
  {
    if n == 0 then []
    else
      var rest := DesiredUpTo(t, target, n - 1);
      if Authorised(t, n - 1, target) && ActiveCertificate(t, n - 1).Some?
      then rest + [ActiveCertificate(t, n - 1).value]
      else rest
  }

  function Desired(t: Tables, target: Target): seq<int> {
    DesiredUpTo(t, target, |t.apps|)
  }

  predicate StandsFor(t: Tables, target: Target, app: nat, c: int) {
    Authorised(t, app, target) && ActiveCertificate(t, app).Some? && ActiveCertificate(t, app).value == c
  }

  lemma {:induction false} DesiredMembers(t: Tables, target: Target, n: nat, c: int)
    requires n <= |t.apps|
    ensures c in DesiredUpTo(t, target, n) <==> exists app :: 0 <= app < n && StandsFor(t, target, app, c)
  {
    if n > 0 {
      DesiredMembers(t, target, n - 1, c);
      if c in DesiredUpTo(t, target, n) && c !in DesiredUpTo(t, target, n - 1) {
        assert StandsFor(t, target, n - 1, c);
      }
    }
  }

  predicate NoDup(s: seq<int>) {
    forall i, j :: 0 <= i < j < |s| ==> s[i] != s[j]
  }

  /** Every package's certificate was issued for that package's application. */
  predicate PackagesOwnTheirCertificates(t: Tables) {
    forall p :: 0 <= p < |t.packages| && t.packages[p].certificateId.Some? ==>
      var c := t.packages[p].certificateId.value;
      c < |t.certs| ==> t.certs[c].applicationId == t.packages[p].applicationId
  }

  lemma OwnedCertificateBelongs(t: Tables, app: nat)
    requires PackagesOwnTheirCertificates(t)
    ensures var r := ActiveCertificate(t, app);
            r.Some? ==> t.certs[r.value].applicationId == app
  {
  }

  lemma {:induction false} OwnedDesiredHasNoDuplicates(t: Tables, target: Target, n: nat)
    requires PackagesOwnTheirCertificates(t) && n <= |t.apps|
    ensures NoDup(DesiredUpTo(t, target, n))
  {
    if n > 0 {
      OwnedDesiredHasNoDuplicates(t, target, n - 1);
      var rest := DesiredUpTo(t, target, n - 1);
      if Authorised(t, n - 1, target) && ActiveCertificate(t, n - 1).Some? {
        var c := ActiveCertificate(t, n - 1).value;
        DesiredMembers(t, target, n - 1, c);
        OwnedCertificateBelongs(t, n - 1);
        forall app: nat | app < n - 1 && StandsFor(t, target, app, c) ensures t.certs[c].applicationId == app {
          OwnedCertificateBelongs(t, app);
        }
      }
    }
  }

  // ---- publishing a list ----

  function Versions(lists: seq<TrustList>): seq<(Target, int)> {
    seq(|lists|, i requires 0 <= i < |lists| => (lists[i].target, lists[i].version))
  }

  function LatestList(t: Tables, target: Target): (r: Option<nat>)
    ensures r.Some? ==> r.value < |t.lists| && t.lists[r.value].target == target
  {
    Latest(Versions(t.lists), target)
  }

  /** INSERT ... ON CONFLICT DO NOTHING, one id after the other. */
  function InsertMembers(members: seq<int>, ids: seq<int>): seq<int>
    decreases |ids|
  {
    if ids == [] then members
    else InsertMembers(if ids[0] in members then members else members + [ids[0]], ids[1..])
  }

  /** `build_trust_list`. */
  function BuildTrustList(t: Tables, target: Target): Tables {
    t.(lists := t.lists + [TrustList(target, NextNumber(Versions(t.lists), target),
                                     InsertMembers([], Desired(t, target)))])
  }

  predicate ListIsCurrent(t: Tables, target: Target) {
    var l := LatestList(t, target);
    l.Some? && Sort(t.lists[l.value].members) == Sort(Desired(t, target))
  }

  /** `ensure_trust_list_current`. */
  function EnsureTrustListCurrent(t: Tables, target: Target): Tables {
    if ListIsCurrent(t, target) then t else BuildTrustList(t, target)
  }

  lemma {:induction false} InsertMembersIsUnion(members: seq<int>, ids: seq<int>)
    requires NoDup(members)
    ensures var r := InsertMembers(members, ids);
            && NoDup(r)
            && forall c {:trigger c in r} :: c in r <==> c in members || c in ids
    decreases |ids|
  {
    if ids != [] {
      var next := if ids[0] in members then members else members + [ids[0]];
      InsertMembersIsUnion(next, ids[1..]);
      assert ids == [ids[0]] + ids[1..];
    }
  }

  lemma {:induction false} InsertMembersKeepsDistinct(members: seq<int>, ids: seq<int>)
    requires NoDup(members + ids)
    ensures InsertMembers(members, ids) == members + ids
    decreases |ids|
  {
    if ids != [] {
      var all := members + ids;
      assert all[|members|] == ids[0];
      assert forall i :: 0 <= i < |members| ==> members[i] == all[i];
      assert (members + [ids[0]]) + ids[1..] == members + ids;
      InsertMembersKeepsDistinct(members + [ids[0]], ids[1..]);
    } else {
      assert members + ids == members;
    }
  }

  lemma {:induction false} DistinctCountsOnce(s: seq<int>, c: int)
    requires NoDup(s)
    ensures multiset(s)[c] <= 1
  {
    if s != [] {
      var init := s[..|s| - 1];
      assert s == init + [s[|s| - 1]];
      DistinctCountsOnce(init, c);
      assert s[|s| - 1] !in multiset(init);
    }
  }

  lemma RepetitionCountsTwice(s: seq<int>, i: nat, j: nat)
    requires i < j < |s| && s[i] == s[j]
    ensures multiset(s)[s[i]] >= 2
  {
    var front := s[..j];
    assert s == front + [s[j]] + s[j + 1..];
    assert front[i] == s[i];
    assert multiset(front)[s[i]] >= 1;
  }

  lemma NoDupUpToOrder(a: seq<int>, b: seq<int>)
    requires multiset(a) == multiset(b) && NoDup(a)
    ensures NoDup(b)
  {
    forall i, j | 0 <= i < j < |b| ensures b[i] != b[j] {
      if b[i] == b[j] {
        RepetitionCountsTwice(b, i, j);
        DistinctCountsOnce(a, b[i]);
        assert false;
      }
    }
  }

  // ---- lemmas about ensuring ----

  predicate ListsNumbered(t: Tables) {
    Sequential(Versions(t.lists))
  }

  /** UNIQUE(trust_list_id, certificate_id, member_type). */
  predicate MembersDistinct(t: Tables) {
    forall i :: 0 <= i < |t.lists| ==> NoDup(t.lists[i].members)
  }

  lemma BuildMakesLatest(t: Tables, target: Target, other: Target)
    requires ListsNumbered(t) && MembersDistinct(t)
    ensures var b := BuildTrustList(t, target);
            && ListsNumbered(b) && MembersDistinct(b)
            && LatestList(b, target) == Some(|t.lists|)
            && (other != target ==> LatestList(b, other) == LatestList(t, other))
  {
    var b := BuildTrustList(t, target);
    var rows := Versions(t.lists);
    var row := (target, NextNumber(rows, target));
    assert Versions(b.lists) == rows + [row];
    AppendSequentialIff(rows, row);
    LatestAppend(rows, row, target);
    LatestAppend(rows, row, other);
    InsertMembersIsUnion([], Desired(t, target));
  }

  lemma CurrentMembers(t: Tables, target: Target, c: int)
    requires ListIsCurrent(t, target)
    ensures c in t.lists[LatestList(t, target).value].members <==> c in Desired(t, target)
  {
    var m := t.lists[LatestList(t, target).value].members;
    SortEqualIff(m, Desired(t, target));
    assert c in m <==> c in multiset(m);
    assert c in Desired(t, target) <==> c in multiset(Desired(t, target));
  }

  /**
   * After ensuring a list, its members are exactly the resolved certificates of
   * the authorised applications, without repetition; only the `lists` table
   * changed, and other targets keep their latest list.
   */
  lemma EnsureMembersExact(t: Tables, target: Target, other: Target)
    requires ListsNumbered(t) && MembersDistinct(t)
    ensures var e := EnsureTrustListCurrent(t, target);
            && e.apps == t.apps && e.certs == t.certs && e.packages == t.packages && e.artifacts == t.artifacts
            && t.lists <= e.lists && ListsNumbered(e) && MembersDistinct(e)
            && LatestList(e, target).Some?
            && (forall c {:trigger c in e.lists[LatestList(e, target).value].members} ::
                  c in e.lists[LatestList(e, target).value].members <==>
                      exists app: nat :: StandsFor(t, target, app, c))
            && (other != target ==> LatestList(e, other) == LatestList(t, other))
  {
    var e := EnsureTrustListCurrent(t, target);
    BuildMakesLatest(t, target, other);
    InsertMembersIsUnion([], Desired(t, target));
    var l := LatestList(e, target).value;
    forall c ensures c in e.lists[l].members <==> exists app: nat :: StandsFor(t, target, app, c) {
      DesiredMembers(t, target, |t.apps|, c);
      if ListIsCurrent(t, target) {
        CurrentMembers(t, target, c);
      }
      assert c in e.lists[l].members <==> c in Desired(t, target);
    }
  }

  /** The desired list depends on the application, certificate and package tables only. */
  lemma {:induction false} DesiredIgnoresLists(t: Tables, u: Tables, target: Target, n: nat)
    requires t.apps == u.apps && t.certs == u.certs && t.packages == u.packages && n <= |t.apps|
    ensures DesiredUpTo(t, target, n) == DesiredUpTo(u, target, n)
  {
    if n > 0 {
      DesiredIgnoresLists(t, u, target, n - 1);
      ActiveIgnoresLists(t, u, n - 1);
    }
  }

  lemma ActiveIgnoresLists(t: Tables, u: Tables, app: nat)
    requires t.certs == u.certs && t.packages == u.packages
    ensures ActiveCertificate(t, app) == ActiveCertificate(u, app)
  {
    BestPackageIgnoresLists(t, u, app, |t.packages|);
    BestCertIgnoresLists(t, u, app, |t.certs|);
  }

  lemma {:induction false} BestPackageIgnoresLists(t: Tables, u: Tables, app: nat, n: nat)
    requires t.certs == u.certs && t.packages == u.packages && n <= |t.packages|
    ensures BestPackage(t, app, n) == BestPackage(u, app, n)
  {
    if n > 0 {
      BestPackageIgnoresLists(t, u, app, n - 1);
    }
  }

  lemma {:induction false} BestCertIgnoresLists(t: Tables, u: Tables, app: nat, n: nat)
    requires t.certs == u.certs && n <= |t.certs|
    ensures BestCert(t, app, n) == BestCert(u, app, n)
  {
    if n > 0 {
      BestCertIgnoresLists(t, u, app, n - 1);
    }
  }

  /** A list just built is current exactly when the desired list has no duplicate. */
  lemma BuiltIsCurrentIff(t: Tables, target: Target)
    requires ListsNumbered(t) && MembersDistinct(t)
    ensures ListIsCurrent(BuildTrustList(t, target), target) <==> NoDup(Desired(t, target))
  {
    var b := BuildTrustList(t, target);
    var d := Desired(t, target);
    BuildMakesLatest(t, target, target);
    DesiredIgnoresLists(t, b, target, |t.apps|);
    InsertMembersIsUnion([], d);
    var m := InsertMembers([], d);
    SortEqualIff(m, d);
    if NoDup(d) {
      assert [] + d == d;
      InsertMembersKeepsDistinct([], d);
    } else if multiset(m) == multiset(d) {
      NoDupUpToOrder(m, d);
    }
  }

  lemma CurrentImpliesDistinct(t: Tables, target: Target)
    requires MembersDistinct(t) && ListIsCurrent(t, target)
    ensures NoDup(Desired(t, target))
  {
    var m := t.lists[LatestList(t, target).value].members;
    SortEqualIff(m, Desired(t, target));
    NoDupUpToOrder(m, Desired(t, target));
  }

  /**
   * Ensuring twice adds no second version exactly when no certificate stands
   * for two applications at once.  With a duplicate, the stored members (a set)
   * never equal the desired list and every call publishes a new version.
   */
  lemma EnsureAgainIff(t: Tables, target: Target)
    requires ListsNumbered(t) && MembersDistinct(t)
    ensures var e := EnsureTrustListCurrent(t, target);
            EnsureTrustListCurrent(e, target) == e <==> NoDup(Desired(t, target))
  {
    var e := EnsureTrustListCurrent(t, target);
    assert |BuildTrustList(e, target).lists| == |e.lists| + 1;
    if ListIsCurrent(t, target) {
      CurrentImpliesDistinct(t, target);
    } else {
      BuiltIsCurrentIff(t, target);
    }
  }

  /** When packages own their certificates the list is one certificate per application and ensuring is stable. */
  lemma EnsureStableWhenOwned(t: Tables, target: Target)
    requires ListsNumbered(t) && MembersDistinct(t) && PackagesOwnTheirCertificates(t)
    ensures var e := EnsureTrustListCurrent(t, target);
            && EnsureTrustListCurrent(e, target) == e
            && forall a: nat, b: nat, c :: StandsFor(t, target, a, c) && StandsFor(t, target, b, c) ==> a == b
  {
    OwnedDesiredHasNoDuplicates(t, target, |t.apps|);
    EnsureAgainIff(t, target);
    forall a: nat, b: nat, c | StandsFor(t, target, a, c) && StandsFor(t, target, b, c) ensures a == b {
      OwnedCertificateBelongs(t, a);
      OwnedCertificateBelongs(t, b);
    }
  }

  /**
   * The ownership condition is needed: one certificate packaged for two applications
   * makes every ensure publish again.
   */
  lemma ForeignPackageRepublishes()
    ensures var app := Application("urn:a", "a", "OT", "scada-client", "client", "active");
            var cert := Certificate(0, "fp", Pem("pem", None), Active, 0, None, None, None);
            var package := Package("p", 1, Some(0), 1, "profile", None, None, "ACTIVATED", ActivePackage, 0);
            var t := Tables([app, app.(uri := "urn:b")], [cert], [package], [], []);
            var target := Target("OT", "scada-client");
            var e := EnsureTrustListCurrent(t, target);
            |EnsureTrustListCurrent(e, target).lists| == 2
  {
    var app := Application("urn:a", "a", "OT", "scada-client", "client", "active");
    var cert := Certificate(0, "fp", Pem("pem", None), Active, 0, None, None, None);
    var package := Package("p", 1, Some(0), 1, "profile", None, None, "ACTIVATED", ActivePackage, 0);
    var t := Tables([app, app.(uri := "urn:b")], [cert], [package], [], []);
    var target := Target("OT", "scada-client");
    var e := EnsureTrustListCurrent(t, target);
    assert Versions([]) == [];
    assert ListsNumbered(t);
    assert BestCert(t, 0, 1) == Some(0);
    assert BestPackage(t, 0, 1) == None && BestPackage(t, 1, 1) == Some(0);
    assert ActiveCertificate(t, 0) == Some(0) && ActiveCertificate(t, 1) == Some(0);
    assert DesiredUpTo(t, target, 0) == [];
    assert DesiredUpTo(t, target, 1) == [0];
    assert Desired(t, target) == [0, 0];
    assert !NoDup([0, 0]) by { assert [0, 0][0] == [0, 0][1]; }
    EnsureAgainIff(t, target);
    assert !ListIsCurrent(t, target);
    assert |e.lists| == 1;
  }
}
