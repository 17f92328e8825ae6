/**
 * What a publication contains, stated on the rows of the tables: which
 * certificate is chosen for which application, what an entry of the artifact
 * says about it, where the other fields come from, and when and why a call
 * rebuilds.
 */
module Contents {
  import opened Common
  import opened Numbering
  import opened Artifacts
  import opened TrustTables
  import opened Publication
  import opened PublicationRuns
  import Lifecycle

  // ---- the certificate chosen for an application, on columns ----

  /** Package row `p` puts certificate `c` in force for the application. */
  predicate Activates(t: Tables, app: nat, p: nat, c: int) {
    && p < |t.packages| && 0 <= c < |t.certs|
    && t.packages[p].applicationId == app && t.packages[p].certificateId == Some(c)
    && t.packages[p].lifecycle == "ACTIVATED" && t.packages[p].status == ActivePackage
    && t.certs[c].status == Active && t.certs[c].revokedAt == None
  }

  /** Certificate row `c` belongs to the application and is in force. */
  predicate Owns(t: Tables, app: nat, c: int) {
    0 <= c < |t.certs| && t.certs[c].applicationId == app && t.certs[c].status == Active && t.certs[c].revokedAt == None
  }

  /** Newest first: creation time, then generation, then certificate id. */
  predicate NewerPackage(a: Package, c: int, b: Package, d: int) {
    || a.createdAt > b.createdAt
    || (a.createdAt == b.createdAt && a.generation > b.generation)
    || (a.createdAt == b.createdAt && a.generation == b.generation && c > d)
  }

  /** A missing not_before counts as later than any. */
  predicate LaterStart(a: Option<Time>, b: Option<Time>) {
    match a
    case None => b.Some?
    case Some(x) => b.Some? && x > b.value
  }

  /** Newest first: creation time, then not_before, then id. */
  predicate NewerCertificate(t: Tables, c: int, d: int)
    requires 0 <= c < |t.certs| && 0 <= d < |t.certs|
  {
    || t.certs[c].createdAt > t.certs[d].createdAt
    || (t.certs[c].createdAt == t.certs[d].createdAt && LaterStart(t.certs[c].notBefore, t.certs[d].notBefore))
    || (t.certs[c].createdAt == t.certs[d].createdAt && t.certs[c].notBefore == t.certs[d].notBefore && c > d)
  }

  ghost predicate ByPackage(t: Tables, app: nat, c: int) {
    exists p: nat :: Activates(t, app, p, c) && NoneNewer(t, app, p, c)
  }

  ghost predicate NoneNewer(t: Tables, app: nat, p: nat, c: int)
    requires p < |t.packages|
  {
    forall q: nat, d: int :: Activates(t, app, q, d) ==> !NewerPackage(t.packages[q], d, t.packages[p], c)
  }

  ghost predicate ByOwnership(t: Tables, app: nat, c: int) {
    && Owns(t, app, c)
    && (forall d: int :: Owns(t, app, d) ==> !NewerCertificate(t, d, c))
    && (forall q: nat, d: int :: !Activates(t, app, q, d))
  }

  /** The application is active, and a consumer of the target trusts it. */
  predicate Trusted(t: Tables, target: Target, app: nat) {
    && app < |t.apps| && t.apps[app].status == "active"
    && (if target.zone == "OT" && target.role == "server"
        then (t.apps[app].zone, t.apps[app].role) in {("DMZ", "southbound-client"), ("OT", "scada-client")}
        else t.apps[app].zone == target.zone && t.apps[app].role == target.role)
  }

  /** The target's list has certificate `c` because of the application. */
  ghost predicate Chosen(t: Tables, target: Target, app: nat, c: int) {
    Trusted(t, target, app) && (ByPackage(t, app, c) || ByOwnership(t, app, c))
  }

  lemma ByPackageIff(t: Tables, app: nat, c: int)
    requires exists p: nat :: PackageQualifies(t, app, p)
    ensures ByPackage(t, app, c) <==> ActiveCertificate(t, app) == Some(c)
  {
    ActiveCertificateIsNewest(t, app);
    var best: nat :| PackageQualifies(t, app, best) && ActiveCertificate(t, app) == t.packages[best].certificateId
      && forall q: nat :: PackageQualifies(t, app, q) ==> !PackageBefore(t, q, best);
    var d := t.packages[best].certificateId.value;
    assert Activates(t, app, best, d);
    forall q: nat, e: int | Activates(t, app, q, e) ensures !NewerPackage(t.packages[q], e, t.packages[best], d) {
      assert PackageQualifies(t, app, q);
    }
    assert NoneNewer(t, app, best, d);
    if ByPackage(t, app, c) {
      var p: nat :| Activates(t, app, p, c) && NoneNewer(t, app, p, c);
      assert !NewerPackage(t.packages[best], d, t.packages[p], c);
      assert !NewerPackage(t.packages[p], c, t.packages[best], d);
    }
  }

  lemma ByOwnershipIff(t: Tables, app: nat, c: int)
    requires forall p: nat :: !PackageQualifies(t, app, p)
    ensures ByOwnership(t, app, c) <==> ActiveCertificate(t, app) == Some(c)
  {
    ActiveCertificateIsNewest(t, app);
    var r := ActiveCertificate(t, app);
    forall q: nat, d: int ensures !Activates(t, app, q, d) {
      assert !PackageQualifies(t, app, q);
    }
    if ByOwnership(t, app, c) {
      assert CertQualifies(t, app, c);
      assert !CertBefore(t, c, r.value) && Owns(t, app, r.value) && !NewerCertificate(t, r.value, c);
    }
    if r == Some(c) {
      assert exists d: nat :: CertQualifies(t, app, d) by { assert CertQualifies(t, app, c); }
      forall d: int | Owns(t, app, d) ensures !NewerCertificate(t, d, c) {
        assert CertQualifies(t, app, d) && !CertBefore(t, d, c);
      }
    }
  }

  /** The queries choose exactly that certificate. */
  lemma StandsForIffChosen(t: Tables, target: Target, app: nat, c: int)
    ensures StandsFor(t, target, app, c) <==> Chosen(t, target, app, c)
  {
    hide ActiveCertificate, ByPackage, ByOwnership, PackageQualifies;
    assert Authorised(t, app, target) <==> Trusted(t, target, app);
    if p: nat :| PackageQualifies(t, app, p) {
      ByPackageIff(t, app, c);
      NotByOwnership(t, app, p, c);
    } else {
      ByOwnershipIff(t, app, c);
      NotByPackage(t, app, c);
    }
  }

  lemma NotByOwnership(t: Tables, app: nat, p: nat, c: int)
    requires PackageQualifies(t, app, p)
    ensures !ByOwnership(t, app, c)
  {
    assert Activates(t, app, p, t.packages[p].certificateId.value);
  }

  lemma NotByPackage(t: Tables, app: nat, c: int)
    requires forall p: nat :: !PackageQualifies(t, app, p)
    ensures !ByPackage(t, app, c)
  {
    if p: nat :| Activates(t, app, p, c) {
      assert PackageQualifies(t, app, p);
    }
  }

  /** After ensuring, the newest list of the target has exactly the chosen certificates, each once. */
  lemma EnsuredListIsChosen(t: Tables, target: Target)
    requires ListsNumbered(t) && MembersDistinct(t)
    ensures var e := EnsureTrustListCurrent(t, target);
            && LatestList(e, target).Some?
            && var members := e.lists[LatestList(e, target).value].members;
            && NoDup(members)
            && forall c {:trigger c in members} :: c in members <==> exists app: nat :: Chosen(t, target, app, c)
  {
    EnsureMembersExact(t, target, target);
    hide EnsureTrustListCurrent, LatestList, StandsFor, Chosen;
    var e := EnsureTrustListCurrent(t, target);
    var members := e.lists[LatestList(e, target).value].members;
    forall c ensures c in members <==> exists app: nat :: Chosen(t, target, app, c) {
      forall app: nat ensures StandsFor(t, target, app, c) <==> Chosen(t, target, app, c) {
        StandsForIffChosen(t, target, app, c);
      }
    }
  }

  lemma {:induction false} DesiredDistinctIff(t: Tables, target: Target, n: nat)
    requires n <= |t.apps|
    ensures NoDup(DesiredUpTo(t, target, n)) <==>
            forall a: nat, b: nat, c: int ::
              a < n && b < n && StandsFor(t, target, a, c) && StandsFor(t, target, b, c) ==> a == b
  {
    if n > 0 {
      DesiredDistinctIff(t, target, n - 1);
      var rest := DesiredUpTo(t, target, n - 1);
      hide Authorised, ActiveCertificate;
      if Authorised(t, n - 1, target) && ActiveCertificate(t, n - 1).Some? {
        var c := ActiveCertificate(t, n - 1).value;
        DesiredMembers(t, target, n - 1, c);
        OneMoreDistinct(rest, c);
        assert StandsFor(t, target, n - 1, c);
      } else {
        var m: nat := n - 1;
        assert forall c :: !StandsFor(t, target, m, c);
      }
    }
  }

  lemma OneMoreDistinct(rest: seq<int>, c: int)
    ensures NoDup(rest + [c]) <==> NoDup(rest) && c !in rest
  {
    var all := rest + [c];
    assert forall i :: 0 <= i < |rest| ==> all[i] == rest[i];
    assert all[|rest|] == c;
  }

  lemma DistinctSameSet(a: seq<int>, b: seq<int>)
    requires NoDup(a)
    ensures multiset(a) == multiset(b) <==>
            NoDup(b) && forall c {:trigger c in a} {:trigger c in b} :: c in a <==> c in b
  {
    if multiset(a) == multiset(b) {
      NoDupUpToOrder(a, b);
      assert forall c :: c in a <==> c in multiset(a);
      assert forall c :: c in b <==> c in multiset(b);
    }
    if NoDup(b) && forall c {:trigger c in a} {:trigger c in b} :: c in a <==> c in b {
      forall c ensures multiset(a)[c] == multiset(b)[c] {
        DistinctCountsOnce(a, c);
        DistinctCountsOnce(b, c);
        assert c in a <==> c in multiset(a);
        assert c in b <==> c in multiset(b);
      }
    }
  }

  /**
   * Ensuring publishes nothing exactly when the newest list has the chosen certificates
   * and none of them is chosen for two applications.
   */
  lemma EnsurePublishesNothingIff(t: Tables, target: Target)
    requires ListsNumbered(t) && MembersDistinct(t)
    ensures EnsureTrustListCurrent(t, target) == t <==>
            && LatestList(t, target).Some?
            && (var members := t.lists[LatestList(t, target).value].members;
                forall c {:trigger c in members} :: c in members <==> exists app: nat :: Chosen(t, target, app, c))
            && (forall a: nat, b: nat, c: int :: Chosen(t, target, a, c) && Chosen(t, target, b, c) ==> a == b)
  {
    var d := Desired(t, target);
    forall app: nat, c: int ensures StandsFor(t, target, app, c) <==> Chosen(t, target, app, c) {
      StandsForIffChosen(t, target, app, c);
    }
    forall app: nat, c: int | StandsFor(t, target, app, c) ensures app < |t.apps| {
    }
    DesiredDistinctIff(t, target, |t.apps|);
    forall c ensures c in d <==> exists app: nat :: Chosen(t, target, app, c) {
      DesiredMembers(t, target, |t.apps|, c);
    }
    assert |BuildTrustList(t, target).lists| == |t.lists| + 1;
    hide StandsFor, Chosen, Desired, BuildTrustList;
    if LatestList(t, target).Some? {
      var members := t.lists[LatestList(t, target).value].members;
      SortEqualIff(members, d);
      DistinctSameSet(members, d);
    }
  }

  // ---- what an entry says ----

  /** Every field of the entry is a column of certificate row `c` or of its application's row. */
  predicate Describes(t: Tables, e: CertEntry, c: int) {
    && 0 <= c < |t.certs| && t.certs[c].applicationId < |t.apps|
    && e.certificateId == Some(c)
    && e.fingerprint == Some(t.certs[c].fingerprint) && e.pem == Some(t.certs[c].pem)
    && e.applicationUri == Some(t.apps[t.certs[c].applicationId].uri)
    && e.commonName == Some(t.apps[t.certs[c].applicationId].commonName)
    && e.zone == Some(t.apps[t.certs[c].applicationId].zone)
    && e.role == Some(t.apps[t.certs[c].applicationId].role)
    && e.componentType == Some(t.apps[t.certs[c].applicationId].componentType)
  }

  /** The certificate and its application are in the tables. */
  predicate Joins(t: Tables, c: int) {
    0 <= c < |t.certs| && t.certs[c].applicationId < |t.apps|
  }

  /** The entries describe certificates of the list, and every one of the list that joins is described. */
  ghost predicate DescribesAll(t: Tables, entries: seq<CertEntry>, ids: seq<int>) {
    && (forall e :: e in entries ==> exists c :: c in ids && Describes(t, e, c))
    && (forall c :: c in ids && Joins(t, c) ==> exists e :: e in entries && Describes(t, e, c))
  }

  lemma {:induction false} EntriesDescribe(t: Tables, ids: seq<int>)
    ensures DescribesAll(t, Entries(t, ids), ids)
    decreases |ids|
  {
    if ids != [] {
      EntriesDescribe(t, ids[1..]);
      assert ids == [ids[0]] + ids[1..];
      DescribesOneMore(t, ids[0], ids[1..]);
    }
  }

  lemma DescribesOneMore(t: Tables, c: int, rest: seq<int>)
    requires DescribesAll(t, Entries(t, rest), rest)
    ensures DescribesAll(t, Entries(t, [c] + rest), [c] + rest)
  {
    var ids, entries, before := [c] + rest, Entries(t, [c] + rest), Entries(t, rest);
    assert ids[1..] == rest && ids[0] == c;
    var first := FirstEntry(t, c, rest);
    assert entries == first + before;
    hide Entries, Describes;
    assert first != [] ==> first[0] in entries;
    forall e | e in entries ensures exists d :: d in ids && Describes(t, e, d) {
      if e in before {
        var d :| d in rest && Describes(t, e, d);
        assert d in ids;
      } else {
        assert e == first[0] && c in ids;
      }
    }
    forall d | d in ids && Joins(t, d) ensures exists e :: e in entries && Describes(t, e, d) {
      if d == c {
        assert Describes(t, first[0], c);
      } else {
        var e :| e in before && Describes(t, e, d);
        assert e in entries;
      }
    }
  }

  lemma FirstEntry(t: Tables, c: int, rest: seq<int>) returns (first: seq<CertEntry>)
    ensures Entries(t, [c] + rest) == first + Entries(t, rest)
    ensures if Joins(t, c) then |first| == 1 && Describes(t, first[0], c) else first == []
  {
    assert ([c] + rest)[1..] == rest;
    if Joins(t, c) {
      var app := t.apps[t.certs[c].applicationId];
      first := [CertEntry(Some(c), Some(app.uri), Some(app.commonName), Some(t.certs[c].fingerprint),
                          Some(t.certs[c].pem), Some(app.zone), Some(app.role), Some(app.componentType))];
    } else {
      first := [];
      assert Entries(t, [c] + rest) == [] + Entries(t, rest);
    }
  }

  /** With the foreign key in force, the entries are one per member, in the same order. */
  lemma {:induction false} EntriesInOrder(t: Tables, ids: seq<int>)
    requires forall c :: c in ids ==> Joins(t, c)
    ensures |Entries(t, ids)| == |ids| && forall i :: 0 <= i < |ids| ==> Describes(t, Entries(t, ids)[i], ids[i])
    decreases |ids|
  {
    if ids != [] {
      assert ids == [ids[0]] + ids[1..];
      assert ids[0] in ids;
      EntriesInOrder(t, ids[1..]);
      var first := FirstEntry(t, ids[0], ids[1..]);
      hide Entries, Describes, Joins;
      forall i | 0 <= i < |ids| ensures Describes(t, Entries(t, ids)[i], ids[i]) {
        if i > 0 { assert Entries(t, ids)[i] == Entries(t, ids[1..])[i - 1]; }
      }
    }
  }

  // ---- a rebuilding call ----

  /** The call appended a row, and returned its artifact. */
  ghost predicate Rebuilt(s: Server, q: Request, now: Time, vault: Option<VaultMaterial>, u: Server, o: Outcome) {
    && CallResult(s, q, now, vault, u, o) && |u.db.artifacts| == |s.db.artifacts| + 1
    && o.Served? && o.row == |s.db.artifacts| && o.artifact == u.db.artifacts[o.row].artifact
  }

  /** The published entries describe exactly the certificates chosen for the target, from the tables read. */
  ghost predicate DescribesChosen(t: Tables, target: Target, entries: seq<CertEntry>) {
    && (forall e :: e in entries ==> exists app: nat, c: int :: Chosen(t, target, app, c) && Describes(t, e, c))
    && (forall app: nat, c: int :: Chosen(t, target, app, c) && Joins(t, c) ==>
          exists e :: e in entries && Describes(t, e, c))
  }

  lemma MembersDescribeChosen(t: Tables, target: Target, entries: seq<CertEntry>, members: seq<int>)
    requires DescribesAll(t, entries, members)
    requires forall c {:trigger c in members} :: c in members <==> exists app: nat :: Chosen(t, target, app, c)
    ensures DescribesChosen(t, target, entries)
  {
    hide Chosen, Describes, Joins;
    forall e | e in entries ensures exists app: nat, c: int :: Chosen(t, target, app, c) && Describes(t, e, c) {
      var c :| c in members && Describes(t, e, c);
      var app: nat :| Chosen(t, target, app, c);
    }
    forall app: nat, c: int | Chosen(t, target, app, c) && Joins(t, c)
      ensures exists e :: e in entries && Describes(t, e, c)
    {
      assert c in members;
    }
  }

  /** What is chosen and how it is described depend on applications, certificates and packages only. */
  lemma ChosenIgnoresLists(t: Tables, u: Tables, target: Target, app: nat, c: int)
    requires t.apps == u.apps && t.certs == u.certs && t.packages == u.packages
    ensures Chosen(t, target, app, c) <==> Chosen(u, target, app, c)
  {
    ActiveIgnoresLists(t, u, app);
    StandsForIffChosen(t, target, app, c);
    StandsForIffChosen(u, target, app, c);
    hide Chosen, ActiveCertificate;
  }

  lemma SameTablesDescribe(t: Tables, u: Tables, target: Target, entries: seq<CertEntry>)
    requires t.apps == u.apps && t.certs == u.certs && t.packages == u.packages
    requires DescribesChosen(t, target, entries)
    ensures DescribesChosen(u, target, entries)
  {
    forall app: nat, c: int ensures Chosen(t, target, app, c) <==> Chosen(u, target, app, c) {
      ChosenIgnoresLists(t, u, target, app, c);
    }
    forall e: CertEntry, c ensures Describes(t, e, c) <==> Describes(u, e, c) {
    }
    hide Chosen, Describes;
    forall e | e in entries ensures exists app: nat, c: int :: Chosen(u, target, app, c) && Describes(u, e, c) {
      var app: nat, c: int :| Chosen(t, target, app, c) && Describes(t, e, c);
      assert Chosen(u, target, app, c) && Describes(u, e, c);
    }
    forall app: nat, c: int | Chosen(u, target, app, c) && Joins(u, c)
      ensures exists e :: e in entries && Describes(u, e, c)
    {
      assert Chosen(t, target, app, c) && Joins(t, c);
      var e :| e in entries && Describes(t, e, c);
    }
  }

  /** What a call reads after ensuring the list. */
  lemma ReadDescribesChosen(s: Server, target: Target)
    requires CoreInv(s)
    ensures ReadTrustList(AfterEnsure(s, target), target).Some?
    ensures DescribesChosen(s.db, target, ReadTrustList(AfterEnsure(s, target), target).value.certs)
  {
    CoreLists(s);
    EnsuredListIsChosen(s.db, target);
    EnsureFrame(s.db, target);
    var t := AfterEnsure(s, target).db;
    var members := t.lists[LatestList(t, target).value].members;
    EntriesDescribe(t, members);
    hide CoreInv, EnsureTrustListCurrent, LatestList, Chosen, DescribesAll, DescribesChosen, Entries;
    forall c ensures c in members <==> exists app: nat :: Chosen(t, target, app, c) {
      forall app: nat ensures Chosen(t, target, app, c) <==> Chosen(s.db, target, app, c) {
        ChosenIgnoresLists(t, s.db, target, app, c);
      }
    }
    MembersDescribeChosen(t, target, Entries(t, members), members);
    SameTablesDescribe(t, s.db, target, Entries(t, members));
  }

  /**
   * The artifact a rebuilding call stores and returns has an entry for every certificate
   * chosen for the target and no other; each entry has the columns of its certificate
   * and of that certificate's application.
   */
  lemma RebuiltEntriesDescribeChosen(s: Server, q: Request, now: Time, vault: Option<VaultMaterial>, u: Server,
                                     o: Outcome)
    requires CoreInv(s) && Rebuilt(s, q, now, vault, u, o)
    ensures o.artifact.certificates.Some? && DescribesChosen(s.db, q.target, o.artifact.certificates.value)
  {
    ReadDescribesChosen(s, q.target);
    hide CoreInv, EnsureTrustListCurrent, ReadTrustList, DescribesChosen, GetOrRegenerate;
    CallCases(s, q, now, vault, u, o);
  }

  // ---- when a call rebuilds, and why ----

  /** `w` whole seconds are left. */
  predicate SecondsLeft(expiresAt: Time, now: Time, w: int) {
    w >= 0 && (if expiresAt <= now then w == 0 else w * 1_000_000 <= expiresAt - now < (w + 1) * 1_000_000)
  }

  /** With `w` whole seconds left, less than the configured percentage of the lifetime remains. */
  predicate Due(c: Settings, w: int) {
    if c.fallsShort then 100 * (w + 1) < c.ttlSeconds * c.thresholdPercent
    else 100 * (w + 1) <= c.ttlSeconds * c.thresholdPercent
  }

  predicate OtherVersion(newest: Option<ArtifactRow>, version: int) {
    newest.Some? && newest.value.trustlistVersion != version
  }

  predicate OtherSigner(newest: Option<ArtifactRow>, key: SigningKey) {
    newest.Some? && (newest.value.signerKeyId != key.keyId
                     || Lower(newest.value.signerFingerprint) != Lower(key.fingerprint))
  }

  /** The last rebuild of the target by this process is less than the interval ago; 0 if it has made none. */
  predicate WithinInterval(s: Server, target: Target, now: Time) {
    && (target in s.lastRegen ==> now < s.lastRegen[target] + s.settings.minIntervalSeconds * 1_000_000)
    && (target !in s.lastRegen ==> now < s.settings.minIntervalSeconds * 1_000_000)
  }

  lemma DueIsBelowThreshold(c: Settings, row: ArtifactRow, now: Time, w: int)
    requires SecondsLeft(row.expiresAt, now, w)
    ensures TtlRemainingSeconds(row, now) == w
    ensures w < ThresholdSeconds(c) <==> Due(c, w)
  {
    var product := c.ttlSeconds * c.thresholdPercent;
    if product < 0 {
      assert ThresholdSeconds(c) <= 0;
    }
  }

  /** The reason of a call, as the column and the signed JSON record it; None: it rebuilds nothing. */
  lemma ReasonIs(s: Server, read: Read, q: Request, now: Time, newest: Option<ArtifactRow>, w: int)
    requires newest == LatestRow(s.db, read.target) && (newest.Some? ==> SecondsLeft(newest.value.expiresAt, now, w))
    ensures var reason := ReasonNow(s, read, q, now);
            && (q.force ==> reason == Some("force_rebuild"))
            && (!q.force && newest.None? ==> reason == Some("cache_miss"))
            && (!q.force && OtherVersion(newest, read.version) ==> reason == Some("version_changed"))
            && (!q.force && newest.Some? && !OtherVersion(newest, read.version) && OtherSigner(newest, s.key) ==>
                  reason == Some("signer_changed"))
            && (!q.force && newest.Some? && !OtherVersion(newest, read.version) && !OtherSigner(newest, s.key) ==>
                  reason == (if !Due(s.settings, w) then None
                             else if q.scheduler then Some("ttl_refresh") else Some("ttl_threshold")))
  {
    if newest.Some? { DueIsBelowThreshold(s.settings, newest.value, now, w); }
    hide ThresholdSeconds, TtlRemainingSeconds, Due;
  }

  /**
   * A call appends a row exactly when Vault is open, the interval since the last rebuild has
   * passed or it is forced, and it is forced or finds no artifact, one of another list
   * version, of another signer, or with less than the configured part of its life left.
   */
  lemma CallRebuildsIff(s: Server, q: Request, now: Time, vault: Option<VaultMaterial>, u: Server, o: Outcome, w: int)
    requires CoreInv(s) && CallResult(s, q, now, vault, u, o)
    requires LatestRow(s.db, q.target).Some? ==> SecondsLeft(LatestRow(s.db, q.target).value.expiresAt, now, w)
    ensures var newest := LatestRow(s.db, q.target);
            (Rebuilt(s, q, now, vault, u, o) <==>
              && vault.Some? && (q.force || !WithinInterval(s, q.target, now))
              && (|| q.force || newest.None? || OtherVersion(newest, LatestVersion(u.db, q.target))
                  || OtherSigner(newest, s.key) || Due(s.settings, w)))
    ensures !Rebuilt(s, q, now, vault, u, o) ==> u.db.artifacts == s.db.artifacts
  {
    CallStart(s, q);
    var s1 := AfterEnsure(s, q.target);
    var read := ReadTrustList(s1, q.target).value;
    ReasonIs(s1, read, q, now, LatestRow(s.db, q.target), w);
    SameInterval(s, s1, q.target, now);
    hide CoreInv, EnsureTrustListCurrent, ReadTrustList, GetOrRegenerate, LatestRow, LatestArtifact, ReasonNow, Due;
    hide LatestVersion, TooSoon, WithinInterval, ReadValid, OtherVersion, OtherSigner;
    CallCases(s, q, now, vault, u, o);
    VersionOfLists(s1.db, u.db, q.target);
  }

  lemma VersionOfLists(t: Tables, u: Tables, target: Target)
    requires t.lists == u.lists
    ensures LatestVersion(t, target) == LatestVersion(u, target)
  {
  }

  lemma SameInterval(s: Server, u: Server, target: Target, now: Time)
    requires s.lastRegen == u.lastRegen && s.settings == u.settings
    ensures TooSoon(u, target, now) <==> WithinInterval(s, target, now)
  {
  }

  // ---- the other fields of the published artifact ----

  /** The artifact has these contents, this reason and this lifetime, and the row stores and signs them. */
  predicate PublishedAs(r: ArtifactRow, s: Server, target: Target, vault: VaultMaterial, now: Time) {
    && r.target == target
    && r.artifact.artifactType == "opcua_trustlist" && r.artifact.schemaVersion == Some(1)
    && r.artifact.zone == Some(target.zone) && r.artifact.role == Some(target.role)
    && r.artifact.caChain == Some(vault.caChain) && r.artifact.crl == Some(vault.crl)
    && r.artifact.crlBundle == Some(vault.crlBundle) && r.artifact.crlMetadata == Some(vault.crlMetadata)
    && r.artifact.reason == r.reason
    && r.generatedAt == now && r.expiresAt == now + s.settings.ttlSeconds * 1_000_000
    && r.artifact.generatedAt == At(r.generatedAt) && r.artifact.expiresAt == At(r.expiresAt)
    && r.artifact.signer == SignerInfo(s.key.keyId, "ed25519", s.key.fingerprint)
    && r.signerKeyId == s.key.keyId && r.signerFingerprint == s.key.fingerprint
    && r.sha256.payload == r.signature.payload && r.signature.keyFingerprint == s.key.fingerprint
    && r.artifact.certificates.Some? && PayloadIs(r.signature.payload, r.artifact)
  }

  lemma RegeneratedAs(s: Server, read: Read, q: Request, now: Time, vault: VaultMaterial)
    requires RegenerateUnderLock(s, read, q, now, Some(vault)).1.Regenerated?
    ensures var u := RegenerateUnderLock(s, read, q, now, Some(vault)).0;
            && |u.db.artifacts| == |s.db.artifacts| + 1
            && var r := u.db.artifacts[|s.db.artifacts|];
            PublishedAs(r, s, read.target, vault, now) && ReasonNow(s, read, q, now) == Some(r.reason)
  {
    hide LatestArtifact, ReasonNow, TooSoon, NextNumber;
  }

  lemma CallRegenerates(s: Server, q: Request, now: Time, vault: Option<VaultMaterial>, u: Server, o: Outcome)
    requires CoreInv(s) && Rebuilt(s, q, now, vault, u, o)
    ensures var s1 := AfterEnsure(s, q.target);
            && ReadTrustList(s1, q.target).Some?
            && var (v, locked) := RegenerateUnderLock(s1, ReadTrustList(s1, q.target).value, q, now, vault);
            locked.Regenerated? && v.db == u.db
  {
    hide CoreInv, EnsureTrustListCurrent, ReadTrustList, RegenerateUnderLock, ReasonNow, LatestArtifact, LatestRow;
    hide ReadValid, LatestVersion;
    CallStart(s, q);
    var s1 := AfterEnsure(s, q.target);
    var read := ReadTrustList(s1, q.target).value;
    KeptLeavesTables(s1, read, q, now, vault);
  }

  /**
   * The row a call appends holds what Vault supplied, the target, the lifetime and the
   * signer, signed as it stands; its reason names the first cause that applies.
   */
  lemma RebuiltRowIsPublishedAs(s: Server, q: Request, now: Time, vault: VaultMaterial, u: Server, o: Outcome, w: int)
    requires CoreInv(s) && Rebuilt(s, q, now, Some(vault), u, o)
    requires LatestRow(s.db, q.target).Some? ==> SecondsLeft(LatestRow(s.db, q.target).value.expiresAt, now, w)
    ensures var r, newest := u.db.artifacts[o.row], LatestRow(s.db, q.target);
            && PublishedAs(r, s, q.target, vault, now)
            && r.reason == (if q.force then "force_rebuild"
                            else if newest.None? then "cache_miss"
                            else if newest.value.trustlistVersion != r.trustlistVersion then "version_changed"
                            else if OtherSigner(newest, s.key) then "signer_changed"
                            else if q.scheduler then "ttl_refresh" else "ttl_threshold")
  {
    CallStart(s, q);
    CallRegenerates(s, q, now, Some(vault), u, o);
    var s1 := AfterEnsure(s, q.target);
    var read := ReadTrustList(s1, q.target).value;
    RegeneratedAs(s1, read, q, now, vault);
    ReasonIs(s1, read, q, now, LatestRow(s.db, q.target), w);
    hide CoreInv, EnsureTrustListCurrent, ReadTrustList, RegenerateUnderLock, LatestArtifact, ReasonNow;
    hide LatestRow, GetOrRegenerate, Due, OtherSigner, PayloadIs;
    RegeneratedRow(s1, read, q, now, Some(vault), q.target);
  }

  // ---- what may change a row, over any run ----

  predicate InForce(t: Tables, c: nat) {
    c < |t.certs| && t.certs[c].status == Active && t.certs[c].revokedAt == None
  }

  /**
   * A certificate row stays in force until it is revoked itself or an expiry scan finds its
   * not_after passed, and never comes back.
   */
  lemma StaysInForceIff(s: Server, step: Step, c: nat)
    requires c < |s.db.certs|
    ensures InForce(Apply(s, step).db, c) <==>
            && InForce(s.db, c) && !(step.RevokeCertificate? && step.certId == c)
            && !(step.ExpireCertificates? && s.db.certs[c].notAfter.Some? && s.db.certs[c].notAfter.value < step.now)
  {
    hide GetOrRegenerate, BuildTrustList, Lifecycle.UpdateLifecycle;
    match step
    case Call(q, now, vault) => CallFrame(s, q, now, vault);
    case Build(target) => BuildLeavesRows(s.db, target);
    case _ =>
  }

  lemma BuildLeavesRows(t: Tables, target: Target)
    ensures var b := BuildTrustList(t, target); b.apps == t.apps && b.certs == t.certs && b.packages == t.packages
  {
  }

  /** UNIQUE(application_uri) and UNIQUE(fingerprint_sha256). */
  predicate KeysUnique(t: Tables) {
    && (forall i, j :: 0 <= i < j < |t.apps| ==> t.apps[i].uri != t.apps[j].uri)
    && (forall i, j :: 0 <= i < j < |t.certs| ==> t.certs[i].fingerprint != t.certs[j].fingerprint)
  }

  /** No row is removed; an application keeps its URI and component type, a certificate all but its status. */
  predicate KeepsIdentities(t: Tables, u: Tables) {
    && |t.apps| <= |u.apps| && |t.certs| <= |u.certs|
    && (forall i :: 0 <= i < |t.apps| ==>
          u.apps[i].uri == t.apps[i].uri && u.apps[i].componentType == t.apps[i].componentType)
    && (forall c :: 0 <= c < |t.certs| ==>
          u.certs[c].(status := t.certs[c].status, revokedAt := t.certs[c].revokedAt) == t.certs[c])
  }

  lemma {:induction false} IndexOfUriFinds(apps: seq<Application>, uri: string)
    ensures IndexOfUri(apps, uri).None? <==> forall i :: 0 <= i < |apps| ==> apps[i].uri != uri
    ensures IndexOfUri(apps, uri).Some? ==> apps[IndexOfUri(apps, uri).value].uri == uri
  {
    if apps != [] {
      var init := apps[..|apps| - 1];
      IndexOfUriFinds(init, uri);
      assert forall i :: 0 <= i < |init| ==> init[i] == apps[i];
    }
  }

  lemma UpsertKeepsIdentities(t: Tables, app: Application)
    requires KeysUnique(t)
    ensures var u := ApplyToTables(t, UpsertApplication(app)); KeysUnique(u) && KeepsIdentities(t, u)
  {
    hide IndexOfUri;
    IndexOfUriFinds(t.apps, app.uri);
  }

  lemma CertificateStepKeepsIdentities(t: Tables, step: Step)
    requires KeysUnique(t)
    requires step.InsertCertificate? || step.RevokeCertificate? || step.ExpireCertificates?
    ensures var u := ApplyToTables(t, step); KeysUnique(u) && KeepsIdentities(t, u)
  {
  }

  lemma StepKeepsIdentities(s: Server, step: Step)
    requires KeysUnique(s.db)
    ensures KeysUnique(Apply(s, step).db) && KeepsIdentities(s.db, Apply(s, step).db)
  {
    hide GetOrRegenerate, BuildTrustList, Lifecycle.UpdateLifecycle, IndexOfUri;
    match step
    case Call(q, now, vault) => CallFrame(s, q, now, vault);
    case Build(target) => BuildLeavesRows(s.db, target);
    case UpsertApplication(app) =>
      hide ApplyToTables, KeysUnique, KeepsIdentities;
      UpsertKeepsIdentities(s.db, app);
    case InsertCertificate(_) =>
      hide ApplyToTables, KeysUnique, KeepsIdentities;
      CertificateStepKeepsIdentities(s.db, step);
    case RevokeCertificate(_, _) =>
      hide ApplyToTables, KeysUnique, KeepsIdentities;
      CertificateStepKeepsIdentities(s.db, step);
    case ExpireCertificates(_) =>
      hide ApplyToTables, KeysUnique, KeepsIdentities;
      CertificateStepKeepsIdentities(s.db, step);
    case _ =>
  }

  /** Over every run keys stay unique and identities fixed. */
  lemma {:induction false} RunKeepsIdentities(s: Server, steps: seq<Step>)
    requires KeysUnique(s.db)
    ensures KeysUnique(Run(s, steps).db) && KeepsIdentities(s.db, Run(s, steps).db)
  {
    if steps != [] {
      RunKeepsIdentities(s, steps[..|steps| - 1]);
      StepKeepsIdentities(Run(s, steps[..|steps| - 1]), steps[|steps| - 1]);
      hide Apply;
    }
  }

  /** An application is active after a heartbeat of its own, or as its last registration said. */
  lemma ActiveIff(s: Server, step: Step, i: nat)
    requires KeysUnique(s.db) && i < |s.db.apps|
    ensures i < |Apply(s, step).db.apps|
    ensures Apply(s, step).db.apps[i].status == "active" <==>
            if step == Heartbeat(i) then true
            else if step.UpsertApplication? && step.app.uri == s.db.apps[i].uri then step.app.status == "active"
            else s.db.apps[i].status == "active"
  {
    hide GetOrRegenerate, BuildTrustList, Lifecycle.UpdateLifecycle, IndexOfUri;
    match step
    case Call(q, now, vault) => CallFrame(s, q, now, vault);
    case Build(target) => BuildLeavesRows(s.db, target);
    case UpsertApplication(app) => IndexOfUriFinds(s.db.apps, app.uri);
    case _ =>
  }
}
