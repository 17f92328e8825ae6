/** The GDS process as the code has it: methods that update tables, cache and clocks in place. */
module GdsServer {
  import opened Common
  import opened Numbering
  import opened Artifacts
  import TrustTables
  import opened Publication
  import opened PublicationRuns
  import Lifecycle

  class Gds {
    var apps: seq<TrustTables.Application>
    var certs: seq<TrustTables.Certificate>
    var packages: seq<TrustTables.Package>
    var lists: seq<TrustTables.TrustList>
    var artifacts: seq<ArtifactRow>
    var cache: map<Target, CacheEntry>
    var lastRegen: map<Target, Time>
    const settings: Settings
    const key: SigningKey

    function Db(): TrustTables.Tables
      reads this
    {
      TrustTables.Tables(apps, certs, packages, lists, artifacts)
    }

    function State(): Server
      reads this
    {
      Server(Db(), cache, lastRegen, settings, key)
    }

    constructor (settings: Settings, key: SigningKey)
      ensures State() == Server(TrustTables.Tables([], [], [], [], []), map[], map[], settings, key)
    {
      apps, certs, packages, lists, artifacts := [], [], [], [], [];
      cache, lastRegen := map[], map[];
      this.settings, this.key := settings, key;
    }

    /** One resolved certificate per authorised application, in a loop over the application rows. */
    method DesiredTrustlistCertificateIds(target: Target) returns (ids: seq<int>)
      ensures ids == TrustTables.Desired(Db(), target)
    {
      ids := [];
      var i := 0;
      while i < |apps|
        invariant 0 <= i <= |apps|
        invariant ids == TrustTables.DesiredUpTo(Db(), target, i)
      {
        if TrustTables.Authorised(Db(), i, target) {
          var cert := TrustTables.ActiveCertificate(Db(), i);
          if cert.Some? {
            ids := ids + [cert.value];
          }
        }
        i := i + 1;
      }
    }

    /** Insert the next version, then its members one by one, skipping conflicts. */
    method BuildTrustList(target: Target)
      modifies this`lists
      ensures Db() == TrustTables.BuildTrustList(old(Db()), target)
    {
      var version := NextNumber(TrustTables.Versions(lists), target);
      var ids := DesiredTrustlistCertificateIds(target);
      var members: seq<int> := [];
      var i := 0;
      while i < |ids|
        invariant 0 <= i <= |ids|
        invariant TrustTables.InsertMembers(members, ids[i..]) == TrustTables.InsertMembers([], ids)
      {
        assert ids[i..][1..] == ids[i + 1..];
        if ids[i] !in members {
          members := members + [ids[i]];
        }
        i := i + 1;
      }
      lists := lists + [TrustTables.TrustList(target, version, members)];
    }

    method EnsureTrustListCurrent(target: Target)
      modifies this`lists
      ensures Db() == TrustTables.EnsureTrustListCurrent(old(Db()), target)
    {
      var desired := DesiredTrustlistCertificateIds(target);
      var latest := TrustTables.LatestList(Db(), target);
      if latest.Some? && Sort(lists[latest.value].members) == Sort(desired) {
        return;
      }
      BuildTrustList(target);
    }

    method InsertTrustArtifact(target: Target, version: int, b: SignedArtifact, reason: string) returns (rowId: nat)
      modifies this`artifacts
      ensures Db() == InsertArtifact(old(Db()), target, version, key, b, reason)
      ensures rowId == |old(artifacts)| == |artifacts| - 1
    {
      rowId := |artifacts|;
      artifacts := artifacts + [
        ArtifactRow(target, version, NextNumber(Revisions(artifacts), target), b.artifact, b.sha256, b.signature,
                    key.keyId, key.fingerprint, b.generatedAt, b.expiresAt, reason)];
    }

    /** `_get_or_regenerate_signed_artifact`. */
    method GetOrRegenerateSignedArtifact(q: Request, now: Time, vault: Option<VaultMaterial>) returns (o: Outcome)
      modifies this`lists, this`artifacts, this`cache, this`lastRegen
      ensures (State(), o) == GetOrRegenerate(old(State()), q, now, vault)
    {
      hide TrustTables.EnsureTrustListCurrent, TrustTables.LatestList, Latest, Revisions, Entries;
      hide BuildSignedArtifact, RegenerationReason, InsertArtifact;
      EnsureTrustListCurrent(q.target);
      var reading := ReadTrustList(State(), q.target);
      if reading.None? {
        return NoTrustList;
      }
      var read := reading.value;
      var row := LatestArtifact(Db(), q.target);
      var reason := ReasonNow(State(), read, q, now);
      var built: Option<Artifact> := None;
      if reason.Some? {
        row := LatestArtifact(Db(), q.target);
        reason := ReasonNow(State(), read, q, now);
        if reason.Some? {
          if !q.force && TooSoon(State(), q.target, now) {
            reason := None;
            row := LatestArtifact(Db(), q.target);
          }
          if reason.Some? {
            var previous := if row.Some? then artifacts[row.value].revision else 0;
            if vault.None? {
              return VaultSealed;
            }
            var signed := BuildSignedArtifact(key, settings.ttlSeconds, q.target, read.version, read.certs,
                                              vault.value, previous + 1, reason.value, now);
            var rowId := InsertTrustArtifact(q.target, read.version, signed, reason.value);
            row := Some(rowId);
            lastRegen := lastRegen[q.target := now];
            built := Some(signed.artifact);
          }
        }
      }
      if row.None? {
        return MissingArtifact;
      }
      var artifact := artifacts[row.value].artifact;
      if built.Some? {
        artifact := built.value;
      } else if read.cacheEntry.Some? && read.cacheEntry.value.rowId == row.value {
        artifact := read.cacheEntry.value.artifact;
      }
      cache := cache[q.target := CacheEntry(row.value, artifacts[row.value].revision, artifact)];
      o := Served(read.version, row.value, artifact);
    }

    /** Every package of the certificate is asked to move to REVOKED. */
    method RevokePackagesOf(certId: nat)
      modifies this`packages
      ensures packages == RevokePackages(old(packages), certId, |old(packages)|)
      ensures PackagesMoved(old(packages), packages, certId)
    {
      RevokePackagesMoves(packages, certId);
      var i := 0;
      while i < |packages|
        invariant 0 <= i <= |packages| == |old(packages)|
        invariant packages == RevokePackages(old(packages), certId, i)
      {
        RevokedIsSupported();
        if packages[i].certificateId == Some(certId) {
          packages := packages[i := Lifecycle.UpdateLifecycle(packages[i], "REVOKED").row];
        }
        i := i + 1;
      }
    }

    /** The state-changing part of `revoke_certificate`. */
    method RevokeCertificate(certId: nat, at: Time, now: Time, vault: Option<VaultMaterial>)
      returns (o: Option<Outcome>)
      modifies this`certs, this`packages, this`lists, this`artifacts, this`cache, this`lastRegen
      ensures (State(), o) == Revoke(old(State()), certId, at, now, vault)
      ensures o.None? ==> State() == old(State())
      ensures o.Some? ==> CertificateMarked(old(certs), certs, certId, at)
                          && PackagesMoved(old(packages), packages, certId) && apps == old(apps)
    {
      RevokeEffect(State(), certId, at, now, vault);
      hide TrustTables.BuildTrustList, CertificateMarked, PackagesMoved, GetOrRegenerate, RevokePackages;
      if certId >= |certs| || certs[certId].applicationId >= |apps| {
        return None;
      }
      var app := apps[certs[certId].applicationId];
      var target := Target(app.zone, app.role);
      certs := MarkRevoked(Db(), certId, at).certs;
      RevokePackagesOf(certId);
      BuildTrustList(target);
      var outcome := GetOrRegenerateSignedArtifact(Request(target, true, false), now, vault);
      o := Some(outcome);
    }
  }

  lemma RevokedIsSupported()
    ensures Lifecycle.Upper("REVOKED") == "REVOKED"
  {
  }

  /** The first n package rows of a certificate moved to REVOKED. */
  function RevokePackages(packages: seq<TrustTables.Package>, certId: nat, n: nat): (r: seq<TrustTables.Package>)
    requires n <= |packages|
    ensures |r| == |packages|
    ensures forall i :: n <= i < |packages| ==> r[i] == packages[i]
  {
    if n == 0 then packages
    else
      var rest := RevokePackages(packages, certId, n - 1);
      if rest[n - 1].certificateId == Some(certId) then
        RevokedIsSupported();
        rest[n - 1 := Lifecycle.UpdateLifecycle(rest[n - 1], "REVOKED").row]
      else rest
  }

  /** Revocation as one function: mark, move the packages, publish a new list, force a new artifact. */
  function Revoke(s: Server, certId: nat, at: Time, now: Time, vault: Option<VaultMaterial>)
    : (Server, Option<Outcome>)
  {
    if certId >= |s.db.certs| || s.db.certs[certId].applicationId >= |s.db.apps| then (s, None)
    else
      var app := s.db.apps[s.db.certs[certId].applicationId];
      var target := Target(app.zone, app.role);
      var marked := MarkRevoked(s.db, certId, at);
      var moved := marked.(packages := RevokePackages(marked.packages, certId, |marked.packages|));
      var built := s.(db := TrustTables.BuildTrustList(moved, target));
      var (u, o) := GetOrRegenerate(built, Request(target, true, false), now, vault);
      (u, Some(o))
  }

  /**
   * Packages of the certificate are REVOKED and marked, unless they had EXPIRED; every
   * other package row is the one it was.
   */
  predicate PackagesMoved(before: seq<TrustTables.Package>, after: seq<TrustTables.Package>, certId: nat) {
    && |after| == |before|
    && (forall i :: 0 <= i < |before| && before[i].certificateId != Some(certId) ==> after[i] == before[i])
    && (forall i :: 0 <= i < |before| && before[i].certificateId == Some(certId) ==>
          after[i] == if Lifecycle.Upper(before[i].lifecycle) == "EXPIRED" then before[i].(lifecycle := "EXPIRED")
                      else before[i].(lifecycle := "REVOKED", status := TrustTables.RevokedPackage))
  }

  predicate PackageMoved(before: TrustTables.Package, after: TrustTables.Package, certId: nat) {
    after == if before.certificateId != Some(certId) then before
             else if Lifecycle.Upper(before.lifecycle) == "EXPIRED" then before.(lifecycle := "EXPIRED")
             else before.(lifecycle := "REVOKED", status := TrustTables.RevokedPackage)
  }

  lemma {:induction false} RevokePackagesAt(packages: seq<TrustTables.Package>, certId: nat, n: nat, i: nat)
    requires i < n <= |packages|
    ensures PackageMoved(packages[i], RevokePackages(packages, certId, n)[i], certId)
  {
    if i < n - 1 {
      RevokePackagesAt(packages, certId, n - 1, i);
      hide PackageMoved, Lifecycle.UpdateLifecycle;
    } else {
      RevokedRequest(packages[i]);
      hide Lifecycle.UpdateLifecycle, Lifecycle.Upper;
    }
  }

  lemma RevokePackagesMoves(packages: seq<TrustTables.Package>, certId: nat)
    ensures PackagesMoved(packages, RevokePackages(packages, certId, |packages|), certId)
  {
    hide RevokePackages, Lifecycle.Upper;
    forall i | 0 <= i < |packages|
      ensures PackageMoved(packages[i], RevokePackages(packages, certId, |packages|)[i], certId)
    {
      RevokePackagesAt(packages, certId, |packages|, i);
    }
  }

  lemma RevokedRequest(p: TrustTables.Package)
    ensures Lifecycle.UpdateLifecycle(p, "REVOKED")
         == Lifecycle.Updated(if Lifecycle.Upper(p.lifecycle) == "EXPIRED" then p.(lifecycle := "EXPIRED")
                              else p.(lifecycle := "REVOKED", status := TrustTables.RevokedPackage))
  {
    RevokedIsSupported();
    if Lifecycle.Rank(Lifecycle.Upper(p.lifecycle)) > 90 {
      Lifecycle.RankIsInjective(Lifecycle.Upper(p.lifecycle), "EXPIRED");
    }
    hide Lifecycle.Upper;
  }

  /** The certificate's row is marked, keeping the first revocation time; every other row is the one it was. */
  predicate CertificateMarked(before: seq<TrustTables.Certificate>, after: seq<TrustTables.Certificate>, certId: nat,
                              at: Time)
  {
    && certId < |before| == |after|
    && (forall i :: 0 <= i < |before| && i != certId ==> after[i] == before[i])
    && after[certId].status == TrustTables.Revoked
    && after[certId].revokedAt == (if before[certId].revokedAt == None then Some(at) else before[certId].revokedAt)
    && after[certId].(status := before[certId].status, revokedAt := before[certId].revokedAt) == before[certId]
  }

  /** What a revocation does to the rows; an unknown certificate changes nothing. */
  lemma RevokeEffect(s: Server, certId: nat, at: Time, now: Time, vault: Option<VaultMaterial>)
    ensures var (u, o) := Revoke(s, certId, at, now, vault);
            && (o.None? ==> u == s)
            && (o.Some? <==> certId < |s.db.certs| && s.db.certs[certId].applicationId < |s.db.apps|)
            && (o.Some? ==> CertificateMarked(s.db.certs, u.db.certs, certId, at)
                            && PackagesMoved(s.db.packages, u.db.packages, certId) && u.db.apps == s.db.apps)
  {
    if certId < |s.db.certs| && s.db.certs[certId].applicationId < |s.db.apps| {
      var app := s.db.apps[s.db.certs[certId].applicationId];
      var target := Target(app.zone, app.role);
      var marked := MarkRevoked(s.db, certId, at);
      RevokePackagesMoves(s.db.packages, certId);
      hide PackagesMoved, GetOrRegenerate, RevokePackages;
      var moved := marked.(packages := RevokePackages(marked.packages, certId, |marked.packages|));
      CallFrame(s.(db := TrustTables.BuildTrustList(moved, target)), Request(target, true, false), now, vault);
    }
  }

  lemma {:induction false} RevokedPackagesNeverActivated(packages: seq<TrustTables.Package>, certId: nat, n: nat,
                                                         i: nat)
    requires n <= |packages| && i < n && packages[i].certificateId == Some(certId)
             && Lifecycle.Known(packages[i].lifecycle)
    ensures var p := RevokePackages(packages, certId, n)[i];
            && p.certificateId == Some(certId)
            && (p.lifecycle == "REVOKED" || p.lifecycle == "EXPIRED")
            && (p.lifecycle == "REVOKED" ==> p.status == TrustTables.RevokedPackage)
  {
    RevokedIsSupported();
    if i < n - 1 {
      RevokedPackagesNeverActivated(packages, certId, n - 1, i);
    } else {
      var p := packages[i];
      if Lifecycle.Rank(p.lifecycle) >= 90 {
        if p.lifecycle != "EXPIRED" { Lifecycle.RankIsInjective(p.lifecycle, "REVOKED"); }
      }
    }
  }

  /** A forced call after the revocation appends an artifact without the certificate, or Vault refuses. */
  lemma ForcedCallOmits(s: Server, target: Target, now: Time, vault: Option<VaultMaterial>, u: Server, o: Outcome,
                        c: nat)
    requires Inv(s) && IsRevoked(s.db, c) && CallResult(s, Request(target, true, false), now, vault, u, o)
    ensures Inv(u) && IsRevoked(u.db, c) && Extends(s.db, u.db)
    ensures o.Served? || (o.VaultSealed? && vault.None?)
    ensures o.Served? ==>
              && o.row < |u.db.artifacts| && LatestArtifact(u.db, target) == Some(o.row) && o.row >= |s.db.artifacts|
              && u.db.artifacts[o.row].artifact.certificates.Some?
              && !ListsCert(u.db.artifacts[o.row].artifact.certificates.value, c)
  {
    InvIsCore(s);
    ReadListsUsableOnly(s, target, c);
    hide GetOrRegenerate, TrustTables.LatestList, LatestArtifact, VersionsAscend, ListsCert, CoreInv, CallResult;
    hide TrustTables.EnsureTrustListCurrent;
    var q := Request(target, true, false);
    CallServesLatestRow(s, q, now, vault, u, o);
    CallCases(s, q, now, vault, u, o);
    assert !UpToDate(s, q, now) && !Throttled(s, q, now);
  }

  /**
   * After a revocation the certificate is out of force, the revoker's own trust
   * list has a newer version, and unless Vault refused, the newest artifact of
   * that target no longer names it; the invariant of all runs holds again.
   */
  lemma RevokePublishesAtOnce(s: Server, certId: nat, at: Time, now: Time, vault: Option<VaultMaterial>, u: Server,
                              o: Option<Outcome>)
    requires Inv(s) && certId < |s.db.certs| && s.db.certs[certId].applicationId < |s.db.apps|
    requires (u, o) == Revoke(s, certId, at, now, vault)
    ensures Inv(u) && IsRevoked(u.db, certId) && Extends(s.db, u.db)
    ensures var app := s.db.apps[s.db.certs[certId].applicationId];
            var target := Target(app.zone, app.role);
            && o.Some? && (o.value.Served? || (o.value.VaultSealed? && vault.None?))
            && LatestVersion(u.db, target) > LatestVersion(s.db, target)
            && (o.value.Served? ==>
                  && o.value.row < |u.db.artifacts|
                  && LatestArtifact(u.db, target) == Some(o.value.row)
                  && o.value.row >= |s.db.artifacts|
                  && u.db.artifacts[o.value.row].artifact.certificates.Some?
                  && !ListsCert(u.db.artifacts[o.value.row].artifact.certificates.value, certId))
  {
    hide GetOrRegenerate, TrustTables.LatestList, LatestArtifact, VersionsAscend, ListsCert, CoreInv;
    var app := s.db.apps[s.db.certs[certId].applicationId];
    var target := Target(app.zone, app.role);
    var packages := RevokePackages(s.db.packages, certId, |s.db.packages|);
    var moved := s.(db := MarkRevoked(s.db, certId, at).(packages := packages));
    var built := moved.(db := TrustTables.BuildTrustList(moved.db, target));
    OtherTablesKeepInv(s, moved);
    BuildKeepsInv(moved, target);
    assert (u, o.value) == GetOrRegenerate(built, Request(target, true, false), now, vault);
    ForcedCallOmits(built, target, now, vault, u, o.value, certId);
    BuiltVersionGrows(moved.db, target);
    ListsAreNumbered(u);
    VersionsPrefix(built.db, u.db, target);
  }

  lemma ListsAreNumbered(s: Server)
    requires Inv(s)
    ensures TrustTables.ListsNumbered(s.db)
  {
  }

  lemma BuiltVersionGrows(t: TrustTables.Tables, target: Target)
    ensures LatestVersion(TrustTables.BuildTrustList(t, target), target) == LatestVersion(t, target) + 1
  {
    var b := TrustTables.BuildTrustList(t, target);
    var row := (target, b.lists[|t.lists|].version);
    assert TrustTables.Versions(b.lists) == TrustTables.Versions(t.lists) + [row];
    CountAppend(TrustTables.Versions(t.lists), row, target);
  }
}
