/**
 * Publication of signed trust artifacts as a state machine over values: the
 * tables, the artifact cache and the regeneration clock of one GDS process.
 * Here one call is one step; `Interleaving` splits calls at the lock.
 */
module Publication {
  import opened Common
  import opened Numbering
  import opened Artifacts
  import opened TrustTables

  /** `fallsShort`: the float ttl * (percent / 100.0) lies just below the integer it should be. */
  datatype Settings = Settings(ttlSeconds: int, thresholdPercent: int, minIntervalSeconds: int, fallsShort: bool)
  datatype CacheEntry = CacheEntry(rowId: nat, revision: int, artifact: Artifact)

  /** `lastRegen` is ARTIFACT_REGEN_LAST_AT; `cache` is SIGNED_ARTIFACT_CACHE; both start empty in a new process. */
  datatype Server = Server(db: Tables, cache: map<Target, CacheEntry>, lastRegen: map<Target, Time>,
                           settings: Settings, key: SigningKey)

  // ---- queries ----

  function Revisions(rows: seq<ArtifactRow>): seq<(Target, int)> {
    seq(|rows|, i requires 0 <= i < |rows| => (rows[i].target, rows[i].revision))
  }

  /** `get_latest_trust_artifact`. */
  function LatestArtifact(t: Tables, target: Target): (r: Option<nat>)
    ensures r.Some? ==> r.value < |t.artifacts| && t.artifacts[r.value].target == target
  {
    Latest(Revisions(t.artifacts), target)
  }

  function LatestRow(t: Tables, target: Target): Option<ArtifactRow> {
    match LatestArtifact(t, target)
    case None => None
    case Some(i) => Some(t.artifacts[i])
  }

  /** The members joined with certificates and applications; rows without a match drop out. */
  function Entries(t: Tables, ids: seq<int>): seq<CertEntry> {
    if ids == [] then []
    else
      var c := ids[0];
      (if 0 <= c < |t.certs| && t.certs[c].applicationId < |t.apps| then
         var app := t.apps[t.certs[c].applicationId];
         [CertEntry(Some(c), Some(app.uri), Some(app.commonName), Some(t.certs[c].fingerprint), Some(t.certs[c].pem),
                    Some(app.zone), Some(app.role), Some(app.componentType))]
       else []) + Entries(t, ids[1..])
  }

  // ---- when to regenerate ----

  /** `max(0, int((expires - now).total_seconds()))`. */
  function TtlRemainingSeconds(row: ArtifactRow, now: Time): int {
    if row.expiresAt <= now then 0 else (row.expiresAt - now) / SECOND
  }

  /** `int(ttl * (percent / 100.0))` for a product that is not negative. */
  function Truncated(product: nat, fallsShort: bool): int {
    if fallsShort && product > 0 && product % 100 == 0 then product / 100 - 1 else product / 100
  }

  /** `int` truncates toward zero, so a float just short of an integer counts one second less. */
  function ThresholdSeconds(s: Settings): int {
    var product := s.ttlSeconds * s.thresholdPercent;
    if product >= 0 then Truncated(product, s.fallsShort) else -Truncated(-product, s.fallsShort)
  }

  /** `_regeneration_reason`. */
  function RegenerationReason(version: int, row: Option<ArtifactRow>, force: bool, scheduler: bool,
                              key: SigningKey, s: Settings, now: Time): Option<string>
  {
    if force then Some("force_rebuild")
    else match row
      case None => Some("cache_miss")
      case Some(r) =>
        if r.trustlistVersion != version then Some("version_changed")
        else if r.signerKeyId != key.keyId then Some("signer_changed")
        else if Lower(r.signerFingerprint) != Lower(key.fingerprint) then Some("signer_changed")
        else if TtlRemainingSeconds(r, now) < ThresholdSeconds(s) then
          Some(if scheduler then "ttl_refresh" else "ttl_threshold")
        else None
  }

  // ---- one call, in its four sections ----

  /** What a call carries with it after the unlocked reads. */
  datatype Read = Read(target: Target, version: int, certs: seq<CertEntry>, cacheEntry: Option<CacheEntry>)

  datatype Request = Request(target: Target, force: bool, scheduler: bool)

  /** `get_latest_trust_list_with_certs`, then the look into the cache. */
  function ReadTrustList(s: Server, target: Target): Option<Read> {
    match LatestList(s.db, target)
    case None => None
    case Some(l) =>
      Some(Read(target, s.db.lists[l].version, Entries(s.db, s.db.lists[l].members),
                if target in s.cache then Some(s.cache[target]) else None))
  }

  function ReasonNow(s: Server, read: Read, q: Request, now: Time): Option<string> {
    RegenerationReason(read.version, LatestRow(s.db, read.target), q.force, q.scheduler, s.key, s.settings, now)
  }

  /** The throttle: an unforced regeneration too soon after this process's last one is dropped. */
  predicate TooSoon(s: Server, target: Target, now: Time) {
    now - (if target in s.lastRegen then s.lastRegen[target] else 0) < s.settings.minIntervalSeconds * SECOND
  }

  datatype Locked = Kept(row: Option<nat>) | Regenerated(rowId: nat, artifact: Artifact) | VaultFailed

  /** `insert_trust_artifact`: the database numbers the row, whatever revision the artifact was built with. */
  function InsertArtifact(t: Tables, target: Target, version: int, key: SigningKey, b: SignedArtifact, reason: string)
    : Tables
  {
    t.(artifacts := t.artifacts + [
         ArtifactRow(target, version, NextNumber(Revisions(t.artifacts), target), b.artifact, b.sha256, b.signature,
                     key.keyId, key.fingerprint, b.generatedAt, b.expiresAt, reason)])
  }

  /** The second locked section: re-check, throttle, build, insert.  `vault` is None when Vault is sealed. */
  function RegenerateUnderLock(s: Server, read: Read, q: Request, now: Time, vault: Option<VaultMaterial>)
    : (Server, Locked)
  {
    var row := LatestArtifact(s.db, read.target);
    var reason := ReasonNow(s, read, q, now);
    if reason.None? then (s, Kept(row))
    else if !q.force && TooSoon(s, read.target, now) then (s, Kept(row))
    else if vault.None? then (s, VaultFailed)
    else
      var previous := if row.Some? then s.db.artifacts[row.value].revision else 0;
      var b := BuildSignedArtifact(s.key, s.settings.ttlSeconds, read.target, read.version, read.certs,
                                   vault.value, previous + 1, reason.value, now);
      var db := InsertArtifact(s.db, read.target, read.version, s.key, b, reason.value);
      (s.(db := db, lastRegen := s.lastRegen[read.target := now]), Regenerated(|s.db.artifacts|, b.artifact))
  }

  datatype Outcome = Served(version: int, row: nat, artifact: Artifact) | NoTrustList | VaultSealed | MissingArtifact

  /** The unlocked tail: take the artifact from the cache or the row, store it in the cache, return. */
  function Deliver(s: Server, read: Read, row: Option<nat>, built: Option<Artifact>): (Server, Outcome) {
    match row
    case None => (s, MissingArtifact)
    case Some(i) =>
      if i >= |s.db.artifacts| then (s, MissingArtifact)
      else
        var artifact :=
          if built.Some? then built.value
          else if read.cacheEntry.Some? && read.cacheEntry.value.rowId == i then read.cacheEntry.value.artifact
          else s.db.artifacts[i].artifact;
        (s.(cache := s.cache[read.target := CacheEntry(i, s.db.artifacts[i].revision, artifact)]),
         Served(read.version, i, artifact))
  }

  /** The two locked sections back to back. */
  function LockedSections(s: Server, read: Read, q: Request, now: Time, vault: Option<VaultMaterial>)
    : (Server, Locked)
  {
    if ReasonNow(s, read, q, now).None? then (s, Kept(LatestArtifact(s.db, read.target)))
    else RegenerateUnderLock(s, read, q, now, vault)
  }

  /** Everything after the unlocked reads. */
  function Proceed(s: Server, read: Read, q: Request, now: Time, vault: Option<VaultMaterial>): (Server, Outcome) {
    var (u, locked) := LockedSections(s, read, q, now, vault);
    match locked
    case Kept(row) => Deliver(u, read, row, None)
    case Regenerated(row, artifact) => Deliver(u, read, Some(row), Some(artifact))
    case VaultFailed => (u, VaultSealed)
  }

  /** `_get_or_regenerate_signed_artifact` as one step with one clock reading. */
  function GetOrRegenerate(s: Server, q: Request, now: Time, vault: Option<VaultMaterial>): (Server, Outcome) {
    var s1 := s.(db := EnsureTrustListCurrent(s.db, q.target));
    match ReadTrustList(s1, q.target)
    case None => (s1, NoTrustList)
    case Some(read) => Proceed(s1, read, q, now, vault)
  }

  // ---- the invariant ----

  predicate RowsSound(t: Tables) {
    forall i :: 0 <= i < |t.artifacts| ==> RowSound(t.artifacts[i])
  }

  predicate EntriesWithin(entries: seq<CertEntry>, members: seq<int>) {
    forall e :: e in entries ==> e.certificateId.Some? && e.certificateId.value in members
  }

  predicate ListHolds(t: Tables, l: nat, target: Target, version: int, entries: seq<CertEntry>) {
    l < |t.lists| && t.lists[l].target == target && t.lists[l].version == version
    && EntriesWithin(entries, t.lists[l].members)
  }

  /** The certificates come from the published list with that target and version. */
  ghost predicate FromList(t: Tables, target: Target, version: int, entries: seq<CertEntry>) {
    exists l: nat :: ListHolds(t, l, target, version, entries)
  }

  ghost predicate RowsFromLists(t: Tables) {
    forall i :: 0 <= i < |t.artifacts| ==>
      var r := t.artifacts[i];
      r.artifact.certificates.Some? && FromList(t, r.target, r.trustlistVersion, r.artifact.certificates.value)
  }

  predicate EntryAgrees(t: Tables, target: Target, e: CacheEntry) {
    && e.rowId < |t.artifacts|
    && t.artifacts[e.rowId].target == target
    && t.artifacts[e.rowId].revision == e.revision
    && t.artifacts[e.rowId].artifact == e.artifact
  }

  predicate CacheAgrees(s: Server) {
    forall k :: k in s.cache ==> EntryAgrees(s.db, k, s.cache[k])
  }

  /** The clock of a target is the generation time of its newest row, which this process's key signed. */
  predicate ClockAgrees(s: Server, k: Target)
    requires k in s.lastRegen
  {
    LatestRow(s.db, k).Some? &&
    (var r := LatestRow(s.db, k).value;
     && r.generatedAt == s.lastRegen[k]
     && r.expiresAt == s.lastRegen[k] + s.settings.ttlSeconds * SECOND
     && r.signerKeyId == s.key.keyId && r.signerFingerprint == s.key.fingerprint)
  }

  ghost predicate TablesInv(t: Tables) {
    && ListsNumbered(t) && MembersDistinct(t)
    && Sequential(Revisions(t.artifacts))
    && RowsSound(t) && RowsFromLists(t)
  }

  /** What survives every interleaving. */
  ghost predicate CoreInv(s: Server) {
    && Lower(s.key.fingerprint) == s.key.fingerprint
    && TablesInv(s.db)
    && CacheAgrees(s)
    && (forall k :: k in s.lastRegen ==> ClockAgrees(s, k))
  }

  /** Published lists and artifact rows are never changed or removed. */
  predicate Extends(t: Tables, u: Tables) {
    t.lists <= u.lists && t.artifacts <= u.artifacts
  }

  /** What a call read before the lock stays true of every later table state. */
  ghost predicate ReadValid(t: Tables, read: Read) {
    && FromList(t, read.target, read.version, read.certs)
    && (read.cacheEntry.Some? ==> EntryAgrees(t, read.target, read.cacheEntry.value))
  }

  lemma FromListExtends(t: Tables, u: Tables, target: Target, version: int, entries: seq<CertEntry>)
    requires t.lists <= u.lists && FromList(t, target, version, entries)
    ensures FromList(u, target, version, entries)
  {
    var l: nat :| ListHolds(t, l, target, version, entries);
    assert ListHolds(u, l, target, version, entries);
  }

  lemma ReadStaysValid(t: Tables, u: Tables, read: Read)
    requires Extends(t, u) && ReadValid(t, read)
    ensures ReadValid(u, read)
  {
    FromListExtends(t, u, read.target, read.version, read.certs);
  }

  lemma {:induction false} EntriesAreMembers(t: Tables, ids: seq<int>, members: seq<int>)
    requires forall i :: 0 <= i < |ids| ==> ids[i] in members
    ensures EntriesWithin(Entries(t, ids), members)
  {
    if ids != [] {
      EntriesAreMembers(t, ids[1..], members);
    }
  }

  lemma ReadIsValid(s: Server, target: Target)
    requires CoreInv(s) && ReadTrustList(s, target).Some?
    ensures ReadValid(s.db, ReadTrustList(s, target).value)
  {
    var l := LatestList(s.db, target).value;
    EntriesAreMembers(s.db, s.db.lists[l].members, s.db.lists[l].members);
    assert ListHolds(s.db, l, target, s.db.lists[l].version, Entries(s.db, s.db.lists[l].members));
  }

  lemma AppendedRowsSound(t: Tables, u: Tables)
    requires RowsSound(t) && RowsFromLists(t) && t.lists == u.lists
    requires |u.artifacts| == |t.artifacts| + 1 && u.artifacts[..|t.artifacts|] == t.artifacts
    requires var r := u.artifacts[|t.artifacts|];
             RowSound(r) && r.artifact.certificates.Some?
             && FromList(t, r.target, r.trustlistVersion, r.artifact.certificates.value)
    ensures RowsSound(u) && RowsFromLists(u)
  {
    hide RowSound;
    forall i | 0 <= i < |u.artifacts|
      ensures RowSound(u.artifacts[i])
      ensures var r := u.artifacts[i];
              r.artifact.certificates.Some? && FromList(u, r.target, r.trustlistVersion, r.artifact.certificates.value)
    {
      if i < |t.artifacts| {
        assert u.artifacts[i] == t.artifacts[i];
      }
      var r := u.artifacts[i];
      FromListExtends(t, u, r.target, r.trustlistVersion, r.artifact.certificates.value);
    }
  }

  /** Inserting under the lock: the database's number is the revision the artifact was built with. */
  lemma InsertIsSound(t: Tables, target: Target, version: int, key: SigningKey, settings: Settings,
                      certs: seq<CertEntry>, vault: VaultMaterial, reason: string, now: Time, other: Target)
    requires TablesInv(t) && FromList(t, target, version, certs) && Lower(key.fingerprint) == key.fingerprint
    ensures var row := LatestArtifact(t, target);
            var previous := if row.Some? then t.artifacts[row.value].revision else 0;
            var b := BuildSignedArtifact(key, settings.ttlSeconds, target, version, certs, vault, previous + 1,
                                         reason, now);
            var u := InsertArtifact(t, target, version, key, b, reason);
            && TablesInv(u) && Extends(t, u) && |u.artifacts| == |t.artifacts| + 1
            && u.artifacts[|t.artifacts|].revision == previous + 1 == NextNumber(Revisions(t.artifacts), target)
            && LatestArtifact(u, target) == Some(|t.artifacts|)
            && (other != target ==> LatestArtifact(u, other) == LatestArtifact(t, other))
  {
    var rows := Revisions(t.artifacts);
    var row := LatestArtifact(t, target);
    var previous := if row.Some? then t.artifacts[row.value].revision else 0;
    MaxIsCount(rows, target);
    LatestIsLast(rows, target);
    assert previous == CountOf(rows, target);
    var b := BuildSignedArtifact(key, settings.ttlSeconds, target, version, certs, vault, previous + 1, reason, now);
    var u := InsertArtifact(t, target, version, key, b, reason);
    assert Revisions(u.artifacts) == rows + [(target, previous + 1)];
    AppendSequentialIff(rows, (target, previous + 1));
    LatestAppend(rows, (target, previous + 1), target);
    LatestAppend(rows, (target, previous + 1), other);
    BuiltRowIsSound(key, settings.ttlSeconds, target, version, certs, vault, previous + 1, reason, now);
    AppendedRowsSound(t, u);
  }

  lemma CacheExtends(s: Server, u: Server)
    requires CacheAgrees(s) && Extends(s.db, u.db) && u.cache == s.cache
    ensures CacheAgrees(u)
  {
  }

  lemma ClockExtends(s: Server, u: Server, k: Target)
    requires k in s.lastRegen && ClockAgrees(s, k) && Extends(s.db, u.db)
    requires k in u.lastRegen && u.lastRegen[k] == s.lastRegen[k] && u.settings == s.settings && u.key == s.key
    requires LatestArtifact(u.db, k) == LatestArtifact(s.db, k)
    ensures ClockAgrees(u, k)
  {
  }

  /** The row a regeneration inserts. */
  lemma RegeneratedRow(s: Server, read: Read, q: Request, now: Time, vault: Option<VaultMaterial>, other: Target)
    requires CoreInv(s) && ReadValid(s.db, read)
    requires RegenerateUnderLock(s, read, q, now, vault).1.Regenerated?
    ensures var (u, locked) := RegenerateUnderLock(s, read, q, now, vault);
            && TablesInv(u.db) && Extends(s.db, u.db) && u.db.lists == s.db.lists
            && locked.rowId == |s.db.artifacts| == |u.db.artifacts| - 1
            && LatestArtifact(u.db, read.target) == Some(locked.rowId)
            && (other != read.target ==> LatestArtifact(u.db, other) == LatestArtifact(s.db, other))
            && var r := u.db.artifacts[locked.rowId];
            && r.target == read.target && r.trustlistVersion == read.version
            && r.artifact == locked.artifact && r.artifact.certificates == Some(read.certs)
            && r.signerKeyId == s.key.keyId && r.signerFingerprint == s.key.fingerprint
            && r.generatedAt == now && r.expiresAt == now + s.settings.ttlSeconds * SECOND
  {
    hide TablesInv, LatestArtifact, CacheAgrees, ClockAgrees, FromList, ReasonNow, TooSoon;
    var reason := ReasonNow(s, read, q, now).value;
    InsertIsSound(s.db, read.target, read.version, s.key, s.settings, read.certs, vault.value, reason, now, other);
  }

  /** The locked section keeps the invariant whatever happened since the unlocked reads. */
  lemma RegenerateKeepsCore(s: Server, read: Read, q: Request, now: Time, vault: Option<VaultMaterial>)
    requires CoreInv(s) && ReadValid(s.db, read)
    ensures var (u, locked) := RegenerateUnderLock(s, read, q, now, vault);
            && CoreInv(u) && Extends(s.db, u.db) && ReadValid(u.db, read)
            && u.cache == s.cache && u.settings == s.settings && u.key == s.key
            && (!locked.Regenerated? ==> u == s)
            && (locked.Kept? ==> locked.row == LatestArtifact(s.db, read.target))
  {
    var (u, locked) := RegenerateUnderLock(s, read, q, now, vault);
    if locked.Regenerated? {
      RegeneratedRow(s, read, q, now, vault, read.target);
      CacheExtends(s, u);
      ReadStaysValid(s.db, u.db, read);
      forall k | k in u.lastRegen ensures ClockAgrees(u, k) {
        RegeneratedRow(s, read, q, now, vault, k);
        if k != read.target {
          ClockExtends(s, u, k);
        }
      }
    }
  }

  /** The unlocked tail keeps the invariant, and what it returns is the stored JSON of the row. */
  lemma DeliverKeepsCore(s: Server, read: Read, row: Option<nat>, built: Option<Artifact>)
    requires CoreInv(s) && ReadValid(s.db, read)
    requires row.Some? ==> row.value < |s.db.artifacts| && s.db.artifacts[row.value].target == read.target
    requires built.Some? ==> row.Some? && built.value == s.db.artifacts[row.value].artifact
    ensures var (u, o) := Deliver(s, read, row, built);
            && CoreInv(u) && u.db == s.db && SameProcess(s, u) && u.lastRegen == s.lastRegen
            && u.settings == s.settings && u.key == s.key
            && (row.None? ==> o.MissingArtifact?)
            && (row.Some? ==>
                  && o == Served(read.version, row.value, s.db.artifacts[row.value].artifact)
                  && u.cache == s.cache[read.target := CacheEntry(row.value, s.db.artifacts[row.value].revision,
                                                                  s.db.artifacts[row.value].artifact)])
  {
    hide TablesInv, LatestArtifact, FromList;
    var (u, o) := Deliver(s, read, row, built);
    forall k | k in u.lastRegen ensures ClockAgrees(u, k) {
      assert ClockAgrees(s, k);
    }
  }

  // ---- what the sections of a call do ----

  predicate SameProcess(s: Server, u: Server) {
    u.settings == s.settings && u.key == s.key
    && u.db.apps == s.db.apps && u.db.certs == s.db.certs && u.db.packages == s.db.packages
  }

  /** The call will build a new artifact, Vault permitting. */
  predicate Regenerates(s: Server, read: Read, q: Request, now: Time) {
    ReasonNow(s, read, q, now).Some? && (q.force || !TooSoon(s, read.target, now))
  }

  /** Otherwise it returns the newest stored row, or fails when there is none. */
  function StoredOutcome(s: Server, read: Read): Outcome {
    match LatestArtifact(s.db, read.target)
    case None => MissingArtifact
    case Some(i) => Served(read.version, i, s.db.artifacts[i].artifact)
  }

  /** A row freshly built from what the call read. */
  predicate FreshRow(r: ArtifactRow, s: Server, read: Read, now: Time) {
    && r.target == read.target && r.trustlistVersion == read.version
    && r.artifact.certificates == Some(read.certs)
    && r.signerKeyId == s.key.keyId && r.signerFingerprint == s.key.fingerprint
    && r.generatedAt == now && r.expiresAt == now + s.settings.ttlSeconds * SECOND
  }

  /** The whole of a call after its reads, case by case; the invariant holds again afterwards. */
  lemma ProceedCases(s: Server, read: Read, q: Request, now: Time, vault: Option<VaultMaterial>)
    requires CoreInv(s) && ReadValid(s.db, read)
    ensures var (u, o) := Proceed(s, read, q, now, vault);
            && CoreInv(u) && Extends(s.db, u.db) && SameProcess(s, u) && u.db.lists == s.db.lists
            && (!Regenerates(s, read, q, now) ==> u.db == s.db && o == StoredOutcome(s, read))
            && (Regenerates(s, read, q, now) && vault.None? ==> u == s && o == VaultSealed)
            && (Regenerates(s, read, q, now) && vault.Some? ==>
                  && |u.db.artifacts| == |s.db.artifacts| + 1
                  && FreshRow(u.db.artifacts[|s.db.artifacts|], s, read, now)
                  && LatestArtifact(u.db, read.target) == Some(|s.db.artifacts|)
                  && o == Served(read.version, |s.db.artifacts|, u.db.artifacts[|s.db.artifacts|].artifact))
  {
    hide LatestArtifact, BuildSignedArtifact, InsertArtifact, RegenerationReason;
    var (u, locked) := LockedSections(s, read, q, now, vault);
    RegenerateKeepsCore(s, read, q, now, vault);
    RegenerateFrame(s, read, q, now, vault);
    match locked {
      case Kept(row) => DeliverKeepsCore(u, read, row, None);
      case Regenerated(row, artifact) =>
        RegeneratedRow(s, read, q, now, vault, read.target);
        DeliverKeepsCore(u, read, Some(row), Some(artifact));
      case VaultFailed =>
    }
  }

  lemma RegenerateFrame(s: Server, read: Read, q: Request, now: Time, vault: Option<VaultMaterial>)
    ensures var (u, locked) := RegenerateUnderLock(s, read, q, now, vault);
            && SameProcess(s, u) && u.db.lists == s.db.lists
            && (locked.Regenerated? <==> Regenerates(s, read, q, now) && vault.Some?)
            && (locked.VaultFailed? <==> Regenerates(s, read, q, now) && vault.None?)
  {
  }

  lemma KeptLeavesTables(s: Server, read: Read, q: Request, now: Time, vault: Option<VaultMaterial>)
    ensures var (u, locked) := RegenerateUnderLock(s, read, q, now, vault);
            !locked.Regenerated? ==> u == s
  {
  }
}
