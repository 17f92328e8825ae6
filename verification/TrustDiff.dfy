/**
 * The agent's report on two trust lists: an index by application URI, what was
 * added, removed and changed, and the risk level that follows.
 */
module TrustDiff {
  import opened Common
  import opened Artifacts

  /** A trust list as the report reads it; `caChain` is None when the field is absent. */
  datatype TrustDocument =
    TrustDocument(version: Option<int>, certificates: Option<seq<CertEntry>>, caChain: Option<string>)

  datatype Entry = Entry(commonName: Option<string>, fingerprint: Option<string>, notAfter: Option<Time>)

  /** `build_cert_index`: a dict keeps the position of a key's first insertion and its last value. */
  datatype Index = Index(keys: seq<string>, entries: map<string, Entry>, malformed: seq<string>)

  datatype Change =
    | ApplicationUriChanged(before: string, after: string, fingerprint: string)
    | FingerprintChanged(uri: string, previousFingerprint: Option<string>, newFingerprint: Option<string>)
    | CommonNameChanged(uri: string, previousName: Option<string>, newName: Option<string>)
    | NotAfterExtended(uri: string, previousExpiry: Option<Time>, newExpiry: Option<Time>)
    | NotAfterReduced(uri: string, previousExpiry: Option<Time>, newExpiry: Option<Time>)
    | NotAfterChanged(uri: string, previousExpiry: Option<Time>, newExpiry: Option<Time>)

  datatype Risk = Low | Medium | High | Critical
  datatype Reason = Given(text: string) | TrustListEmpty | CaChainMissing | MalformedEntry(uri: string)

  datatype Report = Report(previousVersion: Option<int>, newVersion: Option<int>,
                           added: map<string, Entry>, removed: map<string, Entry>, changed: seq<Change>,
                           risk: Risk, critical: seq<Reason>)

  // ---- the index ----

  predicate Present(text: Option<string>) {
    text.Some? && text.value != ""
  }

  predicate HasPem(c: CertEntry) {
    c.pem.Some? && c.pem.value.text != ""
  }

  function EntryOf(c: CertEntry): Entry {
    Entry(c.commonName, c.fingerprint,
          if HasPem(c) && c.pem.value.parsed.Some? then Some(c.pem.value.parsed.value.notAfter) else None)
  }

  predicate Malformed(c: CertEntry) {
    Present(c.applicationUri) && HasPem(c) && c.pem.value.parsed.None?
  }

  function Extend(index: Index, c: CertEntry): Index {
    if !Present(c.applicationUri) then index
    else
      var uri := c.applicationUri.value;
      Index(if uri in index.entries then index.keys else index.keys + [uri],
            index.entries[uri := EntryOf(c)],
            if Malformed(c) then index.malformed + [uri] else index.malformed)
  }

  function IndexOf(certs: seq<CertEntry>): Index {
    if certs == [] then Index([], map[], []) else Extend(IndexOf(certs[..|certs| - 1]), certs[|certs| - 1])
  }

  /** `uri` is last given by entry `i`. */
  predicate LastGiven(certs: seq<CertEntry>, uri: string, i: int) {
    && 0 <= i < |certs| && certs[i].applicationUri == Some(uri)
    && forall k :: i < k < |certs| ==> certs[k].applicationUri != Some(uri)
  }

  /** The index holds, for each URI given at all, its last entry; entries without a URI are ignored. */
  lemma {:induction false} IndexHoldsLast(certs: seq<CertEntry>, uri: string)
    ensures uri in IndexOf(certs).entries <==> uri != "" && exists i :: LastGiven(certs, uri, i)
    ensures forall i :: uri != "" && LastGiven(certs, uri, i) ==> IndexOf(certs).entries[uri] == EntryOf(certs[i])
  {
    if certs != [] {
      var n := |certs| - 1;
      var rest := certs[..n];
      IndexHoldsLast(rest, uri);
      if certs[n].applicationUri == Some(uri) {
        assert LastGiven(certs, uri, n);
      } else {
        forall i ensures LastGiven(certs, uri, i) <==> LastGiven(rest, uri, i) {
          if LastGiven(certs, uri, i) { assert rest[i] == certs[i]; }
          if LastGiven(rest, uri, i) { assert rest[i] == certs[i]; }
        }
        assert forall i :: LastGiven(rest, uri, i) ==> certs[i] == rest[i];
      }
    }
  }

  lemma {:induction false} MalformedIffListed(certs: seq<CertEntry>)
    ensures IndexOf(certs).malformed == [] <==> forall i :: 0 <= i < |certs| ==> !Malformed(certs[i])
  {
    if certs != [] {
      var n := |certs| - 1;
      MalformedIffListed(certs[..n]);
      assert forall i :: 0 <= i < n ==> certs[..n][i] == certs[i];
    }
  }

  // ---- fingerprints to URIs ----

  /** The dict comprehension over the first `n` keys: the last key wins. */
  function Owners(index: Index, n: nat): map<string, string>
    requires n <= |index.keys|
  {
    if n == 0 then map[]
    else
      var uri := index.keys[n - 1];
      var rest := Owners(index, n - 1);
      if uri in index.entries && Present(index.entries[uri].fingerprint)
      then rest[index.entries[uri].fingerprint.value := uri] else rest
  }

  function OwnerOf(index: Index): map<string, string> {
    Owners(index, |index.keys|)
  }

  /** Every owner carries the fingerprint it is found under, and is a key. */
  lemma {:induction false} OwnersCarry(index: Index, n: nat)
    requires n <= |index.keys|
    ensures forall fp :: fp in Owners(index, n) ==>
              var uri := Owners(index, n)[fp];
              uri in index.keys && uri in index.entries && index.entries[uri].fingerprint == Some(fp) && fp != ""
  {
    if n > 0 {
      OwnersCarry(index, n - 1);
    }
  }

  // ---- what the report says ----

  /** The fingerprint is owned by different URIs before and after. */
  predicate Moves(p: Index, n: Index, fp: string) {
    fp in OwnerOf(p) && fp in OwnerOf(n) && OwnerOf(p)[fp] != OwnerOf(n)[fp]
  }

  function LowerOrEmpty(text: Option<string>): string {
    if text.Some? then Lower(text.value) else ""
  }

  /** The report has this entry under `changed`. */
  predicate Reported(p: Index, n: Index, c: Change) {
    match c
    case ApplicationUriChanged(before, after, fp) =>
      Moves(p, n, fp) && OwnerOf(p)[fp] == before && OwnerOf(n)[fp] == after
    case FingerprintChanged(uri, b, a) =>
      uri in p.entries && uri in n.entries && b == p.entries[uri].fingerprint && a == n.entries[uri].fingerprint
      && LowerOrEmpty(b) != LowerOrEmpty(a)
    case CommonNameChanged(uri, b, a) =>
      uri in p.entries && uri in n.entries && b == p.entries[uri].commonName && a == n.entries[uri].commonName && b != a
    case NotAfterExtended(uri, b, a) =>
      uri in p.entries && uri in n.entries && b == p.entries[uri].notAfter && a == n.entries[uri].notAfter
      && b.Some? && a.Some? && a.value > b.value
    case NotAfterReduced(uri, b, a) =>
      uri in p.entries && uri in n.entries && b == p.entries[uri].notAfter && a == n.entries[uri].notAfter
      && b.Some? && a.Some? && a.value < b.value
    case NotAfterChanged(uri, b, a) =>
      uri in p.entries && uri in n.entries && b == p.entries[uri].notAfter && a == n.entries[uri].notAfter
      && b.Some? != a.Some?
  }

  ghost predicate MovedTo(p: Index, n: Index, uri: string) {
    exists fp :: Moves(p, n, fp) && OwnerOf(n)[fp] == uri
  }

  ghost predicate MovedFrom(p: Index, n: Index, uri: string) {
    exists fp :: Moves(p, n, fp) && OwnerOf(p)[fp] == uri
  }

  ghost function Added(p: Index, n: Index): map<string, Entry> {
    map uri | uri in n.entries && uri !in p.entries && !MovedTo(p, n, uri) :: n.entries[uri]
  }

  ghost function Removed(p: Index, n: Index): map<string, Entry> {
    map uri | uri in p.entries && uri !in n.entries && !MovedFrom(p, n, uri) :: p.entries[uri]
  }

  predicate HighRisk(c: Change) {
    c.FingerprintChanged? || c.CommonNameChanged? || c.ApplicationUriChanged? || c.NotAfterReduced?
  }

  function Certificates(d: Option<TrustDocument>): seq<CertEntry> {
    if d.Some? && d.value.certificates.Some? then d.value.certificates.value else []
  }

  /** The reasons the report finds itself, about the new list. */
  function OwnReasons(current: Option<TrustDocument>): seq<Reason> {
    (if current.Some? && Certificates(current) == [] then [TrustListEmpty] else [])
    + (if current.Some? && current.value.caChain.Some? && !Contains(current.value.caChain.value, "BEGIN CERTIFICATE")
       then [CaChainMissing] else [])
  }

  function MalformedReasons(uris: seq<string>): seq<Reason> {
    seq(|uris|, i requires 0 <= i < |uris| => MalformedEntry(uris[i]))
  }

  function CriticalReasons(p: Index, n: Index, current: Option<TrustDocument>, given: seq<Reason>): seq<Reason> {
    given + OwnReasons(current) + MalformedReasons(p.malformed) + MalformedReasons(n.malformed)
  }

  predicate NeedsReview(removed: map<string, Entry>, changed: seq<Change>, caChainChanged: bool) {
    removed != map[] || caChainChanged || exists c :: c in changed && HighRisk(c)
  }

  predicate NeedsNotice(added: map<string, Entry>, changed: seq<Change>) {
    added != map[] || exists c :: c in changed && c.NotAfterExtended?
  }

  /** The report on two lists: entries, and the risk level in the order the rules are tried. */
  ghost predicate IsReport(r: Report, previous: Option<TrustDocument>, current: Option<TrustDocument>,
                           caChainChanged: bool, given: seq<Reason>) {
    var p, n := IndexOf(Certificates(previous)), IndexOf(Certificates(current));
    && r.added == Added(p, n) && r.removed == Removed(p, n)
    && (forall c :: c in r.changed <==> Reported(p, n, c))
    && r.critical == CriticalReasons(p, n, current, given)
    && r.risk == (if r.critical != [] then Critical
                  else if NeedsReview(r.removed, r.changed, caChainChanged) then High
                  else if NeedsNotice(r.added, r.changed) then Medium
                  else Low)
    && r.previousVersion == (if previous.Some? then previous.value.version else None)
    && r.newVersion == (if current.Some? then current.value.version else None)
  }

  // ---- soundness ----

  /** No URI of the symmetric difference is lost: it is listed, or a moved fingerprint names it. */
  lemma EveryUriIsAccountedFor(r: Report, previous: Option<TrustDocument>, current: Option<TrustDocument>,
                               caChainChanged: bool, given: seq<Reason>, uri: string)
    requires IsReport(r, previous, current, caChainChanged, given)
    requires (uri in IndexOf(Certificates(previous)).entries) != (uri in IndexOf(Certificates(current)).entries)
    ensures uri in r.added || uri in r.removed
            || exists c :: c in r.changed && c.ApplicationUriChanged? && (c.before == uri || c.after == uri)
  {
    hide IndexOf, OwnerOf;
    var p, n := IndexOf(Certificates(previous)), IndexOf(Certificates(current));
    if uri in n.entries && MovedTo(p, n, uri) {
      var fp :| Moves(p, n, fp) && OwnerOf(n)[fp] == uri;
      assert ApplicationUriChanged(OwnerOf(p)[fp], uri, fp) in r.changed;
    }
    if uri in p.entries && MovedFrom(p, n, uri) {
      var fp :| Moves(p, n, fp) && OwnerOf(p)[fp] == uri;
      assert ApplicationUriChanged(uri, OwnerOf(n)[fp], fp) in r.changed;
    }
  }

  /** Nothing an operator must look at: same fingerprint up to case, same name, expiry equal or missing on one side. */
  predicate SameForRisk(b: Entry, a: Entry) {
    && LowerOrEmpty(b.fingerprint) == LowerOrEmpty(a.fingerprint)
    && b.commonName == a.commonName
    && (b.notAfter.Some? && a.notAfter.Some? ==> b.notAfter == a.notAfter)
  }

  /**
   * Exactly when the risk is LOW: no critical reason, the same CA chain, the
   * same URIs, each with the same data for risk, and no fingerprint that is
   * owned by another URI than before.
   */
  lemma LowRiskIff(r: Report, previous: Option<TrustDocument>, current: Option<TrustDocument>,
                   caChainChanged: bool, given: seq<Reason>)
    requires IsReport(r, previous, current, caChainChanged, given)
    ensures var p, n := IndexOf(Certificates(previous)), IndexOf(Certificates(current));
            r.risk == Low <==>
            && CriticalReasons(p, n, current, given) == [] && !caChainChanged
            && p.entries.Keys == n.entries.Keys
            && (forall uri :: uri in p.entries && uri in n.entries ==> SameForRisk(p.entries[uri], n.entries[uri]))
            && (forall fp :: !Moves(p, n, fp))
  {
    hide IndexOf, CriticalReasons, OwnerOf, LowerOrEmpty;
    var p, n := IndexOf(Certificates(previous)), IndexOf(Certificates(current));
    if r.risk == Low {
      LowRiskMeansSame(r, previous, current, caChainChanged, given);
    }
    if CriticalReasons(p, n, current, given) == [] && !caChainChanged && p.entries.Keys == n.entries.Keys
       && (forall uri :: uri in p.entries && uri in n.entries ==> SameForRisk(p.entries[uri], n.entries[uri]))
       && (forall fp :: !Moves(p, n, fp)) {
      assert r.added == map[] && r.removed == map[] by {
        assert forall uri :: uri in n.entries.Keys <==> uri in p.entries.Keys;
      }
      forall c | c in r.changed ensures !HighRisk(c) && !c.NotAfterExtended? {
        assert Reported(p, n, c);
      }
    }
  }

  lemma LowRiskMeansSame(r: Report, previous: Option<TrustDocument>, current: Option<TrustDocument>,
                         caChainChanged: bool, given: seq<Reason>)
    requires IsReport(r, previous, current, caChainChanged, given) && r.risk == Low
    ensures var p, n := IndexOf(Certificates(previous)), IndexOf(Certificates(current));
            && p.entries.Keys == n.entries.Keys
            && (forall uri :: uri in p.entries && uri in n.entries ==> SameForRisk(p.entries[uri], n.entries[uri]))
            && (forall fp :: !Moves(p, n, fp))
  {
    hide IndexOf, CriticalReasons, OwnerOf, LowerOrEmpty, Added, Removed;
    var p, n := IndexOf(Certificates(previous)), IndexOf(Certificates(current));
    assert forall c :: c in r.changed ==> !HighRisk(c) && !c.NotAfterExtended?;
    forall uri ensures uri in p.entries <==> uri in n.entries {
      if (uri in p.entries) != (uri in n.entries) {
        EveryUriIsAccountedFor(r, previous, current, caChainChanged, given, uri);
        assert false;
      }
    }
    forall uri | uri in p.entries && uri in n.entries ensures SameForRisk(p.entries[uri], n.entries[uri]) {
      var b, a := p.entries[uri], n.entries[uri];
      assert !Reported(p, n, FingerprintChanged(uri, b.fingerprint, a.fingerprint));
      assert !Reported(p, n, CommonNameChanged(uri, b.commonName, a.commonName));
      assert !Reported(p, n, NotAfterExtended(uri, b.notAfter, a.notAfter));
      assert !Reported(p, n, NotAfterReduced(uri, b.notAfter, a.notAfter));
    }
    if fp :| Moves(p, n, fp) {
      MovesAreReported(p, n, fp);
      assert false;
    }
  }

  lemma MovesAreReported(p: Index, n: Index, fp: string)
    requires Moves(p, n, fp)
    ensures exists c: Change :: c.ApplicationUriChanged? && Reported(p, n, c)
  {
    hide OwnerOf;
    assert Reported(p, n, ApplicationUriChanged(OwnerOf(p)[fp], OwnerOf(n)[fp], fp));
  }

  /** Two lists with the same certificates give a report without a certificate change. */
  lemma SameListHasNoChange(r: Report, previous: Option<TrustDocument>, current: Option<TrustDocument>,
                            caChainChanged: bool, given: seq<Reason>)
    requires IsReport(r, previous, current, caChainChanged, given)
    requires Certificates(previous) == Certificates(current)
    ensures r.added == map[] && r.removed == map[] && r.changed == []
    ensures r.risk == if r.critical != [] then Critical else if caChainChanged then High else Low
  {
    hide IndexOf, CriticalReasons, OwnerOf, LowerOrEmpty;
    var p := IndexOf(Certificates(previous));
    if r.changed != [] {
      assert r.changed[0] in r.changed;
      NothingDiffersFromItself(p, r.changed[0]);
      assert false;
    }
  }

  lemma NothingDiffersFromItself(p: Index, c: Change)
    ensures !Reported(p, p, c)
  {
    hide OwnerOf, LowerOrEmpty;
  }

  /** A moved fingerprint names a URI of the old list that carried it and one of the new list that does. */
  lemma MovedFingerprintIsReal(previous: seq<CertEntry>, current: seq<CertEntry>, fp: string)
    requires Moves(IndexOf(previous), IndexOf(current), fp)
    ensures var p, n := IndexOf(previous), IndexOf(current);
            var before, after := OwnerOf(p)[fp], OwnerOf(n)[fp];
            && before != after && before in p.entries && after in n.entries
            && p.entries[before].fingerprint == Some(fp) && n.entries[after].fingerprint == Some(fp)
  {
    OwnersCarry(IndexOf(previous), |IndexOf(previous).keys|);
    OwnersCarry(IndexOf(current), |IndexOf(current).keys|);
  }

  // ---- the report, stated on the entries of the two lists ----

  /** `c` is the last entry for the URI. */
  ghost predicate Holds(certs: seq<CertEntry>, uri: string, c: CertEntry) {
    uri != "" && exists i :: LastGiven(certs, uri, i) && certs[i] == c
  }

  ghost predicate Names(certs: seq<CertEntry>, uri: string) {
    exists c :: Holds(certs, uri, c)
  }

  /** What the certificate text says, if it is there and parses. */
  function ExpiryOf(c: CertEntry): (r: Option<Time>)
    ensures r.Some? <==> c.pem.Some? && c.pem.value.text != "" && c.pem.value.parsed.Some?
    ensures r.Some? ==> r.value == c.pem.value.parsed.value.notAfter
  {
    if HasPem(c) && c.pem.value.parsed.Some? then Some(c.pem.value.parsed.value.notAfter) else None
  }

  /** Up to case; a missing text counts as empty. */
  predicate SameText(a: Option<string>, b: Option<string>) {
    match a
    case None => b == None || b.value == ""
    case Some(x) => if b == None then x == "" else Lower(x) == Lower(b.value)
  }

  predicate FirstGiven(certs: seq<CertEntry>, uri: string, i: int) {
    && 0 <= i < |certs| && certs[i].applicationUri == Some(uri)
    && forall k :: 0 <= k < i ==> certs[k].applicationUri != Some(uri)
  }

  ghost predicate Carries(certs: seq<CertEntry>, uri: string, fp: string) {
    fp != "" && exists c :: Holds(certs, uri, c) && c.fingerprint == Some(fp)
  }

  ghost predicate AppearsNoLater(certs: seq<CertEntry>, a: string, b: string) {
    exists i, j :: FirstGiven(certs, a, i) && FirstGiven(certs, b, j) && i <= j
  }

  /** Of the URIs whose last entry has the fingerprint, the one that first appears last. */
  ghost predicate Owner(certs: seq<CertEntry>, fp: string, uri: string) {
    && Carries(certs, uri, fp)
    && forall other :: Carries(certs, other, fp) ==> AppearsNoLater(certs, other, uri)
  }

  lemma HeldEntry(certs: seq<CertEntry>, uri: string)
    ensures uri in IndexOf(certs).entries <==> Names(certs, uri)
    ensures forall c :: Holds(certs, uri, c) ==>
              && uri in IndexOf(certs).entries
              && IndexOf(certs).entries[uri] == Entry(c.commonName, c.fingerprint, ExpiryOf(c))
  {
    IndexHoldsLast(certs, uri);
    hide IndexOf;
    if i :| uri != "" && LastGiven(certs, uri, i) { assert Holds(certs, uri, certs[i]); }
  }

  /** The keys are the URIs of the entries, in the order of their first appearance. */
  ghost predicate Ordered(certs: seq<CertEntry>, index: Index) {
    && (forall k :: 0 <= k < |index.keys| ==> Appears(certs, index, index.keys[k]))
    && (forall uri :: uri in index.entries ==> uri in index.keys)
    && (forall a, b, i, j :: Precedes(certs, index.keys, a, b, i, j) ==> i < j)
  }

  ghost predicate Appears(certs: seq<CertEntry>, index: Index, uri: string) {
    uri in index.entries && exists i :: FirstGiven(certs, uri, i)
  }

  /** Key `a` comes before key `b`, and they first appear at `i` and `j`. */
  predicate Precedes(certs: seq<CertEntry>, keys: seq<string>, a: int, b: int, i: int, j: int) {
    0 <= a < b < |keys| && FirstGiven(certs, keys[a], i) && FirstGiven(certs, keys[b], j)
  }

  lemma {:induction false} KeysInOrder(certs: seq<CertEntry>)
    ensures Ordered(certs, IndexOf(certs))
  {
    if certs != [] {
      var init, c := certs[..|certs| - 1], certs[|certs| - 1];
      KeysInOrder(init);
      if Present(c.applicationUri) && c.applicationUri.value !in IndexOf(init).entries {
        FirstAtTheEnd(certs, c.applicationUri.value, IndexOf(init));
      }
      hide IndexOf;
      assert certs == init + [c];
      OrderedOneMore(init, c, IndexOf(init));
    } else {
      EmptyIsOrdered(certs);
    }
  }

  lemma EmptyIsOrdered(certs: seq<CertEntry>)
    requires certs == []
    ensures Ordered(certs, IndexOf(certs))
  {
  }

  lemma OrderedOneMore(init: seq<CertEntry>, c: CertEntry, index: Index)
    requires Ordered(init, index)
    requires Present(c.applicationUri) && c.applicationUri.value !in index.entries ==>
               && FirstGiven(init + [c], c.applicationUri.value, |init|)
               && forall j :: FirstGiven(init + [c], c.applicationUri.value, j) ==> j == |init|
    ensures Ordered(init + [c], Extend(index, c))
  {
    var certs, after := init + [c], Extend(index, c);
    hide EntryOf, Malformed;
    assert after.keys == index.keys ||
      (&& Present(c.applicationUri) && c.applicationUri.value !in index.entries
       && after.keys == index.keys + [c.applicationUri.value]);
    assert forall uri :: uri in index.entries ==> uri in after.entries;
    assert forall uri :: uri in after.entries ==> uri in index.entries || c.applicationUri == Some(uri);
    assert Present(c.applicationUri) ==> c.applicationUri.value in after.entries;
    hide Extend, Precedes, FirstGiven;
    forall k | 0 <= k < |after.keys| ensures Appears(certs, after, after.keys[k]) {
      if k < |index.keys| {
        AppearsStill(init, c, index, after, index.keys[k]);
      }
    }
    CoveredStill(index, after, c);
    forall a, b, i, j | Precedes(certs, after.keys, a, b, i, j) ensures i < j {
      PrecedesStill(init, c, index, after, a, b, i, j);
    }
  }

  lemma AppearsStill(init: seq<CertEntry>, c: CertEntry, index: Index, after: Index, uri: string)
    requires Appears(init, index, uri) && forall u :: u in index.entries ==> u in after.entries
    ensures Appears(init + [c], after, uri)
  {
    var i :| FirstGiven(init, uri, i);
    assert forall k :: 0 <= k < |init| ==> init[k] == (init + [c])[k];
    assert FirstGiven(init + [c], uri, i);
  }

  lemma CoveredStill(index: Index, after: Index, c: CertEntry)
    requires forall uri :: uri in index.entries ==> uri in index.keys
    requires after == Extend(index, c)
    ensures forall uri :: uri in after.entries ==> uri in after.keys
  {
    forall uri | uri in after.entries ensures uri in after.keys {
      assert uri in index.keys ==> uri in index.keys + [uri];
    }
  }

  lemma PrecedesStill(init: seq<CertEntry>, c: CertEntry, index: Index, after: Index, a: int, b: int, i: int, j: int)
    requires Ordered(init, index) && Precedes(init + [c], after.keys, a, b, i, j)
    requires after.keys == index.keys ||
             (&& Present(c.applicationUri) && after.keys == index.keys + [c.applicationUri.value]
              && forall k :: FirstGiven(init + [c], c.applicationUri.value, k) ==> k == |init|)
    ensures i < j
  {
    assert after.keys[a] == index.keys[a] && Appears(init, index, index.keys[a]);
    EarlierKey(init, c, index.keys[a], i);
    if b < |index.keys| {
      assert after.keys[b] == index.keys[b] && Appears(init, index, index.keys[b]);
      EarlierKey(init, c, index.keys[b], j);
      assert Precedes(init, index.keys, a, b, i, j);
    }
  }

  /** A URI that appears before the last entry first appears before it. */
  lemma EarlierKey(init: seq<CertEntry>, c: CertEntry, uri: string, i: int)
    requires FirstGiven(init + [c], uri, i) && exists k :: FirstGiven(init, uri, k)
    ensures i < |init| && FirstGiven(init, uri, i)
  {
    var k :| FirstGiven(init, uri, k);
    assert forall m :: 0 <= m < |init| ==> init[m] == (init + [c])[m];
  }

  lemma FirstAtTheEnd(certs: seq<CertEntry>, uri: string, index: Index)
    requires certs != [] && certs[|certs| - 1].applicationUri == Some(uri) && uri != ""
    requires index == IndexOf(certs[..|certs| - 1]) && uri !in index.entries
    ensures FirstGiven(certs, uri, |certs| - 1)
    ensures forall j :: FirstGiven(certs, uri, j) ==> j == |certs| - 1
  {
    var init := certs[..|certs| - 1];
    IndexHoldsLast(init, uri);
    hide IndexOf;
    forall k | 0 <= k < |init| ensures certs[k].applicationUri != Some(uri) {
      assert init[k] == certs[k];
      if init[k].applicationUri == Some(uri) {
        SomeLast(init, uri, k);
        assert false;
      }
    }
  }

  /** A URI that is given has a last entry. */
  lemma {:induction false} SomeLast(certs: seq<CertEntry>, uri: string, k: nat)
    requires k < |certs| && certs[k].applicationUri == Some(uri)
    ensures exists i :: LastGiven(certs, uri, i)
    decreases |certs| - k
  {
    if m :| k < m < |certs| && certs[m].applicationUri == Some(uri) {
      SomeLast(certs, uri, m);
    } else {
      assert LastGiven(certs, uri, k);
    }
  }

  /** The comprehension over the first n keys: the last of them that carries the fingerprint. */
  lemma {:induction false} OwnersAreLast(index: Index, n: nat, fp: string, uri: string)
    requires n <= |index.keys|
    ensures (fp in Owners(index, n) && Owners(index, n)[fp] == uri) <==>
            exists k :: LastKeyWith(index, n, fp, uri, k)
  {
    if n > 0 {
      OwnersAreLast(index, n - 1, fp, uri);
      if HasFingerprint(index, index.keys[n - 1], fp) {
        assert index.keys[n - 1] == uri ==> LastKeyWith(index, n, fp, uri, n - 1);
        assert forall k :: LastKeyWith(index, n, fp, uri, k) ==> k == n - 1;
      } else {
        OwnersSkip(index, n, fp);
        LastKeySkip(index, n - 1, n, fp, uri);
      }
    }
  }

  lemma LastKeySkip(index: Index, m: nat, n: nat, fp: string, uri: string)
    requires m + 1 == n <= |index.keys| && !HasFingerprint(index, index.keys[m], fp)
    ensures (exists k :: LastKeyWith(index, n, fp, uri, k)) <==> exists k :: LastKeyWith(index, m, fp, uri, k)
  {
    forall k ensures LastKeyWith(index, n, fp, uri, k) <==> LastKeyWith(index, m, fp, uri, k) {
    }
  }

  /** A key without the fingerprint does not change who owns it. */
  lemma OwnersSkip(index: Index, n: nat, fp: string)
    requires 1 <= n <= |index.keys| && !HasFingerprint(index, index.keys[n - 1], fp)
    ensures fp in Owners(index, n) <==> fp in Owners(index, n - 1)
    ensures fp in Owners(index, n) ==> Owners(index, n)[fp] == Owners(index, n - 1)[fp]
  {
  }

  predicate HasFingerprint(index: Index, uri: string, fp: string) {
    fp != "" && uri in index.entries && index.entries[uri].fingerprint == Some(fp)
  }

  predicate LastKeyWith(index: Index, n: nat, fp: string, uri: string, k: int)
    requires n <= |index.keys|
  {
    && 0 <= k < n && index.keys[k] == uri && HasFingerprint(index, uri, fp)
    && forall m :: k < m < n ==> !HasFingerprint(index, index.keys[m], fp)
  }

  lemma CarriesIff(certs: seq<CertEntry>, uri: string, fp: string)
    ensures Carries(certs, uri, fp) <==> HasFingerprint(IndexOf(certs), uri, fp)
  {
    HeldEntry(certs, uri);
    hide IndexOf, Holds;
  }

  /** The owner of a fingerprint, in both forms. */
  lemma OwnerIff(certs: seq<CertEntry>, fp: string, uri: string)
    ensures (fp in OwnerOf(IndexOf(certs)) && OwnerOf(IndexOf(certs))[fp] == uri) <==> Owner(certs, fp, uri)
  {
    var index := IndexOf(certs);
    OwnersAreLast(index, |index.keys|, fp, uri);
    KeysInOrder(certs);
    forall other ensures Carries(certs, other, fp) <==> HasFingerprint(index, other, fp) {
      CarriesIff(certs, other, fp);
    }
    hide IndexOf, Owners, Carries;
    if k :| LastKeyWith(index, |index.keys|, fp, uri, k) {
      forall other | Carries(certs, other, fp) ensures AppearsNoLater(certs, other, uri) {
        LastIsLatest(certs, index, fp, uri, k, other);
      }
    }
    if Owner(certs, fp, uri) {
      OwnerIsLast(certs, index, fp, uri);
    }
  }

  lemma LastIsLatest(certs: seq<CertEntry>, index: Index, fp: string, uri: string, k: int, other: string)
    requires Ordered(certs, index) && LastKeyWith(index, |index.keys|, fp, uri, k) && HasFingerprint(index, other, fp)
    ensures AppearsNoLater(certs, other, uri)
  {
    var m :| 0 <= m < |index.keys| && index.keys[m] == other;
    assert m <= k;
    var i :| FirstGiven(certs, index.keys[m], i);
    var j :| FirstGiven(certs, index.keys[k], j);
    if m < k { assert Precedes(certs, index.keys, m, k, i, j); }
    if m == k { assert FirstGiven(certs, uri, i); }
  }

  lemma OwnerIsLast(certs: seq<CertEntry>, index: Index, fp: string, uri: string)
    requires Ordered(certs, index) && HasFingerprint(index, uri, fp)
    requires forall other :: HasFingerprint(index, other, fp) ==> AppearsNoLater(certs, other, uri)
    ensures exists k :: LastKeyWith(index, |index.keys|, fp, uri, k)
  {
    var k :| 0 <= k < |index.keys| && index.keys[k] == uri;
    forall m | k < m < |index.keys| ensures !HasFingerprint(index, index.keys[m], fp) {
      if HasFingerprint(index, index.keys[m], fp) {
        var i, j :| FirstGiven(certs, index.keys[m], i) && FirstGiven(certs, uri, j) && i <= j;
        LaterIsLater(certs, index, k, m, j, i);
        assert false;
      }
    }
    assert LastKeyWith(index, |index.keys|, fp, uri, k);
  }

  lemma LaterIsLater(certs: seq<CertEntry>, index: Index, a: int, b: int, i: int, j: int)
    requires Ordered(certs, index) && Precedes(certs, index.keys, a, b, i, j)
    ensures i < j
  {
  }

  /** A fingerprint owned by `before` on the old list and by another URI on the new one. */
  ghost predicate MovesBetween(previous: seq<CertEntry>, current: seq<CertEntry>, before: string, after: string,
                               fp: string)
  {
    Owner(previous, fp, before) && Owner(current, fp, after) && before != after
  }

  /** The two last entries for a URI that is on both lists. */
  ghost predicate Both(previous: seq<CertEntry>, current: seq<CertEntry>, uri: string, b: CertEntry, a: CertEntry) {
    Holds(previous, uri, b) && Holds(current, uri, a)
  }

  /** One entry of `changed`, stated on the lists. */
  ghost predicate IsChange(previous: seq<CertEntry>, current: seq<CertEntry>, c: Change) {
    match c
    case ApplicationUriChanged(before, after, fp) => MovesBetween(previous, current, before, after, fp)
    case FingerprintChanged(uri, old_, new_) =>
      exists b, a :: Both(previous, current, uri, b, a) && old_ == b.fingerprint && new_ == a.fingerprint
                && !SameText(b.fingerprint, a.fingerprint)
    case CommonNameChanged(uri, old_, new_) =>
      exists b, a :: Both(previous, current, uri, b, a) && old_ == b.commonName && new_ == a.commonName && old_ != new_
    case NotAfterExtended(uri, old_, new_) =>
      exists b, a :: Both(previous, current, uri, b, a) && old_ == ExpiryOf(b) && new_ == ExpiryOf(a)
                && old_.Some? && new_.Some? && new_.value > old_.value
    case NotAfterReduced(uri, old_, new_) =>
      exists b, a :: Both(previous, current, uri, b, a) && old_ == ExpiryOf(b) && new_ == ExpiryOf(a)
                && old_.Some? && new_.Some? && new_.value < old_.value
    case NotAfterChanged(uri, old_, new_) =>
      exists b, a :: Both(previous, current, uri, b, a) && old_ == ExpiryOf(b) && new_ == ExpiryOf(a)
                && (old_.None? <==> new_.Some?)
  }

  /** On one list only, and no fingerprint moved to it, or from it. */
  ghost predicate IsAdded(previous: seq<CertEntry>, current: seq<CertEntry>, uri: string) {
    Names(current, uri) && !Names(previous, uri) && forall x, fp :: !MovesBetween(previous, current, x, uri, fp)
  }

  ghost predicate IsRemoved(previous: seq<CertEntry>, current: seq<CertEntry>, uri: string) {
    Names(previous, uri) && !Names(current, uri) && forall x, fp :: !MovesBetween(previous, current, uri, x, fp)
  }

  /** The listings of the report, stated on the lists. */
  ghost predicate Compares(r: Report, previous: seq<CertEntry>, current: seq<CertEntry>) {
    && (forall c :: c in r.changed <==> IsChange(previous, current, c))
    && (forall uri :: uri in r.added <==> IsAdded(previous, current, uri))
    && (forall uri :: uri in r.removed <==> IsRemoved(previous, current, uri))
    && (forall uri, c :: uri in r.added && Holds(current, uri, c) ==>
          r.added[uri] == Entry(c.commonName, c.fingerprint, ExpiryOf(c)))
    && (forall uri, c :: uri in r.removed && Holds(previous, uri, c) ==>
          r.removed[uri] == Entry(c.commonName, c.fingerprint, ExpiryOf(c)))
  }

  lemma BothEntries(previous: seq<CertEntry>, current: seq<CertEntry>, uri: string)
    ensures var p, n := IndexOf(previous), IndexOf(current);
            && (uri in p.entries && uri in n.entries <==> exists b, a :: Both(previous, current, uri, b, a))
            && forall b, a :: Both(previous, current, uri, b, a) ==>
                 && p.entries[uri] == Entry(b.commonName, b.fingerprint, ExpiryOf(b))
                 && n.entries[uri] == Entry(a.commonName, a.fingerprint, ExpiryOf(a))
  {
    HeldEntry(previous, uri);
    HeldEntry(current, uri);
    hide IndexOf, Holds;
    if uri in IndexOf(previous).entries && uri in IndexOf(current).entries {
      var b :| Holds(previous, uri, b);
      var a :| Holds(current, uri, a);
      assert Both(previous, current, uri, b, a);
    }
  }

  lemma SameTextIff(a: Option<string>, b: Option<string>)
    ensures LowerOrEmpty(a) == LowerOrEmpty(b) <==> SameText(a, b)
  {
    assert forall s: string :: Lower(s) == "" <==> s == "" by {
      forall s: string ensures Lower(s) == "" <==> s == "" { assert |Lower(s)| == |s|; }
    }
  }

  lemma SharedReportedIff(previous: seq<CertEntry>, current: seq<CertEntry>, c: Change)
    requires !c.ApplicationUriChanged?
    ensures Reported(IndexOf(previous), IndexOf(current), c) <==> IsChange(previous, current, c)
  {
    BothEntries(previous, current, c.uri);
    var p, n := IndexOf(previous), IndexOf(current);
    hide IndexOf, Both, OwnerOf, LowerOrEmpty, SameText, ExpiryOf;
    if b, a :| Both(previous, current, c.uri, b, a) {
      SameTextIff(b.fingerprint, a.fingerprint);
      SharedReportedAt(p, n, previous, current, c, b, a);
    }
  }

  lemma SharedReportedAt(p: Index, n: Index, previous: seq<CertEntry>, current: seq<CertEntry>, c: Change, b: CertEntry,
                         a: CertEntry)
    requires !c.ApplicationUriChanged? && Both(previous, current, c.uri, b, a)
    requires c.uri in p.entries && c.uri in n.entries
    requires forall x, y :: Both(previous, current, c.uri, x, y) ==>
               && p.entries[c.uri] == Entry(x.commonName, x.fingerprint, ExpiryOf(x))
               && n.entries[c.uri] == Entry(y.commonName, y.fingerprint, ExpiryOf(y))
    requires LowerOrEmpty(b.fingerprint) == LowerOrEmpty(a.fingerprint) <==> SameText(b.fingerprint, a.fingerprint)
    ensures Reported(p, n, c) <==> IsChange(previous, current, c)
  {
    hide Both, OwnerOf, LowerOrEmpty, SameText, ExpiryOf, IndexOf;
  }

  lemma ReportedIff(previous: seq<CertEntry>, current: seq<CertEntry>, c: Change)
    ensures Reported(IndexOf(previous), IndexOf(current), c) <==> IsChange(previous, current, c)
  {
    if c.ApplicationUriChanged? {
      OwnerIff(previous, c.fingerprint, c.before);
      OwnerIff(current, c.fingerprint, c.after);
      hide IndexOf, OwnerOf, Owner;
    } else {
      SharedReportedIff(previous, current, c);
    }
  }

  lemma MovesIff(previous: seq<CertEntry>, current: seq<CertEntry>)
    ensures forall fp, x, y :: MovesBetween(previous, current, x, y, fp) <==>
              Moves(IndexOf(previous), IndexOf(current), fp)
                  && OwnerOf(IndexOf(previous))[fp] == x && OwnerOf(IndexOf(current))[fp] == y
  {
    forall fp, uri ensures (fp in OwnerOf(IndexOf(previous)) && OwnerOf(IndexOf(previous))[fp] == uri)
                           <==> Owner(previous, fp, uri) {
      OwnerIff(previous, fp, uri);
    }
    forall fp, uri ensures (fp in OwnerOf(IndexOf(current)) && OwnerOf(IndexOf(current))[fp] == uri)
                           <==> Owner(current, fp, uri) {
      OwnerIff(current, fp, uri);
    }
    hide IndexOf, OwnerOf, Owner;
  }

  lemma AddedIff(previous: seq<CertEntry>, current: seq<CertEntry>, uri: string)
    ensures uri in Added(IndexOf(previous), IndexOf(current)) <==> IsAdded(previous, current, uri)
    ensures uri in Removed(IndexOf(previous), IndexOf(current)) <==> IsRemoved(previous, current, uri)
  {
    HeldEntry(previous, uri);
    HeldEntry(current, uri);
    MovesIff(previous, current);
    var p, n := IndexOf(previous), IndexOf(current);
    hide IndexOf, OwnerOf, Names, MovesBetween, Holds;
    if fp :| Moves(p, n, fp) && OwnerOf(n)[fp] == uri {
      assert MovesBetween(previous, current, OwnerOf(p)[fp], uri, fp);
    }
    if fp :| Moves(p, n, fp) && OwnerOf(p)[fp] == uri {
      assert MovesBetween(previous, current, uri, OwnerOf(n)[fp], fp);
    }
  }

  /** The report's listings are those of the two lists. */
  lemma ReportCompares(r: Report, previous: Option<TrustDocument>, current: Option<TrustDocument>,
                       caChainChanged: bool, given: seq<Reason>)
    requires IsReport(r, previous, current, caChainChanged, given)
    ensures Compares(r, Certificates(previous), Certificates(current))
  {
    var old_, new_ := Certificates(previous), Certificates(current);
    forall c ensures Reported(IndexOf(old_), IndexOf(new_), c) <==> IsChange(old_, new_, c) {
      ReportedIff(old_, new_, c);
    }
    forall uri
      ensures uri in Added(IndexOf(old_), IndexOf(new_)) <==> IsAdded(old_, new_, uri)
      ensures uri in Removed(IndexOf(old_), IndexOf(new_)) <==> IsRemoved(old_, new_, uri)
    {
      AddedIff(old_, new_, uri);
    }
    forall uri, c | Holds(new_, uri, c)
      ensures uri in IndexOf(new_).entries
              && IndexOf(new_).entries[uri] == Entry(c.commonName, c.fingerprint, ExpiryOf(c)) {
      HeldEntry(new_, uri);
    }
    forall uri, c | Holds(old_, uri, c)
      ensures uri in IndexOf(old_).entries
              && IndexOf(old_).entries[uri] == Entry(c.commonName, c.fingerprint, ExpiryOf(c)) {
      HeldEntry(old_, uri);
    }
    hide IndexOf, OwnerOf, Reported, IsChange, IsAdded, IsRemoved, Holds, MovedTo, MovedFrom, CriticalReasons;
    hide NeedsReview, NeedsNotice, ExpiryOf, Certificates;
  }

  // ---- the risk, stated on the listings ----

  /** An entry with a URI and a certificate text that does not parse. */
  ghost predicate BadEntry(certs: seq<CertEntry>, uri: string) {
    uri != "" && exists c :: c in certs && c.applicationUri == Some(uri)
                        && c.pem.Some? && c.pem.value.text != "" && c.pem.value.parsed == None
  }

  ghost predicate ListEmpty(current: Option<TrustDocument>) {
    current.Some? && (current.value.certificates == None || current.value.certificates == Some([]))
  }

  ghost predicate ChainMissing(current: Option<TrustDocument>) {
    current.Some? && current.value.caChain.Some? && !Contains(current.value.caChain.value, "BEGIN CERTIFICATE")
  }

  /** Each reason the report adds, and no other. */
  ghost predicate Explains(r: Report, previous: Option<TrustDocument>, current: Option<TrustDocument>,
                           given: seq<Reason>)
  {
    && given <= r.critical
    && (TrustListEmpty in r.critical <==> TrustListEmpty in given || ListEmpty(current))
    && (CaChainMissing in r.critical <==> CaChainMissing in given || ChainMissing(current))
    && (forall uri :: MalformedEntry(uri) in r.critical <==>
          || MalformedEntry(uri) in given
          || BadEntry(Certificates(previous), uri) || BadEntry(Certificates(current), uri))
    && (forall text :: Given(text) in r.critical <==> Given(text) in given)
  }

  /**
   * Critical with any reason; else high when something left, the chain changed or an entry's identity
   * or expiry got worse; else medium when something arrived or lives longer; else low.
   */
  predicate Rates(r: Report, caChainChanged: bool) {
    var gotWorse := exists c | c in r.changed ::
      c.FingerprintChanged? || c.CommonNameChanged? || c.ApplicationUriChanged? || c.NotAfterReduced?;
    var livesLonger := exists c | c in r.changed :: c.NotAfterExtended?;
    if r.critical != [] then r.risk == Critical
    else if caChainChanged || r.removed != map[] || gotWorse then r.risk == High
    else if r.added != map[] || livesLonger then r.risk == Medium
    else r.risk == Low
  }

  lemma {:induction false} MalformedListed(certs: seq<CertEntry>, uri: string)
    ensures uri in IndexOf(certs).malformed <==> BadEntry(certs, uri)
  {
    if certs != [] {
      var init, c := certs[..|certs| - 1], certs[|certs| - 1];
      MalformedListed(init, uri);
      hide EntryOf;
      assert forall d :: d in certs <==> d in init || d == c by {
        assert certs == init + [c];
      }
    }
  }

  lemma MalformedAre(certs: seq<CertEntry>)
    ensures forall x: Reason :: x in MalformedReasons(IndexOf(certs).malformed) <==>
              x.MalformedEntry? && BadEntry(certs, x.uri)
  {
    MalformedReasonsAre(IndexOf(certs).malformed);
    forall uri ensures uri in IndexOf(certs).malformed <==> BadEntry(certs, uri) {
      MalformedListed(certs, uri);
    }
    hide IndexOf, BadEntry, MalformedReasons;
  }

  lemma ReportExplains(r: Report, previous: Option<TrustDocument>, current: Option<TrustDocument>,
                       caChainChanged: bool, given: seq<Reason>)
    requires IsReport(r, previous, current, caChainChanged, given)
    ensures Explains(r, previous, current, given)
  {
    var p, n := IndexOf(Certificates(previous)).malformed, IndexOf(Certificates(current)).malformed;
    OwnReasonsAre(current);
    MalformedAre(Certificates(previous));
    MalformedAre(Certificates(current));
    ReasonsAdd(r, p, n, current, given);
    hide IndexOf, IsReport, BadEntry, MalformedReasons, OwnReasons, Certificates, ListEmpty, ChainMissing;
  }

  lemma ReportRates(r: Report, previous: Option<TrustDocument>, current: Option<TrustDocument>,
                    caChainChanged: bool, given: seq<Reason>)
    requires IsReport(r, previous, current, caChainChanged, given)
    ensures Rates(r, caChainChanged)
  {
    hide IndexOf, Added, Removed, Reported, CriticalReasons, Certificates;
  }

  lemma ReasonsAdd(r: Report, p: seq<string>, n: seq<string>, current: Option<TrustDocument>, given: seq<Reason>)
    requires r.critical == given + OwnReasons(current) + MalformedReasons(p) + MalformedReasons(n)
    ensures given <= r.critical
    ensures forall x :: x in r.critical <==>
              x in given || x in OwnReasons(current) || x in MalformedReasons(p) || x in MalformedReasons(n)
  {
    hide MalformedReasons, OwnReasons;
  }

  lemma OwnReasonsAre(current: Option<TrustDocument>)
    ensures TrustListEmpty in OwnReasons(current) <==> ListEmpty(current)
    ensures CaChainMissing in OwnReasons(current) <==> ChainMissing(current)
    ensures forall x :: x in OwnReasons(current) ==> x == TrustListEmpty || x == CaChainMissing
  {
    hide Contains;
  }

  lemma MalformedReasonsAre(uris: seq<string>)
    ensures forall x: Reason :: x in MalformedReasons(uris) <==> x.MalformedEntry? && x.uri in uris
  {
    forall x: Reason | x.MalformedEntry? && x.uri in uris ensures x in MalformedReasons(uris) {
      var i :| 0 <= i < |uris| && uris[i] == x.uri;
      assert MalformedReasons(uris)[i] == x;
    }
  }

  // ---- the code ----

  method BuildCertIndex(certs: seq<CertEntry>)
    returns (keys: seq<string>, entries: map<string, Entry>, malformed: seq<string>)
    ensures Index(keys, entries, malformed) == IndexOf(certs)
  {
    keys, entries, malformed := [], map[], [];
    for i := 0 to |certs|
      invariant Index(keys, entries, malformed) == IndexOf(certs[..i])
    {
      assert certs[..i + 1][..i] == certs[..i];
      var c := certs[i];
      if c.applicationUri.None? || c.applicationUri.value == "" {
        continue;
      }
      var uri, entry := c.applicationUri.value, Entry(c.commonName, c.fingerprint, None);
      if c.pem.Some? && c.pem.value.text != "" {
        match c.pem.value.parsed {
          case Some(info) => entry := entry.(notAfter := Some(info.notAfter));
          case None => malformed := malformed + [uri];
        }
      }
      if uri !in entries {
        keys := keys + [uri];
      }
      entries := entries[uri := entry];
    }
    assert certs[..|certs|] == certs;
  }

  method FingerprintOwners(index: Index) returns (owners: map<string, string>)
    ensures owners == OwnerOf(index)
  {
    owners := map[];
    for i := 0 to |index.keys|
      invariant owners == Owners(index, i)
    {
      var uri := index.keys[i];
      if uri in index.entries && index.entries[uri].fingerprint.Some? && index.entries[uri].fingerprint.value != "" {
        owners := owners[index.entries[uri].fingerprint.value := uri];
      }
    }
  }

  /** The entries of `changed` for one URI present in both lists. */
  function ChangesAt(uri: string, b: Entry, a: Entry): seq<Change> {
    (if LowerOrEmpty(b.fingerprint) != LowerOrEmpty(a.fingerprint)
     then [FingerprintChanged(uri, b.fingerprint, a.fingerprint)] else [])
    + (if b.commonName != a.commonName then [CommonNameChanged(uri, b.commonName, a.commonName)] else [])
    + (if b.notAfter == a.notAfter then []
       else if b.notAfter.Some? && a.notAfter.Some? then
         (if a.notAfter.value > b.notAfter.value then [NotAfterExtended(uri, b.notAfter, a.notAfter)]
          else [NotAfterReduced(uri, b.notAfter, a.notAfter)])
       else [NotAfterChanged(uri, b.notAfter, a.notAfter)])
  }

  lemma ChangesAtAreReported(p: Index, n: Index, uri: string, c: Change)
    requires uri in p.entries && uri in n.entries
    ensures c in ChangesAt(uri, p.entries[uri], n.entries[uri]) <==>
            Reported(p, n, c) && !c.ApplicationUriChanged? && c.uri == uri
  {
    hide LowerOrEmpty, OwnerOf;
  }

  lemma SharedChangesNameSharedUris(p: Index, n: Index)
    ensures forall c: Change :: !c.ApplicationUriChanged? && Reported(p, n, c) ==>
            c.uri in p.entries && c.uri in n.entries
  {
    hide OwnerOf, LowerOrEmpty;
  }

  /** The URIs that the moved-fingerprint entries take off the added list, and off the removed one. */
  function Arrived(changed: seq<Change>): set<string> {
    set c | c in changed && c.ApplicationUriChanged? :: c.after
  }

  function Departed(changed: seq<Change>): set<string> {
    set c | c in changed && c.ApplicationUriChanged? :: c.before
  }

  lemma OneMoreMove(changed: seq<Change>, c: Change)
    requires c.ApplicationUriChanged?
    ensures Arrived(changed + [c]) == Arrived(changed) + {c.after}
    ensures Departed(changed + [c]) == Departed(changed) + {c.before}
  {
    assert forall d :: d in changed + [c] <==> d in changed || d == c;
    assert c in changed + [c];
    assert forall d :: d in changed && d.ApplicationUriChanged? ==>
        d.after in Arrived(changed + [c]) && d.before in Departed(changed + [c]);
  }

  lemma PoppedLists(p: Index, n: Index, changed: seq<Change>)
    requires forall c :: c in changed <==> c.ApplicationUriChanged? && Reported(p, n, c)
    ensures (map uri | uri in n.entries && uri !in p.entries :: n.entries[uri]) - Arrived(changed) == Added(p, n)
    ensures (map uri | uri in p.entries && uri !in n.entries :: p.entries[uri]) - Departed(changed) == Removed(p, n)
  {
    hide OwnerOf;
    forall uri ensures uri in Arrived(changed) <==> MovedTo(p, n, uri) {
      if fp :| Moves(p, n, fp) && OwnerOf(n)[fp] == uri {
        assert ApplicationUriChanged(OwnerOf(p)[fp], uri, fp) in changed;
      }
      if c :| c in changed && c.ApplicationUriChanged? && c.after == uri {
        assert Moves(p, n, c.fingerprint);
      }
    }
    forall uri ensures uri in Departed(changed) <==> MovedFrom(p, n, uri) {
      if fp :| Moves(p, n, fp) && OwnerOf(p)[fp] == uri {
        assert ApplicationUriChanged(uri, OwnerOf(n)[fp], fp) in changed;
      }
      if c :| c in changed && c.ApplicationUriChanged? && c.before == uri {
        assert Moves(p, n, c.fingerprint);
      }
    }
  }

  /** The loop over fingerprints present on both sides, which takes moved URIs off the two lists. */
  method FindMoved(p: Index, n: Index, added: map<string, Entry>, removed: map<string, Entry>)
    returns (changed: seq<Change>, stillAdded: map<string, Entry>, stillRemoved: map<string, Entry>)
    ensures forall c :: c in changed <==> c.ApplicationUriChanged? && Reported(p, n, c)
    ensures stillAdded == added - Arrived(changed) && stillRemoved == removed - Departed(changed)
  {
    hide OwnerOf, Arrived, Departed;
    var before := FingerprintOwners(p);
    var after := FingerprintOwners(n);
    changed, stillAdded, stillRemoved := [], added, removed;
    assert Arrived(changed) == {} && Departed(changed) == {} by { NoMoves(); }
    var todo := before.Keys * after.Keys;
    while todo != {}
      invariant todo <= before.Keys * after.Keys
      invariant forall c :: c in changed <==> c.ApplicationUriChanged? && Reported(p, n, c) && c.fingerprint !in todo
      invariant stillAdded == added - Arrived(changed) && stillRemoved == removed - Departed(changed)
      decreases |todo|
    {
      var fp :| fp in todo;
      if before[fp] != after[fp] {
        var c := ApplicationUriChanged(before[fp], after[fp], fp);
        OneMoreMove(changed, c);
        changed := changed + [c];
        stillAdded := stillAdded - {after[fp]};
        stillRemoved := stillRemoved - {before[fp]};
      }
      todo := todo - {fp};
    }
  }

  lemma NoMoves()
    ensures Arrived([]) == {} && Departed([]) == {}
  {
  }

  method CompareShared(p: Index, n: Index) returns (changed: seq<Change>)
    ensures forall c :: c in changed <==> !c.ApplicationUriChanged? && Reported(p, n, c)
  {
    SharedChangesNameSharedUris(p, n);
    hide OwnerOf, ChangesAt, Reported;
    changed := [];
    var todo := p.entries.Keys * n.entries.Keys;
    while todo != {}
      invariant todo <= p.entries.Keys * n.entries.Keys
      invariant forall c :: c in changed <==> !c.ApplicationUriChanged? && Reported(p, n, c) && c.uri !in todo
      decreases |todo|
    {
      var uri :| uri in todo;
      forall c ensures c in ChangesAt(uri, p.entries[uri], n.entries[uri]) <==>
                       Reported(p, n, c) && !c.ApplicationUriChanged? && c.uri == uri {
        ChangesAtAreReported(p, n, uri, c);
      }
      changed := changed + ChangesAt(uri, p.entries[uri], n.entries[uri]);
      todo := todo - {uri};
    }
  }

  /** The critical reasons, in the order they are appended. */
  method CollectReasons(p: Index, n: Index, current: Option<TrustDocument>, given: seq<Reason>)
    returns (critical: seq<Reason>)
    ensures critical == CriticalReasons(p, n, current, given)
  {
    critical := given;
    if current.Some? && Certificates(current) == [] {
      critical := critical + [TrustListEmpty];
    }
    if current.Some? && current.value.caChain.Some? && !Contains(current.value.caChain.value, "BEGIN CERTIFICATE") {
      critical := critical + [CaChainMissing];
    }
    critical := critical + MalformedReasons(p.malformed) + MalformedReasons(n.malformed);
  }

  method RateRisk(added: map<string, Entry>, removed: map<string, Entry>, changed: seq<Change>, critical: seq<Reason>,
                  caChainChanged: bool) returns (risk: Risk)
    ensures risk == (if critical != [] then Critical
                     else if NeedsReview(removed, changed, caChainChanged) then High
                     else if NeedsNotice(added, changed) then Medium
                     else Low)
  {
    risk := Low;
    if critical != [] {
      risk := Critical;
    } else if NeedsReview(removed, changed, caChainChanged) {
      risk := High;
    } else if NeedsNotice(added, changed) {
      risk := Medium;
    }
  }

  /** `build_diff_report`. */
  method BuildDiffReport(previous: Option<TrustDocument>, current: Option<TrustDocument>,
                         caChainChanged: bool, given: seq<Reason>) returns (r: Report)
    ensures IsReport(r, previous, current, caChainChanged, given)
    ensures Compares(r, Certificates(previous), Certificates(current))
    ensures Explains(r, previous, current, given) && Rates(r, caChainChanged)
    ensures r.previousVersion == (if previous == None then None else previous.value.version)
    ensures r.newVersion == (if current == None then None else current.value.version)
  {
    hide Compares, Explains, Rates, NeedsReview, NeedsNotice;
    hide IndexOf, OwnerOf, Reported, Added, Removed, Arrived, Departed, CriticalReasons, Certificates;
    var keys, entries, malformed := BuildCertIndex(Certificates(previous));
    var p := Index(keys, entries, malformed);
    keys, entries, malformed := BuildCertIndex(Certificates(current));
    var n := Index(keys, entries, malformed);
    var moved, added, removed := FindMoved(p, n,
      map uri | uri in n.entries && uri !in p.entries :: n.entries[uri],
      map uri | uri in p.entries && uri !in n.entries :: p.entries[uri]);
    PoppedLists(p, n, moved);
    var shared := CompareShared(p, n);
    var changed := moved + shared;
    var critical := CollectReasons(p, n, current, given);
    var risk := RateRisk(added, removed, changed, critical, caChainChanged);
    r := Report(if previous.Some? then previous.value.version else None,
                if current.Some? then current.value.version else None,
                added, removed, changed, risk, critical);
    ReportCompares(r, previous, current, caChainChanged, given);
    ReportExplains(r, previous, current, caChainChanged, given);
    ReportRates(r, previous, current, caChainChanged, given);
  }
}
