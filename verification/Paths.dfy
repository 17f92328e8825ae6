/**
 * Runtime PKI paths of the agent: relative, canonical, with forward slashes.
 * Which of them hold private keys, which a live activation must leave alone,
 * and which a revocation may move to quarantine.
 */
module Paths {
  import opened Common

  /** File contents; SHA-256 is ideal, so a digest is its preimage. */
  type Bytes = seq<bv8>
  datatype Sha = Sha(of: Bytes)
  type Tree = map<string, Bytes>

  /** What becomes of one copy on an untrusted disk; `os.replace` makes a failed one leave nothing behind. */
  datatype Write = Raises | Stores(bytes: Bytes)

  // ---- text ----

  /** `path.replace("\\", "/")`. */
  function Slashes(s: string): string {
    seq(|s|, i requires 0 <= i < |s| => if s[i] == '\\' then '/' else s[i])
  }

  /** ASCII white space, as `str.strip` sees it. */
  predicate Space(c: char) {
    c == ' ' || '\t' <= c <= '\r' || 28 as char <= c <= 31 as char
  }

  function StripLeft(s: string): string {
    if s != "" && Space(s[0]) then StripLeft(s[1..]) else s
  }

  function StripRight(s: string): string {
    if s != "" && Space(s[|s| - 1]) then StripRight(s[..|s| - 1]) else s
  }

  function Strip(s: string): string {
    StripRight(StripLeft(s))
  }

  function DropSlashes(s: string): string {
    if s != "" && s[0] == '/' then DropSlashes(s[1..]) else s
  }

  // ---- path parts ----

  /** `segment in rel.split("/")`, for a segment without slashes. */
  predicate HasSegment(rel: string, segment: string) {
    exists i | 0 <= i <= |rel| :: SegmentAt(rel, segment, i)
  }

  predicate SegmentAt(rel: string, segment: string, i: int) {
    && OccursAt(rel, segment, i)
    && (i == 0 || rel[i - 1] == '/')
    && (i + |segment| == |rel| || rel[i + |segment|] == '/')
  }

  /** What follows the last slash. */
  function BaseName(rel: string): string {
    if rel == "" || rel[|rel| - 1] == '/' then ""
    else BaseName(rel[..|rel| - 1]) + [rel[|rel| - 1]]
  }

  // ---- classification ----

  predicate IsPrivateKeyPath(path: string) {
    var rel := Lower(Slashes(path));
    var name := BaseName(rel);
    || HasSegment(rel, "private") || HasSegment(rel, "keys")
    || Contains(name, ".key") || Contains(name, "private")
    || EndsWith(name, ".key.der") || EndsWith(name, ".key.pem")
  }

  const PRESERVED: set<string> := {
    "mutex.lock", "own/openssl.cnf", "own/private/private_key.pem",
    "applcerts/own/private/server.key.der", "private/private.key.der", "private/private.pem"}

  predicate IsPreserved(path: string) {
    IsPrivateKeyPath(path) || Lower(Slashes(path)) in PRESERVED
  }

  const TARGETS: set<string> := {"fuxa", "opcua-server", "dmz-gateway-client", "dmz-gateway-server"}

  function KeyCandidates(target: string): seq<string> {
    if target == "fuxa" then ["own/private/private_key.pem"]
    else if target == "dmz-gateway-client" then
      ["own/private/client.key.der", "private/private.key.der", "private/private.pem"]
    else if target == "opcua-server" || target == "dmz-gateway-server" then
      ["ApplCerts/own/private/server.key.der", "own/private/server.key.der",
       "private/private.key.der", "private/private.pem"]
    else []
  }

  lemma Has(s: string, text: string, i: int, k: nat)
    requires OccursAt(s, text, i) && k < |text|
    ensures text[k] in s
  {
    assert s[i + k] == s[i..i + |text|][k];
  }

  /** A text does not contain what has a character it lacks. */
  lemma Lacks(s: string, text: string, k: nat)
    requires k < |text| && text[k] !in s
    ensures !Contains(s, text) && !HasSegment(s, text) && !StartsWith(s, text)
  {
    if StartsWith(s, text) {
      Has(s, text, 0, k);
    } else if i :| 0 <= i <= |s| && OccursAt(s, text, i) {
      Has(s, text, i, k);
    }
  }

  lemma {:induction false} BaseNameWithoutSlash(s: string)
    requires '/' !in s
    ensures BaseName(s) == s
    decreases |s|
  {
    if s != "" {
      assert s == s[..|s| - 1] + [s[|s| - 1]];
      BaseNameWithoutSlash(s[..|s| - 1]);
    }
  }

  /** A short name without the letters that make a path special is neither a key nor preserved. */
  lemma OrdinaryName(p: string)
    requires |p| <= 2 && Lower(Slashes(p)) == p && '/' !in p && 'p' !in p && 'k' !in p && '.' !in p
    ensures !IsPreserved(p)
  {
    BaseNameWithoutSlash(p);
    Lacks(p, "private", 0);
    Lacks(p, "keys", 0);
    Lacks(p, ".key", 0);
  }

  lemma PrivateDirectory(path: string, before: string, after: string)
    requires path == before + "private" + after
    requires before == "" || before[|before| - 1] == '/'
    requires after != "" && after[0] == '/'
    ensures IsPrivateKeyPath(path)
  {
    var rel := Lower(Slashes(path));
    assert rel[|before|..|before| + 7] == "private";
    assert SegmentAt(rel, "private", |before|);
  }

  lemma PrivateNames()
    ensures IsPrivateKeyPath("private/private.key.der") && IsPrivateKeyPath("private/private.pem")
    ensures IsPrivateKeyPath("own/private/private_key.pem")
  {
    hide IsPrivateKeyPath;
    PrivateDirectory("private/private.key.der", "", "/private.key.der");
    PrivateDirectory("private/private.pem", "", "/private.pem");
    PrivateDirectory("own/private/private_key.pem", "own/", "/private_key.pem");
  }

  lemma PrivateKeyNames()
    ensures IsPrivateKeyPath("own/private/client.key.der") && IsPrivateKeyPath("own/private/server.key.der")
    ensures IsPrivateKeyPath("ApplCerts/own/private/server.key.der")
  {
    hide IsPrivateKeyPath;
    PrivateDirectory("own/private/client.key.der", "own/", "/client.key.der");
    PrivateDirectory("own/private/server.key.der", "own/", "/server.key.der");
    PrivateDirectory("ApplCerts/own/private/server.key.der", "ApplCerts/own/", "/server.key.der");
  }

  /** Every place a runtime key is looked for is a private-key path. */
  lemma CandidateIsPrivate(target: string, i: nat)
    requires i < |KeyCandidates(target)|
    ensures IsPrivateKeyPath(KeyCandidates(target)[i])
  {
    hide IsPrivateKeyPath;
    PrivateNames();
    PrivateKeyNames();
  }

  // ---- quarantine ----

  function NormalizeRelative(path: string): string {
    DropSlashes(Strip(Slashes(path)))
  }

  predicate UnderOwn(rel: string) {
    Contains(rel, "/own/") || StartsWith(rel, "own/")
  }

  predicate InQuarantineScope(rel: string) {
    || StartsWith(rel, "applcerts/trusted/certs/") || StartsWith(rel, "trusted/certs/")
    || StartsWith(rel, "applcerts/rejected/") || StartsWith(rel, "rejected/")
  }

  predicate IsQuarantineEligible(path: string) {
    var rel := Lower(NormalizeRelative(path));
    rel != "" && !IsPrivateKeyPath(rel) && !UnderOwn(rel) && InQuarantineScope(rel)
  }

  // ---- an eligible path is safe to move even where it is not in normal form ----

  lemma {:induction false} StripLeftDrops(s: string) returns (a: nat)
    ensures a <= |s| && StripLeft(s) == s[a..] && forall k :: 0 <= k < a ==> Space(s[k])
    decreases |s|
  {
    a := 0;
    if s != "" && Space(s[0]) {
      var rest := StripLeftDrops(s[1..]);
      a := rest + 1;
      assert s[1..][rest..] == s[a..];
      forall k | 0 <= k < a ensures Space(s[k]) {
        if k > 0 { assert s[k] == s[1..][k - 1]; }
      }
    }
  }

  lemma {:induction false} StripRightDrops(s: string)
    ensures |StripRight(s)| <= |s| && StripRight(s) == s[..|StripRight(s)|]
    ensures forall k :: |StripRight(s)| <= k < |s| ==> Space(s[k])
    decreases |s|
  {
    if s != "" && Space(s[|s| - 1]) {
      StripRightDrops(s[..|s| - 1]);
      forall k | |StripRight(s)| <= k < |s| ensures Space(s[k]) {
        if k < |s| - 1 { assert s[k] == s[..|s| - 1][k]; }
      }
    }
  }

  lemma {:induction false} DropSlashesDrops(s: string) returns (a: nat)
    ensures a <= |s| && DropSlashes(s) == s[a..] && forall k :: 0 <= k < a ==> s[k] == '/'
    decreases |s|
  {
    a := 0;
    if s != "" && s[0] == '/' {
      var rest := DropSlashesDrops(s[1..]);
      a := rest + 1;
      assert s[1..][rest..] == s[a..];
      forall k | 0 <= k < a ensures s[k] == '/' {
        if k > 0 { assert s[k] == s[1..][k - 1]; }
      }
    }
  }

  /** `inner` is `whole` without white space and slashes in front and white space behind. */
  predicate Trims(whole: string, inner: string, a: nat, b: nat) {
    && a <= b <= |whole| && inner == whole[a..b]
    && (forall k :: 0 <= k < a ==> Space(whole[k]) || whole[k] == '/')
    && (forall k :: b <= k < |whole| ==> Space(whole[k]))
  }

  lemma SliceOfSlice(s: string, a: nat, b: nat, i: nat, j: nat)
    requires a <= b <= |s| && i <= j <= b - a
    ensures s[a..b][i..j] == s[a + i..a + j]
  {
    var left, right := s[a..b][i..j], s[a + i..a + j];
    forall k | 0 <= k < j - i ensures left[k] == right[k] {
      assert left[k] == s[a..b][i + k] == s[a + i + k];
    }
  }

  lemma StripTrims(s: string) returns (a: nat, b: nat)
    ensures a <= b <= |s| && Strip(s) == s[a..b]
    ensures (forall k :: 0 <= k < a ==> Space(s[k])) && (forall k :: b <= k < |s| ==> Space(s[k]))
  {
    hide StripLeft, StripRight, Space;
    a := StripLeftDrops(s);
    var t := s[a..];
    StripRightDrops(t);
    b := a + |StripRight(t)|;
    SliceOfSlice(s, a, |s|, 0, b - a);
    forall k | b <= k < |s| ensures Space(s[k]) {
      assert s[k] == t[k - a];
    }
  }

  lemma NormalizeTrims(path: string) returns (a: nat, b: nat)
    ensures Trims(Slashes(path), NormalizeRelative(path), a, b)
  {
    hide DropSlashes, Strip, Space;
    var s := Slashes(path);
    var i;
    i, b := StripTrims(s);
    var t := s[i..b];
    var j := DropSlashesDrops(t);
    a := i + j;
    SliceOfSlice(s, i, b, j, b - i);
    assert t[j..] == t[j..b - i];
    forall k | 0 <= k < a ensures Space(s[k]) || s[k] == '/' {
      if k >= i { assert s[k] == t[k - i]; }
    }
  }

  lemma {:induction false} BaseNameAfter(s: string, l: nat)
    requires l < |s| && s[l] == '/' && forall k :: l < k < |s| ==> s[k] != '/'
    ensures BaseName(s) == s[l + 1..]
    decreases |s|
  {
    if l < |s| - 1 {
      var t := s[..|s| - 1];
      BaseNameAfter(t, l);
      assert s[l + 1..] == t[l + 1..] + [s[|s| - 1]];
    }
  }

  function LastSlash(s: string): (l: nat)
    requires '/' in s
    ensures l < |s| && s[l] == '/' && forall k :: l < k < |s| ==> s[k] != '/'
  {
    if s[|s| - 1] == '/' then |s| - 1 else LastSlash(s[..|s| - 1])
  }

  /** The base names of the whole and of the inner path begin at the same character. */
  lemma BaseNamesAlign(whole: string, inner: string, a: nat, b: nat) returns (c: nat)
    requires Trims(whole, inner, a, b) && '/' in inner
    ensures c <= b && BaseName(inner) == whole[c..b] && BaseName(whole) == whole[c..|whole|]
  {
    var l := LastSlash(inner);
    BaseNameAfter(inner, l);
    c := a + l + 1;
    assert whole[a + l] == '/';
    forall k | a + l < k < |whole| ensures whole[k] != '/' {
      if k < b { assert whole[k] == inner[k - a]; }
    }
    BaseNameAfter(whole, a + l);
    SliceOfSlice(whole, a, b, l + 1, b - a);
    assert inner[l + 1..] == inner[l + 1..b - a];
  }

  /**
   * A text without white space or slashes that occurs in the base name of the whole
   * occurs in that of the inner path.
   */
  lemma BaseNameTrims(whole: string, inner: string, a: nat, b: nat, text: string)
    requires Trims(whole, inner, a, b) && '/' in inner && Contains(BaseName(whole), text)
    requires text != "" && !Space(text[|text| - 1])
    ensures Contains(BaseName(inner), text)
  {
    hide BaseName;
    var c := BaseNamesAlign(whole, inner, a, b);
    var n := |text|;
    var i :| 0 <= i <= |BaseName(whole)| && OccursAt(BaseName(whole), text, i);
    SliceOfSlice(whole, c, |whole|, i, i + n);
    assert whole[c + i + n - 1] == whole[c + i..c + i + n][n - 1] == text[n - 1];
    assert c + i + n <= b;
    SliceOfSlice(whole, c, b, i, i + n);
    assert OccursAt(BaseName(inner), text, i);
  }

  lemma SegmentTrims(whole: string, inner: string, a: nat, b: nat, segment: string)
    requires Trims(whole, inner, a, b) && HasSegment(whole, segment)
    requires segment != "" && forall k :: 0 <= k < |segment| ==> !Space(segment[k]) && segment[k] != '/'
    ensures HasSegment(inner, segment)
  {
    var i :| 0 <= i <= |whole| && SegmentAt(whole, segment, i);
    var n := |segment|;
    assert whole[i] == whole[i..i + n][0] == segment[0];
    assert whole[i + n - 1] == whole[i..i + n][n - 1] == segment[n - 1];
    assert a <= i && i + n <= b;
    SliceOfSlice(whole, a, b, i - a, i - a + n);
    assert SegmentAt(inner, segment, i - a);
  }

  /** Lower-casing keeps white space and slashes where they are. */
  lemma LowerTrims(path: string) returns (a: nat, b: nat)
    ensures Trims(Lower(Slashes(path)), Lower(NormalizeRelative(path)), a, b)
  {
    hide NormalizeRelative;
    a, b := NormalizeTrims(path);
    var whole, inner := Slashes(path), NormalizeRelative(path);
    assert Lower(inner) == Lower(whole)[a..b];
  }

  lemma NormalForm(path: string)
    ensures Slashes(Lower(NormalizeRelative(path))) == Lower(NormalizeRelative(path))
    ensures Lower(Lower(NormalizeRelative(path))) == Lower(NormalizeRelative(path))
  {
    hide DropSlashes, Strip;
    var a, b := NormalizeTrims(path);
    assert forall k :: 0 <= k < |NormalizeRelative(path)| ==> NormalizeRelative(path)[k] == Slashes(path)[a + k];
  }

  lemma {:induction false} StripRightEnds(s: string)
    ensures StripRight(s) != "" ==> !Space(StripRight(s)[|StripRight(s)| - 1])
    decreases |s|
  {
    if s != "" && Space(s[|s| - 1]) {
      StripRightEnds(s[..|s| - 1]);
    }
  }

  /** A normalised path ends in no white space and has no backslash. */
  lemma NormalizedEnds(path: string)
    ensures var n := NormalizeRelative(path);
            (n != "" ==> !Space(n[|n| - 1])) && '\\' !in n
  {
    hide StripLeft, StripRight, DropSlashes, Space;
    StripRightEnds(StripLeft(Slashes(path)));
    var stripped := Strip(Slashes(path));
    var j := DropSlashesDrops(stripped);
    var a, b := NormalizeTrims(path);
    var n := NormalizeRelative(path);
    if n != "" {
      assert n[|n| - 1] == stripped[|stripped| - 1];
    }
    forall k | 0 <= k < |n| ensures n[k] != '\\' {
      assert n[k] == Slashes(path)[a + k];
    }
  }

  /** A path without outer white space, leading slash or backslash is its own normal form. */
  lemma AlreadyNormal(s: string)
    requires s != "" && !Space(s[0]) && s[0] != '/' && !Space(s[|s| - 1]) && '\\' !in s
    ensures NormalizeRelative(s) == s
  {
    assert Slashes(s) == s by {
      assert forall k :: 0 <= k < |s| ==> s[k] in s;
    }
  }

  lemma ScopeStartsWithLetter(rel: string)
    requires InQuarantineScope(rel)
    ensures rel != "" && (rel[0] == 'a' || rel[0] == 't' || rel[0] == 'r')
  {
    if StartsWith(rel, "applcerts/trusted/certs/") {
      assert rel[0] == "applcerts/trusted/certs/"[0];
    } else if StartsWith(rel, "trusted/certs/") {
      assert rel[0] == "trusted/certs/"[0];
    } else if StartsWith(rel, "applcerts/rejected/") {
      assert rel[0] == "applcerts/rejected/"[0];
    } else {
      assert rel[0] == "rejected/"[0];
    }
  }

  /** Normalising an eligible path once is enough. */
  lemma EligibleNormalIsStable(path: string)
    requires IsQuarantineEligible(path)
    ensures NormalizeRelative(path) != ""
    ensures NormalizeRelative(NormalizeRelative(path)) == NormalizeRelative(path)
  {
    hide NormalizeRelative, IsPrivateKeyPath, UnderOwn, InQuarantineScope;
    var n := NormalizeRelative(path);
    ScopeStartsWithLetter(Lower(n));
    assert Lower(n)[0] == LowerChar(n[0]);
    NormalizedEnds(path);
    AlreadyNormal(n);
  }

  /** What quarantine may move is no private-key path and nothing under own/, in normal form or not. */
  lemma EligibleIsSafe(path: string)
    requires IsQuarantineEligible(path)
    ensures !IsPrivateKeyPath(path) && !UnderOwn(Lower(Slashes(path)))
  {
    hide NormalizeRelative, Contains, HasSegment, BaseName;
    var a, b := LowerTrims(path);
    NormalForm(path);
    var whole, inner := Lower(Slashes(path)), Lower(NormalizeRelative(path));
    ScopeHasSlash(inner);
    if HasSegment(whole, "private") { SegmentTrims(whole, inner, a, b, "private"); }
    if HasSegment(whole, "keys") { SegmentTrims(whole, inner, a, b, "keys"); }
    if Contains(BaseName(whole), ".key") { BaseNameTrims(whole, inner, a, b, ".key"); }
    if Contains(BaseName(whole), "private") { BaseNameTrims(whole, inner, a, b, "private"); }
    if EndsWith(BaseName(whole), ".key.der") || EndsWith(BaseName(whole), ".key.pem") { KeySuffix(BaseName(whole)); }
    if UnderOwn(whole) { OwnTrims(whole, inner, a, b); }
  }

  lemma ScopeHasSlash(rel: string)
    requires InQuarantineScope(rel)
    ensures '/' in rel
  {
    if StartsWith(rel, "applcerts/trusted/certs/") || StartsWith(rel, "applcerts/rejected/") {
      assert rel[9] == '/';
    } else if StartsWith(rel, "trusted/certs/") {
      assert rel[7] == rel[..14][7] == '/';
    } else {
      assert rel[8] == rel[..9][8] == '/';
    }
  }

  lemma KeySuffix(name: string)
    requires EndsWith(name, ".key.der") || EndsWith(name, ".key.pem")
    ensures Contains(name, ".key")
  {
    var i := |name| - 8;
    assert name[i..i + 4] == name[i..][..4] == ".key";
    assert OccursAt(name, ".key", i);
  }

  lemma CharAt(s: string, text: string, i: nat, k: nat)
    requires OccursAt(s, text, i) && k < |text|
    ensures s[i + k] == text[k]
  {
    assert s[i + k] == s[i..i + |text|][k];
  }

  lemma OwnTrims(whole: string, inner: string, a: nat, b: nat)
    requires Trims(whole, inner, a, b) && UnderOwn(whole)
    ensures UnderOwn(inner)
  {
    if StartsWith(whole, "own/") {
      assert whole[0..4] == whole[..4];
      OwnPrefixTrims(whole, inner, a, b, 0);
    } else {
      var i :| 0 <= i <= |whole| && OccursAt(whole, "/own/", i);
      OwnInsideTrims(whole, inner, a, b, i);
    }
  }

  lemma OwnInsideTrims(whole: string, inner: string, a: nat, b: nat, i: nat)
    requires Trims(whole, inner, a, b) && OccursAt(whole, "/own/", i)
    ensures UnderOwn(inner)
  {
    CharAt(whole, "/own/", i, 1);
    CharAt(whole, "/own/", i, 4);
    assert a <= i + 1 && i + 5 <= b;
    if a == i + 1 {
      SliceOfSlice(whole, i, i + 5, 1, 5);
      var text := "/own/";
      assert text[1..5] == [text[1], text[2], text[3], text[4]] == "own/";
      OwnPrefixTrims(whole, inner, a, b, i + 1);
    } else {
      SliceOfSlice(whole, a, b, i - a, i - a + 5);
      assert OccursAt(inner, "/own/", i - a);
    }
  }

  lemma OwnPrefixTrims(whole: string, inner: string, a: nat, b: nat, i: nat)
    requires Trims(whole, inner, a, b) && OccursAt(whole, "own/", i)
    requires i == 0 || a == i
    ensures StartsWith(inner, "own/")
  {
    CharAt(whole, "own/", i, 0);
    CharAt(whole, "own/", i, 3);
    assert a == i && i + 4 <= b;
    SliceOfSlice(whole, a, b, 0, 4);
    assert inner[..4] == inner[0..4];
  }

  // ---- the classification, stated on the text ----

  predicate Splits(whole: string, before: string, text: string, after: string) {
    whole == before + text + after
  }

  ghost predicate HasPart(whole: string, text: string) {
    exists before, after :: Splits(whole, before, text, after)
  }

  /** One of the components of the path is this text. */
  ghost predicate HasComponent(path: string, text: string) {
    exists before, after :: Splits(path, before, text, after)
                       && (before == "" || before[|before| - 1] == '/') && (after == "" || after[0] == '/')
  }

  /** The last component. */
  predicate IsFileName(path: string, name: string) {
    && '/' !in name && |name| <= |path| && path[|path| - |name|..] == name
    && (|name| < |path| ==> path[|path| - |name| - 1] == '/')
  }

  /**
   * In any case and with either slash: below a directory `private` or `keys`, or a
   * file whose name has `.key` or `private` in it.
   */
  ghost predicate KeyMaterial(path: string) {
    var p := Lower(Slashes(path));
    || HasComponent(p, "private") || HasComponent(p, "keys")
    || exists name :: IsFileName(p, name) && (HasPart(name, ".key") || HasPart(name, "private"))
  }

  lemma ComponentIff(p: string, text: string)
    ensures HasSegment(p, text) <==> HasComponent(p, text)
  {
    if HasSegment(p, text) {
      var i :| 0 <= i <= |p| && SegmentAt(p, text, i);
      assert Splits(p, p[..i], text, p[i + |text|..]);
    }
    if HasComponent(p, text) {
      var before, after :| Splits(p, before, text, after)
        && (before == "" || before[|before| - 1] == '/') && (after == "" || after[0] == '/');
      assert p[|before|..|before| + |text|] == text;
      assert SegmentAt(p, text, |before|);
    }
  }

  lemma PartIff(name: string, text: string)
    ensures Contains(name, text) <==> HasPart(name, text)
  {
    if Contains(name, text) {
      var i :| 0 <= i <= |name| && OccursAt(name, text, i);
      assert Splits(name, name[..i], text, name[i + |text|..]);
    }
    if before, after :| Splits(name, before, text, after) {
      assert name[|before|..|before| + |text|] == text;
      assert OccursAt(name, text, |before|);
    }
  }

  lemma BaseNameIsFileName(p: string, name: string)
    ensures IsFileName(p, name) <==> name == BaseName(p)
  {
    if '/' in p {
      var l := LastSlash(p);
      BaseNameAfter(p, l);
      hide BaseName, LastSlash;
      if IsFileName(p, name) {
        FileNameLength(p, name, l);
      }
    } else {
      BaseNameWithoutSlash(p);
      hide BaseName;
    }
  }

  lemma FileNameLength(p: string, name: string, l: nat)
    requires IsFileName(p, name) && l < |p| && p[l] == '/' && forall k :: l < k < |p| ==> p[k] != '/'
    ensures name == p[l + 1..]
  {
    forall k | |p| - |name| <= k < |p| ensures p[k] in name {
      assert p[k] == name[k - (|p| - |name|)];
    }
  }

  /** The classification is exactly that. */
  lemma PrivateIff(path: string)
    ensures IsPrivateKeyPath(path) <==> KeyMaterial(path)
  {
    var p := Lower(Slashes(path));
    var name := BaseName(p);
    ComponentIff(p, "private");
    ComponentIff(p, "keys");
    PartIff(name, ".key");
    PartIff(name, "private");
    BaseNameIsFileName(p, name);
    hide HasSegment, Contains, HasComponent, HasPart, BaseName, IsFileName;
    if EndsWith(name, ".key.der") || EndsWith(name, ".key.pem") { KeySuffix(name); }
    if other :| IsFileName(p, other) && (HasPart(other, ".key") || HasPart(other, "private")) {
      BaseNameIsFileName(p, other);
    }
  }

  /** Key material, or one of six files of the runtime's own, in any case and with either slash. */
  ghost predicate Untouchable(path: string) {
    KeyMaterial(path)
    || Lower(Slashes(path)) in ["mutex.lock", "own/openssl.cnf", "own/private/private_key.pem",
                                "applcerts/own/private/server.key.der", "private/private.key.der",
                                "private/private.pem"]
  }

  lemma PreservedIff(path: string)
    ensures IsPreserved(path) <==> Untouchable(path)
  {
    PrivateIff(path);
    hide IsPrivateKeyPath, KeyMaterial;
  }

  /** Where the key of a target is looked for first, second and so on: what the first existing file is. */
  predicate FirstKeyOf(target: string, tree: Tree, k: string) {
    && k in tree
    && (target == "fuxa" ==> k == "own/private/private_key.pem")
    && (target == "dmz-gateway-client" ==>
          || k == "own/private/client.key.der"
          || ("own/private/client.key.der" !in tree && k == "private/private.key.der")
          || ("own/private/client.key.der" !in tree && "private/private.key.der" !in tree
              && k == "private/private.pem"))
    && (target == "opcua-server" || target == "dmz-gateway-server" ==>
          || k == "ApplCerts/own/private/server.key.der"
          || ("ApplCerts/own/private/server.key.der" !in tree &&
              (|| k == "own/private/server.key.der"
               || ("own/private/server.key.der" !in tree &&
                   (|| k == "private/private.key.der"
                    || ("private/private.key.der" !in tree && k == "private/private.pem"))))))
  }

  /** The four targets that live activation knows. */
  predicate KnownTarget(target: string) {
    target == "fuxa" || target == "opcua-server" || target == "dmz-gateway-client" || target == "dmz-gateway-server"
  }

  // ---- normal forms and the scope of quarantine, stated on the text ----

  /** Python's white space, by code point, as far as ASCII goes. */
  predicate White(c: char) {
    c as int in {9, 10, 11, 12, 13, 28, 29, 30, 31, 32}
  }

  lemma SpaceIsWhite(c: char)
    ensures Space(c) <==> White(c)
  {
  }

  /** `inner` is what is left without the white space at either end. */
  ghost predicate Stripped(whole: string, inner: string) {
    exists a, b :: StripsTo(whole, inner, a, b)
  }

  predicate StripsTo(whole: string, inner: string, a: nat, b: nat) {
    && a <= b <= |whole| && inner == whole[a..b]
    && (forall k :: 0 <= k < a ==> White(whole[k])) && (forall k :: b <= k < |whole| ==> White(whole[k]))
    && (a < b ==> !White(whole[a]) && !White(whole[b - 1]))
  }

  lemma {:induction false} StripLeftEnds(s: string)
    ensures StripLeft(s) != "" ==> !Space(StripLeft(s)[0])
    decreases |s|
  {
    if s != "" && Space(s[0]) {
      StripLeftEnds(s[1..]);
    }
  }

  lemma StripIs(s: string)
    ensures Stripped(s, Strip(s))
  {
    hide Space, White;
    forall c ensures Space(c) <==> White(c) {
      SpaceIsWhite(c);
    }
    var a := StripLeftDrops(s);
    var t := s[a..];
    StripLeftEnds(s);
    StripRightEnds(t);
    StripRightDrops(t);
    hide StripLeft, StripRight;
    var b := a + |Strip(s)|;
    SliceOfSlice(s, a, |s|, 0, b - a);
    forall k | b <= k < |s| ensures White(s[k]) {
      assert s[k] == t[k - a];
    }
    assert StripsTo(s, Strip(s), a, b);
  }

  /** Slashes for backslashes, no white space at the ends, then no slashes in front. */
  ghost predicate Normalised(path: string, normal: string) {
    exists slashed, inner, front :: NormalisesTo(path, normal, slashed, inner, front)
  }

  ghost predicate NormalisesTo(path: string, normal: string, slashed: string, inner: string, front: nat) {
    && |slashed| == |path|
    && (forall k :: 0 <= k < |path| ==> slashed[k] == if path[k] == '\\' then '/' else path[k])
    && Stripped(slashed, inner)
    && front <= |inner| && normal == inner[front..] && (forall k :: 0 <= k < front ==> inner[k] == '/')
    && (normal != "" ==> normal[0] != '/')
  }

  lemma {:induction false} DropSlashesEnds(s: string)
    ensures DropSlashes(s) != "" ==> DropSlashes(s)[0] != '/'
    decreases |s|
  {
    if s != "" && s[0] == '/' {
      DropSlashesEnds(s[1..]);
    }
  }

  lemma NormalizeIs(path: string)
    ensures Normalised(path, NormalizeRelative(path))
  {
    var s := Slashes(path);
    StripIs(s);
    var front := DropSlashesDrops(Strip(s));
    DropSlashesEnds(Strip(s));
    hide Strip, DropSlashes;
    assert NormalisesTo(path, NormalizeRelative(path), s, Strip(s), front);
  }

  ghost predicate Begins(whole: string, text: string) {
    exists after :: Splits(whole, "", text, after)
  }

  /**
   * Quarantine may take the path: in normal form and lower case it is in one of four
   * directories, not key material, and nowhere under own/.
   */
  ghost predicate MayLeave(path: string) {
    var rel := Lower(NormalizeRelative(path));
    && (|| Begins(rel, "trusted/certs/") || Begins(rel, "applcerts/trusted/certs/")
        || Begins(rel, "rejected/") || Begins(rel, "applcerts/rejected/"))
    && !KeyMaterial(rel) && !Begins(rel, "own/") && !HasPart(rel, "/own/")
  }

  lemma BeginsIff(whole: string, text: string)
    ensures StartsWith(whole, text) <==> Begins(whole, text)
  {
    if StartsWith(whole, text) {
      assert Splits(whole, "", text, whole[|text|..]);
    }
  }

  lemma MayLeaveIff(path: string)
    ensures IsQuarantineEligible(path) <==> MayLeave(path)
  {
    hide NormalizeRelative, IsPrivateKeyPath, KeyMaterial, StartsWith, Begins, Contains, HasPart;
    var rel := Lower(NormalizeRelative(path));
    PrivateIff(rel);
    PartIff(rel, "/own/");
    BeginsIff(rel, "own/");
    BeginsIff(rel, "trusted/certs/");
    BeginsIff(rel, "applcerts/trusted/certs/");
    BeginsIff(rel, "rejected/");
    BeginsIff(rel, "applcerts/rejected/");
    EmptyIsOutOfScope(rel);
  }

  lemma EmptyIsOutOfScope(rel: string)
    ensures rel == "" ==> !InQuarantineScope(rel)
  {
    if InQuarantineScope(rel) { ScopeStartsWithLetter(rel); }
  }
}
