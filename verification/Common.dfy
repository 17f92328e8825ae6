/** Small vocabulary shared by the other modules: options, ASCII text and sorting. */
module Common {

  datatype Option<+T> = None | Some(value: T)

  /** Python's `str.lower` on one ASCII character. */
  function LowerChar(c: char): char {
    if 'A' <= c <= 'Z' then (c as int + 32) as char else c
  }

  /** Python's `str.lower`, for ASCII text. */
  function Lower(s: string): string {
    seq(|s|, i requires 0 <= i < |s| => LowerChar(s[i]))
  }

  /** The 26 capital letters, and nothing else, are changed. */
  lemma LowerAlphabet()
    ensures Lower("ABCDEFGHIJKLMNOPQRSTUVWXYZ") == "abcdefghijklmnopqrstuvwxyz"
    ensures forall c: char :: c !in "ABCDEFGHIJKLMNOPQRSTUVWXYZ" ==> Lower([c]) == [c]
  {
    var capitals := "ABCDEFGHIJKLMNOPQRSTUVWXYZ";
    forall c: char | 'A' <= c <= 'Z' ensures c in capitals {
      assert capitals[c as int - 'A' as int] == c;
    }
  }

  predicate OccursAt(s: string, sub: string, i: int) {
    0 <= i <= |s| - |sub| && s[i..i + |sub|] == sub
  }

  /** `sub in s` on strings. */
  predicate Contains(s: string, sub: string) {
    exists i | 0 <= i <= |s| :: OccursAt(s, sub, i)
  }

  predicate StartsWith(s: string, prefix: string) {
    |prefix| <= |s| && s[..|prefix|] == prefix
  }

  predicate EndsWith(s: string, suffix: string) {
    |suffix| <= |s| && s[|s| - |suffix|..] == suffix
  }

  function Min(a: int, b: int): int { if a <= b then a else b }

  // ---- sorting (Python's `sorted` on integers) ----

  predicate Sorted(s: seq<int>) {
    forall i, j :: 0 <= i < j < |s| ==> s[i] <= s[j]
  }

  function Insert(x: int, s: seq<int>): seq<int> {
    if s == [] then [x]
    else if x <= s[0] then [x] + s
    else [s[0]] + Insert(x, s[1..])
  }

  function Sort(s: seq<int>): seq<int> {
    if s == [] then [] else Insert(s[0], Sort(s[1..]))
  }

  lemma {:induction false} InsertContents(x: int, s: seq<int>)
    ensures multiset(Insert(x, s)) == multiset{x} + multiset(s)
  {
    if s != [] {
      assert s == [s[0]] + s[1..];
      InsertContents(x, s[1..]);
    }
  }

  /** What is below a sorted list's elements and below `x` is below everything after the insertion. */
  lemma InsertStaysAbove(low: int, x: int, s: seq<int>)
    requires low <= x && forall k :: 0 <= k < |s| ==> low <= s[k]
    ensures forall k :: 0 <= k < |Insert(x, s)| ==> low <= Insert(x, s)[k]
  {
    InsertContents(x, s);
    var r := Insert(x, s);
    forall k | 0 <= k < |r| ensures low <= r[k] {
      assert r[k] in multiset(r);
      assert r[k] == x || r[k] in multiset(s);
    }
  }

  lemma {:induction false} InsertKeepsOrder(x: int, s: seq<int>)
    requires Sorted(s)
    ensures Sorted(Insert(x, s))
  {
    if s != [] && x > s[0] {
      InsertKeepsOrder(x, s[1..]);
      InsertStaysAbove(s[0], x, s[1..]);
    }
  }

  lemma {:induction false} SortSorts(s: seq<int>)
    ensures Sorted(Sort(s))
    ensures multiset(Sort(s)) == multiset(s)
  {
    if s != [] {
      SortSorts(s[1..]);
      InsertContents(s[0], Sort(s[1..]));
      InsertKeepsOrder(s[0], Sort(s[1..]));
      assert s == [s[0]] + s[1..];
    }
  }

  lemma SameLeast(a: seq<int>, b: seq<int>)
    requires Sorted(a) && Sorted(b) && multiset(a) == multiset(b) && a != []
    ensures b != [] && a[0] == b[0]
  {
    assert a[0] in multiset(a) && a[0] in b;
    assert b[0] in multiset(b) && b[0] in a;
  }

  lemma {:induction false} SortedDetermined(a: seq<int>, b: seq<int>)
    requires Sorted(a) && Sorted(b) && multiset(a) == multiset(b)
    ensures a == b
    decreases |a|
  {
    if a == [] {
      assert |multiset(b)| == 0;
    } else {
      SameLeast(a, b);
      assert a == [a[0]] + a[1..] && b == [b[0]] + b[1..];
      assert multiset(a[1..]) == multiset(a) - multiset{a[0]};
      assert multiset(b[1..]) == multiset(b) - multiset{b[0]};
      SortedDetermined(a[1..], b[1..]);
    }
  }

  /** Comparing two lists after sorting compares them up to order. */
  lemma SortEqualIff(a: seq<int>, b: seq<int>)
    ensures Sort(a) == Sort(b) <==> multiset(a) == multiset(b)
  {
    SortSorts(a);
    SortSorts(b);
    if multiset(a) == multiset(b) {
      SortedDetermined(Sort(a), Sort(b));
    }
  }
}
