/** The string operations the components rely on: ordering and sorting, trimming,
    prefixes and suffixes, counting and splitting. */
module Strings {
  import opened Prelude

  // ----- order -----

  /** The three-way result of comparing two integers. */
  function Sign(a: int, b: int): (r: int) {
    if a < b then -1 else if a > b then 1 else 0
  }

  /** Lexicographic comparison. */
  function CompareText(a: string, b: string): (r: int) {
    if a == [] then (if b == [] then 0 else -1)
    else if b == [] then 1
    else if a[0] != b[0] then Sign(a[0] as int, b[0] as int)
    else CompareText(a[1..], b[1..])
  }

  lemma {:induction false} TextOrder(a: string, b: string, c: string)
    ensures CompareText(a, b) == -CompareText(b, a)
    ensures CompareText(a, b) <= 0 && CompareText(b, c) <= 0 ==> CompareText(a, c) <= 0
    ensures CompareText(a, b) == 0 <==> a == b
    decreases |a| + |b| + |c|
  {
    if a != [] && b != [] {
      TextOrder(a[1..], b[1..], if c == [] then [] else c[1..]);
      assert a == [a[0]] + a[1..] && b == [b[0]] + b[1..];
    }
  }

  /** After `k` equal characters, `a` ends or has the smaller character. */
  ghost predicate TextBelowAt(a: string, b: string, k: nat) {
    k <= |a| && k < |b| && a[..k] == b[..k] && (k == |a| || a[k] < b[k])
  }

  /** `a` is a proper prefix of `b`, or has the smaller character where they first differ. */
  ghost predicate TextBelow(a: string, b: string) {
    exists k :: TextBelowAt(a, b, k)
  }

  /** Comparison ranks texts exactly so. */
  lemma {:induction false} TextRanksExactly(a: string, b: string)
    ensures CompareText(a, b) < 0 <==> TextBelow(a, b)
    ensures CompareText(a, b) > 0 <==> TextBelow(b, a)
  {
    TextOrder(a, b, a);
    TextRanksBelow(a, b);
    TextRanksBelow(b, a);
  }

  lemma {:induction false} TextRanksBelow(a: string, b: string)
    ensures CompareText(a, b) < 0 <==> TextBelow(a, b)
  {
    if a == [] {
      assert b != [] ==> TextBelowAt(a, b, 0);
    } else if b != [] {
      if a[0] == b[0] {
        TextRanksBelow(a[1..], b[1..]);
        TextStep(a, b);
      } else {
        if a[0] < b[0] {
          assert TextBelowAt(a, b, 0);
        }
        if k: nat :| TextBelowAt(a, b, k) {
          PrefixHead(a, b, k);
        }
      }
    }
  }

  lemma TextStep(a: string, b: string)
    requires a != [] && b != [] && a[0] == b[0]
    ensures TextBelow(a, b) <==> TextBelow(a[1..], b[1..])
  {
    if k: nat :| TextBelowAt(a, b, k) {
      assert k > 0;
      assert a[1..][..k - 1] == a[..k][1..] && b[1..][..k - 1] == b[..k][1..];
      assert TextBelowAt(a[1..], b[1..], k - 1);
    }
    if k: nat :| TextBelowAt(a[1..], b[1..], k) {
      assert a[..k + 1] == [a[0]] + a[1..][..k] && b[..k + 1] == [b[0]] + b[1..][..k];
      assert TextBelowAt(a, b, k + 1);
    }
  }

  ghost predicate Sorted(s: seq<string>) {
    forall i, j | 0 <= i < j < |s| :: CompareText(s[i], s[j]) <= 0
  }

  /** Sorted without repetition. */
  ghost predicate Ascending(s: seq<string>) {
    forall i, j | 0 <= i < j < |s| :: CompareText(s[i], s[j]) < 0
  }

  function Insert(s: seq<string>, x: string): (r: seq<string>) {
    if s == [] then [x]
    else if CompareText(x, s[0]) <= 0 then [x] + s
    else [s[0]] + Insert(s[1..], x)
  }

  /** sort.Strings */
  function Sort(s: seq<string>): (r: seq<string>) {
    if s == [] then [] else Insert(Sort(s[1..]), s[0])
  }

  lemma SortedCons(x: string, s: seq<string>)
    requires Sorted(s) && forall y | y in s :: CompareText(x, y) <= 0
    ensures Sorted([x] + s)
  {
  }

  lemma HeadIsLeast(s: seq<string>, y: string)
    requires Sorted(s) && y in s
    ensures CompareText(s[0], y) <= 0
  {
    TextOrder(y, y, y);
  }

  lemma {:induction false} InsertAdds(s: seq<string>, x: string)
    ensures multiset(Insert(s, x)) == multiset(s) + multiset{x}
  {
    if s != [] {
      assert s == [s[0]] + s[1..];
      InsertAdds(s[1..], x);
    }
  }

  lemma {:induction false} InsertKeepsSorted(s: seq<string>, x: string)
    requires Sorted(s)
    ensures Sorted(Insert(s, x))
  {
    if s != [] {
      TextOrder(x, s[0], x);
      if CompareText(x, s[0]) <= 0 {
        forall y | y in s ensures CompareText(x, y) <= 0 {
          HeadIsLeast(s, y);
          TextOrder(x, s[0], y);
        }
        SortedCons(x, s);
      } else {
        InsertKeepsSorted(s[1..], x);
        forall y | y in Insert(s[1..], x) ensures CompareText(s[0], y) <= 0 {
          InsertAdds(s[1..], x);
          assert y in multiset(Insert(s[1..], x));
          if y != x {
            HeadIsLeast(s, y);
          }
        }
        SortedCons(s[0], Insert(s[1..], x));
      }
    }
  }

  lemma {:induction false} SortSorts(s: seq<string>)
    ensures Sorted(Sort(s)) && multiset(Sort(s)) == multiset(s)
  {
    if s != [] {
      assert s == [s[0]] + s[1..];
      SortSorts(s[1..]);
      InsertKeepsSorted(Sort(s[1..]), s[0]);
      InsertAdds(Sort(s[1..]), s[0]);
    }
  }

  /** Sorting distinct strings gives the ascending listing of their set. */
  lemma SortDistinct(s: seq<string>)
    requires Distinct(s)
    ensures Ascending(Sort(s)) && Elems(Sort(s)) == Elems(s) && |Sort(s)| == |s|
  {
    SortSorts(s);
    var t := Sort(s);
    assert |multiset(t)| == |t| && |multiset(s)| == |s|;
    forall x ensures x in t <==> x in s {
      assert x in multiset(t) <==> x in multiset(s);
    }
    forall i, j | 0 <= i < j < |t| ensures CompareText(t[i], t[j]) < 0 {
      TextOrder(t[i], t[j], t[i]);
      if t[i] == t[j] {
        TwiceInMultiset(t, i, j);
        DistinctMultiset(s, t[i]);
      }
    }
  }

  lemma TwiceInMultiset(t: seq<string>, i: int, j: int)
    requires 0 <= i < j < |t| && t[i] == t[j]
    ensures multiset(t)[t[i]] >= 2
  {
    assert t == t[..j] + [t[j]] + t[j + 1..];
    assert t[..j][i] == t[i];
    assert t[i] in multiset(t[..j]);
  }

  lemma {:induction false} DistinctMultiset(s: seq<string>, x: string)
    requires Distinct(s)
    ensures multiset(s)[x] <= 1
  {
    if s != [] {
      assert s == [s[0]] + s[1..];
      DistinctMultiset(s[1..], x);
      assert s[0] !in multiset(s[1..]);
    }
  }

  lemma AscendingHead(a: seq<string>, y: string)
    requires Ascending(a) && y in a
    ensures CompareText(a[0], y) <= 0
  {
    TextOrder(y, y, y);
  }

  lemma AscendingTail(a: seq<string>)
    requires Ascending(a) && a != []
    ensures Ascending(a[1..]) && Elems(a[1..]) == Elems(a) - {a[0]}
  {
    TextOrder(a[0], a[0], a[0]);
    assert forall i | 0 <= i < |a[1..]| :: a[1..][i] == a[i + 1];
    assert a == [a[0]] + a[1..];
  }

  /** A set has one ascending listing. */
  lemma {:induction false} AscendingUnique(a: seq<string>, b: seq<string>)
    requires Ascending(a) && Ascending(b) && Elems(a) == Elems(b)
    ensures a == b
  {
    NonemptyElems(a);
    NonemptyElems(b);
    if a != [] {
      AscendingHead(a, b[0]);
      AscendingHead(b, a[0]);
      TextOrder(a[0], b[0], a[0]);
      AscendingTail(a);
      AscendingTail(b);
      AscendingUnique(a[1..], b[1..]);
      assert a == [a[0]] + a[1..] && b == [b[0]] + b[1..];
    }
  }

  lemma NonemptyElems(a: seq<string>)
    ensures a != [] ==> a[0] in Elems(a)
    ensures a == [] <==> Elems(a) == {}
  {
  }

  // ----- trimming -----

  /** Unicode white space. */
  predicate IsSpace(c: char) {
    var n := c as int;
    9 <= n <= 13 || n == 0x20 || n == 0x85 || n == 0xA0 || n == 0x1680 || 0x2000 <= n <= 0x200A ||
    n == 0x2028 || n == 0x2029 || n == 0x202F || n == 0x205F || n == 0x3000
  }

  function TrimLeft(s: string): (r: string) {
    if s != [] && IsSpace(s[0]) then TrimLeft(s[1..]) else s
  }

  function TrimRight(s: string): (r: string) {
    if s != [] && IsSpace(s[|s| - 1]) then TrimRight(s[..|s| - 1]) else s
  }

  function Trim(s: string): (r: string) {
    TrimRight(TrimLeft(s))
  }

  /** What trimming leaves does not start with white space. */
  lemma TrimStarts(s: string)
    ensures Trim(s) != "" ==> !IsSpace(Trim(s)[0])
  {
    TrimLeftStarts(s);
    TrimRightKeepsStart(TrimLeft(s));
  }

  lemma {:induction false} TrimLeftStarts(s: string)
    ensures TrimLeft(s) != "" ==> !IsSpace(TrimLeft(s)[0])
  {
    if s != [] && IsSpace(s[0]) {
      TrimLeftStarts(s[1..]);
    }
  }

  lemma {:induction false} TrimRightKeepsStart(s: string)
    ensures TrimRight(s) <= s
  {
    if s != [] && IsSpace(s[|s| - 1]) {
      TrimRightKeepsStart(s[..|s| - 1]);
    }
  }

  /** Trimming takes white space off both ends and nothing else. */
  lemma TrimExactly(s: string) returns (left: string, right: string)
    ensures s == left + Trim(s) + right
    ensures (forall c | c in left :: IsSpace(c)) && (forall c | c in right :: IsSpace(c))
    ensures Trim(s) != "" ==> !IsSpace(Trim(s)[0]) && !IsSpace(Trim(s)[|Trim(s)| - 1])
  {
    left := TrimLeftTakes(s);
    right := TrimRightTakes(TrimLeft(s));
    TrimStarts(s);
  }

  lemma {:induction false} TrimLeftTakes(s: string) returns (left: string)
    ensures s == left + TrimLeft(s) && forall c | c in left :: IsSpace(c)
  {
    left := "";
    if s != [] && IsSpace(s[0]) {
      left := TrimLeftTakes(s[1..]);
      left := [s[0]] + left;
      assert s == [s[0]] + s[1..];
    }
  }

  lemma {:induction false} TrimRightTakes(s: string) returns (right: string)
    ensures s == TrimRight(s) + right && forall c | c in right :: IsSpace(c)
    ensures TrimRight(s) != "" ==> !IsSpace(TrimRight(s)[|TrimRight(s)| - 1])
  {
    right := "";
    if s != [] && IsSpace(s[|s| - 1]) {
      right := TrimRightTakes(s[..|s| - 1]);
      right := right + [s[|s| - 1]];
      assert s == s[..|s| - 1] + [s[|s| - 1]];
    }
  }

  lemma TrimFixes(s: string)
    requires s != "" && !IsSpace(s[0]) && !IsSpace(s[|s| - 1])
    ensures Trim(s) == s
  {
  }

  // ----- case folding, prefixes, suffixes, counting -----

  /** Equal to a lower-case text letter by letter, in either case. */
  predicate Folds(s: string, lower: string) {
    |s| == |lower| && forall i | 0 <= i < |s| :: s[i] == lower[i] || ('A' <= s[i] <= 'Z' && s[i] as int + 32 == lower[i] as int)
  }

  predicate HasPrefix(s: string, prefix: string) {
    prefix <= s
  }

  predicate HasSuffix(s: string, suffix: string) {
    |suffix| <= |s| && s[|s| - |suffix|..] == suffix
  }

  function Count(s: string, c: char): (n: nat)
    ensures n == 0 <==> c !in s
  {
    if s == [] then 0 else (if s[0] == c then 1 else 0) + Count(s[1..], c)
  }

  lemma {:induction false} CountAppend(a: string, b: string, c: char)
    ensures Count(a + b, c) == Count(a, c) + Count(b, c)
  {
    if a == [] {
      assert a + b == b;
    } else {
      assert (a + b)[1..] == a[1..] + b;
      CountAppend(a[1..], b, c);
    }
  }

  /** Two strings that agree up to a first separator agree before it and after it. */
  lemma FirstSeparator(a: string, b: string, x: string, y: string, c: char)
    requires a + [c] + b == x + [c] + y && c !in a && c !in x
    ensures a == x && b == y
  {
    var s, t := a + [c] + b, x + [c] + y;
    assert s[|a|] == c && t[|x|] == c;
    assert a == s[..|a|] && x == t[..|x|] && b == s[|a| + 1..] && y == t[|x| + 1..];
  }

  lemma StripSuffix(a: string, suffix: string)
    ensures HasSuffix(a + suffix, suffix) && (a + suffix)[..|a + suffix| - |suffix|] == a
  {
  }
}
