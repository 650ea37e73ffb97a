/** Version precedence as in section 11 of Semantic Versioning 2.0.0. */
module Semver {
  import opened Prelude
  import opened Strings

  datatype Identifier = Numeric(n: nat) | Alpha(text: string)

  /** Build metadata plays no part in precedence and is left out. */
  datatype Version = Version(major: nat, minor: nat, patch: nat, pre: seq<Identifier>)

  /** Numeric identifiers rank below alphanumeric ones. */
  function CompareIdentifier(a: Identifier, b: Identifier): (r: int) {
    match (a, b)
    case (Numeric(m), Numeric(n)) => Sign(m, n)
    case (Numeric(_), Alpha(_)) => -1
    case (Alpha(_), Numeric(_)) => 1
    case (Alpha(s), Alpha(t)) => CompareText(s, t)
  }

  /** Field by field; a longer list of fields wins when the shorter is its prefix. */
  function CompareFields(a: seq<Identifier>, b: seq<Identifier>): (r: int) {
    if a == [] then (if b == [] then 0 else -1)
    else if b == [] then 1
    else if CompareIdentifier(a[0], b[0]) != 0 then CompareIdentifier(a[0], b[0])
    else CompareFields(a[1..], b[1..])
  }

  /** A release (no pre-release fields) ranks above all of its pre-releases. */
  function ComparePre(a: seq<Identifier>, b: seq<Identifier>): (r: int) {
    if a == [] then (if b == [] then 0 else 1)
    else if b == [] then -1
    else CompareFields(a, b)
  }

  function Compare(a: Version, b: Version): (r: int) {
    if a.major != b.major then Sign(a.major, b.major)
    else if a.minor != b.minor then Sign(a.minor, b.minor)
    else if a.patch != b.patch then Sign(a.patch, b.patch)
    else ComparePre(a.pre, b.pre)
  }

  lemma IdentifierOrder(a: Identifier, b: Identifier, c: Identifier)
    ensures CompareIdentifier(a, b) == -CompareIdentifier(b, a)
    ensures CompareIdentifier(a, b) <= 0 && CompareIdentifier(b, c) <= 0 ==> CompareIdentifier(a, c) <= 0
    ensures CompareIdentifier(a, b) == 0 ==> a == b
  {
    if a.Alpha? && b.Alpha? {
      TextOrder(a.text, b.text, if c.Alpha? then c.text else "");
    }
  }

  lemma {:induction false} FieldsOrder(a: seq<Identifier>, b: seq<Identifier>, c: seq<Identifier>)
    ensures CompareFields(a, b) == -CompareFields(b, a)
    ensures CompareFields(a, b) <= 0 && CompareFields(b, c) <= 0 ==> CompareFields(a, c) <= 0
    decreases |a| + |b| + |c|
  {
    if a != [] && b != [] {
      IdentifierOrder(a[0], b[0], b[0]);
      if c != [] {
        IdentifierOrder(a[0], b[0], c[0]);
        IdentifierOrder(a[0], c[0], b[0]);
        IdentifierOrder(b[0], c[0], a[0]);
        FieldsOrder(a[1..], b[1..], c[1..]);
      } else {
        FieldsOrder(a[1..], b[1..], []);
      }
    }
  }

  /** Precedence is a total preorder: any two versions compare, and both the
      weak and the strict order compose. */
  lemma PrecedenceOrder(a: Version, b: Version, c: Version)
    ensures Compare(a, b) == -Compare(b, a)
    ensures Compare(a, b) <= 0 && Compare(b, c) <= 0 ==> Compare(a, c) <= 0
    ensures Compare(a, b) < 0 && Compare(b, c) <= 0 ==> Compare(a, c) < 0
    ensures Compare(a, b) <= 0 && Compare(b, c) < 0 ==> Compare(a, c) < 0
  {
    WeakOrder(a, b, c);
    WeakOrder(c, a, b);
    WeakOrder(b, c, a);
  }

  lemma WeakOrder(a: Version, b: Version, c: Version)
    ensures Compare(a, b) == -Compare(b, a)
    ensures Compare(a, b) <= 0 && Compare(b, c) <= 0 ==> Compare(a, c) <= 0
  {
    FieldsOrder(a.pre, b.pre, c.pre);
  }

  /** Numbers by size, numbers below text, text character by character. */
  ghost predicate IdentifierBelow(a: Identifier, b: Identifier) {
    match (a, b)
    case (Numeric(m), Numeric(n)) => m < n
    case (Numeric(_), Alpha(_)) => true
    case (Alpha(_), Numeric(_)) => false
    case (Alpha(s), Alpha(t)) => TextBelow(s, t)
  }

  /** After `k` equal fields, `a` ends or has the smaller field. */
  ghost predicate FieldsBelowAt(a: seq<Identifier>, b: seq<Identifier>, k: nat) {
    k <= |a| && k < |b| && a[..k] == b[..k] && (k == |a| || IdentifierBelow(a[k], b[k]))
  }

  ghost predicate FieldsBelow(a: seq<Identifier>, b: seq<Identifier>) {
    exists k :: FieldsBelowAt(a, b, k)
  }

  /** Section 11: the first difference of major, minor and patch decides; then a pre-release is
      below its release; then the first different field, or the shorter list of fields. */
  ghost predicate Below(a: Version, b: Version) {
    || a.major < b.major
    || (a.major == b.major && a.minor < b.minor)
    || (a.major == b.major && a.minor == b.minor && a.patch < b.patch)
    || (a.major == b.major && a.minor == b.minor && a.patch == b.patch && a.pre != [] &&
        (b.pre == [] || FieldsBelow(a.pre, b.pre)))
  }

  lemma IdentifierRanks(a: Identifier, b: Identifier)
    ensures CompareIdentifier(a, b) < 0 <==> IdentifierBelow(a, b)
    ensures CompareIdentifier(a, b) == 0 <==> a == b
  {
    if a.Alpha? && b.Alpha? {
      TextOrder(a.text, b.text, a.text);
      TextRanksExactly(a.text, b.text);
    }
  }

  lemma {:induction false} FieldsRank(a: seq<Identifier>, b: seq<Identifier>)
    ensures CompareFields(a, b) < 0 <==> FieldsBelow(a, b)
    ensures CompareFields(a, b) == 0 <==> a == b
  {
    if a == [] {
      assert b != [] ==> FieldsBelowAt(a, b, 0);
    } else if b != [] {
      IdentifierRanks(a[0], b[0]);
      assert a == [a[0]] + a[1..] && b == [b[0]] + b[1..];
      if a[0] == b[0] {
        FieldsRank(a[1..], b[1..]);
        FieldsStep(a, b);
      } else {
        if IdentifierBelow(a[0], b[0]) {
          assert FieldsBelowAt(a, b, 0);
        }
        if k: nat :| FieldsBelowAt(a, b, k) {
          PrefixHead(a, b, k);
        }
      }
    }
  }

  lemma FieldsStep(a: seq<Identifier>, b: seq<Identifier>)
    requires a != [] && b != [] && a[0] == b[0]
    ensures FieldsBelow(a, b) <==> FieldsBelow(a[1..], b[1..])
  {
    IdentifierRanks(a[0], a[0]);
    if k: nat :| FieldsBelowAt(a, b, k) {
      assert k > 0;
      assert a[1..][..k - 1] == a[..k][1..] && b[1..][..k - 1] == b[..k][1..];
      assert FieldsBelowAt(a[1..], b[1..], k - 1);
    }
    if k: nat :| FieldsBelowAt(a[1..], b[1..], k) {
      assert a[..k + 1] == [a[0]] + a[1..][..k] && b[..k + 1] == [b[0]] + b[1..][..k];
      assert FieldsBelowAt(a, b, k + 1);
    }
  }

  /** Comparison ranks versions exactly as section 11 says. */
  lemma PrecedenceExactly(a: Version, b: Version)
    ensures Compare(a, b) < 0 <==> Below(a, b)
    ensures Compare(a, b) > 0 <==> Below(b, a)
    ensures Compare(a, b) == 0 <==> a == b
  {
    FieldsRank(a.pre, b.pre);
    FieldsRank(b.pre, a.pre);
    WeakOrder(a, b, a);
  }
}
