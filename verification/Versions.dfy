/** Version strings of the drift engine: their fields, their order and the in-place sort
    (internal/reconcile/reconcile.go). */
module Versions {
  import opened Text

  // ---------------------------------------------------------------- fields

  predicate NotDigit(c: char) { !IsDigit(c) }

  /** The maximal runs of digits of a version. */
  function DigitRuns(v: string): (fs: seq<string>)
    ensures forall f :: f in fs ==> f != "" && AllDigits(f)
  {
    FieldsAreTokens(v, NotDigit, "");
    Fields(v, NotDigit)
  }

  const CAP: nat := 1_000_000_000

  /** The cap is looked at only after a digit has been taken in. */
  const MOST: nat := 10 * CAP + 9

  /** The shortest prefix of a field whose value passes the cap, or the whole field. */
  function Significant(s: string): (r: string)
    requires AllDigits(s)
    ensures AllDigits(r) && r <= s
  {
    if s == "" then ""
    else
      var init := Significant(s[..|s| - 1]);
      if DecValue(init) > CAP then init else s
  }

  /** What a field counts for. */
  function FieldValue(s: string): nat
    requires AllDigits(s)
  {
    DecValue(Significant(s))
  }

  lemma {:induction false} SignificantIsWhole(s: string)
    requires AllDigits(s)
    ensures DecValue(Significant(s)) <= CAP ==> Significant(s) == s
    ensures DecValue(s) <= CAP <==> DecValue(Significant(s)) <= CAP
    ensures DecValue(Significant(s)) <= MOST
  {
    if s != "" {
      SignificantIsWhole(s[..|s| - 1]);
    }
  }

  lemma PrefixOfDigits(s: string, k: nat)
    requires AllDigits(s) && k <= |s|
    ensures AllDigits(s[..k])
  {
  }

  lemma {:induction false} SignificantStops(s: string, k: nat)
    requires AllDigits(s) && k <= |s| && DecValue(Significant(s[..k])) > CAP
    ensures Significant(s) == Significant(s[..k])
  {
    if k < |s| {
      PrefixOfDigits(s, |s| - 1);
      assert s[..|s| - 1][..k] == s[..k];
      SignificantStops(s[..|s| - 1], k);
    } else {
      assert s[..k] == s;
    }
  }

  /** One more digit while the cap is not passed. */
  lemma NextDigit(s: string, i: nat)
    requires AllDigits(s) && i < |s| && Significant(s[..i]) == s[..i] && DecValue(s[..i]) <= CAP
    ensures AllDigits(s[..i + 1]) && DecValue(s[..i + 1]) == DecValue(s[..i]) * 10 + DigitValue(s[i])
    ensures Significant(s[..i + 1]) == s[..i + 1]
    ensures DecValue(s[..i + 1]) > CAP ==> FieldValue(s) == DecValue(s[..i + 1])
  {
    assert s[..i + 1][..i] == s[..i];
    if DecValue(s[..i + 1]) > CAP {
      SignificantStops(s, i + 1);
    }
  }

  /** atoi on the leading digits: never more than 10^10 + 9, and exact just up to there. */
  method Atoi(s: string) returns (n: nat)
    ensures n == FieldValue(LeadingDigits(s))
    ensures n <= MOST && (n == DecValue(LeadingDigits(s)) <==> DecValue(LeadingDigits(s)) <= MOST)
  {
    ghost var d := LeadingDigits(s);
    LeadingIsPrefix(s);
    FieldExact(d);
    n := 0;
    assert d[..0] == "" && DecValue("") == 0 && Significant("") == "";
    hide DecValue, Significant, LeadingDigits;
    var i := 0;
    while i < |s|
      invariant 0 <= i <= |d| && n <= CAP && AllDigits(d[..i])
      invariant n == DecValue(d[..i]) && Significant(d[..i]) == d[..i]
    {
      if s[i] < '0' || s[i] > '9' {
        break;
      }
      assert i < |d| && d[i] == s[i];
      NextDigit(d, i);
      n := n * 10 + DigitValue(s[i]);
      if n > CAP {
        return;
      }
      i := i + 1;
    }
    assert d[..i] == d;
  }

  /** A field counts for the number it writes exactly up to 10^10 + 9. */
  lemma FieldExact(s: string)
    requires AllDigits(s)
    ensures FieldValue(s) <= MOST && (FieldValue(s) == DecValue(s) <==> DecValue(s) <= MOST)
  {
    SignificantIsWhole(s);
    if s != "" {
      SignificantIsWhole(s[..|s| - 1]);
    }
  }

  /** Two fields compare as their numbers if both are exact, or if one does not pass the cap. */
  lemma FieldOrder(x: string, y: string)
    requires AllDigits(x) && AllDigits(y)
    requires (DecValue(x) <= MOST && DecValue(y) <= MOST) || DecValue(x) <= CAP || DecValue(y) <= CAP
    ensures FieldValue(x) < FieldValue(y) <==> DecValue(x) < DecValue(y)
  {
    FieldExact(x);
    FieldExact(y);
    SignificantIsWhole(x);
    SignificantIsWhole(y);
    hide DecValue, Significant;
  }

  /** All fields up to b compare as the numbers they write. */
  ghost predicate OrderedUpTo(b: nat) {
    forall x, y :: AllDigits(x) && AllDigits(y) && DecValue(x) <= b && DecValue(y) <= b ==>
      (FieldValue(x) < FieldValue(y) <==> DecValue(x) < DecValue(y))
  }

  /** Fields compare as numbers exactly up to 10^10 + 9: the next number already counts as less than 2*10^9. */
  lemma OrderedUpToIff(b: nat)
    ensures OrderedUpTo(b) <==> b <= MOST
  {
    if b <= MOST {
      forall x, y | AllDigits(x) && AllDigits(y) && DecValue(x) <= b && DecValue(y) <= b
        ensures FieldValue(x) < FieldValue(y) <==> DecValue(x) < DecValue(y)
      {
        FieldOrder(x, y);
      }
    } else {
      var x, y := FirstCut();
    }
  }

  /** 1000000001, the first number past the cap. */
  lemma PastTheCap() returns (t: string)
    ensures AllDigits(t) && DecValue(t) == CAP + 1 && Significant(t) == t
  {
    t := "1" + Zeros(8) + "1";
    DigitsOf("1", 1);
    assert t[..|t| - 1] == "1" + Zeros(8);
    SignificantIsWhole(t[..|t| - 1]);
  }

  lemma NextTens(t: string)
    requires AllDigits(t) && DecValue(t) == CAP + 1 && Significant(t) == t
    ensures AllDigits(t + "0") && DecValue(t + "0") == MOST + 1 && FieldValue(t + "0") == CAP + 1
  {
    var big := t + "0";
    assert big[..|big| - 1] == t && big[|t|] == '0';
    assert DecValue(big) == MOST + 1;
    SignificantStops(big, |t|);
  }

  /** 10000000010 and 2000000000. */
  lemma FirstCut() returns (big: string, small: string)
    ensures AllDigits(big) && AllDigits(small) && DecValue(big) == MOST + 1 && DecValue(small) == 2 * CAP
    ensures FieldValue(big) < FieldValue(small)
  {
    var t := PastTheCap();
    NextTens(t);
    big, small := t + "0", "2" + Zeros(9);
    DigitsOf("2", 2);
    ScaledWhole("2", 9);
    hide DecValue, Significant;
  }

  // ---------------------------------------------------------------- the order of versions

  function Numbers(v: string): seq<nat> {
    var fs := DigitRuns(v);
    seq(|fs|, i requires 0 <= i < |fs| => FieldValue(fs[i]))
  }

  /** Field i of a version; missing fields are zero. */
  function Field(v: string, i: nat): nat {
    if i < |Numbers(v)| then Numbers(v)[i] else 0
  }

  ghost predicate DecidesAt(a: string, b: string, i: nat) {
    Field(a, i) < Field(b, i) && forall k: nat :: k < i ==> Field(a, k) == Field(b, k)
  }

  /** a is older than b: the first field in which they differ is smaller in a. */
  ghost predicate Older(a: string, b: string) {
    exists i: nat :: DecidesAt(a, b, i)
  }

  ghost predicate SameFields(a: string, b: string) {
    forall k: nat :: Field(a, k) == Field(b, k)
  }

  /** compareVersion: the sign of the order. */
  method CompareVersion(a: string, b: string) returns (c: int)
    ensures c == -1 || c == 0 || c == 1
    ensures c == -1 <==> Older(a, b)
    ensures c == 1 <==> Older(b, a)
    ensures c == 0 <==> SameFields(a, b)
  {
    hide *;
    if a == b {
      Undecided(a, b, 0);
      return 0;
    }
    var fa, fb := DigitRuns(a), DigitRuns(b);
    var i := 0;
    while i < |fa| || i < |fb|
      invariant 0 <= i
      invariant forall k: nat :: k < i ==> Field(a, k) == Field(b, k)
      decreases |fa| + |fb| - i
    {
      var x, y := 0, 0;
      if i < |fa| {
        x := Atoi(fa[i]);
      }
      if i < |fb| {
        y := Atoi(fb[i]);
      }
      FieldIs(a, i);
      FieldIs(b, i);
      if x != y {
        if x < y {
          Decided(a, b, i);
          return -1;
        }
        Decided(b, a, i);
        return 1;
      }
      i := i + 1;
    }
    Undecided(a, b, i);
    c := 0;
  }

  lemma FieldIs(v: string, i: nat)
    ensures Field(v, i) == if i < |DigitRuns(v)| then FieldValue(LeadingDigits(DigitRuns(v)[i])) else 0
  {
    if i < |DigitRuns(v)| {
      LeadingOfDigits(DigitRuns(v)[i]);
    }
  }

  lemma Decided(a: string, b: string, i: nat)
    requires Field(a, i) < Field(b, i) && forall k: nat :: k < i ==> Field(a, k) == Field(b, k)
    ensures Older(a, b) && !Older(b, a) && !SameFields(a, b) && !SameFields(b, a)
  {
    hide Field;
    assert DecidesAt(a, b, i);
    OlderOneWay(a, b);
  }

  lemma Undecided(a: string, b: string, n: nat)
    requires a == b || (n >= |DigitRuns(a)| && n >= |DigitRuns(b)|)
    requires forall k: nat :: k < n ==> Field(a, k) == Field(b, k)
    ensures !Older(a, b) && !Older(b, a) && SameFields(a, b)
  {
    hide FieldValue, DigitRuns;
    assert SameFields(a, b);
  }

  /** Antisymmetry: two versions are never older than each other. */
  lemma OlderOneWay(a: string, b: string)
    requires Older(a, b)
    ensures !Older(b, a) && !SameFields(a, b) && a != b
  {
    hide Field;
    var i: nat :| DecidesAt(a, b, i);
    forall j: nat ensures !DecidesAt(b, a, j) {
      if j == i {
      } else if j < i {
        assert Field(a, j) == Field(b, j);
      } else {
        assert Field(a, i) < Field(b, i);
      }
    }
  }

  lemma OlderTransitive(a: string, b: string, c: string)
    requires Older(a, b) && Older(b, c)
    ensures Older(a, c)
  {
    hide Field;
    var i: nat :| DecidesAt(a, b, i);
    var j: nat :| DecidesAt(b, c, j);
    assert DecidesAt(a, c, if i < j then i else j);
  }

  /** Any two versions are ordered or have the same fields. */
  lemma OlderTotal(a: string, b: string)
    ensures Older(a, b) || Older(b, a) || SameFields(a, b)
  {
    if !SameFields(a, b) {
      hide Field;
      var k: nat :| Field(a, k) != Field(b, k);
      FirstDifference(a, b, k);
    }
  }

  lemma {:induction false} FirstDifference(a: string, b: string, k: nat)
    requires Field(a, k) != Field(b, k)
    ensures Older(a, b) || Older(b, a)
  {
    hide Field;
    if j: nat :| j < k && Field(a, j) != Field(b, j) {
      FirstDifference(a, b, j);
    } else if Field(a, k) < Field(b, k) {
      assert DecidesAt(a, b, k);
    } else {
      assert DecidesAt(b, a, k);
    }
  }

  /** Negative transitivity; with the above, a total preorder. */
  lemma NotOlderTransitive(a: string, b: string, c: string)
    requires !Older(a, b) && !Older(b, c)
    ensures !Older(a, c)
  {
    hide Field, DecidesAt, Older, SameFields;
    OlderTotal(a, b);
    OlderTotal(b, c);
    if Older(a, c) {
      OlderOneWay(a, c);
      if Older(b, a) {
        OlderTransitive(b, a, c);
      } else if Older(c, b) {
        OlderTransitive(a, c, b);
      } else {
        SameIsTransitive(a, b, c);
      }
    }
  }

  lemma SameIsTransitive(a: string, b: string, c: string)
    requires SameFields(a, b) && SameFields(b, c)
    ensures SameFields(a, c)
  {
    hide Field;
  }

  /** A version without digits, the blank one among them, is newer than nothing. */
  lemma WithoutDigits(v: string, w: string)
    requires forall i :: 0 <= i < |v| ==> !IsDigit(v[i])
    ensures !Older(w, v)
  {
    NoDigitsNoRuns(v);
    assert forall i: nat :: Field(v, i) == 0;
  }

  lemma {:induction false} NoDigitsNoRuns(v: string)
    requires forall i :: 0 <= i < |v| ==> !IsDigit(v[i])
    ensures DigitRuns(v) == []
  {
    if v != "" {
      NoDigitsNoRuns(v[1..]);
    }
  }

  lemma {:induction false} OneRun(v: string)
    requires v != "" && AllDigits(v)
    ensures DigitRuns(v) == [v]
  {
    FieldsRun(v, "", NotDigit, "");
    assert v + "" == v && "" + v == v;
  }

  /** Beyond the cap the order is not that of the numbers: 2*10^10 counts as older than 10^10. */
  lemma CapMisorders() returns (big: string, small: string)
    ensures AllDigits(big) && AllDigits(small) && DecValue(small) < DecValue(big)
    ensures Older(big, small)
  {
    big, small := "2" + Zeros(10), "1" + Zeros(10);
    BigIsCut(big);
    SmallIsNot(small);
    OneRun(big);
    OneRun(small);
    hide Significant, DecValue;
    assert Field(big, 0) == FieldValue(big) && Field(small, 0) == FieldValue(small);
    assert DecidesAt(big, small, 0);
  }

  lemma BigIsCut(big: string)
    requires big == "2" + Zeros(10)
    ensures FieldValue(big) == 2_000_000_000 && DecValue(big) == 20_000_000_000
  {
    DigitsOf("2", 2);
    hide DecValue;
    var t := "2" + Zeros(9);
    ScaledWhole("2", 9);
    assert big[..10] == t;
    SignificantStops(big, 10);
  }

  lemma SmallIsNot(small: string)
    requires small == "1" + Zeros(10)
    ensures FieldValue(small) == DecValue(small) == 10_000_000_000
  {
    DigitsOf("1", 1);
    hide DecValue;
    ScaledWhole("1", 10);
  }

  lemma DigitsOf(d: string, v: nat)
    requires |d| == 1 && AllDigits(d) && DecValue(d) == v
    ensures DecValue(d + Zeros(8)) == v * 100_000_000
    ensures DecValue(d + Zeros(9)) == v * 1_000_000_000
    ensures DecValue(d + Zeros(10)) == v * 10_000_000_000
  {
    ScaledValue(d, 8);
    ScaledValue(d, 9);
    ScaledValue(d, 10);
    assert Pow10(8) == 100_000_000;
  }

  /** Appending a zero to what has not passed the cap keeps the field whole. */
  lemma ScaledWhole(d: string, n: nat)
    requires |d| == 1 && AllDigits(d) && 0 < n && DecValue(d + Zeros(n - 1)) <= CAP
    ensures Significant(d + Zeros(n)) == d + Zeros(n)
  {
    var s := d + Zeros(n);
    assert s[..|s| - 1] == d + Zeros(n - 1);
    SignificantIsWhole(s[..|s| - 1]);
  }

  function Zeros(n: nat): (s: string)
    ensures |s| == n && AllDigits(s) && forall i :: 0 <= i < n ==> s[i] == '0'
  {
    if n == 0 then "" else Zeros(n - 1) + "0"
  }

  function Pow10(n: nat): nat {
    if n == 0 then 1 else 10 * Pow10(n - 1)
  }

  lemma {:induction false} ScaledValue(d: string, n: nat)
    requires AllDigits(d)
    ensures AllDigits(d + Zeros(n)) && DecValue(d + Zeros(n)) == DecValue(d) * Pow10(n)
  {
    var s := d + Zeros(n);
    if n == 0 {
      assert s == d;
    } else {
      assert s[..|s| - 1] == d + Zeros(n - 1);
      ScaledValue(d, n - 1);
      Regroup(DecValue(d), Pow10(n - 1));
    }
  }

  lemma Regroup(x: nat, y: nat)
    ensures 10 * (x * y) == x * (10 * y)
  {
  }

  // ---------------------------------------------------------------- sorting

  datatype VersionCount = VersionCount(version: string, count: nat)

  ghost predicate Descending(vs: seq<VersionCount>) {
    forall i, j :: 0 <= i < j < |vs| ==> !Older(vs[i].version, vs[j].version)
  }

  /** Descending but for place j, up to place i; the one at j is no older than those behind it. */
  ghost predicate DescendingBut(vs: seq<VersionCount>, i: nat, j: nat)
    requires j <= i < |vs|
  {
    && (forall p, q :: 0 <= p < q <= i && p != j && q != j ==> !Older(vs[p].version, vs[q].version))
    && (forall q :: j < q <= i ==> !Older(vs[j].version, vs[q].version))
  }

  function Swapped(vs: seq<VersionCount>, j: nat): seq<VersionCount>
    requires 0 < j < |vs|
  {
    vs[j - 1 := vs[j]][j := vs[j - 1]]
  }

  ghost predicate Permuted(xs: seq<VersionCount>, ys: seq<VersionCount>) {
    multiset(xs) == multiset(ys)
  }

  lemma SwapKeeps(was: seq<VersionCount>, vs: seq<VersionCount>, i: nat, j: nat)
    requires 0 < j <= i < |vs| && DescendingBut(vs, i, j) && Older(vs[j - 1].version, vs[j].version)
      && Permuted(vs, was)
    ensures DescendingBut(Swapped(vs, j), i, j - 1) && Permuted(Swapped(vs, j), was)
  {
    hide Older;
    OlderOneWay(vs[j - 1].version, vs[j].version);
  }

  lemma StopSorted(vs: seq<VersionCount>, i: nat, j: nat)
    requires j <= i < |vs| && DescendingBut(vs, i, j)
    requires j > 0 ==> !Older(vs[j - 1].version, vs[j].version)
    ensures Descending(vs[..i + 1])
  {
    hide Older;
    forall p | 0 <= p < j ensures !Older(vs[p].version, vs[j].version) {
      if p < j - 1 {
        NotOlderTransitive(vs[p].version, vs[j - 1].version, vs[j].version);
      }
    }
  }

  lemma StartInsert(vs: seq<VersionCount>, i: nat)
    requires i < |vs| && Descending(vs[..i])
    ensures DescendingBut(vs, i, i)
  {
    hide Older;
    forall p, q | 0 <= p < q < i ensures !Older(vs[p].version, vs[q].version) {
      assert vs[..i][p] == vs[p] && vs[..i][q] == vs[q];
    }
  }

  /** The inner loop: the element at i sinks to its place among those before it. */
  method Sink(v: array<VersionCount>, i: nat)
    requires i < v.Length && Descending(v[..][..i])
    modifies v
    ensures Descending(v[..][..i + 1]) && Permuted(v[..], old(v[..]))
  {
    assert Permuted(v[..], v[..]);
    hide Older, Descending, DescendingBut, Permuted;
    StartInsert(v[..], i);
    var j := i;
    while j > 0
      invariant 0 <= j <= i < v.Length && DescendingBut(v[..], i, j)
      invariant Permuted(v[..], old(v[..]))
    {
      var c := CompareVersion(v[j - 1].version, v[j].version);
      if c >= 0 {
        break;
      }
      SwapKeeps(old(v[..]), v[..], i, j);
      ghost var was := v[..];
      v[j - 1], v[j] := v[j], v[j - 1];
      assert v[..] == Swapped(was, j);
      j := j - 1;
    }
    StopSorted(v[..], i, j);
  }

  /** sortVersionsDesc: a permutation, newest first. */
  method SortVersionsDesc(v: array<VersionCount>)
    modifies v
    ensures Descending(v[..]) && multiset(v[..]) == multiset(old(v[..]))
  {
    hide Older, Descending;
    FewAreSorted(v[..]);
    if v.Length == 0 {
      return;
    }
    var i := 1;
    while i < v.Length
      invariant 1 <= i <= v.Length && Descending(v[..][..i])
      invariant multiset(v[..]) == multiset(old(v[..]))
    {
      Sink(v, i);
      i := i + 1;
    }
    assert v[..][..i] == v[..];
  }

  lemma FewAreSorted(vs: seq<VersionCount>)
    ensures |vs| <= 1 ==> Descending(vs)
    ensures |vs| >= 1 ==> Descending(vs[..1])
  {
  }
}
