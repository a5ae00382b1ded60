/** Strings, decimal numbers and lists: what the standard libraries of the modelled programs provide.

    Blank space and its trimming, fields between separators, joining, decimal text with its round trip, splitting at
    a character, and the first occurrences in a list. Each function comes with the lemmas that say what its result
    is for its input. */
module Text {

  datatype Option<+T> = None | Some(value: T)

  datatype Result<+T, +E> = Ok(value: T) | Err(error: E)

  // ---------------------------------------------------------------- first occurrences

  predicate NoDup<T(==)>(xs: seq<T>) {
    forall i, j :: 0 <= i < j < |xs| ==> xs[i] != xs[j]
  }

  /** The distinct elements of xs in the order of their first occurrences. */
  function Dedup<T(==)>(xs: seq<T>): seq<T> {
    if xs == [] then []
    else
      var d := Dedup(xs[..|xs| - 1]);
      if xs[|xs| - 1] in d then d else d + [xs[|xs| - 1]]
  }

  lemma DedupSnoc<T>(xs: seq<T>, x: T)
    ensures Dedup(xs + [x]) == if x in Dedup(xs) then Dedup(xs) else Dedup(xs) + [x]
  {
    assert (xs + [x])[..|xs + [x]| - 1] == xs;
  }

  lemma {:induction false} DedupElements<T>(xs: seq<T>)
    ensures NoDup(Dedup(xs))
    ensures forall x :: x in Dedup(xs) <==> x in xs
    ensures |Dedup(xs)| <= |xs|
  {
    if xs != [] {
      DedupElements(xs[..|xs| - 1]);
      assert xs == xs[..|xs| - 1] + [xs[|xs| - 1]];
    }
  }

  lemma {:induction false} DedupPrefix<T>(xs: seq<T>, ys: seq<T>)
    ensures Dedup(xs) <= Dedup(xs + ys)
  {
    if ys == [] {
      assert xs + ys == xs;
    } else {
      var init := ys[..|ys| - 1];
      DedupPrefix(xs, init);
      assert (xs + ys)[..|xs + ys| - 1] == xs + init;
    }
  }

  ghost function FirstAt<T>(xs: seq<T>, x: T): nat
    requires x in xs
    ensures FirstAt(xs, x) < |xs| && xs[FirstAt(xs, x)] == x && x !in xs[..FirstAt(xs, x)]
  {
    if xs[0] == x then 0 else 1 + FirstAt(xs[1..], x)
  }

  lemma FirstAtUnique<T>(xs: seq<T>, x: T, i: nat)
    requires i < |xs| && xs[i] == x && x !in xs[..i]
    ensures x in xs && FirstAt(xs, x) == i
  {
    var j := FirstAt(xs, x);
    assert forall k :: 0 <= k < i ==> xs[k] in xs[..i];
    assert forall k :: 0 <= k < j ==> xs[k] in xs[..j];
  }

  /** Dedup keeps the order of first occurrences. */
  lemma {:induction false} DedupOrder<T>(xs: seq<T>, i: nat, j: nat)
    requires i < j < |Dedup(xs)|
    ensures Dedup(xs)[i] in xs && Dedup(xs)[j] in xs
    ensures FirstAt(xs, Dedup(xs)[i]) < FirstAt(xs, Dedup(xs)[j])
  {
    DedupElements(xs);
    var init := xs[..|xs| - 1];
    DedupElements(init);
    var x, y := Dedup(xs)[i], Dedup(xs)[j];
    assert x == Dedup(init)[i] && x in Dedup(init);
    var k := FirstAt(init, x);
    assert xs[..k] == init[..k];
    FirstAtUnique(xs, x, k);
    if j < |Dedup(init)| {
      DedupOrder(init, i, j);
      var l := FirstAt(init, y);
      assert xs[..l] == init[..l];
      FirstAtUnique(xs, y, l);
    } else {
      FirstAtUnique(xs, y, |xs| - 1);
    }
  }

  lemma {:induction false} DistinctCount<T>(xs: seq<T>)
    requires NoDup(xs)
    ensures |set x | x in xs| == |xs|
  {
    if xs != [] {
      var init, x := xs[..|xs| - 1], xs[|xs| - 1];
      DistinctCount(init);
      assert xs == init + [x];
      assert (set y | y in xs) == (set y | y in init) + {x};
    }
  }

  lemma SubsetCount<T>(a: set<T>, b: set<T>)
    requires a <= b
    ensures |a| <= |b|
  {
    assert b == a + (b - a);
  }

  /** Distinct elements that occur in xs are at most as many as Dedup keeps. */
  lemma DedupAtLeast<T>(xs: seq<T>, ys: seq<T>)
    requires NoDup(ys) && forall y :: y in ys ==> y in xs
    ensures |ys| <= |Dedup(xs)|
  {
    DedupElements(xs);
    DistinctCount(ys);
    DistinctCount(Dedup(xs));
    SubsetCount(set y | y in ys, set x | x in Dedup(xs));
  }

  // ---------------------------------------------------------------- splitting

  predicate Free(s: string, sep: char -> bool) {
    forall i :: 0 <= i < |s| ==> !sep(s[i])
  }

  /** strings.Split and String.split for a one-character separator: never an empty list. */
  function Split(s: string, c: char): (ps: seq<string>)
    ensures |ps| >= 1
  {
    if s == "" then [""]
    else if s[0] == c then [""] + Split(s[1..], c)
    else
      var r := Split(s[1..], c);
      [[s[0]] + r[0]] + r[1..]
  }

  lemma {:induction false} SplitWhole(p: string, c: char)
    requires c !in p
    ensures Split(p, c) == [p]
  {
    if p != "" {
      SplitWhole(p[1..], c);
      assert [p[0]] + p[1..] == p;
    }
  }

  lemma {:induction false} SplitPiece(p: string, c: char, rest: string)
    requires c !in p
    ensures Split(p + [c] + rest, c) == [p] + Split(rest, c)
  {
    var s := p + [c] + rest;
    if p == "" {
      assert s[1..] == rest;
    } else {
      assert s[1..] == p[1..] + [c] + rest;
      SplitPiece(p[1..], c, rest);
      assert [p[0]] + p[1..] == p;
    }
  }

  function Join(ps: seq<string>, c: char): string {
    if |ps| == 0 then ""
    else if |ps| == 1 then ps[0]
    else ps[0] + [c] + Join(ps[1..], c)
  }

  lemma {:induction false} SplitJoin(ps: seq<string>, c: char)
    requires |ps| >= 1 && forall i :: 0 <= i < |ps| ==> c !in ps[i]
    ensures Split(Join(ps, c), c) == ps
  {
    if |ps| == 1 {
      SplitWhole(ps[0], c);
    } else {
      SplitJoin(ps[1..], c);
      SplitPiece(ps[0], c, Join(ps[1..], c));
    }
  }

  /** strings.FieldsFunc: the maximal runs of characters that are no separators. */
  function FieldsFrom(s: string, sep: char -> bool, cur: string): seq<string> {
    if s == "" then (if cur == "" then [] else [cur])
    else if sep(s[0]) then (if cur == "" then [] else [cur]) + FieldsFrom(s[1..], sep, "")
    else FieldsFrom(s[1..], sep, cur + [s[0]])
  }

  function Fields(s: string, sep: char -> bool): seq<string> {
    FieldsFrom(s, sep, "")
  }

  lemma {:induction false} FieldsAreTokens(s: string, sep: char -> bool, cur: string)
    requires Free(cur, sep)
    ensures forall t :: t in FieldsFrom(s, sep, cur) ==> t != "" && Free(t, sep)
  {
    if s != "" {
      if sep(s[0]) {
        FieldsAreTokens(s[1..], sep, "");
      } else {
        FieldsAreTokens(s[1..], sep, cur + [s[0]]);
      }
    }
  }

  /** Any separator splits the text into two whose fields are read apart, also where nothing stands before or behind
      it; and text without separators is one field. */
  lemma {:induction false} FieldsSplit(a: string, c: char, b: string, sep: char -> bool, cur: string)
    requires sep(c)
    ensures FieldsFrom(a + [c] + b, sep, cur) == FieldsFrom(a, sep, cur) + Fields(b, sep)
  {
    var s := a + [c] + b;
    if a == "" {
      assert s[1..] == b;
    } else {
      assert s[1..] == a[1..] + [c] + b;
      FieldsSplit(a[1..], c, b, sep, if sep(a[0]) then "" else cur + [a[0]]);
    }
  }

  lemma {:induction false} FieldsRun(p: string, rest: string, sep: char -> bool, cur: string)
    requires Free(p, sep)
    ensures FieldsFrom(p + rest, sep, cur) == FieldsFrom(rest, sep, cur + p)
  {
    if p == "" {
      assert p + rest == rest && cur + p == cur;
    } else {
      assert (p + rest)[1..] == p[1..] + rest;
      assert cur + p == cur + [p[0]] + p[1..];
      FieldsRun(p[1..], rest, sep, cur + [p[0]]);
    }
  }

  lemma FieldsAre(p: string, c: char, b: string, sep: char -> bool)
    ensures Fields("", sep) == []
    ensures p != "" && Free(p, sep) ==> Fields(p, sep) == [p]
    ensures sep(c) ==> Fields(p + [c] + b, sep) == Fields(p, sep) + Fields(b, sep)
  {
    if Free(p, sep) {
      FieldsRun(p, "", sep, "");
      assert p + "" == p && "" + p == p;
    }
    if sep(c) {
      FieldsSplit(p, c, b, sep, "");
    }
  }

  /** Tokens joined by a separator are read back as they were. */
  lemma {:induction false} FieldsJoin(ps: seq<string>, c: char, sep: char -> bool)
    requires sep(c) && forall i :: 0 <= i < |ps| ==> ps[i] != "" && Free(ps[i], sep)
    ensures Fields(Join(ps, c), sep) == ps
  {
    if |ps| == 1 {
      FieldsRun(ps[0], "", sep, "");
      assert ps[0] + "" == ps[0] && "" + ps[0] == ps[0];
    } else if |ps| > 1 {
      var rest := Join(ps[1..], c);
      assert ps[0] + [c] + rest == ps[0] + ([c] + rest);
      FieldsRun(ps[0], [c] + rest, sep, "");
      assert "" + ps[0] == ps[0] && ([c] + rest)[1..] == rest;
      FieldsJoin(ps[1..], c, sep);
    }
  }

  /** strings.Cut at the first c. */
  function Before(s: string, c: char): string
    requires c in s
  {
    if s[0] == c then "" else [s[0]] + Before(s[1..], c)
  }

  function Behind(s: string, c: char): string
    requires c in s
  {
    if s[0] == c then s[1..] else Behind(s[1..], c)
  }

  lemma {:induction false} CutAt(p: string, c: char, rest: string)
    requires c !in p
    ensures c in p + [c] + rest
    ensures Before(p + [c] + rest, c) == p && Behind(p + [c] + rest, c) == rest
  {
    var s := p + [c] + rest;
    assert s[|p|] == c;
    if p != "" {
      assert s[1..] == p[1..] + [c] + rest;
      CutAt(p[1..], c, rest);
    }
  }

  /** The part of s before, and behind, its last c. */
  function BeforeLast(s: string, c: char): string
    requires c in s
  {
    if s[|s| - 1] == c then s[..|s| - 1] else BeforeLast(s[..|s| - 1], c)
  }

  function BehindLast(s: string, c: char): string
    requires c in s
  {
    if s[|s| - 1] == c then "" else BehindLast(s[..|s| - 1], c) + [s[|s| - 1]]
  }

  lemma {:induction false} CutAtLast(p: string, c: char, rest: string)
    requires c !in rest
    ensures c in p + [c] + rest
    ensures BeforeLast(p + [c] + rest, c) == p && BehindLast(p + [c] + rest, c) == rest
  {
    var s := p + [c] + rest;
    assert s[|p|] == c;
    if rest == "" {
      assert s[..|s| - 1] == p;
    } else {
      assert s[..|s| - 1] == p + [c] + rest[..|rest| - 1];
      CutAtLast(p, c, rest[..|rest| - 1]);
    }
  }

  /** Unicode white space as strings.TrimSpace knows it. */
  predicate IsSpace(c: char) {
    c == ' ' || '\t' <= c <= '\r' || c == '\U{85}' || c == '\U{A0}' || c == '\U{1680}' ||
    '\U{2000}' <= c <= '\U{200A}' || c == '\U{2028}' || c == '\U{2029}' || c == '\U{202F}' ||
    c == '\U{205F}' || c == '\U{3000}'
  }

  function TrimLeft(s: string): string {
    if s != "" && IsSpace(s[0]) then TrimLeft(s[1..]) else s
  }

  function TrimRight(s: string): string {
    if s != "" && IsSpace(s[|s| - 1]) then TrimRight(s[..|s| - 1]) else s
  }

  function TrimSpace(s: string): string {
    TrimRight(TrimLeft(s))
  }

  /** The code points of White_Space in Unicode. */
  lemma SpaceIs(c: char)
    ensures IsSpace(c) <==>
      || c as int in {9, 10, 11, 12, 13, 32, 133, 160, 5760, 8232, 8233, 8239, 8287, 12288}
      || 8192 <= c as int <= 8202
  {
  }

  predicate Blank(s: string) {
    forall i :: 0 <= i < |s| ==> IsSpace(s[i])
  }

  lemma {:induction false} TrimLeftIs(s: string) returns (l: string)
    ensures s == l + TrimLeft(s) && Blank(l) && (TrimLeft(s) != "" ==> !IsSpace(TrimLeft(s)[0]))
  {
    l := "";
    if s != "" && IsSpace(s[0]) {
      var m := TrimLeftIs(s[1..]);
      l := [s[0]] + m;
      assert s == [s[0]] + s[1..];
    }
  }

  lemma {:induction false} TrimRightIs(s: string) returns (r: string)
    ensures s == TrimRight(s) + r && Blank(r) && (TrimRight(s) != "" ==> !IsSpace(TrimRight(s)[|TrimRight(s)| - 1]))
  {
    r := "";
    if s != "" && IsSpace(s[|s| - 1]) {
      var q := TrimRightIs(s[..|s| - 1]);
      r := q + [s[|s| - 1]];
      assert s == s[..|s| - 1] + [s[|s| - 1]];
    }
  }

  /** What is trimmed is white space on either side, and all of it. */
  lemma TrimSpaceIs(s: string) returns (l: string, r: string)
    ensures s == l + TrimSpace(s) + r && Blank(l) && Blank(r)
    ensures var t := TrimSpace(s); t != "" ==> !IsSpace(t[0]) && !IsSpace(t[|t| - 1])
    ensures TrimSpace(s) == "" <==> forall i :: 0 <= i < |s| ==> IsSpace(s[i])
  {
    l := TrimLeftIs(s);
    r := TrimRightIs(TrimLeft(s));
    var t := TrimSpace(s);
    assert s == l + (t + r) == l + t + r;
    hide TrimLeft, TrimRight, IsSpace;
    if t != "" {
      assert s[|l|] == t[0] == TrimLeft(s)[0];
    }
  }

  // ---------------------------------------------------------------- decimal numbers

  predicate IsDigit(c: char) { '0' <= c <= '9' }

  predicate AllDigits(s: string) {
    forall i :: 0 <= i < |s| ==> IsDigit(s[i])
  }

  function LeadingDigits(s: string): (r: string)
    ensures AllDigits(r)
  {
    if s != "" && IsDigit(s[0]) then [s[0]] + LeadingDigits(s[1..]) else ""
  }

  lemma {:induction false} LeadingIsPrefix(s: string)
    ensures LeadingDigits(s) <= s
    ensures |LeadingDigits(s)| < |s| ==> !IsDigit(s[|LeadingDigits(s)|])
  {
    if s != "" && IsDigit(s[0]) {
      LeadingIsPrefix(s[1..]);
    }
  }

  lemma {:induction false} LeadingOfDigits(s: string)
    requires AllDigits(s)
    ensures LeadingDigits(s) == s
  {
    if s != "" {
      LeadingOfDigits(s[1..]);
    }
  }

  function DigitValue(c: char): nat
    requires IsDigit(c)
  {
    c as int - '0' as int
  }

  function DecValue(s: string): nat
    requires AllDigits(s)
  {
    if s == "" then 0 else 10 * DecValue(s[..|s| - 1]) + DigitValue(s[|s| - 1])
  }

  function DigitChar(d: nat): char
    requires d < 10
  {
    ('0' as int + d) as char
  }

  /** Decimal notation without leading zeros. */
  function Dec(n: nat): (s: string)
    ensures s != "" && AllDigits(s)
    ensures |s| > 1 ==> s[0] != '0'
    ensures n < 10 <==> |s| == 1
  {
    if n < 10 then [DigitChar(n)] else Dec(n / 10) + [DigitChar(n % 10)]
  }

  lemma {:induction false} DecRoundTrip(n: nat)
    ensures DecValue(Dec(n)) == n
  {
    if n < 10 {
      assert Dec(n)[..0] == "";
    } else {
      var s := Dec(n / 10) + [DigitChar(n % 10)];
      assert s[..|s| - 1] == Dec(n / 10);
      DecRoundTrip(n / 10);
    }
  }
}
