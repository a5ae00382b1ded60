/** What captured output becomes on its way into a text column (pgText in internal/store/postgres.go, truncate in
    internal/deploy/ssh.go). Strings are byte sequences here. */
module PgText {

  type Byte = b: int | 0 <= b < 256

  type Bytes = seq<Byte>

  // ---------------------------------------------------------------- UTF-8, RFC 3629 section 4

  predicate Tail(b: Byte) { 0x80 <= b <= 0xBF }

  /** One UTF8-char of the grammar. */
  predicate IsChar(c: Bytes) {
    || (|c| == 1 && c[0] <= 0x7F)
    || (|c| == 2 && 0xC2 <= c[0] <= 0xDF && Tail(c[1]))
    || (|c| == 3 && c[0] == 0xE0 && 0xA0 <= c[1] <= 0xBF && Tail(c[2]))
    || (|c| == 3 && 0xE1 <= c[0] <= 0xEC && Tail(c[1]) && Tail(c[2]))
    || (|c| == 3 && c[0] == 0xED && 0x80 <= c[1] <= 0x9F && Tail(c[2]))
    || (|c| == 3 && 0xEE <= c[0] <= 0xEF && Tail(c[1]) && Tail(c[2]))
    || (|c| == 4 && c[0] == 0xF0 && 0x90 <= c[1] <= 0xBF && Tail(c[2]) && Tail(c[3]))
    || (|c| == 4 && 0xF1 <= c[0] <= 0xF3 && Tail(c[1]) && Tail(c[2]) && Tail(c[3]))
    || (|c| == 4 && c[0] == 0xF4 && 0x80 <= c[1] <= 0x8F && Tail(c[2]) && Tail(c[3]))
  }

  predicate AreChars(cs: seq<Bytes>) {
    forall i :: 0 <= i < |cs| ==> IsChar(cs[i])
  }

  function Concat(cs: seq<Bytes>): Bytes {
    if cs == [] then [] else cs[0] + Concat(cs[1..])
  }

  /** UTF8-octets: a sequence of characters. */
  ghost predicate WellFormed(s: Bytes) {
    exists cs :: AreChars(cs) && Concat(cs) == s
  }

  // ---------------------------------------------------------------- decoding

  /** The second bytes that a first byte admits. */
  predicate Admits(b: Byte, x: Byte) {
    (if b == 0xE0 then 0xA0 else if b == 0xF0 then 0x90 else 0x80) <= x
    && x <= (if b == 0xED then 0x9F else if b == 0xF4 then 0x8F else 0xBF)
  }

  /** The width of the character at the front, 0 where utf8.DecodeRune reports an error. */
  function Width(s: Bytes): (n: nat)
    requires s != []
    ensures n <= |s|
  {
    var b := s[0];
    if b < 0x80 then 1
    else if b < 0xC2 || b > 0xF4 || |s| < 2 || !Admits(b, s[1]) then 0
    else if b < 0xE0 then 2
    else if |s| < 3 || !Tail(s[2]) then 0
    else if b < 0xF0 then 3
    else if |s| < 4 || !Tail(s[3]) then 0
    else 4
  }

  /** The decoder finds a character exactly where the grammar has one. */
  lemma WidthIsChar(s: Bytes, c: Bytes)
    requires c != [] && c <= s
    ensures IsChar(c) <==> Width(s) == |c|
  {
  }

  const REPLACEMENT: Bytes := [0xEF, 0xBF, 0xBD]

  /** strings.ToValidUTF8 with U+FFFD: one replacement for each run of bytes that are not part of a character;
      `bad` says that the byte before was one. */
  function ToValid(s: Bytes, bad: bool): Bytes
    decreases |s|
  {
    if s == [] then []
    else
      var w := Width(s);
      if w == 0 then (if bad then [] else REPLACEMENT) + ToValid(s[1..], true)
      else s[..w] + ToValid(s[w..], false)
  }

  lemma ConsChar(c: Bytes, s: Bytes)
    requires IsChar(c) && WellFormed(s)
    ensures WellFormed(c + s)
  {
    var cs :| AreChars(cs) && Concat(cs) == s;
    var more := [c] + cs;
    assert more[1..] == cs;
    assert AreChars(more) && Concat(more) == c + s;
  }

  lemma {:induction false} ToValidIsWellFormed(s: Bytes, bad: bool)
    ensures WellFormed(ToValid(s, bad))
    decreases |s|
  {
    hide WellFormed, IsChar;
    if s == [] {
      EmptyIsWellFormed();
    } else {
      var w := Width(s);
      if w == 0 {
        ToValidIsWellFormed(s[1..], true);
        ReplacementIsChar();
        ConsChar(REPLACEMENT, ToValid(s[1..], true));
        assert [] + ToValid(s[1..], true) == ToValid(s[1..], true);
      } else {
        ToValidIsWellFormed(s[w..], false);
        WidthIsChar(s, s[..w]);
        ConsChar(s[..w], ToValid(s[w..], false));
      }
    }
  }

  lemma EmptyIsWellFormed()
    ensures WellFormed([])
  {
    var none: seq<Bytes> := [];
    assert AreChars(none) && Concat(none) == [];
  }

  lemma ReplacementIsChar()
    ensures IsChar(REPLACEMENT) && 0 !in REPLACEMENT
  {
  }

  lemma CharIsKept(c: Bytes, t: Bytes, bad: bool)
    requires IsChar(c)
    ensures ToValid(c + t, bad) == c + ToValid(t, false)
  {
    WidthIsChar(c + t, c);
    hide IsChar, Width;
    assert (c + t)[..|c|] == c && (c + t)[|c|..] == t;
  }

  lemma {:induction false} CharsAreKept(cs: seq<Bytes>, t: Bytes, bad: bool)
    requires AreChars(cs)
    ensures ToValid(Concat(cs) + t, bad) == Concat(cs) + ToValid(t, if cs == [] then bad else false)
  {
    hide IsChar, ToValid;
    if cs == [] {
      assert Concat(cs) + t == t;
    } else {
      var rest := Concat(cs[1..]) + t;
      assert Concat(cs) + t == cs[0] + rest;
      CharIsKept(cs[0], rest, bad);
      CharsAreKept(cs[1..], t, false);
      assert cs[0] + (Concat(cs[1..]) + ToValid(t, false)) == Concat(cs) + ToValid(t, false);
    }
  }

  lemma {:induction false} ToValidNulFree(s: Bytes, bad: bool)
    requires 0 !in s
    ensures 0 !in ToValid(s, bad)
    decreases |s|
  {
    if s != [] {
      var w := Width(s);
      if w == 0 {
        ToValidNulFree(s[1..], true);
      } else {
        ToValidNulFree(s[w..], false);
      }
    }
  }

  // ---------------------------------------------------------------- pgText

  /** strings.ReplaceAll(s, "\x00", ""). */
  function WithoutNul(s: Bytes): Bytes {
    if s == [] then [] else (if s[0] == 0 then [] else [s[0]]) + WithoutNul(s[1..])
  }

  lemma {:induction false} WithoutNulIs(s: Bytes)
    ensures 0 !in WithoutNul(s)
    ensures 0 !in s ==> WithoutNul(s) == s
  {
    if s != [] {
      WithoutNulIs(s[1..]);
      assert 0 !in s ==> 0 !in s[1..];
      assert s == [s[0]] + s[1..];
    }
  }

  /** Only the NULs go: text between them is kept in its order. */
  lemma {:induction false} WithoutNulKeeps(a: Bytes, b: Bytes)
    ensures WithoutNul(a + [0] + b) == WithoutNul(a) + WithoutNul(b)
    ensures 0 !in a ==> WithoutNul(a) == a
  {
    WithoutNulIs(a);
    if a == [] {
      assert a + [0] + b == [0] + b && ([0] + b)[1..] == b;
    } else {
      assert (a + [0] + b)[1..] == a[1..] + [0] + b;
      WithoutNulKeeps(a[1..], b);
    }
  }

  function Stored(s: Bytes): Bytes {
    if s == [] then s else ToValid(WithoutNul(s), false)
  }

  /** Text that the column takes. */
  ghost predicate Clean(s: Bytes) {
    0 !in s && WellFormed(s)
  }

  /** Main result: for every byte string pgText gives clean text, clean text it leaves alone and nothing else,
      and doing it twice is doing it once. */
  lemma StoredIsClean(s: Bytes)
    ensures Clean(Stored(s))
    ensures Stored(s) == s <==> Clean(s)
    ensures Stored(Stored(s)) == Stored(s)
  {
    CleanResult(s);
    if Clean(s) {
      CleanIsKept(s);
    }
    CleanIsKept(Stored(s));
  }

  lemma CleanResult(s: Bytes)
    ensures Clean(Stored(s))
  {
    hide WellFormed, Width;
    EmptyIsWellFormed();
    WithoutNulIs(s);
    ToValidIsWellFormed(WithoutNul(s), false);
    ToValidNulFree(WithoutNul(s), false);
  }

  lemma CleanIsKept(s: Bytes)
    requires Clean(s)
    ensures Stored(s) == s
  {
    hide Width, IsChar;
    var cs :| AreChars(cs) && Concat(cs) == s;
    WithoutNulIs(s);
    CharsAreKept(cs, [], false);
    assert Concat(cs) + [] == s;
  }

  // ---------------------------------------------------------------- truncation

  /** "\n...[truncated]" */
  const MARK: Bytes := [10, 46, 46, 46, 91, 116, 114, 117, 110, 99, 97, 116, 101, 100, 93]

  lemma MarkIs()
    ensures |MARK| == |"\n...[truncated]"|
    ensures forall i :: 0 <= i < |MARK| ==> MARK[i] as int == "\n...[truncated]"[i] as int
  {
  }

  function Truncate(s: Bytes, max: nat): Bytes {
    if |s| <= max then s else s[..max] + MARK
  }

  /** The last bytes before the cut belong to a character that the cut takes apart. */
  ghost predicate Partial(p: Bytes, c: Bytes) {
    IsChar(c) && p < c && p != []
  }

  /** Where a cut falls in a sequence of characters: behind k of them, or inside the next one. */
  lemma {:induction false} CutPoint(cs: seq<Bytes>, max: nat) returns (k: nat, p: Bytes)
    requires AreChars(cs) && max < |Concat(cs)|
    ensures k < |cs| && Concat(cs)[..max] == Concat(cs[..k]) + p && p < cs[k]
  {
    var c, rest := cs[0], Concat(cs[1..]);
    if max < |c| {
      k, p := 0, c[..max];
      assert Concat(cs)[..max] == p;
    } else {
      var j;
      j, p := CutPoint(cs[1..], max - |c|);
      k := j + 1;
      assert cs[..k][0] == c && cs[..k][1..] == cs[1..][..j];
      assert Concat(cs)[..max] == c + rest[..max - |c|];
      assert Concat(cs[..k]) == c + Concat(cs[1..][..j]);
      assert c + (Concat(cs[1..][..j]) + p) == Concat(cs[..k]) + p;
    }
  }

  lemma PartialTails(p: Bytes, c: Bytes, i: nat)
    requires Partial(p, c) && 0 < i < |p|
    ensures Tail(p[i]) && |p| <= 3
  {
    assert p[i] == c[i];
  }

  /** A character that is cut off and followed by a line feed is not decoded. */
  lemma PartialWidth(p: Bytes, c: Bytes, t: Bytes)
    requires Partial(p, c) && t != [] && t[0] == 10
    ensures Width(p + t) == 0
  {
    var s := p + t;
    assert s[|p|] == 10;
    assert forall i :: 0 <= i < |p| ==> s[i] == c[i];
  }

  lemma TailWidth(s: Bytes)
    requires s != [] && Tail(s[0])
    ensures Width(s) == 0
  {
  }

  /** The bytes that a cut leaves of a character become one replacement. */
  lemma PartialIsReplaced(p: Bytes, c: Bytes, t: Bytes)
    requires Partial(p, c) && t != [] && t[0] == 10
    ensures ToValid(p + t, false) == REPLACEMENT + ToValid(t, true)
  {
    PartialWidth(p, c, t);
    var s := p + t;
    assert s[1..] == p[1..] + t;
    forall i | 0 < i < |p| ensures Tail(p[i]) {
      PartialTails(p, c, i);
    }
    TailsAreDropped(p[1..], t);
  }

  lemma {:induction false} TailsAreDropped(p: Bytes, t: Bytes)
    requires forall i :: 0 <= i < |p| ==> Tail(p[i])
    ensures ToValid(p + t, true) == ToValid(t, true)
  {
    if p == [] {
      assert p + t == t;
    } else {
      TailWidth(p + t);
      assert (p + t)[1..] == p[1..] + t;
      TailsAreDropped(p[1..], t);
      assert [] + ToValid(p[1..] + t, true) == ToValid(p[1..] + t, true);
    }
  }

  lemma {:induction false} AsciiIsKept(t: Bytes, bad: bool)
    requires forall i :: 0 <= i < |t| ==> t[i] < 0x80
    ensures ToValid(t, bad) == t
  {
    if t != [] {
      AsciiIsKept(t[1..], false);
      assert t == t[..1] + t[1..];
    }
  }

  /** Clean output up to the limit is stored as it is. */
  lemma ShortIsStored(s: Bytes, max: nat)
    requires Clean(s) && |s| <= max
    ensures Stored(Truncate(s, max)) == s
  {
    CleanIsKept(s);
  }

  /** Main result: clean output that is too long is stored as the characters that fit whole, one U+FFFD if the
      limit falls inside a character, and the mark. */
  lemma TruncatedIsStored(cs: seq<Bytes>, max: nat) returns (k: nat, p: Bytes)
    requires AreChars(cs) && 0 !in Concat(cs) && max < |Concat(cs)|
    ensures k < |cs| && |Concat(cs[..k])| + |p| == max && p < cs[k]
    ensures Stored(Truncate(Concat(cs), max)) == Concat(cs[..k]) + (if p == [] then [] else REPLACEMENT) + MARK
  {
    hide Width, IsChar, ToValid;
    k, p := CutPoint(cs, max);
    var s := Truncate(Concat(cs), max);
    assert s == Concat(cs[..k]) + (p + MARK);
    assert 0 !in Concat(cs)[..max] && 0 !in MARK;
    WithoutNulIs(s);
    CharsAreKept(cs[..k], p + MARK, false);
    AsciiIsKept(MARK, true);
    AsciiIsKept(MARK, false);
    if p == [] {
      assert p + MARK == MARK;
    } else {
      assert IsChar(cs[k]);
      PartialIsReplaced(p, cs[k], MARK);
    }
    assert Concat(cs[..k]) + (REPLACEMENT + MARK) == Concat(cs[..k]) + REPLACEMENT + MARK;
  }
}
