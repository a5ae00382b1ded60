/** Internet addresses as `net/netip` gives them to target expansion.

    IPv4 text is written out; the text form of IPv6 addresses is a parameter of which only the round trip is used,
    and that no text holds a slash or a dash. */
module NetAddr {
  import opened Text

  const V4_SPACE: nat := 0x1_0000_0000
  const V6_SPACE: nat := 0x1_0000_0000_0000_0000_0000_0000_0000_0000

  function Width(six: bool): nat { if six then 128 else 32 }

  /** How many addresses a family has. */
  function Space(six: bool): nat { if six then V6_SPACE else V4_SPACE }

  function Pow2(k: nat): (r: nat)
    ensures r >= 1
  {
    if k == 0 then 1 else 2 * Pow2(k - 1)
  }

  lemma {:induction false} Pow2Add(a: nat, b: nat)
    ensures Pow2(a + b) == Pow2(a) * Pow2(b)
  {
    if a > 0 {
      Pow2Add(a - 1, b);
      assert Pow2(a + b) == 2 * Pow2(a - 1 + b);
      assert 2 * (Pow2(a - 1) * Pow2(b)) == (2 * Pow2(a - 1)) * Pow2(b);
    }
  }

  lemma Square(k: nat, r: nat)
    requires Pow2(k) == r
    ensures Pow2(k + k) == r * r
  {
    Pow2Add(k, k);
  }

  lemma SpaceIsPow2(six: bool)
    ensures Pow2(Width(six)) == Space(six)
  {
    assert Pow2(8) == 0x100;
    Square(8, 0x100);
    Square(16, 0x1_0000);
    if six {
      Square(32, V4_SPACE);
      Square(64, 0x1_0000_0000_0000_0000);
    }
  }

  // ---------------------------------------------------------------- IPv4 text

  function OctetOf(n: nat, i: nat): (r: nat)
    requires i < 4
    ensures r < 256
  {
    if i == 0 then n / 0x100_0000 % 256
    else if i == 1 then n / 0x1_0000 % 256
    else if i == 2 then n / 0x100 % 256
    else n % 256
  }

  /** Dotted quad without leading zeros. */
  function Show4(n: nat): string {
    Join([Dec(OctetOf(n, 0)), Dec(OctetOf(n, 1)), Dec(OctetOf(n, 2)), Dec(OctetOf(n, 3))], '.')
  }

  /** One field as netip reads it: one to three digits, no leading zero, at most 255. */
  predicate IsOctet(p: string) {
    p != "" && AllDigits(p) && (|p| == 1 || p[0] != '0') && DecValue(p) <= 255
  }

  function Parse4(s: string): (r: Option<nat>)
    ensures r.Some? ==> r.value < V4_SPACE
  {
    var ps := Split(s, '.');
    if |ps| == 4 && IsOctet(ps[0]) && IsOctet(ps[1]) && IsOctet(ps[2]) && IsOctet(ps[3])
    then Some(((DecValue(ps[0]) * 256 + DecValue(ps[1])) * 256 + DecValue(ps[2])) * 256 + DecValue(ps[3]))
    else None
  }

  lemma DecIsOctet(n: nat)
    requires n < 256
    ensures IsOctet(Dec(n)) && DecValue(Dec(n)) == n
  {
    DecRoundTrip(n);
  }

  lemma QuadSum(n: nat)
    requires n < V4_SPACE
    ensures ((OctetOf(n, 0) * 256 + OctetOf(n, 1)) * 256 + OctetOf(n, 2)) * 256 + OctetOf(n, 3) == n
  {
    var c := n / 0x100;
    var b := c / 0x100;
    assert b == n / 0x1_0000;
    assert b / 0x100 == n / 0x100_0000;
  }

  lemma Show4Pieces(n: nat)
    ensures Split(Show4(n), '.') == [Dec(OctetOf(n, 0)), Dec(OctetOf(n, 1)), Dec(OctetOf(n, 2)), Dec(OctetOf(n, 3))]
  {
    SplitJoin([Dec(OctetOf(n, 0)), Dec(OctetOf(n, 1)), Dec(OctetOf(n, 2)), Dec(OctetOf(n, 3))], '.');
  }

  lemma Show4RoundTrip(n: nat)
    requires n < V4_SPACE
    ensures Parse4(Show4(n)) == Some(n)
  {
    hide Show4, Split, IsOctet, DecValue, OctetOf;
    Show4Pieces(n);
    DecIsOctet(OctetOf(n, 0));
    DecIsOctet(OctetOf(n, 1));
    DecIsOctet(OctetOf(n, 2));
    DecIsOctet(OctetOf(n, 3));
    QuadSum(n);
  }

  /** A dotted quad holds only digits and dots, and begins with a digit. */
  lemma Show4Chars(n: nat)
    ensures Show4(n) != "" && IsDigit(Show4(n)[0]) && '.' in Show4(n)
    ensures forall i :: 0 <= i < |Show4(n)| ==> IsDigit(Show4(n)[i]) || Show4(n)[i] == '.'
  {
    var a, b, c, d := Dec(OctetOf(n, 0)), Dec(OctetOf(n, 1)), Dec(OctetOf(n, 2)), Dec(OctetOf(n, 3));
    var cd := c + ['.'] + d;
    var bcd := b + ['.'] + cd;
    assert Join([c, d], '.') == cd by {
      assert [c, d][1..] == [d];
    }
    assert Join([b, c, d], '.') == bcd by {
      assert [b, c, d][1..] == [c, d];
    }
    assert Show4(n) == a + ['.'] + bcd by {
      assert [a, b, c, d][1..] == [b, c, d];
    }
    assert (a + ['.'] + bcd)[|a|] == '.';
  }

  // ---------------------------------------------------------------- addresses of both families

  /** netip.Addr without zones; Void is what lies behind the last address of a family. */
  datatype Addr = V4(n: nat) | V6(n: nat) | Void(n: nat)

  function FirstMark(s: string): char {
    if s == "" then ' '
    else if s[0] in ".:%" then s[0]
    else FirstMark(s[1..])
  }

  /** Hexadecimal groups, colons, and at the end perhaps a dotted quad. */
  predicate LooksLike6(s: string) {
    s != "" && FirstMark(s) == ':'
    && forall i :: 0 <= i < |s| ==> IsDigit(s[i]) || 'a' <= s[i] <= 'f' || s[i] == ':' || s[i] == '.'
  }

  lemma {:induction false} MarkIsThere(s: string)
    requires FirstMark(s) == ':'
    ensures ':' in s
  {
    if s[0] != ':' {
      MarkIsThere(s[1..]);
    }
  }

  /** How the IPv6 text functions behave; Law is all that is assumed of them. */
  datatype Text6 = Text6(parse: string -> Option<nat>, show: nat -> string) {
    ghost predicate Law() {
      && (forall n: nat :: n < V6_SPACE ==> parse(show(n)) == Some(n) && LooksLike6(show(n)))
      && (forall s :: parse(s).Some? ==> parse(s).value < V6_SPACE)
    }
  }

  function Mk(six: bool, n: nat): Addr { if six then V6(n) else V4(n) }

  function Show(t: Text6, a: Addr): string {
    match a
    case V4(n) => Show4(n)
    case V6(n) => t.show(n)
    case Void(_) => "invalid IP"
  }

  /** Addr.Next: the successor, or the zero Addr behind the last address. */
  function Next(a: Addr): Addr {
    match a
    case V4(n) => if n + 1 < V4_SPACE then V4(n + 1) else Void(0)
    case V6(n) => if n + 1 < V6_SPACE then V6(n + 1) else Void(0)
    case Void(n) => Void((n + 1) % V6_SPACE)
  }

  function BitLen(a: Addr): nat {
    match a
    case V4(_) => 32
    case V6(_) => 128
    case Void(_) => 0
  }

  /** Addr.Less: shorter addresses first. */
  predicate Less(a: Addr, b: Addr) {
    BitLen(a) < BitLen(b) || (BitLen(a) == BitLen(b) && a.n < b.n)
  }

  /** netip.ParseAddr: the first of '.', ':' and '%' decides how the text is read. */
  function ParseAddr(t: Text6, s: string): Option<Addr> {
    match FirstMark(s)
    case '.' => (match Parse4(s) case Some(n) => Some(V4(n)) case None => None)
    case ':' => (match t.parse(s) case Some(n) => Some(V6(n)) case None => None)
    case _ => None
  }

  lemma {:induction false} FirstMarkDot(s: string)
    requires '.' in s && forall i :: 0 <= i < |s| ==> IsDigit(s[i]) || s[i] == '.'
    ensures FirstMark(s) == '.'
  {
    if s[0] != '.' {
      assert IsDigit(s[0]);
      FirstMarkDot(s[1..]);
    }
  }

  lemma ParseShow4(t: Text6, n: nat)
    requires n < V4_SPACE
    ensures ParseAddr(t, Show4(n)) == Some(V4(n))
  {
    Show4Chars(n);
    FirstMarkDot(Show4(n));
    Show4RoundTrip(n);
  }

  lemma ParseShow6(t: Text6, n: nat)
    requires t.Law() && n < V6_SPACE
    ensures ParseAddr(t, t.show(n)) == Some(V6(n)) && ':' in t.show(n)
  {
    MarkIsThere(t.show(n));
  }

  lemma ParseAddrInRange(t: Text6, s: string)
    requires t.Law()
    ensures ParseAddr(t, s).Some? ==> var a := ParseAddr(t, s).value; !a.Void? && a.n < Space(a.V6?)
  {
  }

  /** How the addresses of one family are shown. */
  function Shower(t: Text6, six: bool): nat -> string {
    if six then t.show else Quads()
  }

  function Quads(): nat -> string {
    (n: nat) => Show4(n)
  }

  lemma ShowerShows(t: Text6, six: bool, n: nat)
    ensures Shower(t, six)(n) == Show(t, Mk(six, n))
  {
  }

  /** The texts of k consecutive addresses. */
  function Texts(show: nat -> string, lo: nat, k: nat): (r: seq<string>)
    ensures |r| == k
  {
    seq(k, i requires 0 <= i < k => show(lo + i))
  }

  lemma TextsSnoc(show: nat -> string, lo: nat, k: nat)
    ensures Texts(show, lo, k + 1) == Texts(show, lo, k) + [show(lo + k)]
  {
  }

  lemma TextsTake(show: nat -> string, lo: nat, k: nat, n: nat)
    requires n < k
    ensures Texts(show, lo, k)[..n + 1] == Texts(show, lo, k)[..n] + [show(lo + n)]
  {
  }

  /** Below `limit`, different numbers have different texts, and none is empty or holds a slash or a dash. */
  ghost predicate Distinguishes(show: nat -> string, limit: nat) {
    && (forall m: nat, n: nat :: m < n < limit ==> show(m) != show(n))
    && (forall n: nat :: n < limit ==> show(n) != "" && '/' !in show(n) && '-' !in show(n))
  }

  lemma FamilyDistinguishes(t: Text6, six: bool)
    requires t.Law()
    ensures Distinguishes(Shower(t, six), Space(six))
  {
    var show := Shower(t, six);
    forall m: nat, n: nat | m < n < Space(six) ensures show(m) != show(n) {
      if six {
        assert t.parse(t.show(m)) == Some(m) && t.parse(t.show(n)) == Some(n);
      } else {
        Show4RoundTrip(m);
        Show4RoundTrip(n);
      }
    }
    forall n: nat | n < Space(six) ensures show(n) != "" && '/' !in show(n) && '-' !in show(n) {
      if six {
        MarkIsThere(t.show(n));
      } else {
        Show4Chars(n);
      }
    }
  }

  lemma TextsDistinct(show: nat -> string, limit: nat, lo: nat, k: nat)
    requires Distinguishes(show, limit) && lo + k <= limit
    ensures NoDup(Texts(show, lo, k)) && "" !in Texts(show, lo, k)
    ensures forall h :: h in Texts(show, lo, k) ==> '/' !in h && '-' !in h
  {
  }
}
