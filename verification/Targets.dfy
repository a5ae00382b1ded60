/** Target expansion of the server (internal/deploy/targets.go): the loops of the code against what a
    spec denotes. */
module Targets {
  import opened Text
  import opened NetAddr

  const MAX_TARGETS: nat := 1024

  datatype Error = BadToken(tok: string) | TooMany | NoTargets

  predicate IsSep(c: char) {
    c == ',' || c == '\n' || c == '\r' || c == ' ' || c == '\t' || c == ';'
  }

  // ---------------------------------------------------------------- what a token denotes

  /** A masked prefix: its first address, its number of addresses and its length. */
  datatype Block = Block(six: bool, base: nat, size: nat, bits: nat)

  function RoundDown(n: nat, size: nat): (r: nat)
    requires size >= 1
    ensures r <= n
  {
    n - n % size
  }

  /** Prefix.Masked: the host bits of n cleared. */
  function Masked(six: bool, n: nat, bits: nat): Block
    requires bits <= Width(six)
  {
    Block(six, RoundDown(n, Pow2(Width(six) - bits)), Pow2(Width(six) - bits), bits)
  }

  /** netip.ParsePrefix: address, last slash, and a length without sign or leading zero. */
  function ParsePrefix(t: Text6, tok: string): Option<Block>
    requires '/' in tok
  {
    var bits := BehindLast(tok, '/');
    match ParseAddr(t, BeforeLast(tok, '/'))
    case Some(a) =>
      if !a.Void? && bits != "" && AllDigits(bits) && (|bits| == 1 || bits[0] != '0') && DecValue(bits) <= Width(a.V6?)
      then Some(Masked(a.V6?, a.n, DecValue(bits)))
      else None
    case None => None
  }

  predicate DropsEnds(b: Block) { !b.six && b.bits <= 30 }

  /** The addresses of a block, without its first and last one when it is an IPv4 block up to /30. */
  function BlockTexts(show: nat -> string, b: Block): seq<string> {
    if DropsEnds(b) && b.size >= 2 then Texts(show, b.base + 1, b.size - 2)
    else Texts(show, b.base, b.size)
  }

  /** fmt.Sscanf with %d: an optional sign and at least one digit; what follows is not looked at. */
  function ScanOctet(s: string): (r: Option<nat>)
    ensures r.Some? ==> r.value <= 255
  {
    var signed := s != "" && (s[0] == '-' || s[0] == '+');
    var ds := LeadingDigits(if signed then s[1..] else s);
    if ds == "" || DecValue(ds) > 255 || (signed && s[0] == '-' && DecValue(ds) > 0) then None
    else Some(DecValue(ds))
  }

  /** The two ends of a dashed range, in whichever family each is. */
  function RangeEnds(t: Text6, tok: string): Option<(Addr, Addr)>
    requires '-' in tok
  {
    var hiRaw := TrimSpace(Behind(tok, '-'));
    match ParseAddr(t, TrimSpace(Before(tok, '-')))
    case None => None
    case Some(lo) =>
      if '.' in hiRaw || ':' in hiRaw then
        (match ParseAddr(t, hiRaw) case Some(hi) => Some((lo, hi)) case None => None)
      else if !lo.V4? then None
      else (match ScanOctet(hiRaw) case Some(o) => Some((lo, V4(lo.n / 256 * 256 + o))) case None => None)
  }

  /** What one token stands for, or None when it is refused. A range needs both ends in one family, in order. */
  function Denote(t: Text6, tok: string): Option<seq<string>> {
    if '/' in tok then
      (match ParsePrefix(t, tok) case Some(b) => Some(BlockTexts(Shower(t, b.six), b)) case None => None)
    else if '-' in tok then
      (match RangeEnds(t, tok)
       case Some((lo, hi)) =>
         if lo.V6? == hi.V6? && lo.n <= hi.n then Some(Texts(Shower(t, lo.V6?), lo.n, hi.n - lo.n + 1)) else None
       case None => None)
    else Some([tok])
  }

  /** Token meanings, as the functions below take them. */
  type Meaning = string -> Option<seq<string>>

  function Denoting(t: Text6): Meaning {
    tok => Denote(t, tok)
  }

  predicate AllDenote(m: Meaning, toks: seq<string>) {
    forall i :: 0 <= i < |toks| ==> m(toks[i]).Some?
  }

  /** The meanings of the tokens, one after the other. */
  function Flatten(m: Meaning, toks: seq<string>): seq<string>
    requires AllDenote(m, toks)
  {
    if toks == [] then []
    else
      assert forall i :: 0 <= i < |toks| - 1 ==> toks[..|toks| - 1][i] == toks[i];
      Flatten(m, toks[..|toks| - 1]) + m(toks[|toks| - 1]).value
  }

  /** The distinct hosts a list of tokens stands for number between 1 and the limit. */
  ghost predicate Fits(m: Meaning, toks: seq<string>) {
    AllDenote(m, toks) && 1 <= |Dedup(Flatten(m, toks))| <= MAX_TARGETS
  }

  lemma FlattenSnoc(m: Meaning, toks: seq<string>, i: nat)
    requires i < |toks| && AllDenote(m, toks[..i]) && m(toks[i]).Some?
    ensures AllDenote(m, toks[..i + 1])
    ensures Flatten(m, toks[..i + 1]) == Flatten(m, toks[..i]) + m(toks[i]).value
  {
    assert toks[..i + 1][..i] == toks[..i];
  }

  lemma {:induction false} FlattenPrefix(m: Meaning, toks: seq<string>, i: nat)
    requires AllDenote(m, toks) && i <= |toks|
    ensures AllDenote(m, toks[..i]) && Flatten(m, toks[..i]) <= Flatten(m, toks)
  {
    if i < |toks| {
      var init := toks[..|toks| - 1];
      FlattenPrefix(m, init, i);
      assert init[..i] == toks[..i];
    } else {
      assert toks[..i] == toks;
    }
  }

  /** Tokens that stand for themselves. */
  lemma {:induction false} FlattenThemselves(m: Meaning, toks: seq<string>)
    requires forall i :: 0 <= i < |toks| ==> m(toks[i]) == Some([toks[i]])
    ensures AllDenote(m, toks) && Flatten(m, toks) == toks
  {
    if toks != [] {
      FlattenThemselves(m, toks[..|toks| - 1]);
      assert toks == toks[..|toks| - 1] + [toks[|toks| - 1]];
    }
  }

  /** What a part of the tokens expands to is at most what all of them expand to. */
  lemma PartIsNoMore(m: Meaning, toks: seq<string>, i: nat, xs: seq<string>)
    requires AllDenote(m, toks) && i < |toks|
    requires xs <= m(toks[i]).value
    ensures AllDenote(m, toks[..i])
    ensures |Dedup(Flatten(m, toks[..i]) + xs)| <= |Dedup(Flatten(m, toks))|
  {
    FlattenSnoc(m, toks, i);
    FlattenPrefix(m, toks, i + 1);
    var a, d := Flatten(m, toks[..i]), m(toks[i]).value;
    assert a + d == a + xs + d[|xs|..];
    DedupPrefix(a + xs, d[|xs|..]);
    var b := Flatten(m, toks);
    assert b == (a + d) + b[|a + d|..];
    DedupPrefix(a + d, b[|a + d|..]);
  }

  /** A token that denotes more distinct hosts than the limit makes the whole list too large. */
  lemma TooLargeToken(m: Meaning, toks: seq<string>, i: nat)
    requires AllDenote(m, toks) && i < |toks| && NoDup(m(toks[i]).value)
    ensures |m(toks[i]).value| <= |Dedup(Flatten(m, toks))|
  {
    var d := m(toks[i]).value;
    FlattenSnoc(m, toks, i);
    FlattenPrefix(m, toks, i + 1);
    assert forall x :: x in d ==> x in Flatten(m, toks[..i + 1]);
    DedupAtLeast(Flatten(m, toks), d);
  }

  // ---------------------------------------------------------------- blocks

  ghost predicate ProperBlock(b: Block) {
    && b.base + b.size <= Space(b.six) && b.size >= 1
    && (DropsEnds(b) ==> b.size >= 4)
  }

  /** Prefix.Contains: an address of the same family inside the block. */
  predicate Contains(b: Block, a: Addr) {
    a == Mk(b.six, a.n) && b.base <= a.n < b.base + b.size
  }

  lemma DivBounds(m: nat, s: nat)
    requires s >= 1
    ensures m == m / s * s + m % s && m % s < s
  {
  }

  lemma MulMono(a: nat, b: nat, s: nat)
    requires a <= b
    ensures a * s <= b * s
  {
  }

  lemma MulStrict(a: nat, b: nat, s: nat)
    requires a * s < b * s
    ensures a < b
  {
    if b <= a {
      MulMono(b, a, s);
    }
  }

  /** A block is aligned, lies inside its family, and contains the address it was masked from. */
  lemma MaskedBlock(six: bool, n: nat, bits: nat)
    requires bits <= Width(six) && n < Space(six)
    ensures ProperBlock(Masked(six, n, bits)) && Masked(six, n, bits).base % Masked(six, n, bits).size == 0
    ensures Masked(six, n, bits).base <= n < Masked(six, n, bits).base + Masked(six, n, bits).size
  {
    var s := Pow2(Width(six) - bits);
    SpaceIsPow2(six);
    Pow2Add(bits, Width(six) - bits);
    AlignedBounds(n, s, Pow2(bits));
    DivBounds(n, s);
    Multiple(n / s, s);
    if !six && bits <= 30 {
      Pow2Add(2, 30 - bits);
      assert Pow2(2) == 4;
    }
  }

  lemma Multiple(q: nat, s: nat)
    requires s >= 1
    ensures (q * s) % s == 0
  {
    if q > 0 {
      Multiple(q - 1, s);
      assert q * s == (q - 1) * s + s;
      SameQuotient(q * s, q, s);
    }
  }

  lemma AlignedBounds(n: nat, s: nat, m: nat)
    requires s >= 1 && n < m * s
    ensures RoundDown(n, s) <= n < RoundDown(n, s) + s <= m * s
  {
    DivBounds(n, s);
    var q := n / s;
    MulStrict(q, m, s);
    MulMono(q + 1, m, s);
    assert (q + 1) * s == q * s + s;
  }

  /** The addresses of a block are exactly those that agree with n in their first `bits` bits. */
  lemma BlockIsPrefixClass(six: bool, n: nat, bits: nat, m: nat)
    requires bits <= Width(six)
    ensures Contains(Masked(six, n, bits), Mk(six, m)) <==> m / Pow2(Width(six) - bits) == n / Pow2(Width(six) - bits)
  {
    BlockIsQuotientClass(n, Pow2(Width(six) - bits), m);
  }

  lemma BlockIsQuotientClass(n: nat, s: nat, m: nat)
    requires s >= 1
    ensures RoundDown(n, s) <= m < RoundDown(n, s) + s <==> m / s == n / s
  {
    DivBounds(n, s);
    SameQuotient(m, n / s, s);
  }

  lemma SameQuotient(m: nat, q: nat, s: nat)
    requires s >= 1
    ensures q * s <= m < q * s + s <==> m / s == q
  {
    DivBounds(m, s);
    var p := m / s;
    if p < q {
      MulMono(p + 1, q, s);
      assert (p + 1) * s == p * s + s;
    } else if q < p {
      MulMono(q + 1, p, s);
      assert (q + 1) * s == q * s + s;
    }
  }

  lemma ParsedBlock(t: Text6, tok: string)
    requires t.Law() && '/' in tok && ParsePrefix(t, tok).Some?
    ensures ProperBlock(ParsePrefix(t, tok).value)
  {
    ParseAddrInRange(t, BeforeLast(tok, '/'));
    var a := ParseAddr(t, BeforeLast(tok, '/')).value;
    MaskedBlock(a.V6?, a.n, DecValue(BehindLast(tok, '/')));
  }

  /** How many hosts the loop has appended after k addresses. */
  function Appended(drops: bool, size: nat, k: nat): nat {
    if !drops then k else if k <= 1 then 0 else if k < size then k - 1 else if k == size && size >= 2 then k - 2 else 0
  }

  method ExpandCidr(t: Text6, tok: string) returns (r: Result<seq<string>, Error>)
    requires t.Law() && '/' in tok
    ensures r.Ok? <==> Denote(t, tok).Some? && |Denote(t, tok).value| <= MAX_TARGETS
    ensures r.Ok? ==> r.value == Denote(t, tok).value
    ensures r.Err? ==> r.error == if Denote(t, tok).None? then BadToken(tok) else TooMany
  {
    var p := ParsePrefix(t, tok);
    if p.None? {
      return Err(BadToken(tok));
    }
    ParsedBlock(t, tok);
    r := WalkBlock(Shower(t, p.value.six), p.value);
  }

  /** The loop of expandCIDR over a masked prefix. */
  method WalkBlock(show: nat -> string, b: Block) returns (r: Result<seq<string>, Error>)
    requires ProperBlock(b)
    ensures r.Ok? <==> |BlockTexts(show, b)| <= MAX_TARGETS
    ensures r == if r.Ok? then Ok(BlockTexts(show, b)) else Err(TooMany)
  {
    hide Texts;
    var drops := DropsEnds(b);
    ghost var k := 0;
    ghost var first := if drops then b.base + 1 else b.base;
    var hosts: seq<string> := [];
    var start := Mk(b.six, b.base);
    var addr := start;
    while Contains(b, addr)
      invariant 0 <= k <= b.size
      invariant if b.base + k < Space(b.six) then addr == Mk(b.six, b.base + k) else addr == Void(0)
      invariant hosts == Texts(show, first, Appended(drops, b.size, k))
      invariant |hosts| <= MAX_TARGETS
      decreases b.size - k
    {
      if !(drops && addr == start) && !(drops && !Contains(b, Next(addr))) {
        TextsSnoc(show, first, |hosts|);
        hosts := hosts + [show(addr.n)];
        if |hosts| > MAX_TARGETS {
          return Err(TooMany);
        }
      }
      addr, k := Next(addr), k + 1;
    }
    r := Ok(hosts);
  }

  // ---------------------------------------------------------------- ranges

  lemma RangeEndsInRange(t: Text6, tok: string)
    requires t.Law() && '-' in tok && RangeEnds(t, tok).Some?
    ensures var (lo, hi) := RangeEnds(t, tok).value;
      !lo.Void? && lo.n < Space(lo.V6?) && !hi.Void? && hi.n < Space(hi.V6?)
  {
    hide Parse4, FirstMark, Split, DecValue, TrimSpace, LeadingDigits, Before, Behind;
    ParseAddrInRange(t, TrimSpace(Before(tok, '-')));
    ParseAddrInRange(t, TrimSpace(Behind(tok, '-')));
  }

  method ExpandRange(t: Text6, tok: string) returns (r: Result<seq<string>, Error>)
    requires t.Law() && '-' in tok && '/' !in tok
    ensures r.Ok? <==> Denote(t, tok).Some? && |Denote(t, tok).value| <= MAX_TARGETS + 1
    ensures r.Ok? ==> r.value == Denote(t, tok).value
    ensures r.Err? ==> r.error == TooMany || (r.error == BadToken(tok) && Denote(t, tok).None?)
  {
    var ends := RangeEnds(t, tok);
    if ends.None? {
      return Err(BadToken(tok));
    }
    RangeEndsInRange(t, tok);
    var (start, end) := ends.value;
    if Less(end, start) {
      return Err(BadToken(tok));
    }
    r := WalkRange(a => Show(t, a), start, end);
    if r.Ok? {
      RangeTexts(t, start, end, r.value);
    }
  }

  lemma RangeTexts(t: Text6, start: Addr, end: Addr, hosts: seq<string>)
    requires start.n <= end.n && |hosts| == end.n - start.n + 1
    requires forall i :: 0 <= i < |hosts| ==> hosts[i] == Show(t, Mk(start.V6?, start.n + i))
    ensures hosts == Texts(Shower(t, start.V6?), start.n, end.n - start.n + 1)
  {
    hide Show, Shower;
    forall i | 0 <= i < |hosts| ensures hosts[i] == Shower(t, start.V6?)(start.n + i) {
      ShowerShows(t, start.V6?, start.n + i);
    }
  }

  /** The loop of expandRange. Ends of different families are never joined by stepping, so such a
      range always runs into the limit. */
  method WalkRange(show: Addr -> string, start: Addr, end: Addr) returns (r: Result<seq<string>, Error>)
    requires !start.Void? && start.n < Space(start.V6?) && !end.Void? && end.n < Space(end.V6?) && !Less(end, start)
    ensures r.Ok? <==> start.V6? == end.V6? && end.n - start.n < MAX_TARGETS + 1
    ensures r.Err? ==> r.error == TooMany
    ensures r.Ok? ==> |r.value| == end.n - start.n + 1
    ensures r.Ok? ==> forall i :: 0 <= i < |r.value| ==> r.value[i] == show(Mk(start.V6?, start.n + i))
  {
    var hosts: seq<string> := [];
    var a := start;
    while true
      invariant |hosts| <= MAX_TARGETS
      invariant if start.n + |hosts| < Space(start.V6?) then a == Mk(start.V6?, start.n + |hosts|) else a.Void?
      invariant start.V6? == end.V6? ==> start.n + |hosts| <= end.n
      invariant start.V6? == end.V6? ==> forall i :: 0 <= i < |hosts| ==> hosts[i] == show(Mk(start.V6?, start.n + i))
      decreases MAX_TARGETS + 1 - |hosts|
    {
      hosts := hosts + [show(a)];
      if a == end {
        break;
      }
      if |hosts| > MAX_TARGETS {
        return Err(TooMany);
      }
      a := Next(a);
    }
    r := Ok(hosts);
  }

  /** The hosts of a token are distinct and not blank; those of a block or a range are plain addresses. */
  lemma DenotesProperHosts(t: Text6, tok: string)
    requires t.Law() && tok != "" && Denote(t, tok).Some?
    ensures NoDup(Denote(t, tok).value) && "" !in Denote(t, tok).value
    ensures '/' in tok || '-' in tok ==> forall h :: h in Denote(t, tok).value ==> '/' !in h && '-' !in h
  {
    hide ParsePrefix, RangeEnds, Shower, Texts, Distinguishes;
    if '/' in tok {
      ParsedBlock(t, tok);
      var b := ParsePrefix(t, tok).value;
      FamilyDistinguishes(t, b.six);
      if DropsEnds(b) && b.size >= 2 {
        TextsDistinct(Shower(t, b.six), Space(b.six), b.base + 1, b.size - 2);
      } else {
        TextsDistinct(Shower(t, b.six), Space(b.six), b.base, b.size);
      }
    } else if '-' in tok {
      RangeEndsInRange(t, tok);
      var (lo, hi) := RangeEnds(t, tok).value;
      FamilyDistinguishes(t, lo.V6?);
      TextsDistinct(Shower(t, lo.V6?), Space(lo.V6?), lo.n, hi.n - lo.n + 1);
    }
  }

  // ---------------------------------------------------------------- canonical tokens

  lemma TrimNothing(s: string)
    requires s != "" && !IsSpace(s[0]) && !IsSpace(s[|s| - 1])
    ensures TrimSpace(s) == s
  {
  }

  lemma Show4Trims(n: nat)
    ensures TrimSpace(Show4(n)) == Show4(n) && '/' !in Show4(n) && '-' !in Show4(n)
  {
    Show4Chars(n);
    TrimNothing(Show4(n));
  }

  /** The inclusive interval of IPv4 addresses from a to b, when there is one. */
  function FromTo(a: nat, b: nat): Option<seq<string>> {
    if a <= b then Some(Texts(Quads(), a, b - a + 1)) else None
  }

  /** The meaning of the short form: the last octet of a replaced by o. */
  function UpToOctet(a: nat, o: nat): Option<seq<string>> {
    if o <= 255 then FromTo(a, a / 256 * 256 + o) else None
  }

  lemma FullRange(t: Text6, a: nat, b: nat, tok: string)
    requires t.Law() && a < V4_SPACE && b < V4_SPACE && tok == Show4(a) + ['-'] + Show4(b)
    ensures '/' !in tok && '-' in tok
    ensures Denoting(t)(tok) == FromTo(a, b)
  {
    hide Show4, Parse4;
    Show4Trims(a);
    Show4Trims(b);
    Show4Chars(b);
    CutAt(Show4(a), '-', Show4(b));
    ParseShow4(t, a);
    ParseShow4(t, b);
  }

  lemma EndsOfShort(t: Text6, s: string, d: string, a: nat, tok: string)
    requires '-' !in s && TrimSpace(s) == s && ParseAddr(t, s) == Some(V4(a))
    requires TrimSpace(d) == d && '.' !in d && ':' !in d
    requires tok == s + ['-'] + d
    ensures '-' in tok
    ensures RangeEnds(t, tok) ==
      match ScanOctet(d) case Some(o) => Some((V4(a), V4(a / 256 * 256 + o))) case None => None
  {
    CutAt(s, '-', d);
  }

  lemma ScanDec(o: nat)
    ensures TrimSpace(Dec(o)) == Dec(o) && '.' !in Dec(o) && ':' !in Dec(o) && '/' !in Dec(o)
    ensures ScanOctet(Dec(o)) == if o <= 255 then Some(o) else None
  {
    TrimNothing(Dec(o));
    LeadingOfDigits(Dec(o));
    DecRoundTrip(o);
  }

  lemma ShortDenotes(t: Text6, s: string, d: string, a: nat, tok: string)
    requires '-' !in s && '/' !in s && TrimSpace(s) == s && ParseAddr(t, s) == Some(V4(a))
    requires TrimSpace(d) == d && '.' !in d && ':' !in d && '/' !in d
    requires tok == s + ['-'] + d
    ensures '-' in tok && '/' !in tok
    ensures Denoting(t)(tok) == match ScanOctet(d) case Some(o) => FromTo(a, a / 256 * 256 + o) case None => None
  {
    hide ParseAddr, TrimSpace, ScanOctet, RangeEnds, Texts;
    EndsOfShort(t, s, d, a, tok);
  }

  lemma ShortRange(t: Text6, a: nat, o: nat, s: string, tok: string)
    requires a < V4_SPACE && s == Show4(a) && tok == s + ['-'] + Dec(o)
    ensures '/' !in tok && '-' in tok
    ensures Denoting(t)(tok) == UpToOctet(a, o)
  {
    assert '-' !in s && '/' !in s && TrimSpace(s) == s by {
      Show4Trims(a);
    }
    assert ParseAddr(t, s) == Some(V4(a)) by {
      ParseShow4(t, a);
    }
    ScanDec(o);
    ShortDenotes(t, s, Dec(o), a, tok);
  }

  lemma Cidr4(t: Text6, n: nat, b: nat, tok: string)
    requires t.Law() && n < V4_SPACE && tok == Show4(n) + ['/'] + Dec(b)
    ensures '/' in tok
    ensures Denoting(t)(tok) == if b <= 32 then Some(BlockTexts(Quads(), Masked(false, n, b))) else None
  {
    CutAtLast(Show4(n), '/', Dec(b));
    ParseShow4(t, n);
    DecRoundTrip(b);
  }

  lemma Show6Trims(t: Text6, n: nat)
    requires t.Law() && n < V6_SPACE
    ensures TrimSpace(t.show(n)) == t.show(n) && '/' !in t.show(n) && '-' !in t.show(n)
  {
    TrimNothing(t.show(n));
  }

  lemma {:induction false} LeadingStops(d: string, rest: string)
    requires AllDigits(d) && (rest != "" ==> !IsDigit(rest[0]))
    ensures LeadingDigits(d + rest) == d
  {
    if d == "" {
      assert d + rest == rest;
    } else {
      assert (d + rest)[1..] == d[1..] + rest;
      LeadingStops(d[1..], rest);
      assert d == [d[0]] + d[1..];
    }
  }

  lemma ScanSigned(s: string, d: string, rest: string)
    requires d != "" && AllDigits(d) && (rest != "" ==> !IsDigit(rest[0]))
    requires s == "+" + (d + rest) || s == "-" + (d + rest)
    ensures ScanOctet(s) ==
      if DecValue(d) > 255 || (s[0] == '-' && DecValue(d) > 0) then None else Some(DecValue(d))
  {
    LeadingStops(d, rest);
    assert s[1..] == d + rest;
    hide DecValue, LeadingDigits;
  }

  lemma ScanUnsigned(s: string, d: string, rest: string)
    requires AllDigits(d) && (rest != "" ==> !IsDigit(rest[0])) && s == d + rest
    requires s == "" || (s[0] != '+' && s[0] != '-')
    ensures ScanOctet(s) == if d != "" && DecValue(d) <= 255 then Some(DecValue(d)) else None
  {
    LeadingStops(d, rest);
    hide DecValue, LeadingDigits;
  }

  /** The short end of a range: digits up to the first other character, behind a plus sign or none; behind a minus
      sign only zero is in range. */
  lemma ScanOctetIs(d: string, rest: string)
    requires d != "" && AllDigits(d) && (rest != "" ==> !IsDigit(rest[0]))
    ensures ScanOctet(d + rest) == ScanOctet("+" + (d + rest)) == if DecValue(d) <= 255 then Some(DecValue(d)) else None
    ensures ScanOctet("-" + (d + rest)) == if DecValue(d) == 0 then Some(0) else None
    ensures rest == "" || (rest[0] != '+' && rest[0] != '-') ==> ScanOctet(rest) == None
  {
    assert IsDigit(d[0]) && (d + rest)[0] == d[0];
    assert "" + rest == rest;
    hide ScanOctet, DecValue, AllDigits;
    NothingIsDigits();
    ScanSigned("+" + (d + rest), d, rest);
    ScanSigned("-" + (d + rest), d, rest);
    ScanUnsigned(d + rest, d, rest);
    if rest == "" || (rest[0] != '+' && rest[0] != '-') {
      ScanUnsigned(rest, "", rest);
    }
  }

  lemma NothingIsDigits()
    ensures AllDigits("")
  {
  }

  lemma TextsHold(show: nat -> string, lo: nat, k: nat, h: string)
    ensures h in Texts(show, lo, k) <==> exists m: nat :: lo <= m < lo + k && h == show(m)
  {
    if m: nat :| lo <= m < lo + k && h == show(m) {
      assert Texts(show, lo, k)[m - lo] == h;
    }
  }

  /** An IPv4 block stands for all its addresses, but without the first and the last one up to /30; any IPv6 block for
      all of them. */
  lemma BlockMembers(show: nat -> string, six: bool, n: nat, bits: nat, h: string)
    requires bits <= (if six then 128 else 32)
    ensures var b := Masked(six, n, bits);
      h in BlockTexts(show, b) <==>
        if six || bits > 30 then exists m: nat :: b.base <= m < b.base + b.size && h == show(m)
        else exists m: nat :: b.base < m < b.base + b.size - 1 && h == show(m)
  {
    var b := Masked(six, n, bits);
    if !six && bits <= 30 {
      Pow2Add(2, 30 - bits);
      assert Pow2(2) == 4;
    }
    hide Texts, Masked, Pow2;
    TextsHold(show, b.base, b.size, h);
    if b.size >= 2 {
      TextsHold(show, b.base + 1, b.size - 2, h);
    }
  }

  /** A printed IPv6 range and prefix denote all their addresses. */
  lemma FullRange6(t: Text6, a: nat, b: nat, tok: string)
    requires t.Law() && a < V6_SPACE && b < V6_SPACE && tok == t.show(a) + ['-'] + t.show(b)
    ensures Denoting(t)(tok) == if a <= b then Some(Texts(t.show, a, b - a + 1)) else None
  {
    Show6Trims(t, a);
    Show6Trims(t, b);
    ParseShow6(t, a);
    ParseShow6(t, b);
    CutAt(t.show(a), '-', t.show(b));
    hide ParseAddr, Texts, TrimSpace;
  }

  lemma Cidr6(t: Text6, n: nat, b: nat, tok: string)
    requires t.Law() && n < V6_SPACE && tok == t.show(n) + ['/'] + Dec(b)
    ensures Denoting(t)(tok) ==
      if b <= 128 then Some(Texts(t.show, Masked(true, n, b).base, Masked(true, n, b).size)) else None
  {
    ParseShow6(t, n);
    CutAtLast(t.show(n), '/', Dec(b));
    DecRoundTrip(b);
    hide ParseAddr, Texts, Dec, Masked;
  }

  /** Main result on names: a token stands for itself exactly when it holds neither a slash nor a dash. With a
      dash it is always read as a range. */
  lemma StandsForItselfIff(t: Text6, tok: string)
    requires t.Law() && tok != ""
    ensures Denote(t, tok) == Some([tok]) <==> '/' !in tok && '-' !in tok
  {
    if Denote(t, tok).Some? && ('/' in tok || '-' in tok) {
      DenotesProperHosts(t, tok);
      assert tok in [tok];
    }
  }

  /** A token with a dash but no slash has a meaning only with an address before its first dash. */
  lemma DashedNeedsAddress(t: Text6, p: string, rest: string)
    requires '-' !in p && '/' !in p && '/' !in rest
    ensures Denoting(t)(p + ['-'] + rest).Some? ==> ParseAddr(t, TrimSpace(p)).Some?
  {
    hide ParseAddr, TrimSpace;
    CutAt(p, '-', rest);
  }

  /** Without one it is refused, whatever follows the dash. */
  lemma HyphenatedNameIsRefused(t: Text6, p: string, rest: string)
    requires forall i :: 0 <= i < |p| ==> p[i] !in ".:/-" && !IsSpace(p[i])
    requires '/' !in rest
    ensures Denoting(t)(p + ['-'] + rest) == None
  {
    CutAt(p, '-', rest);
    assert TrimSpace(p) == p;
    NoMark(p);
  }

  /** The name that the documentation gives as an example is refused. */
  lemma DocumentedNameIsRefused(t: Text6)
    ensures Denoting(t)("web-01.internal") == None
  {
    assert "web" + ['-'] + "01.internal" == "web-01.internal";
    HyphenatedNameIsRefused(t, "web", "01.internal");
  }

  lemma {:induction false} NoMark(p: string)
    requires forall i :: 0 <= i < |p| ==> p[i] !in ".:"
    ensures FirstMark(p) !in ".:"
  {
    if p != "" && p[0] != '%' {
      NoMark(p[1..]);
    }
  }

  /** The range loop tests the limit only after its exit test, so a range of 1025 hosts passes it; the
      collecting step still refuses every spec that contains such a range. */
  lemma RangeCapIsOneLate(t: Text6, a: nat, toks: seq<string>, tok: string)
    requires t.Law() && a + MAX_TARGETS < V4_SPACE
    requires tok == Show4(a) + ['-'] + Show4(a + MAX_TARGETS) && tok in toks
    ensures Denoting(t)(tok).Some? && |Denoting(t)(tok).value| == MAX_TARGETS + 1
    ensures !Fits(Denoting(t), toks)
  {
    hide Show4, Denoting, NoDup, Fits;
    FullRange(t, a, a + MAX_TARGETS, tok);
    LongTexts(t, a);
    LongTokenDoesNotFit(Denoting(t), toks, tok);
  }

  lemma LongTexts(t: Text6, a: nat)
    requires t.Law() && a + MAX_TARGETS < V4_SPACE
    ensures NoDup(Texts(Quads(), a, MAX_TARGETS + 1))
  {
    FamilyDistinguishes(t, false);
    TextsDistinct(Quads(), Space(false), a, MAX_TARGETS + 1);
  }

  lemma LongTokenDoesNotFit(m: Meaning, toks: seq<string>, tok: string)
    requires tok in toks && m(tok).Some? && NoDup(m(tok).value) && |m(tok).value| > MAX_TARGETS
    ensures !Fits(m, toks)
  {
    if AllDenote(m, toks) {
      var i :| 0 <= i < |toks| && toks[i] == tok;
      TooLargeToken(m, toks, i);
    }
  }

  // ---------------------------------------------------------------- the whole expansion

  /** The variables `seen` and `out` that the closure `add` of the code captures. */
  class HostSet {
    var seen: set<string>
    var out: seq<string>
    ghost var added: seq<string>

    ghost predicate Valid()
      reads this
    {
      out == Dedup(added) && (forall h :: h in seen <==> h in out)
    }

    constructor ()
      ensures Valid() && out == [] && added == []
    {
      seen, out, added := {}, [], [];
    }

    method Add(h: string) returns (fits: bool)
      requires Valid()
      modifies this
      ensures Valid()
      ensures added == if h == "" then old(added) else old(added) + [h]
      ensures old(|out|) <= MAX_TARGETS ==> (fits <==> |out| <= MAX_TARGETS)
    {
      DedupSnoc(added, h);
      added := if h == "" then added else added + [h];
      if h == "" || h in seen {
        return true;
      }
      seen := seen + {h};
      out := out + [h];
      fits := |out| <= MAX_TARGETS;
    }

    /** Adds hosts until the limit is passed. */
    method AddAll(hosts: seq<string>) returns (fits: bool)
      requires Valid() && |out| <= MAX_TARGETS && "" !in hosts
      modifies this
      ensures Valid()
      ensures fits ==> added == old(added) + hosts && |out| <= MAX_TARGETS
      ensures !fits ==> exists k :: 0 <= k <= |hosts| && |Dedup(old(added) + hosts[..k])| > MAX_TARGETS
    {
      var i := 0;
      while i < |hosts|
        invariant 0 <= i <= |hosts| && Valid() && |out| <= MAX_TARGETS
        invariant added == old(added) + hosts[..i]
      {
        assert hosts[..i + 1] == hosts[..i] + [hosts[i]];
        assert hosts[i] in hosts;
        fits := Add(hosts[i]);
        assert added == old(added) + hosts[..i + 1];
        if !fits {
          return false;
        }
        i := i + 1;
      }
      assert hosts[..i] == hosts;
      fits := true;
    }
  }

  /** The three-way switch on the shape of a token. */
  method ExpandToken(t: Text6, tok: string) returns (r: Result<seq<string>, Error>)
    requires t.Law()
    ensures r.Ok? ==> Denote(t, tok) == Some(r.value)
    ensures r.Err? ==> !(Denote(t, tok).Some? && |Denote(t, tok).value| <= MAX_TARGETS)
    ensures r.Err? ==> r.error == TooMany || (r.error == BadToken(tok) && Denote(t, tok).None?)
  {
    if '/' in tok {
      r := ExpandCidr(t, tok);
    } else if '-' in tok {
      r := ExpandRange(t, tok);
    } else {
      r := Ok([tok]);
    }
  }

  /** Each of the six separators ends a token, and only they do. */
  lemma SpecSplits(a: string, c: char, b: string)
    ensures c in {',', ';', ' ', '\t', '\n', '\r'} ==> Fields(a + [c] + b, IsSep) == Fields(a, IsSep) + Fields(b, IsSep)
    ensures a != "" && (forall i :: 0 <= i < |a| ==> a[i] !in {',', ';', ' ', '\t', '\n', '\r'}) ==>
      Fields(a, IsSep) == [a]
  {
    FieldsAre(a, c, b, IsSep);
  }

  lemma PastTheLimit(m: Meaning, toks: seq<string>, i: nat, hosts: seq<string>)
    requires i < |toks| && AllDenote(m, toks[..i]) && m(toks[i]) == Some(hosts)
    requires exists k :: 0 <= k <= |hosts| && |Dedup(Flatten(m, toks[..i]) + hosts[..k])| > MAX_TARGETS
    ensures AllDenote(m, toks) ==> |Dedup(Flatten(m, toks))| > MAX_TARGETS
  {
    if AllDenote(m, toks) {
      var k :| 0 <= k <= |hosts| && |Dedup(Flatten(m, toks[..i]) + hosts[..k])| > MAX_TARGETS;
      PartIsNoMore(m, toks, i, hosts[..k]);
    }
  }

  lemma RefusedToken(t: Text6, toks: seq<string>, i: nat)
    requires t.Law() && i < |toks| && toks[i] != ""
    requires !(Denote(t, toks[i]).Some? && |Denote(t, toks[i]).value| <= MAX_TARGETS)
    ensures AllDenote(Denoting(t), toks) ==> |Dedup(Flatten(Denoting(t), toks))| > MAX_TARGETS
  {
    if AllDenote(Denoting(t), toks) {
      assert Denoting(t)(toks[i]).Some?;
      DenotesProperHosts(t, toks[i]);
      TooLargeToken(Denoting(t), toks, i);
    }
  }

  /** Why a spec is refused: a token that denotes nothing; no host at all; or too many of them, unless a range between
      two families ran into the limit first. */
  ghost predicate Blames(m: Meaning, toks: seq<string>, e: Error) {
    match e
    case BadToken(tok) => tok in toks && m(tok) == None
    case NoTargets => AllDenote(m, toks) && |Dedup(Flatten(m, toks))| == 0
    case TooMany => AllDenote(m, toks) ==> |Dedup(Flatten(m, toks))| > MAX_TARGETS
  }

  lemma TokensAreNotBlank(spec: string)
    ensures forall tok :: tok in Fields(spec, IsSep) ==> tok != ""
  {
    FieldsAreTokens(spec, IsSep, "");
  }

  lemma FlattenNothing(m: Meaning)
    ensures AllDenote(m, []) && Flatten(m, []) == [] && Dedup<string>([]) == []
  {
  }

  /** Main result: a spec expands exactly when every token denotes something and the distinct hosts number
      between 1 and the limit, and it expands to those hosts in the order of their first occurrences. */
  method ExpandTargets(t: Text6, spec: string) returns (r: Result<seq<string>, Error>)
    requires t.Law()
    ensures r.Ok? <==> Fits(Denoting(t), Fields(spec, IsSep))
    ensures r.Ok? ==> r.value == Dedup(Flatten(Denoting(t), Fields(spec, IsSep)))
    ensures r.Err? ==> Blames(Denoting(t), Fields(spec, IsSep), r.error)
  {
    hide Denote, Dedup, Flatten, Fields, NoDup, Free, IsSep, AllDenote;
    TokensAreNotBlank(spec);
    FlattenNothing(Denoting(t));
    var toks := Fields(spec, IsSep);
    ghost var m := Denoting(t);
    var hs := new HostSet();
    var i := 0;
    while i < |toks|
      invariant 0 <= i <= |toks| && AllDenote(m, toks[..i])
      invariant hs.Valid() && hs.added == Flatten(m, toks[..i]) && |hs.out| <= MAX_TARGETS
      invariant fresh(hs)
    {
      assert toks[i] in toks;
      var e := ExpandToken(t, toks[i]);
      if e.Err? {
        RefusedToken(t, toks, i);
        return Err(e.error);
      }
      DenotesProperHosts(t, toks[i]);
      FlattenSnoc(m, toks, i);
      var fits := hs.AddAll(e.value);
      if !fits {
        PastTheLimit(m, toks, i, e.value);
        return Err(TooMany);
      }
      i := i + 1;
    }
    assert toks[..i] == toks;
    if |hs.out| == 0 {
      return Err(NoTargets);
    }
    r := Ok(hs.out);
  }

  lemma {:induction false} FlattenMembers(m: Meaning, toks: seq<string>, h: string)
    requires AllDenote(m, toks)
    ensures h in Flatten(m, toks) <==> exists i :: 0 <= i < |toks| && h in m(toks[i]).value
  {
    if toks != [] {
      var n := |toks| - 1;
      FlattenSnoc(m, toks, n);
      assert toks[..n + 1] == toks;
      FlattenMembers(m, toks[..n], h);
      assert forall i :: 0 <= i < n ==> toks[..n][i] == toks[i];
    }
  }

  /** What an accepted spec expands to, said without Flatten and Dedup: exactly the members of the tokens'
      meanings, none of them twice. */
  lemma ExpansionIsUnion(t: Text6, toks: seq<string>)
    requires Fits(Denoting(t), toks)
    ensures var hs := Dedup(Flatten(Denoting(t), toks));
      && NoDup(hs) && 1 <= |hs| <= 1024
      && forall h :: h in hs <==> exists i :: 0 <= i < |toks| && h in Denoting(t)(toks[i]).value
  {
    DedupElements(Flatten(Denoting(t), toks));
    forall h: string
      ensures h in Flatten(Denoting(t), toks) <==> exists i :: 0 <= i < |toks| && h in Denoting(t)(toks[i]).value
    {
      FlattenMembers(Denoting(t), toks, h);
    }
  }
}
