/** The dashboard's client-side preview of target expansion (internal/api/web/index.html, lines 793-818):
    closed-form blocks and ranges, compared with the enumeration of the server. */
module Preview {
  import opened Text
  import opened NetAddr
  import opened Targets

  /** The class \s of a JavaScript regular expression, with ',' and ';'. */
  predicate IsJsSep(c: char) {
    c == ',' || c == ';' || c == '\U{FEFF}' || (IsSpace(c) && c != '\U{85}')
  }

  // ---------------------------------------------------------------- what the preview takes a token to mean

  predicate IsNumber(s: string) { s != "" && AllDigits(s) }

  predicate FourNumbers(ps: seq<string>) {
    |ps| == 4 && IsNumber(ps[0]) && IsNumber(ps[1]) && IsNumber(ps[2]) && IsNumber(ps[3])
  }

  predicate FourOctets(ps: seq<string>) {
    && FourNumbers(ps)
    && DecValue(ps[0]) <= 255 && DecValue(ps[1]) <= 255 && DecValue(ps[2]) <= 255 && DecValue(ps[3]) <= 255
  }

  function Quad(a: nat, b: nat, c: nat, d: nat): nat {
    ((a * 256 + b) * 256 + c) * 256 + d
  }

  /** The value of a dotted quad; leading zeros are allowed here. */
  function QuadValue(s: string): Option<nat> {
    var ps := Split(s, '.');
    if FourOctets(ps) then Some(Quad(DecValue(ps[0]), DecValue(ps[1]), DecValue(ps[2]), DecValue(ps[3]))) else None
  }

  /** The test /^\d+\.\d+\.\d+\.\d+-/. */
  predicate StartsWithQuadDash(tok: string)
    requires '-' in tok
  {
    FourNumbers(Split(Before(tok, '-'), '.'))
  }

  function RangeMeaning(lo: Option<nat>, hi: Option<nat>): Option<seq<string>> {
    if lo.Some? && hi.Some? then FromTo(lo.value, hi.value) else None
  }

  /** The quad s with its last number replaced. */
  function ShortEnd(s: string, last: string): Option<nat> {
    var quad := Split(s, '.');
    QuadValue(Join(if |quad| > 3 then quad[3 := last] else quad, '.'))
  }

  /** The two ends a dashed token is given; trim() changes nothing inside a token split at white space. */
  function DashEnds(tok: string): (Option<nat>, Option<nat>)
    requires '-' in tok && StartsWithQuadDash(tok)
  {
    var ps := Split(tok, '-');
    var hiS := if |ps| > 1 then ps[1] else "";
    (QuadValue(ps[0]), if '.' in hiS then QuadValue(hiS) else ShortEnd(ps[0], hiS))
  }

  function BlockMeaning(tok: string): Option<seq<string>>
    requires '/' in tok
  {
    var ps := Split(tok, '/');
    var bi := QuadValue(ps[0]);
    if bi.Some? && |ps| > 1 && IsNumber(ps[1]) && DecValue(ps[1]) <= 32
    then Some(BlockTexts(Quads(), Masked(false, bi.value, DecValue(ps[1]))))
    else None
  }

  function Preview1(tok: string): Option<seq<string>> {
    if '/' in tok then BlockMeaning(tok)
    else if '-' in tok && StartsWithQuadDash(tok) then RangeMeaning(DashEnds(tok).0, DashEnds(tok).1)
    else Some([tok])
  }

  function Previewing(): Meaning { tok => Preview1(tok) }

  // ---------------------------------------------------------------- the code

  /** The value of the first k pieces, read to the base 256. */
  function Fold256(ps: seq<string>, k: nat): nat
    requires k <= |ps| && forall i :: 0 <= i < k ==> IsNumber(ps[i])
  {
    if k == 0 then 0
    else
      assert IsNumber(ps[k - 1]);
      Fold256(ps, k - 1) * 256 + DecValue(ps[k - 1])
  }

  lemma FoldIsQuad(ps: seq<string>)
    requires FourNumbers(ps)
    ensures Fold256(ps, 4) == Quad(DecValue(ps[0]), DecValue(ps[1]), DecValue(ps[2]), DecValue(ps[3]))
  {
    assert Fold256(ps, 1) == DecValue(ps[0]);
    assert Fold256(ps, 2) == DecValue(ps[0]) * 256 + DecValue(ps[1]);
  }

  method IpToInt(s: string) returns (n: Option<nat>)
    ensures n == QuadValue(s)
  {
    hide Split, DecValue, AllDigits;
    var p := Split(s, '.');
    if |p| != 4 {
      return None;
    }
    var v, i := 0, 0;
    while i < |p|
      invariant 0 <= i <= 4 && forall j :: 0 <= j < i ==> IsNumber(p[j]) && DecValue(p[j]) <= 255
      invariant v == Fold256(p, i)
    {
      if !IsNumber(p[i]) {
        return None;
      }
      if DecValue(p[i]) > 255 {
        return None;
      }
      v, i := v * 256 + DecValue(p[i]), i + 1;
    }
    FoldIsQuad(p);
    n := Some(v);
  }

  datatype Outcome = Over(count: nat) | Shown(count: nat, sample: seq<string>, bad: seq<string>)

  const SAMPLE: nat := 6

  function FirstFew(hs: seq<string>): seq<string> {
    if |hs| <= SAMPLE then hs else hs[..SAMPLE]
  }

  lemma FirstFewIs(hs: seq<string>)
    ensures FirstFew(hs) <= hs && |FirstFew(hs)| == if |hs| < 6 then |hs| else 6
  {
  }

  /** The variables the closure `add` captures. */
  class Tally {
    var seen: set<string>
    var count: nat
    var sample: seq<string>
    ghost var added: seq<string>

    ghost predicate Valid()
      reads this
    {
      && count == |Dedup(added)|
      && sample == FirstFew(Dedup(added))
      && forall h :: h in seen <==> h in Dedup(added)
    }

    constructor ()
      ensures Valid() && added == []
    {
      seen, count, sample, added := {}, 0, [], [];
    }

    method Add(h: string)
      requires Valid()
      modifies this
      ensures Valid() && added == old(added) + [h]
    {
      DedupSnoc(added, h);
      added := added + [h];
      if h !in seen {
        seen := seen + {h};
        count := count + 1;
        if |sample| < SAMPLE {
          sample := sample + [h];
        }
      }
    }

    /** The loop `for n = lo..hi`, left as soon as the limit is passed. */
    method AddRun(lo: nat, k: nat) returns (over: bool)
      requires Valid()
      modifies this
      ensures Valid()
      ensures !over ==> added == old(added) + Texts(Quads(), lo, k) && (k > 0 ==> count <= MAX_TARGETS)
      ensures over ==> count > MAX_TARGETS
      ensures over ==> exists j :: 0 <= j <= k && added == old(added) + Texts(Quads(), lo, k)[..j]
    {
      var n := 0;
      hide Quads, Texts, Dedup, FirstFew;
      ghost var run := Texts(Quads(), lo, k);
      while n < k
        invariant 0 <= n <= k && Valid()
        invariant added == old(added) + run[..n] && (n > 0 ==> count <= MAX_TARGETS)
      {
        TextsTake(Quads(), lo, k, n);
        Add(Quads()(lo + n));
        assert added == old(added) + run[..n + 1];
        n := n + 1;
        if count > MAX_TARGETS {
          return true;
        }
      }
      over := false;
    }
  }

  function Good(m: Meaning, toks: seq<string>): (g: seq<string>)
    ensures AllDenote(m, g)
  {
    if toks == [] then []
    else Good(m, toks[..|toks| - 1]) + (if m(toks[|toks| - 1]).Some? then [toks[|toks| - 1]] else [])
  }

  function Bad(m: Meaning, toks: seq<string>): seq<string> {
    if toks == [] then []
    else Bad(m, toks[..|toks| - 1]) + (if m(toks[|toks| - 1]).Some? then [] else [toks[|toks| - 1]])
  }

  /** The distinct hosts of the readable tokens. */
  function Readable(m: Meaning, toks: seq<string>): seq<string> {
    Dedup(Flatten(m, Good(m, toks)))
  }

  lemma GoodSnoc(m: Meaning, toks: seq<string>, i: nat)
    requires i < |toks|
    ensures Bad(m, toks[..i + 1]) == Bad(m, toks[..i]) + (if m(toks[i]).Some? then [] else [toks[i]])
    ensures Flatten(m, Good(m, toks[..i + 1])) ==
      Flatten(m, Good(m, toks[..i])) + (if m(toks[i]).Some? then m(toks[i]).value else [])
  {
    assert toks[..i + 1][..i] == toks[..i];
    var g := Good(m, toks[..i]);
    if m(toks[i]).Some? {
      assert (g + [toks[i]])[..|g|] == g;
    } else {
      assert g + [] == g;
    }
  }

  lemma {:induction false} ReadableGrows(m: Meaning, toks: seq<string>, i: nat)
    requires i <= |toks|
    ensures Flatten(m, Good(m, toks[..i])) <= Flatten(m, Good(m, toks))
  {
    if i < |toks| {
      GoodSnoc(m, toks, |toks| - 1);
      assert toks[..|toks| - 1 + 1] == toks;
      ReadableGrows(m, toks[..|toks| - 1], i);
      assert toks[..|toks| - 1][..i] == toks[..i];
    } else {
      assert toks[..i] == toks;
    }
  }

  /** Leaving the loop inside token i means that the tokens so far, and the whole spec, are over the limit. */
  lemma OverForGood(m: Meaning, toks: seq<string>, i: nat, xs: seq<string>)
    requires i < |toks| && m(toks[i]).Some? && xs <= m(toks[i]).value
    ensures |Dedup(Flatten(m, Good(m, toks[..i])) + xs)| <= |Readable(m, toks[..i + 1])| <= |Readable(m, toks)|
  {
    hide Good, Flatten, Dedup;
    GoodSnoc(m, toks, i);
    ReadableGrows(m, toks, i + 1);
    var before, hosts := Flatten(m, Good(m, toks[..i])), m(toks[i]).value;
    PartCounts(before, xs, hosts, before + hosts);
    PartCounts(before, hosts, hosts, Flatten(m, Good(m, toks)));
  }

  lemma PartCounts(before: seq<string>, xs: seq<string>, hosts: seq<string>, whole: seq<string>)
    requires xs <= hosts && before + hosts <= whole
    ensures |Dedup(before + xs)| <= |Dedup(whole)|
  {
    var a := before + xs;
    assert a <= before + hosts;
    assert whole == a + whole[|a|..];
    DedupPrefix(a, whole[|a|..]);
  }

  /** Blocks and ranges are walked, and only there the limit is looked at. */
  predicate Walks(tok: string) {
    '/' in tok || ('-' in tok && StartsWithQuadDash(tok))
  }

  /** With token i, a block or a range, the distinct hosts so far are over the limit. */
  ghost predicate PassesAt(m: Meaning, toks: seq<string>, i: nat)
    requires i < |toks|
  {
    Walks(toks[i]) && m(toks[i]).Some? && |Readable(m, toks[..i + 1])| > MAX_TARGETS
  }

  /** What a token of the loop did to the tally: `d` is what the token means. */
  twostate predicate Tallied(tally: Tally, d: Option<seq<string>>, bad: bool, over: bool)
    reads tally
  {
    && tally.Valid()
    && (bad <==> d.None?)
    && (bad ==> !over && tally.added == old(tally.added))
    && (!bad && !over ==> tally.added == old(tally.added) + d.value)
    && (over ==> tally.count > MAX_TARGETS)
    && (over ==> exists j :: 0 <= j <= |d.value| && tally.added == old(tally.added) + d.value[..j])
  }

  lemma {:induction false} BlockSize(n: nat)
    ensures Pow2(n) >= 1 && (n >= 2 ==> Pow2(n) >= 4)
  {
    if n > 0 {
      BlockSize(n - 1);
    }
  }

  lemma AlignedTexts(bi: nat, b: nat)
    requires b <= 32
    ensures Pow2(32 - b) >= 1 && (b <= 30 ==> Pow2(32 - b) >= 4)
    ensures var size, net := Pow2(32 - b), RoundDown(bi, Pow2(32 - b));
      BlockTexts(Quads(), Masked(false, bi, b)) ==
      if b <= 30 then Texts(Quads(), net + 1, size - 2) else Texts(Quads(), net, size)
  {
    BlockSize(32 - b);
    hide Pow2, Texts, RoundDown, Quads;
    assert Masked(false, bi, b) == Block(false, RoundDown(bi, Pow2(32 - b)), Pow2(32 - b), b);
  }

  method AddAligned(tally: Tally, bi: nat, b: nat) returns (over: bool)
    requires tally.Valid() && b <= 32
    modifies tally
    ensures Tallied(tally, Some(BlockTexts(Quads(), Masked(false, bi, b))), false, over)
      && (!over ==> tally.count <= MAX_TARGETS)
  {
    hide Pow2, Texts, RoundDown, Masked, BlockTexts, Dedup, FirstFew, Quads;
    AlignedTexts(bi, b);
    var size := Pow2(32 - b);
    var net := RoundDown(bi, size);
    if b <= 30 {
      over := tally.AddRun(net + 1, size - 2);
    } else {
      over := tally.AddRun(net, size);
    }
  }

  method AddBlock(tally: Tally, tok: string) returns (bad: bool, over: bool)
    requires tally.Valid() && '/' in tok
    modifies tally
    ensures Tallied(tally, BlockMeaning(tok), bad, over) && (!bad && !over ==> tally.count <= MAX_TARGETS)
  {
    var ps := Split(tok, '/');
    var bi := IpToInt(ps[0]);
    if bi.None? || |ps| < 2 || !IsNumber(ps[1]) || DecValue(ps[1]) > 32 {
      return true, false;
    }
    bad := false;
    over := AddAligned(tally, bi.value, DecValue(ps[1]));
  }

  method ReadEnds(tok: string) returns (lo: Option<nat>, hi: Option<nat>)
    requires '-' in tok && StartsWithQuadDash(tok)
    ensures lo == DashEnds(tok).0 && hi == DashEnds(tok).1
  {
    hide Split, Join, DecValue, QuadValue, StartsWithQuadDash;
    var ps := Split(tok, '-');
    var hiS := if |ps| > 1 then ps[1] else "";
    lo := IpToInt(ps[0]);
    if '.' in hiS {
      hi := IpToInt(hiS);
    } else {
      var b := Split(ps[0], '.');
      if |b| > 3 {
        b := b[3 := hiS];
      }
      hi := IpToInt(Join(b, '.'));
    }
  }

  method AddRange(tally: Tally, tok: string) returns (bad: bool, over: bool)
    requires tally.Valid() && '-' in tok && StartsWithQuadDash(tok)
    modifies tally
    ensures Tallied(tally, RangeMeaning(DashEnds(tok).0, DashEnds(tok).1), bad, over)
    ensures !bad && !over ==> tally.count <= MAX_TARGETS
  {
    hide DashEnds, StartsWithQuadDash, Texts, Dedup, FirstFew;
    var lo, hi := ReadEnds(tok);
    if lo.None? || hi.None? || hi.value < lo.value {
      return true, false;
    }
    bad := false;
    over := tally.AddRun(lo.value, hi.value - lo.value + 1);
  }

  /** One token of the loop: its closed form is walked, or it is reported as unreadable. */
  method AddToken(tally: Tally, tok: string) returns (bad: bool, over: bool)
    requires tally.Valid()
    modifies tally
    ensures Tallied(tally, Preview1(tok), bad, over)
    ensures Walks(tok) && !bad && !over ==> tally.count <= MAX_TARGETS
    ensures over ==> Walks(tok)
  {
    if '/' in tok {
      bad, over := AddBlock(tally, tok);
    } else if '-' in tok && StartsWithQuadDash(tok) {
      bad, over := AddRange(tally, tok);
    } else {
      tally.Add(tok);
      bad, over := false, false;
    }
  }

  lemma NoTokens(m: Meaning, toks: seq<string>)
    ensures Flatten(m, Good(m, toks[..0])) == [] && Bad(m, toks[..0]) == []
  {
  }

  /** expandTargets of the dashboard: over exactly when the limit is passed at a block or a range; otherwise the
      distinct hosts are counted, however many bare tokens there are. */
  method ExpandPreview(spec: string) returns (r: Outcome)
    ensures var m, toks := Previewing(), Fields(spec, IsJsSep);
      r.Over? <==> exists i: nat :: i < |toks| && PassesAt(m, toks, i)
    ensures var m, toks := Previewing(), Fields(spec, IsJsSep);
      if r.Over? then |Readable(m, toks)| > MAX_TARGETS
      else r.count == |Readable(m, toks)| && r.sample == FirstFew(Readable(m, toks)) && r.bad == Bad(m, toks)
  {
    hide Fields, Flatten, Good, Bad, Dedup, FirstFew, Preview1, Walks;
    var toks := Fields(spec, IsJsSep);
    ghost var m := Previewing();
    NoTokens(m, toks);
    var tally := new Tally();
    var bads: seq<string> := [];
    var i := 0;
    while i < |toks|
      invariant 0 <= i <= |toks| && fresh(tally) && tally.Valid()
      invariant tally.added == Flatten(m, Good(m, toks[..i])) && bads == Bad(m, toks[..i])
      invariant forall k: nat :: k < i ==> !PassesAt(m, toks, k)
    {
      GoodSnoc(m, toks, i);
      var bad, over := AddToken(tally, toks[i]);
      assert m(toks[i]) == Preview1(toks[i]);
      if over {
        ghost var d := m(toks[i]).value;
        ghost var j :| 0 <= j <= |d| && tally.added == Flatten(m, Good(m, toks[..i])) + d[..j];
        OverForGood(m, toks, i, d[..j]);
        assert PassesAt(m, toks, i);
        return Over(tally.count);
      }
      if bad {
        bads := bads + [toks[i]];
      }
      i := i + 1;
    }
    assert toks[..i] == toks;
    r := Shown(tally.count, tally.sample, bads);
  }

  // ---------------------------------------------------------------- agreement with the server

  /** The IPv4 tokens on which both sides are meant to agree. */
  datatype Shape = Bare(name: string) | Cidr(n: nat, bits: nat) | Full(a: nat, b: nat) | Short(a: nat, o: nat) {
    predicate Valid() {
      match this
      case Bare(name) => '-' !in name && '/' !in name
      case Cidr(n, _) => n < V4_SPACE
      case Full(a, b) => a < V4_SPACE && b < V4_SPACE
      case Short(a, _) => a < V4_SPACE
    }

    function Text(): string {
      match this
      case Bare(name) => name
      case Cidr(n, bits) => Show4(n) + ['/'] + Dec(bits)
      case Full(a, b) => Show4(a) + ['-'] + Show4(b)
      case Short(a, o) => Show4(a) + ['-'] + Dec(o)
    }
  }

  lemma QuadOfPieces(ps: seq<string>)
    requires FourNumbers(ps)
    ensures Split(Join(ps, '.'), '.') == ps
  {
    SplitJoin(ps, '.');
  }

  lemma PiecesAreOctets(n: nat)
    ensures var ps := Split(Show4(n), '.');
      FourOctets(ps)
      && DecValue(ps[0]) == OctetOf(n, 0) && DecValue(ps[1]) == OctetOf(n, 1)
      && DecValue(ps[2]) == OctetOf(n, 2) && DecValue(ps[3]) == OctetOf(n, 3)
  {
    Show4Pieces(n);
    DecIsOctet(OctetOf(n, 0));
    DecIsOctet(OctetOf(n, 1));
    DecIsOctet(OctetOf(n, 2));
    DecIsOctet(OctetOf(n, 3));
  }

  lemma LastOctet(n: nat, o: nat)
    requires n < V4_SPACE
    ensures Quad(OctetOf(n, 0), OctetOf(n, 1), OctetOf(n, 2), OctetOf(n, 3)) == n
    ensures Quad(OctetOf(n, 0), OctetOf(n, 1), OctetOf(n, 2), o) == n / 256 * 256 + o
  {
    QuadSum(n);
    assert n % 256 == OctetOf(n, 3);
  }

  lemma QuadOfShow(n: nat)
    requires n < V4_SPACE
    ensures QuadValue(Show4(n)) == Some(n)
  {
    PiecesAreOctets(n);
    LastOctet(n, 0);
  }

  /** Replacing the last piece of a canonical quad by a number: an address when the number is an octet. */
  lemma QuadWithLast(n: nat, o: nat)
    requires n < V4_SPACE
    ensures |Split(Show4(n), '.')| == 4
    ensures QuadValue(Join(Split(Show4(n), '.')[3 := Dec(o)], '.')) ==
      if o <= 255 then Some(n / 256 * 256 + o) else None
  {
    PiecesAreOctets(n);
    hide Show4, Split, Join, DecValue;
    var ps := Split(Show4(n), '.')[3 := Dec(o)];
    QuadOfPieces(ps);
    DecRoundTrip(o);
    LastOctet(n, o);
  }

  lemma CidrPreview(n: nat, bits: nat, tok: string)
    requires n < V4_SPACE && tok == Show4(n) + ['/'] + Dec(bits)
    ensures '/' in tok
    ensures Preview1(tok) == if bits <= 32 then Some(BlockTexts(Quads(), Masked(false, n, bits))) else None
  {
    Show4Trims(n);
    SplitPiece(Show4(n), '/', Dec(bits));
    SplitWhole(Dec(bits), '/');
    assert tok[|Show4(n)|] == '/';
    QuadOfShow(n);
    DecRoundTrip(bits);
  }

  lemma DashParts(n: nat, d: string, tok: string)
    requires '-' !in d && tok == Show4(n) + ['-'] + d
    ensures '-' in tok && StartsWithQuadDash(tok) && Split(tok, '-') == [Show4(n), d]
  {
    Show4Trims(n);
    CutAt(Show4(n), '-', d);
    PiecesAreOctets(n);
    SplitPiece(Show4(n), '-', d);
    SplitWhole(d, '-');
  }

  lemma FullPreview(a: nat, b: nat, tok: string)
    requires a < V4_SPACE && b < V4_SPACE && tok == Show4(a) + ['-'] + Show4(b)
    ensures '/' !in tok && Preview1(tok) == FromTo(a, b)
  {
    Show4Trims(a);
    Show4Trims(b);
    Show4Chars(b);
    DashParts(a, Show4(b), tok);
    QuadOfShow(a);
    QuadOfShow(b);
  }

  lemma ShortPreview(a: nat, o: nat, tok: string)
    requires a < V4_SPACE && tok == Show4(a) + ['-'] + Dec(o)
    ensures '/' !in tok && Preview1(tok) == UpToOctet(a, o)
  {
    hide Show4, Split, Join, DecValue, QuadValue, Texts;
    Show4Trims(a);
    DashParts(a, Dec(o), tok);
    QuadOfShow(a);
    QuadWithLast(a, o);
  }

  /** Enumeration and closed form give every such token the same meaning, or both refuse it. */
  lemma ShapesAgree(t: Text6, s: Shape)
    requires t.Law() && s.Valid()
    ensures Denoting(t)(s.Text()) == Previewing()(s.Text())
  {
    match s
    case Bare(_) =>
    case Cidr(n, bits) =>
      Cidr4(t, n, bits, s.Text());
      CidrPreview(n, bits, s.Text());
    case Full(a, b) =>
      FullRange(t, a, b, s.Text());
      FullPreview(a, b, s.Text());
    case Short(a, o) =>
      ShortRange(t, a, o, Show4(a), s.Text());
      ShortPreview(a, o, s.Text());
  }

  ghost predicate WellShaped(tok: string) {
    exists s: Shape :: s.Valid() && s.Text() == tok
  }

  /** Only separators both sides know, and only tokens of the four shapes. */
  ghost predicate SharedSpec(spec: string) {
    && (forall i :: 0 <= i < |spec| ==> (IsSep(spec[i]) <==> IsJsSep(spec[i])))
    && (forall i :: 0 <= i < |Fields(spec, IsSep)| ==> WellShaped(Fields(spec, IsSep)[i]))
  }

  lemma {:induction false} SameFields(spec: string, cur: string)
    requires forall i :: 0 <= i < |spec| ==> (IsSep(spec[i]) <==> IsJsSep(spec[i]))
    ensures FieldsFrom(spec, IsSep, cur) == FieldsFrom(spec, IsJsSep, cur)
  {
    if spec != "" {
      SameFields(spec[1..], if IsSep(spec[0]) then "" else cur + [spec[0]]);
    }
  }

  lemma {:induction false} AgreeingMeanings(m: Meaning, p: Meaning, toks: seq<string>)
    requires forall i :: 0 <= i < |toks| ==> m(toks[i]) == p(toks[i])
    ensures AllDenote(m, toks) <==> Bad(p, toks) == []
    ensures AllDenote(m, toks) ==> Flatten(m, toks) == Flatten(p, Good(p, toks)) && Good(p, toks) == toks
  {
    if toks != [] {
      var n := |toks| - 1;
      AgreeingMeanings(m, p, toks[..n]);
      assert toks[..n] + [toks[n]] == toks;
      if AllDenote(m, toks) {
        assert forall i :: 0 <= i < n ==> toks[..n][i] == toks[i];
      }
    }
  }

  /** Main result: on such specs the server accepts exactly when the preview is not over the limit, has no
      unreadable token and counts between 1 and 1024 hosts; the count and the sample are then the server's. */
  method PreviewTellsTheTruth(t: Text6, spec: string) returns (server: Result<seq<string>, Error>, shown: Outcome)
    requires t.Law() && SharedSpec(spec)
    ensures server.Ok? <==> shown.Shown? && shown.bad == [] && 1 <= shown.count <= MAX_TARGETS
    ensures server.Ok? ==> shown.count == |server.value| && shown.sample == FirstFew(server.value)
  {
    server := ExpandTargets(t, spec);
    shown := ExpandPreview(spec);
    ghost var toks := Fields(spec, IsSep);
    SameFields(spec, "");
    forall i | 0 <= i < |toks| ensures Denoting(t)(toks[i]) == Previewing()(toks[i]) {
      var s: Shape :| s.Valid() && s.Text() == toks[i];
      ShapesAgree(t, s);
    }
    AgreeingMeanings(Denoting(t), Previewing(), toks);
  }

  // ---------------------------------------------------------------- dashed tokens

  /** The two sides of the first dash, and the part behind it that the preview looks at. */
  function Left(tok: string): string
    requires '-' in tok
  {
    Before(tok, '-')
  }

  function Right(tok: string): string
    requires '-' in tok
  {
    Behind(tok, '-')
  }

  function Seen(tok: string): string
    requires '-' in tok
  {
    Split(Right(tok), '-')[0]
  }

  predicate Dotted(r: string) { '.' in r || ':' in r }

  /** The quads are as the server wants them, without leading zeros and with nothing behind them. */
  predicate Canonical(tok: string)
    requires '-' in tok
  {
    Parse4(Left(tok)).Some? && (Dotted(Right(tok)) ==> Parse4(Right(tok)).Some?)
  }

  /** The short end has a sign, or more than digits before the next dash, and the server reads an octet in it. */
  predicate ReadsPast(tok: string)
    requires '-' in tok
  {
    var lo, o := Parse4(Left(tok)), ScanOctet(Right(tok));
    lo.Some? && !Dotted(Right(tok)) && !IsNumber(Seen(tok)) && o.Some? && lo.value % 256 <= o.value
  }

  predicate IsDashed(tok: string) { '-' in tok && '/' !in tok && Free(tok, IsSpace) }

  lemma {:induction false} Halves(tok: string, c: char)
    requires c in tok
    ensures tok == Before(tok, c) + [c] + Behind(tok, c) && c !in Before(tok, c)
    ensures Split(tok, c) == [Before(tok, c)] + Split(Behind(tok, c), c)
  {
    if tok[0] != c {
      Halves(tok[1..], c);
      assert tok == [tok[0]] + tok[1..];
    }
  }

  lemma {:induction false} FirstPiece(s: string, c: char)
    ensures Split(s, c)[0] <= s && (c !in s ==> Split(s, c) == [s])
    ensures AllDigits(Split(s, c)[0]) && !IsDigit(c) ==> LeadingDigits(s) == Split(s, c)[0]
  {
    if s != "" && s[0] != c {
      FirstPiece(s[1..], c);
      var first := Split(s[1..], c)[0];
      assert Split(s, c)[0] == [s[0]] + first && s == [s[0]] + s[1..];
      if AllDigits([s[0]] + first) {
        assert IsDigit(([s[0]] + first)[0]);
        assert forall i :: 0 <= i < |first| ==> first[i] == ([s[0]] + first)[i + 1];
      }
    }
  }

  lemma {:induction false} PiecesChars(s: string, c: char)
    requires forall k :: 0 <= k < |Split(s, c)| ==> AllDigits(Split(s, c)[k])
    ensures forall i :: 0 <= i < |s| ==> IsDigit(s[i]) || s[i] == c
  {
    if s != "" {
      var ps, rest := Split(s, c), Split(s[1..], c);
      if s[0] == c {
        assert forall k :: 0 <= k < |rest| ==> rest[k] == ps[k + 1];
      } else {
        assert ps[0] == [s[0]] + rest[0];
        assert IsDigit(ps[0][0]) && forall i :: 0 <= i < |rest[0]| ==> rest[0][i] == ps[0][i + 1];
        assert forall k :: 1 <= k < |rest| ==> rest[k] == ps[k];
      }
      PiecesChars(s[1..], c);
    }
  }

  lemma FourNumbersChars(s: string)
    requires FourNumbers(Split(s, '.'))
    ensures '.' in s && FirstMark(s) == '.' && forall i :: 0 <= i < |s| ==> IsDigit(s[i]) || s[i] == '.'
  {
    hide Split, FirstMark, AllDigits, LeadingDigits;
    PiecesChars(s, '.');
    FirstPiece(s, '.');
    FirstMarkDot(s);
  }

  /** What the server reads as a quad is the same number to the preview. */
  lemma ParsedIsQuad(s: string)
    requires Parse4(s).Some?
    ensures FourNumbers(Split(s, '.')) && QuadValue(s) == Parse4(s)
    ensures '.' in s && FirstMark(s) == '.' && '-' !in s && ':' !in s
  {
    hide Split, DecValue, AllDigits, FirstMark;
    FourNumbersChars(s);
  }

  lemma HalvesTrim(tok: string)
    requires IsDashed(tok)
    ensures TrimSpace(Left(tok)) == Left(tok) && TrimSpace(Right(tok)) == Right(tok)
  {
    Halves(tok, '-');
    var l, r := Left(tok), Right(tok);
    assert forall i :: 0 <= i < |l| ==> l[i] == tok[i];
    assert forall i :: 0 <= i < |r| ==> r[i] == tok[|l| + 1 + i];
  }

  /** The server's reading of a token that starts like an IPv4 range. */
  lemma ServerReads(t: Text6, tok: string)
    requires IsDashed(tok) && StartsWithQuadDash(tok)
    ensures Denote(t, tok) ==
      match Parse4(Left(tok))
      case None => None
      case Some(lo) =>
        if Dotted(Right(tok)) then (match Parse4(Right(tok)) case None => None case Some(hi) => FromTo(lo, hi))
        else match ScanOctet(Right(tok)) case None => None case Some(o) => UpToOctet(lo, o)
  {
    HalvesTrim(tok);
    FourNumbersChars(Left(tok));
    if Parse4(Right(tok)).Some? {
      ParsedIsQuad(Right(tok));
    }
    hide Parse4, TrimSpace, FirstMark, ScanOctet, Texts, StartsWithQuadDash, Free, Before, Behind;
  }

  lemma {:induction false} SplitHasNone(s: string, c: char)
    ensures forall k :: 0 <= k < |Split(s, c)| ==> c !in Split(s, c)[k]
  {
    if s != "" {
      SplitHasNone(s[1..], c);
    }
  }

  lemma LastByte(a: nat, b: nat, c: nat, d: nat, o: nat)
    requires d <= 255
    ensures Quad(a, b, c, d) / 256 * 256 + o == Quad(a, b, c, o)
  {
  }

  lemma LastReplaced(s: string, h: string)
    requires FourNumbers(Split(s, '.')) && '.' !in h
    ensures ShortEnd(s, h).Some? ==> IsNumber(h)
    ensures QuadValue(s).Some? && IsNumber(h) ==>
      ShortEnd(s, h) == if DecValue(h) <= 255 then Some(QuadValue(s).value / 256 * 256 + DecValue(h)) else None
  {
    hide Split, Join, DecValue, Quad, AllDigits;
    var ps := Split(s, '.');
    SplitHasNone(s, '.');
    SplitJoin(ps[3 := h], '.');
    if QuadValue(s).Some? && IsNumber(h) {
      LastByte(DecValue(ps[0]), DecValue(ps[1]), DecValue(ps[2]), DecValue(ps[3]), DecValue(h));
    }
  }

  lemma PreviewEnds(tok: string)
    requires '-' in tok && StartsWithQuadDash(tok)
    ensures DashEnds(tok).0 == QuadValue(Left(tok))
    ensures DashEnds(tok).1 == if '.' in Seen(tok) then QuadValue(Seen(tok)) else ShortEnd(Left(tok), Seen(tok))
  {
    Halves(tok, '-');
    hide Split, QuadValue, ShortEnd, Before, Behind;
    assert Split(tok, '-')[1] == Split(Right(tok), '-')[0];
  }

  /** The preview's reading of a short end. */
  lemma PreviewReadsShort(tok: string)
    requires '-' in tok && StartsWithQuadDash(tok) && '.' !in Seen(tok)
    ensures DashEnds(tok).1.Some? ==> IsNumber(Seen(tok))
    ensures QuadValue(Left(tok)).Some? && IsNumber(Seen(tok)) ==>
      DashEnds(tok).1 ==
      if DecValue(Seen(tok)) <= 255 then Some(QuadValue(Left(tok)).value / 256 * 256 + DecValue(Seen(tok))) else None
  {
    PreviewEnds(tok);
    LastReplaced(Left(tok), Seen(tok));
    hide DashEnds, StartsWithQuadDash, Left, Seen, ShortEnd, QuadValue, DecValue;
  }

  /** A range both sides can read means the same to both. */
  lemma FullAgrees(t: Text6, tok: string)
    requires IsDashed(tok) && StartsWithQuadDash(tok) && Canonical(tok) && Dotted(Right(tok))
    ensures Denote(t, tok) == Preview1(tok)
  {
    ServerReads(t, tok);
    PreviewEnds(tok);
    ParsedIsQuad(Left(tok));
    ParsedIsQuad(Right(tok));
    FirstPiece(Right(tok), '-');
    hide Split, Parse4, QuadValue, StartsWithQuadDash, Denote, DashEnds, FromTo, ScanOctet, Left, Right, FirstMark;
  }

  lemma ShortEnds(tok: string)
    requires IsDashed(tok) && StartsWithQuadDash(tok) && !Dotted(Right(tok)) && IsNumber(Seen(tok))
    ensures ScanOctet(Right(tok)) == if DecValue(Seen(tok)) <= 255 then Some(DecValue(Seen(tok))) else None
    ensures QuadValue(Left(tok)).Some? ==>
      DashEnds(tok).1 ==
      if DecValue(Seen(tok)) <= 255 then Some(QuadValue(Left(tok)).value / 256 * 256 + DecValue(Seen(tok))) else None
  {
    FirstPiece(Right(tok), '-');
    PreviewReadsShort(tok);
    hide Split, QuadValue, StartsWithQuadDash, DashEnds, DecValue, LeadingDigits;
    assert IsDigit(Seen(tok)[0]) && Seen(tok)[0] == Right(tok)[0];
  }

  lemma ShortMeaning(lo: nat, o: nat)
    ensures RangeMeaning(Some(lo), if o <= 255 then Some(lo / 256 * 256 + o) else None) == UpToOctet(lo, o)
    ensures o > 255 ==> UpToOctet(lo, o) == None
  {
    hide Texts;
  }

  lemma ShortAgrees(t: Text6, tok: string)
    requires IsDashed(tok) && StartsWithQuadDash(tok) && Canonical(tok) && !Dotted(Right(tok)) && IsNumber(Seen(tok))
    ensures Denote(t, tok) == Preview1(tok)
  {
    hide Split, Parse4, QuadValue, DashEnds, Denote, ScanOctet, FromTo, StartsWithQuadDash, DecValue, Before, Behind,
      FirstMark;
    ServerReads(t, tok);
    PreviewEnds(tok);
    ParsedIsQuad(Left(tok));
    ShortEnds(tok);
    assert Preview1(tok) == RangeMeaning(DashEnds(tok).0, DashEnds(tok).1);
    hide *;
    ShortMeaning(Parse4(Left(tok)).value, DecValue(Seen(tok)));
  }

  /** Main result on dashed tokens: both sides give one the same meaning, or both refuse it, exactly when it starts
      like an IPv4 range and, if the preview reads a range in it, its quads are canonical; if not, the server does
      not read past what the preview stops at. */
  lemma DashedAgreeIff(t: Text6, tok: string)
    requires t.Law() && IsDashed(tok)
    ensures Denoting(t)(tok) == Previewing()(tok) <==>
      StartsWithQuadDash(tok) && if Preview1(tok).Some? then Canonical(tok) else !ReadsPast(tok)
  {
    if !StartsWithQuadDash(tok) {
      StandsForItselfIff(t, tok);
    } else {
      ServerReads(t, tok);
      FirstPiece(Right(tok), '-');
      if Canonical(tok) && Dotted(Right(tok)) {
        FullAgrees(t, tok);
      } else if Canonical(tok) && IsNumber(Seen(tok)) {
        ShortAgrees(t, tok);
      } else if Preview1(tok).Some? && Canonical(tok) {
        PreviewReadsShort(tok);
        Halves(tok, '-');
      }
      hide Split, Parse4, QuadValue, Join, Texts, DecValue, Denote, StartsWithQuadDash, DashEnds;
    }
  }

  /** So a hyphenated name is shown as one good host and refused by the server. */
  lemma HyphenatedNameIsShown(t: Text6, p: string, rest: string)
    requires forall i :: 0 <= i < |p| ==> p[i] !in ".:/-" && !IsSpace(p[i])
    requires '/' !in rest
    ensures Previewing()(p + ['-'] + rest) == Some([p + ['-'] + rest]) && Denoting(t)(p + ['-'] + rest) == None
  {
    HyphenatedNameIsRefused(t, p, rest);
    CutAt(p, '-', rest);
    FirstPiece(p, '.');
  }

  // ---------------------------------------------------------------- names beyond the limit

  /** A name that both sides take for a token and for itself. */
  predicate IsName(tok: string) {
    tok != "" && Free(tok, IsSep) && Free(tok, IsJsSep) && '/' !in tok && '-' !in tok
  }

  lemma NamesAreFields(names: seq<string>)
    requires names != [] && forall i :: 0 <= i < |names| ==> IsName(names[i])
    ensures Fields(Join(names, ','), IsSep) == names && Fields(Join(names, ','), IsJsSep) == names
  {
    FieldsJoin(names, ',', IsSep);
    FieldsJoin(names, ',', IsJsSep);
  }

  lemma NamesFlatten(m: Meaning, names: seq<string>)
    requires names != [] && forall i :: 0 <= i < |names| ==> m(names[i]) == Some([names[i]])
    ensures AllDenote(m, names) && Flatten(m, names) == names && |Dedup(names)| >= 1
    ensures Readable(m, names) == Dedup(names) && Bad(m, names) == []
  {
    FlattenThemselves(m, names);
    AgreeingMeanings(m, m, names);
    DedupElements(names);
    assert names[0] in Dedup(names);
  }

  lemma NamesArePreviewed(names: seq<string>)
    requires names != [] && forall i :: 0 <= i < |names| ==> IsName(names[i])
    ensures Readable(Previewing(), names) == Dedup(names) && Bad(Previewing(), names) == []
    ensures forall i: nat :: i < |names| ==> !PassesAt(Previewing(), names, i)
  {
    NamesFlatten(Previewing(), names);
    hide Readable, Bad, Free;
  }

  lemma NamesAreServed(t: Text6, names: seq<string>)
    requires names != [] && forall i :: 0 <= i < |names| ==> IsName(names[i])
    ensures Fits(Denoting(t), names) <==> |Dedup(names)| <= MAX_TARGETS
  {
    NamesFlatten(Denoting(t), names);
    hide Dedup, Flatten, Free;
  }

  /** Of names alone the preview counts all that differ, however many; the server refuses more than 1024. */
  method PreviewOfNames(t: Text6, names: seq<string>) returns (server: Result<seq<string>, Error>, shown: Outcome)
    requires t.Law() && names != [] && forall i :: 0 <= i < |names| ==> IsName(names[i])
    ensures shown == Shown(|Dedup(names)|, FirstFew(Dedup(names)), [])
    ensures server.Ok? <==> |Dedup(names)| <= MAX_TARGETS
  {
    NamesAreFields(names);
    NamesAreServed(t, names);
    NamesArePreviewed(names);
    hide Fields, Join, Readable, Bad, Dedup, FirstFew, Denoting, Previewing, PassesAt, Fits, IsName;
    server := ExpandTargets(t, Join(names, ','));
    shown := ExpandPreview(Join(names, ','));
  }

  /** There are as many different names as one likes: a preview that is not over may well be refused. */
  lemma ManyNames(k: nat) returns (names: seq<string>)
    ensures |names| == |Dedup(names)| == k && forall i :: 0 <= i < k ==> IsName(names[i])
  {
    names := seq(k, i requires 0 <= i < k => Dec(i));
    forall i, j | 0 <= i < j < k ensures names[i] != names[j] {
      DecRoundTrip(i);
      DecRoundTrip(j);
    }
    DedupAtLeast(names, names);
    DedupElements(names);
  }
}
