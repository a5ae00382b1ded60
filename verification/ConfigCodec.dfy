/** The canonical byte stream behind a config hash and the forms a config takes on its way to an agent and
    back (internal/opampserver/protoutil.go). SHA-256 is a parameter; what is proved is about its input. */
module ConfigCodec {
  import opened Text

  // ---------------------------------------------------------------- byte order of strings

  predicate Less(a: string, b: string) {
    b != "" && (a == "" || a[0] < b[0] || (a[0] == b[0] && Less(a[1..], b[1..])))
  }

  lemma {:induction false} LessTotal(a: string, b: string)
    ensures a == b || Less(a, b) || Less(b, a)
    ensures !(Less(a, b) && Less(b, a)) && !(a == b && Less(a, b))
  {
    if a != "" && b != "" && a[0] == b[0] {
      LessTotal(a[1..], b[1..]);
      assert a == [a[0]] + a[1..] && b == [b[0]] + b[1..];
    }
  }

  lemma {:induction false} LessTransitive(a: string, b: string, c: string)
    requires Less(a, b) && Less(b, c)
    ensures Less(a, c)
  {
    if a != "" && a[0] == b[0] && b[0] == c[0] {
      LessTransitive(a[1..], b[1..], c[1..]);
    }
  }

  /** The strings are the same before position i, where a has the smaller character. */
  ghost predicate DifferAt(a: string, b: string, i: nat) {
    i < |a| && i < |b| && a[i] < b[i] && forall k :: 0 <= k < i ==> a[k] == b[k]
  }

  lemma {:induction false} SmallerIsLess(a: string, b: string, i: nat)
    requires DifferAt(a, b, i)
    ensures Less(a, b)
  {
    if i > 0 {
      assert forall k :: 0 <= k < i - 1 ==> a[1..][k] == a[k + 1] && b[1..][k] == b[k + 1];
      SmallerIsLess(a[1..], b[1..], i - 1);
    }
  }

  lemma {:induction false} PrefixIsLess(a: string, b: string)
    requires a < b
    ensures Less(a, b)
  {
    if a != "" {
      PrefixIsLess(a[1..], b[1..]);
    }
  }

  lemma {:induction false} LessMeans(a: string, b: string)
    requires Less(a, b)
    ensures a < b || exists i: nat :: DifferAt(a, b, i)
  {
    if a != "" && a[0] == b[0] {
      LessMeans(a[1..], b[1..]);
      assert a == [a[0]] + a[1..] && b == [b[0]] + b[1..];
      if i: nat :| DifferAt(a[1..], b[1..], i) {
        assert forall k :: 1 <= k < i + 1 ==> a[k] == a[1..][k - 1] && b[k] == b[1..][k - 1];
        assert DifferAt(a, b, i + 1);
      }
    } else if a != "" {
      assert DifferAt(a, b, 0);
    }
  }

  /** The first character in which two strings differ decides, the smaller one coming first; a proper prefix comes
      before the longer string. */
  lemma LessIff(a: string, b: string)
    ensures Less(a, b) <==> a < b || exists i: nat :: DifferAt(a, b, i)
  {
    hide Less, DifferAt;
    if Less(a, b) {
      LessMeans(a, b);
    } else if a < b {
      PrefixIsLess(a, b);
    } else if i: nat :| DifferAt(a, b, i) {
      SmallerIsLess(a, b, i);
    }
  }

  ghost predicate Ascending(xs: seq<string>) {
    forall i, j :: 0 <= i < j < |xs| ==> Less(xs[i], xs[j])
  }

  /** Insertion into an ascending list; sort.Strings on distinct names is the repetition of it. */
  function Insert(x: string, xs: seq<string>): (r: seq<string>)
    ensures |r| == |xs| + 1
  {
    if xs == [] || Less(x, xs[0]) then [x] + xs else [xs[0]] + Insert(x, xs[1..])
  }

  function SortStrings(xs: seq<string>): seq<string> {
    if xs == [] then [] else Insert(xs[|xs| - 1], SortStrings(xs[..|xs| - 1]))
  }

  lemma {:induction false} InsertAscends(x: string, xs: seq<string>)
    requires Ascending(xs) && x !in xs
    ensures Ascending(Insert(x, xs))
    ensures forall y :: y in Insert(x, xs) <==> y == x || y in xs
  {
    if xs != [] {
      LessTotal(x, xs[0]);
      if Less(x, xs[0]) {
        forall j | 0 <= j < |xs| ensures Less(x, xs[j]) {
          if j > 0 {
            LessTransitive(x, xs[0], xs[j]);
          }
        }
      } else {
        InsertAscends(x, xs[1..]);
        var r := Insert(x, xs[1..]);
        assert xs == [xs[0]] + xs[1..];
        forall y | y in r ensures Less(xs[0], y) {
          if y != x {
            assert y in xs[1..];
          }
        }
      }
    }
  }

  lemma {:induction false} SortAscends(xs: seq<string>)
    requires NoDup(xs)
    ensures Ascending(SortStrings(xs))
    ensures forall y :: y in SortStrings(xs) <==> y in xs
  {
    if xs != [] {
      var init, x := xs[..|xs| - 1], xs[|xs| - 1];
      SortAscends(init);
      InsertAscends(x, SortStrings(init));
      assert xs == init + [x];
    }
  }

  /** An ascending list is determined by its elements. */
  lemma {:induction false} AscendingUnique(xs: seq<string>, ys: seq<string>)
    requires Ascending(xs) && Ascending(ys) && forall x :: x in xs <==> x in ys
    ensures xs == ys
  {
    if xs == [] {
      if ys != [] {
        HasElement(ys);
      }
    } else {
      assert xs[0] in ys && ys != [] && ys[0] in xs;
      LessTotal(xs[0], ys[0]);
      assert xs[0] == ys[0];
      var x := xs[0];
      HeadOnce(xs);
      HeadOnce(ys);
      assert xs == [x] + xs[1..] && ys == [x] + ys[1..];
      forall y ensures y in xs[1..] <==> y in ys[1..] {
        assert y in xs <==> y == x || y in xs[1..];
        assert y in ys <==> y == x || y in ys[1..];
      }
      AscendingUnique(xs[1..], ys[1..]);
    }
  }

  lemma HasElement(xs: seq<string>)
    requires xs != []
    ensures exists x :: x in xs
  {
    assert xs[0] in xs;
  }

  lemma HeadOnce(xs: seq<string>)
    requires Ascending(xs) && xs != []
    ensures xs[0] !in xs[1..]
  {
    LessTotal(xs[0], xs[0]);
  }

  /** The elements of a set in ascending order. */
  ghost function Listing(s: set<string>): (r: seq<string>)
    ensures Ascending(r) && forall x :: x in r <==> x in s
  {
    if s == {} then []
    else
      var x :| x in s;
      InsertAscends(x, Listing(s - {x}));
      Insert(x, Listing(s - {x}))
  }

  /** Sorting the elements in whatever order they come out of a map gives the same list. */
  lemma SortedIsListing(xs: seq<string>, s: set<string>)
    requires NoDup(xs) && forall x :: x in xs <==> x in s
    ensures SortStrings(xs) == Listing(s)
  {
    SortAscends(xs);
    AscendingUnique(SortStrings(xs), Listing(s));
  }

  /** `for name := range m`: the keys in an order nobody controls. */
  method Enumerate(s: set<string>) returns (names: seq<string>)
    ensures NoDup(names) && forall x :: x in names <==> x in s
  {
    names := [];
    var rest := s;
    while rest != {}
      invariant rest <= s && NoDup(names) && forall x :: x in names <==> x in s - rest
      decreases rest
    {
      var n :| n in rest;
      assert n !in names;
      names, rest := names + [n], rest - {n};
    }
  }

  // ---------------------------------------------------------------- the config stream

  datatype File = File(contentType: string, body: string)

  type Files = map<string, File>

  type Hash = string -> string

  const NUL: char := '\0'

  function Stream(names: seq<string>, files: Files): string
    requires forall n :: n in names ==> n in files
  {
    if names == [] then ""
    else Entry(names[0], files[names[0]]) + Stream(names[1..], files)
  }

  function Entry(name: string, f: File): string {
    name + [NUL] + f.contentType + [NUL] + f.body + [NUL]
  }

  /** What the config hash is taken of. */
  ghost function Encode(files: Files): string {
    Stream(Listing(files.Keys), files)
  }

  ghost predicate NulFree(files: Files) {
    forall n :: n in files ==> NUL !in n && NUL !in files[n].contentType && NUL !in files[n].body
  }

  /** Reading the stream back: three NUL-terminated fields a file. */
  function Decode(s: string): Files {
    Triples(Split(s, NUL))
  }

  function Triples(ps: seq<string>): Files {
    if |ps| < 3 then map[] else Triples(ps[3..])[ps[0] := File(ps[1], ps[2])]
  }

  function Restrict(names: seq<string>, files: Files): Files
    requires forall n :: n in names ==> n in files
  {
    map n | n in names :: files[n]
  }

  lemma EntrySplits(name: string, f: File, rest: string)
    requires NUL !in name && NUL !in f.contentType && NUL !in f.body
    ensures Split(Entry(name, f) + rest, NUL) == [name, f.contentType, f.body] + Split(rest, NUL)
  {
    var r2 := f.body + [NUL] + rest;
    var r1 := f.contentType + [NUL] + r2;
    assert Entry(name, f) + rest == name + [NUL] + r1;
    SplitPiece(name, NUL, r1);
    SplitPiece(f.contentType, NUL, r2);
    SplitPiece(f.body, NUL, rest);
    assert [name] + ([f.contentType] + ([f.body] + Split(rest, NUL))) ==
      [name, f.contentType, f.body] + Split(rest, NUL);
  }

  lemma {:induction false} StreamReads(names: seq<string>, files: Files)
    requires (forall n :: n in names ==> n in files) && NulFree(files)
    ensures Decode(Stream(names, files)) == Restrict(names, files)
  {
    if names != [] {
      var n := names[0];
      assert names == [n] + names[1..];
      StreamReads(names[1..], files);
      EntrySplits(n, files[n], Stream(names[1..], files));
      var ps := [n, files[n].contentType, files[n].body] + Split(Stream(names[1..], files), NUL);
      assert ps[3..] == Split(Stream(names[1..], files), NUL);
      assert Triples(ps) == Restrict(names[1..], files)[n := files[n]];
    }
  }

  lemma {:induction false} SplitPiecesFree(s: string, c: char)
    ensures forall i :: 0 <= i < |Split(s, c)| ==> c !in Split(s, c)[i]
  {
    if s != "" {
      SplitPiecesFree(s[1..], c);
    }
  }

  lemma {:induction false} TriplesNulFree(ps: seq<string>)
    requires forall i :: 0 <= i < |ps| ==> NUL !in ps[i]
    ensures NulFree(Triples(ps))
  {
    if |ps| >= 3 {
      TriplesNulFree(ps[3..]);
    }
  }

  /** Main result: the stream can be read back exactly when nothing in the map holds a NUL. */
  lemma DecodeInvertsEncode(files: Files)
    ensures Decode(Encode(files)) == files <==> NulFree(files)
  {
    var names := Listing(files.Keys);
    if NulFree(files) {
      StreamReads(names, files);
      assert Restrict(names, files) == files;
    }
    SplitPiecesFree(Encode(files), NUL);
    TriplesNulFree(Split(Encode(files), NUL));
  }

  /** Different NUL-free configs are hashed from different streams. */
  lemma EncodeInjective(a: Files, b: Files)
    requires NulFree(a) && NulFree(b) && Encode(a) == Encode(b)
    ensures a == b
  {
    DecodeInvertsEncode(a);
    DecodeInvertsEncode(b);
  }

  lemma EntriesMeet(f: string, g: string, whole: File, x: File, y: File)
    requires f == "f" && g == "g" && whole == File("", "x\0g\0\0y") && x == File("", "x") && y == File("", "y")
    ensures Entry(f, whole) + "" == Entry(f, x) + (Entry(g, y) + "")
  {
  }

  /** With a NUL in a body, two different configs can be hashed from one stream. */
  lemma NulMakesStreamsMeet() returns (a: Files, b: Files)
    ensures a != b && Encode(a) == Encode(b)
  {
    var f, g, whole := "f", "g", File("", "x\0g\0\0y");
    var x, y := File("", "x"), File("", "y");
    a, b := map[f := whole], map[f := x, g := y];
    assert f != g && g !in a by {
      assert f[0] != g[0];
    }
    AscendingUnique(Listing(a.Keys), [f]);
    AscendingUnique(Listing(b.Keys), [f, g]);
    hide Less, Entry, Ascending;
    assert [f][1..] == [] && [f, g][1..] == [g] && [g][1..] == [];
    assert Listing(a.Keys) == [f] && Listing(b.Keys) == [f, g];
    assert Stream([], a) == "" && Stream([], b) == "";
    assert Stream([f], a) == Entry(f, whole) + "";
    assert Stream([g], b) == Entry(g, y) + "";
    assert Stream([f, g], b) == Entry(f, x) + (Entry(g, y) + "");
    EntriesMeet(f, g, whole, x, y);
  }

  lemma EndOfStream(written: string, files: Files)
    ensures written + Stream([], files) == written
  {
  }

  lemma StreamStep(written: string, names: seq<string>, i: nat, files: Files)
    requires i < |names| && forall n :: n in names ==> n in files
    ensures var f := files[names[i]];
      written + Stream(names[i..], files)
      == written + names[i] + [NUL] + f.contentType + [NUL] + f.body + [NUL] + Stream(names[i + 1..], files)
  {
    assert names[i..][1..] == names[i + 1..];
    hide Less;
    var f := files[names[i]];
    var rest := Stream(names[i + 1..], files);
    assert written + (Entry(names[i], f) + rest) == written + Entry(names[i], f) + rest;
    assert written + Entry(names[i], f) == written + names[i] + [NUL] + f.contentType + [NUL] + f.body + [NUL];
  }

  /** ConfigMapHash: the result depends on the map alone, not on the order its keys come in. */
  method ConfigMapHash(hash: Hash, files: Files) returns (h: string)
    ensures h == hash(Encode(files))
  {
    hide Stream, SortStrings, Less, Ascending;
    var names := Enumerate(files.Keys);
    SortedIsListing(names, files.Keys);
    names := SortStrings(names);
    var written := "";
    var i := 0;
    while i < |names|
      invariant 0 <= i <= |names| && names == Listing(files.Keys)
      invariant written + Stream(names[i..], files) == Encode(files)
    {
      var f := files[names[i]];
      StreamStep(written, names, i, files);
      written := written + names[i];
      written := written + [NUL];
      written := written + f.contentType;
      written := written + [NUL];
      written := written + f.body;
      written := written + [NUL];
      i := i + 1;
    }
    assert names[i..] == [];
    EndOfStream(written, files);
    h := hash(written);
  }

  // ---------------------------------------------------------------- what is offered, what is reported

  const DEFAULT_TYPE: string := "text/yaml"

  function OfferedFile(f: File): File {
    if f.contentType == "" then File(DEFAULT_TYPE, f.body) else f
  }

  /** The form in which stored files are offered. */
  function Offered(files: Files): Files {
    map n | n in files :: OfferedFile(files[n])
  }

  /** Every file is offered, under its name and with its body; only a blank type is filled in. */
  lemma OfferedKeeps(files: Files)
    ensures Offered(files).Keys == files.Keys
    ensures forall n :: n in files ==>
      Offered(files)[n] == File(if files[n].contentType == "" then "text/yaml" else files[n].contentType, files[n].body)
  {
  }

  method ModelFilesToConfigMap(files: Files) returns (cm: Files)
    ensures cm == Offered(files)
  {
    cm := map[];
    var rest := files.Keys;
    while rest != {}
      invariant rest <= files.Keys && cm == map n | n in files.Keys - rest :: OfferedFile(files[n])
      decreases rest
    {
      var name :| name in rest;
      var f := files[name];
      var ct := f.contentType;
      if ct == "" {
        ct := "text/yaml";
      }
      cm := cm[name := File(ct, f.body)];
      rest := rest - {name};
    }
  }

  /** The effective config an agent reports; a file entry may be missing. */
  type Reported = map<string, Option<File>>

  function FilesOf(r: Reported): Files {
    map n | n in r :: match r[n] case Some(f) => f case None => File("", "")
  }

  /** effectiveConfigHash: blank without a config map. */
  method EffectiveConfigHash(hash: Hash, ec: Option<Reported>) returns (h: string)
    ensures h == match ec case None => "" case Some(r) => hash(Encode(FilesOf(r)))
  {
    if ec.None? {
      return "";
    }
    var r := ec.value;
    var files: Files := map[];
    var rest := r.Keys;
    while rest != {}
      invariant rest <= r.Keys && files == map n | n in r.Keys - rest :: FilesOf(r)[n]
      decreases rest
    {
      var name :| name in rest;
      if r[name].None? {
        files := files[name := File("", "")];
      } else {
        files := files[name := File(r[name].value.contentType, r[name].value.body)];
      }
      rest := rest - {name};
    }
    assert files == FilesOf(r);
    h := ConfigMapHash(hash, files);
  }

  ghost predicate NoBlankType(files: Files) {
    forall n :: n in files ==> files[n].contentType != ""
  }

  lemma OfferedAsStored(files: Files)
    ensures Offered(files) == files <==> NoBlankType(files)
  {
    if Offered(files) == files {
      forall n | n in files ensures files[n].contentType != "" {
        assert files[n] == Offered(files)[n];
      }
    }
  }

  lemma OfferedNulFree(files: Files)
    requires NulFree(files)
    ensures NulFree(Offered(files))
  {
    assert NUL !in DEFAULT_TYPE;
  }

  /** An agent that runs the offered form reports the stream the version was hashed from exactly when no
      content type of the version is blank: a blank one is hashed as blank but offered as text/yaml. */
  lemma OfferedStreamAgrees(files: Files)
    requires NulFree(files)
    ensures Encode(Offered(files)) == Encode(files) <==> NoBlankType(files)
  {
    hide Encode, NulFree, Offered, NoBlankType;
    OfferedAsStored(files);
    OfferedNulFree(files);
    if Encode(Offered(files)) == Encode(files) {
      EncodeInjective(Offered(files), files);
    }
  }

  // ---------------------------------------------------------------- the all-packages stream

  const DIGEST: nat := 32

  /** Content hashes by package name. */
  type Digests = map<string, string>

  function PackageStream(names: seq<string>, ds: Digests): string
    requires forall n :: n in names ==> n in ds
  {
    if names == [] then "" else names[0] + [NUL] + ds[names[0]] + PackageStream(names[1..], ds)
  }

  ghost function EncodePackages(ds: Digests): string {
    PackageStream(Listing(ds.Keys), ds)
  }

  ghost predicate Digested(ds: Digests) {
    forall n :: n in ds ==> |ds[n]| == DIGEST
  }

  ghost predicate NulFreeNames(ds: Digests) {
    forall n :: n in ds ==> NUL !in n
  }

  /** A name up to the NUL, then a digest of fixed length, which may itself hold NULs. */
  function DecodePackages(s: string): Digests
    decreases |s|
  {
    if NUL !in s then map[]
    else
      BehindShorter(s, NUL);
      var rest := Behind(s, NUL);
      if |rest| < DIGEST then map[]
      else DecodePackages(rest[DIGEST..])[Before(s, NUL) := rest[..DIGEST]]
  }

  lemma {:induction false} BehindShorter(s: string, c: char)
    requires c in s
    ensures |Behind(s, c)| < |s| && c !in Before(s, c)
  {
    if s[0] != c {
      BehindShorter(s[1..], c);
    }
  }

  lemma {:induction false} PackageStreamReads(names: seq<string>, ds: Digests)
    requires (forall n :: n in names ==> n in ds) && Digested(ds) && NulFreeNames(ds)
    ensures DecodePackages(PackageStream(names, ds)) == map n | n in names :: ds[n]
  {
    if names != [] {
      var n, tail := names[0], PackageStream(names[1..], ds);
      assert names == [n] + names[1..];
      PackageStreamReads(names[1..], ds);
      var s := PackageStream(names, ds);
      assert s == n + [NUL] + (ds[n] + tail);
      CutAt(n, NUL, ds[n] + tail);
      assert (ds[n] + tail)[..DIGEST] == ds[n] && (ds[n] + tail)[DIGEST..] == tail;
      assert (map m | m in names :: ds[m]) == (map m | m in names[1..] :: ds[m])[n := ds[n]];
    }
  }

  lemma {:induction false} DecodedNamesNulFree(s: string)
    ensures NulFreeNames(DecodePackages(s))
    decreases |s|
  {
    if NUL in s {
      BehindShorter(s, NUL);
      if |Behind(s, NUL)| >= DIGEST {
        DecodedNamesNulFree(Behind(s, NUL)[DIGEST..]);
      }
    }
  }

  /** The all-packages stream can be read back exactly when no package name holds a NUL. */
  lemma DecodeInvertsPackages(ds: Digests)
    requires Digested(ds)
    ensures DecodePackages(EncodePackages(ds)) == ds <==> NulFreeNames(ds)
  {
    var names := Listing(ds.Keys);
    if NulFreeNames(ds) {
      PackageStreamReads(names, ds);
      assert (map n | n in names :: ds[n]) == ds;
    }
    DecodedNamesNulFree(EncodePackages(ds));
  }
}
