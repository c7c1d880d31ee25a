/** Parsing the text printed for a store spec. */
module StoreRoundTrip {
  import opened Common
  import opened SortedAttrs
  import opened StoreSpecs
  import opened StoreText
  import P = PebbleTokens

  // ---- what a named piece means ----

  predicate Name(n: string) {
    forall c | c in n :: c != '=' && !('A' <= c <= 'Z')
  }

  lemma NamedPiece(name: string, v: string)
    requires Name(name)
    ensures FieldIn(name + "=" + v) == FieldOf(name) && ValueIn(name + "=" + v) == v
  {
    NamedIs(name, v);
    assert ToLower(name) == name by {
      assert forall k | 0 <= k < |name| :: name[k] in name;
    }
  }

  lemma Names()
    ensures Name("path") && Name("type") && Name("size") && Name("ballast-size") && Name("attrs") && Name("pebble")
    ensures FieldOf("path") == Path && FieldOf("type") == Kind && FieldOf("size") == SizeOf
    ensures FieldOf("ballast-size") == BallastSize && FieldOf("attrs") == Attrs && FieldOf("pebble") == Pebble
  {
    assert "size"[0] == 's' && "path"[0] == 'p' && "type"[0] == 't';
  }

  lemma AddGet(ps: seq<string>, cond: bool, name: string, v: string, f: Field)
    requires Name(name)
    ensures Get(ps + Opt(cond, name, v), f) == if cond && f == FieldOf(name) then Some(v) else Get(ps, f)
  {
    if cond {
      var p := name + "=" + v;
      NamedPiece(name, v);
      assert (ps + [p])[..|ps|] == ps;
    } else {
      assert ps + [] == ps;
    }
  }

  lemma AddGood(lib: Library, ps: seq<string>, cond: bool, name: string, v: string)
    requires Name(name) && Good(lib, ps)
    requires cond ==> Get(ps, FieldOf(name)).None? && Valid(lib, FieldOf(name), v)
    ensures Good(lib, ps + Opt(cond, name, v))
  {
    if cond {
      var p := name + "=" + v;
      NamedPiece(name, v);
      assert (ps + [p])[..|ps|] == ps;
      GetValid(lib, ps, FieldOf(name));
    } else {
      assert ps + [] == ps;
    }
  }

  // ---- the printed pieces, one option per field ----

  predicate Proper(sz: Size) {
    sz.inBytes >= 0 && sz.percent >= 0.0 && (sz.inBytes == 0 || sz.percent == 0.0)
  }

  function SizeText(lib: Library, sz: Size): string {
    if sz.inBytes > 0 then lib.bytesText(sz.inBytes) else lib.percentText(sz.percent) + "%"
  }

  lemma SizePiece(lib: Library, name: string, sz: Size)
    requires Proper(sz)
    ensures SizePieces(lib, name, sz) == Opt(sz != UNSET, name, SizeText(lib, sz))
  {
  }

  /** Each printed field with the value printed for it, if it is printed. */
  function Printed(lib: Library, ss: StoreSpec, f: Field): Option<string> {
    match f
    case Path => if ss.path != "" then Some(ss.path) else None
    case Kind => if ss.inMemory then Some("mem") else None
    case SizeOf => if ss.size != UNSET then Some(SizeText(lib, ss.size)) else None
    case BallastSize =>
      if ss.ballast.Some? && ss.ballast.value != UNSET then Some(SizeText(lib, ss.ballast.value)) else None
    case Attrs => if ss.attrs != [] then Some(Join(ss.attrs, ':')) else None
    case Pebble => if ss.pebble != "" then Some(P.Flatten(ss.pebble)) else None
    case _ => None
  }

  /** The printed fields in their order, and their names. */
  function FieldAt(i: nat): Field
    requires i < 6
  {
    if i == 0 then Path else if i == 1 then Kind else if i == 2 then SizeOf
    else if i == 3 then BallastSize else if i == 4 then Attrs else Pebble
  }

  function Rank(f: Field): nat {
    match f
    case Path => 0
    case Kind => 1
    case SizeOf => 2
    case BallastSize => 3
    case Attrs => 4
    case Pebble => 5
    case _ => 6
  }

  function NameOf(f: Field): string {
    match f
    case Path => "path"
    case Kind => "type"
    case SizeOf => "size"
    case BallastSize => "ballast-size"
    case Attrs => "attrs"
    case Pebble => "pebble"
    case _ => ""
  }

  lemma NameAt(i: nat)
    requires i < 6
    ensures Rank(FieldAt(i)) == i && Name(NameOf(FieldAt(i))) && FieldOf(NameOf(FieldAt(i))) == FieldAt(i)
  {
    Names();
  }

  function PieceOf(lib: Library, ss: StoreSpec, f: Field): seq<string> {
    var o := Printed(lib, ss, f);
    Opt(o.Some?, NameOf(f), Or(o, ""))
  }

  /** The pieces of the first `n` fields. */
  function Upto(lib: Library, ss: StoreSpec, n: nat): seq<string>
    requires n <= 6
  {
    if n == 0 then [] else Upto(lib, ss, n - 1) + PieceOf(lib, ss, FieldAt(n - 1))
  }

  predicate ProperSizes(ss: StoreSpec) {
    Proper(ss.size) && (ss.ballast.Some? ==> Proper(ss.ballast.value))
  }

  lemma AttrsPiece(lib: Library, ss: StoreSpec)
    ensures AttrsPieces(ss.attrs) == PieceOf(lib, ss, Attrs)
  {
    assert "attrs=" == "attrs" + "=";
  }

  lemma BallastPiece(lib: Library, ss: StoreSpec)
    requires ProperSizes(ss)
    ensures BallastPieces(lib, ss.ballast) == PieceOf(lib, ss, BallastSize)
  {
    if ss.ballast.Some? {
      SizePiece(lib, "ballast-size", ss.ballast.value);
    }
  }

  lemma Unroll(lib: Library, ss: StoreSpec, n: nat)
    requires n < 6
    ensures Upto(lib, ss, 0) == [] && Upto(lib, ss, n + 1) == Upto(lib, ss, n) + PieceOf(lib, ss, FieldAt(n))
  {
  }

  lemma PiecesAre(lib: Library, ss: StoreSpec)
    requires ProperSizes(ss)
    ensures Pieces(lib, ss) == Upto(lib, ss, 6)
  {
    var a := PieceOf(lib, ss, Path);
    SizePiece(lib, "size", ss.size);
    BallastPiece(lib, ss);
    AttrsPiece(lib, ss);
    assert Pieces(lib, ss) == a + PieceOf(lib, ss, Kind) + PieceOf(lib, ss, SizeOf)
                              + PieceOf(lib, ss, BallastSize) + PieceOf(lib, ss, Attrs) + PieceOf(lib, ss, Pebble);
    Unroll(lib, ss, 0);
    assert [] + a == a;
    Unroll(lib, ss, 1);
    Unroll(lib, ss, 2);
    Unroll(lib, ss, 3);
    Unroll(lib, ss, 4);
    Unroll(lib, ss, 5);
  }

  lemma AddPiece(lib: Library, ss: StoreSpec, l: seq<string>, g: Field, f: Field)
    requires Name(NameOf(g)) && FieldOf(NameOf(g)) == g
    ensures Get(l + PieceOf(lib, ss, g), f) ==
            if f == g && Printed(lib, ss, g).Some? then Printed(lib, ss, g) else Get(l, f)
  {
    var o := Printed(lib, ss, g);
    AddGet(l, o.Some?, NameOf(g), Or(o, ""), f);
  }

  lemma RankIs(f: Field, i: nat)
    requires i < 6
    ensures Rank(f) == i <==> f == FieldAt(i)
  {
  }

  lemma {:induction false} UptoGet(lib: Library, ss: StoreSpec, n: nat, f: Field)
    requires n <= 6
    ensures Get(Upto(lib, ss, n), f) == if Rank(f) < n then Printed(lib, ss, f) else None
  {
    if n > 0 {
      UptoGet(lib, ss, n - 1, f);
      NameAt(n - 1);
      RankIs(f, n - 1);
      Unroll(lib, ss, n - 1);
      AddPiece(lib, ss, Upto(lib, ss, n - 1), FieldAt(n - 1), f);
    }
  }

  /** Every printed value is acceptable. */
  predicate Acceptable(lib: Library, ss: StoreSpec) {
    forall i: nat | i < 6 :: ValidAt(lib, ss, FieldAt(i))
  }

  predicate ValidAt(lib: Library, ss: StoreSpec, f: Field) {
    Printed(lib, ss, f).Some? ==> Valid(lib, f, Printed(lib, ss, f).value)
  }

  lemma {:induction false} UptoGood(lib: Library, ss: StoreSpec, n: nat)
    requires n <= 6 && Acceptable(lib, ss)
    ensures Good(lib, Upto(lib, ss, n))
  {
    if n > 0 {
      UptoGood(lib, ss, n - 1);
      NameAt(n - 1);
      UptoGet(lib, ss, n - 1, FieldAt(n - 1));
      assert ValidAt(lib, ss, FieldAt(n - 1));
      var o := Printed(lib, ss, FieldAt(n - 1));
      AddGood(lib, Upto(lib, ss, n - 1), o.Some?, NameOf(FieldAt(n - 1)), Or(o, ""));
    }
  }

  lemma PrintedGet(lib: Library, ss: StoreSpec, f: Field)
    requires ProperSizes(ss)
    ensures Get(Pieces(lib, ss), f) == Printed(lib, ss, f)
  {
    var n := 6;
    PiecesAre(lib, ss);
    UptoGet(lib, ss, n, f);
    assert Rank(f) >= n ==> Printed(lib, ss, f).None?;
  }

  // ---- the values that an accepted flag leaves behind ----

  /** No accepted value holds a comma. */
  lemma GetFree(value: string, f: Field)
    ensures var o := Get(Split(value, ','), f);
            o.Some? ==> ',' !in o.value
  {
    var ps := Split(value, ',');
    if Get(ps, f).Some? {
      var p := GetFrom(ps, f);
      SplitIsFree(value, ',');
    }
  }

  lemma NotAllEmpty(l: seq<string>) returns (x: string)
    requires Distinct(l) && l != [] && l != [""]
    ensures x in l && x != ""
  {
    x := l[0];
    if x == "" {
      assert l == [""] + l[1..];
      x := l[1];
      assert l[1..][0] == x;
    }
  }

  lemma SortedParts(v: string)
    requires v != "" && AttrsOf(v).Some?
    ensures var l := AttrsOf(v).value;
            Sorted(l) && l != [] && l != [""] && Free(l, ':')
  {
    var parts := Split(v, ':');
    var l := AttrsOf(v).value;
    SortSorted(parts);
    SplitIsFree(v, ':');
    SplitNotEmpty(v, ':');
    var x := NotAllEmpty(parts);
    assert x in l;
  }

  /** Attributes printed and read again are the same. */
  lemma AttrsRead(v: string)
    requires v != "" && ',' !in v && AttrsOf(v).Some?
    ensures var l := AttrsOf(v).value;
            && l != [] && Join(l, ':') != "" && ',' !in Join(l, ':')
            && AttrsOf(Join(l, ':')) == Some(l)
  {
    var l := AttrsOf(v).value;
    SortedParts(v);
    SplitHolds(v, ':', ',');
    JoinHolds(l, ':', ',');
    JoinNotEmpty(l, ':');
    SplitJoin(l, ':');
    SortedDistinct(l);
    SortTwice(l);
  }

  lemma {:induction false} VisibleHas(s: string, c: char)
    requires !P.IsSpace(c)
    ensures c in P.Visible(s) <==> c in s
  {
    if s != "" {
      VisibleHas(s[1..], c);
      assert s == [s[0]] + s[1..];
    }
  }

  lemma OptionsFree(v: string)
    requires P.Closed(v) && ',' !in v
    ensures ',' !in P.Flatten(Options(v))
  {
    var t := P.Trim(v);
    P.ClosedTrimmed(v);
    var k := P.TrimLeftIsSuffix(v);
    var l := P.TrimRightEnds(P.TrimLeft(v));
    assert ',' !in t;
    P.NormKeepsVisible(t);
    VisibleHas(t, ',');
    VisibleHas(P.Norm(t), ',');
  }

  /** Options printed and read again are the same exactly when no bracketed piece holds a newline. */
  lemma OptionsRead(v: string)
    requires P.Closed(v)
    ensures var out := Options(v);
            && P.Closed(out) && P.Closed(P.Flatten(out))
            && (Options(P.Flatten(out)) == out <==> !P.NewlineInBrackets(out))
  {
    var t := P.Trim(v);
    P.ClosedTrimmed(v);
    P.NormKeepsBrackets(t);
    P.RoundTripsExactlyWhen(v);
    P.ClosedTrimmed(P.Flatten(Options(v)));
  }

  // ---- the round trip ----

  predicate HasText(lib: Library, sz: Size) {
    sz != UNSET ==> SizeText(lib, sz) != "" && ',' !in SizeText(lib, sz)
  }

  /** What is printed for a size is not empty and has no comma. */
  predicate SizeTexts(lib: Library, ss: StoreSpec) {
    HasText(lib, ss.size) && (ss.ballast.Some? ==> HasText(lib, ss.ballast.value))
  }

  /** The sizes as they are read back from their text; a ballast of zero is not printed. */
  function SizeReread(lib: Library, sz: Size): Option<Size> {
    if sz == UNSET then Some(UNSET) else StoreSize(lib, SizeText(lib, sz))
  }

  function BallastReread(lib: Library, b: Option<Size>): Option<Size> {
    if b.None? || b.value == UNSET then None else BallastOf(lib, SizeText(lib, b.value))
  }

  predicate SizesRead(lib: Library, ss: StoreSpec) {
    SizeReread(lib, ss.size) == Some(ss.size) && BallastReread(lib, ss.ballast) == ss.ballast
  }

  /** An accepted spec holds no commas, and its attributes can be read back. */
  predicate PlainShape(ss: StoreSpec) {
    && ProperSizes(ss) && Complete(ss) && ',' !in ss.path && ',' !in P.Flatten(ss.pebble)
    && (ss.attrs != [] ==>
          var t := Join(ss.attrs, ':');
          t != "" && ',' !in t && AttrsOf(t) == Some(ss.attrs))
  }

  predicate PebbleShape(lib: Library, pebble: string) {
    && P.Closed(pebble) && P.Closed(P.Flatten(pebble))
    && (pebble != "" ==> lib.validOptions(pebble))
    && (Options(P.Flatten(pebble)) == pebble <==> !P.NewlineInBrackets(pebble))
  }

  ghost predicate ShapeOf(lib: Library, ss: StoreSpec) {
    PlainShape(ss) && PebbleShape(lib, ss.pebble)
  }

  lemma AcceptedPebble(lib: Library, value: string)
    requires Parse(lib, value).Some?
    ensures var pebble := Parse(lib, value).value.pebble;
            ',' !in P.Flatten(pebble) && PebbleShape(lib, pebble)
  {
    var ps := Split(value, ',');
    GetFree(value, Pebble);
    GetValid(lib, ps, Pebble);
    match Get(ps, Pebble)
    case Some(v) =>
      OptionsFree(v);
      OptionsRead(v);
    case None =>
      OptionsRead("");
  }

  lemma AcceptedPlain(lib: Library, value: string)
    requires Parse(lib, value).Some? && ',' !in P.Flatten(Parse(lib, value).value.pebble)
    ensures PlainShape(Parse(lib, value).value)
  {
    var ps := Split(value, ',');
    GetsValid(lib, ps);
    GetFree(value, Path);
    GetFree(value, Attrs);
    if Get(ps, Attrs).Some? {
      AttrsRead(Get(ps, Attrs).value);
    }
  }

  lemma AcceptedShape(lib: Library, value: string)
    requires Parse(lib, value).Some?
    ensures ShapeOf(lib, Parse(lib, value).value)
  {
    AcceptedPebble(lib, value);
    AcceptedPlain(lib, value);
  }

  lemma PrintedFree(lib: Library, ss: StoreSpec, f: Field)
    requires PlainShape(ss) && SizeTexts(lib, ss)
    ensures Free(PieceOf(lib, ss, f), ',')
  {
    assert ',' !in NameOf(f);
    assert Printed(lib, ss, f).Some? ==> ',' !in Printed(lib, ss, f).value;
  }

  lemma {:induction false} UptoFree(lib: Library, ss: StoreSpec, n: nat)
    requires n <= 6
    requires PlainShape(ss) && SizeTexts(lib, ss)
    ensures Free(Upto(lib, ss, n), ',')
  {
    if n > 0 {
      UptoFree(lib, ss, n - 1);
      Unroll(lib, ss, n - 1);
      PrintedFree(lib, ss, FieldAt(n - 1));
    }
  }

  lemma SomePiece(lib: Library, ss: StoreSpec)
    requires ProperSizes(ss) && Complete(ss)
    ensures Pieces(lib, ss) != [] && Pieces(lib, ss) != [""]
  {
    PrintedGet(lib, ss, Path);
    PrintedGet(lib, ss, Kind);
    assert [""][..0] == [];
    assert Get([""], Path) == None && Get([""], Kind) == None;
  }

  /** The printed text is split into the printed pieces. */
  lemma TextSplits(lib: Library, ss: StoreSpec)
    requires ShapeOf(lib, ss) && SizeTexts(lib, ss)
    ensures Text(lib, ss) != "" && Split(Text(lib, ss), ',') == Pieces(lib, ss)
  {
    var ps := Pieces(lib, ss);
    SomePiece(lib, ss);
    PiecesAre(lib, ss);
    UptoFree(lib, ss, 6);
    SplitJoin(ps, ',');
    JoinNotEmpty(ps, ',');
  }

  /** The spec that the printed text stands for, if its options are accepted. */
  lemma PrintedBuilds(lib: Library, ss: StoreSpec)
    requires ShapeOf(lib, ss) && Good(lib, Pieces(lib, ss))
    ensures SizeReread(lib, ss.size).Some?
    ensures Built(lib, Pieces(lib, ss)) ==
            ss.(rocksdb := "", size := SizeReread(lib, ss.size).value,
                ballast := BallastReread(lib, ss.ballast), pebble := Options(P.Flatten(ss.pebble)))
  {
    var ps := Pieces(lib, ss);
    GetsValid(lib, ps);
    PrintedGet(lib, ss, Path);
    PrintedGet(lib, ss, Kind);
    PrintedGet(lib, ss, SizeOf);
    PrintedGet(lib, ss, BallastSize);
    PrintedGet(lib, ss, Attrs);
    PrintedGet(lib, ss, RocksDB);
    PrintedGet(lib, ss, Pebble);
    assert P.Flatten("") == "";
  }

  lemma PrintedIsValid(lib: Library, ss: StoreSpec, f: Field)
    requires ShapeOf(lib, ss) && SizeTexts(lib, ss) && SizesRead(lib, ss) && !P.NewlineInBrackets(ss.pebble)
    ensures ValidAt(lib, ss, f)
  {
    match f
    case Pebble => assert ss.pebble != "" ==> P.Flatten(ss.pebble) != "";
    case Attrs =>
    case SizeOf =>
    case BallastSize =>
    case _ =>
  }

  lemma PrintedIsGood(lib: Library, ss: StoreSpec)
    requires ShapeOf(lib, ss) && SizeTexts(lib, ss) && SizesRead(lib, ss) && !P.NewlineInBrackets(ss.pebble)
    ensures Good(lib, Pieces(lib, ss))
  {
    forall i: nat | i < 6
      ensures ValidAt(lib, ss, FieldAt(i))
    {
      PrintedIsValid(lib, ss, FieldAt(i));
    }
    PiecesAre(lib, ss);
    UptoGood(lib, ss, 6);
  }

  lemma ReadsBack(lib: Library, ss: StoreSpec)
    requires ShapeOf(lib, ss) && SizeTexts(lib, ss)
    requires ss.rocksdb == "" && SizesRead(lib, ss) && !P.NewlineInBrackets(ss.pebble)
    ensures Parse(lib, Text(lib, ss)) == Some(ss)
  {
    TextSplits(lib, ss);
    PrintedIsGood(lib, ss);
    PrintedBuilds(lib, ss);
  }

  lemma ReadsBackExactlyWhen(lib: Library, ss: StoreSpec)
    requires ShapeOf(lib, ss) && SizeTexts(lib, ss)
    ensures Parse(lib, Text(lib, ss)) == Some(ss) <==>
            ss.rocksdb == "" && SizesRead(lib, ss) && !P.NewlineInBrackets(ss.pebble)
  {
    if Parse(lib, Text(lib, ss)) == Some(ss) {
      TextSplits(lib, ss);
      PrintedBuilds(lib, ss);
    } else if ss.rocksdb == "" && SizesRead(lib, ss) && !P.NewlineInBrackets(ss.pebble) {
      ReadsBack(lib, ss);
    }
  }

  /**
  Parsing the printed form of an accepted spec gives that spec exactly when the spec has no RocksDB
  options, no newline inside a bracketed pebble section, and sizes that are read back from their text;
  a ballast size of zero never is.
  */
  lemma TextRoundTripsExactlyWhen(lib: Library, value: string)
    requires Parse(lib, value).Some? && SizeTexts(lib, Parse(lib, value).value)
    ensures var ss := Parse(lib, value).value;
            && P.Closed(ss.pebble)
            && (Parse(lib, Text(lib, ss)) == Some(ss) <==>
                ss.rocksdb == "" && SizesRead(lib, ss) && !P.NewlineInBrackets(ss.pebble))
            && (ss.ballast == Some(UNSET) ==> !SizesRead(lib, ss))
  {
    AcceptedShape(lib, value);
    ReadsBackExactlyWhen(lib, Parse(lib, value).value);
  }

  // ---- a spec whose text is another spec's ----

  lemma TwoPieces(p: string, q: string)
    requires ',' !in p && ',' !in q
    ensures Split(p + "," + q, ',') == [p, q]
  {
    var ps := [p, q];
    assert ps[1..] == [q];
    assert Join(ps, ',') == p + [','] + q;
    SplitJoin(ps, ',');
  }

  lemma TwoGet(p: string, q: string, f: Field)
    requires p != "" && q != "" && FieldIn(p) == Path && FieldIn(q) == RocksDB
    ensures Get([p, q], f) == if f == Path then Some(ValueIn(p)) else if f == RocksDB then Some(ValueIn(q)) else None
  {
    assert [p, q][..1] == [p] && [p][..0] == [];
    assert Get([p], f) == if f == Path then Some(ValueIn(p)) else None;
  }

  lemma OneGood(lib: Library, ps: seq<string>, p: string)
    requires ps == [p] && p != "" && FieldIn(p) == Path && ValueIn(p) != ""
    ensures Good(lib, ps) && Fields(ps) == {Path}
  {
    var none := ps[..0];
    assert none == [] && Good(lib, none) && Fields(none) == {};
    assert ps[..|ps| - 1] == none;
    PathIsValid(lib, ValueIn(p));
    assert Fields(ps) == Fields(none) + {Path};
  }

  lemma PairGood(lib: Library, ps: seq<string>, q: string)
    requires Good(lib, ps) && Fields(ps) == {Path} && q != "" && FieldIn(q) == RocksDB && ValueIn(q) != ""
    ensures Good(lib, ps + [q])
  {
    assert (ps + [q])[..|ps|] == ps;
    RocksDBIsValid(lib, ValueIn(q));
  }

  lemma PathIsValid(lib: Library, v: string)
    requires v != ""
    ensures Valid(lib, Path, v)
  {
  }

  lemma RocksDBIsValid(lib: Library, v: string)
    requires v != ""
    ensures Valid(lib, RocksDB, v)
  {
  }

  lemma TwoGood(lib: Library, one: seq<string>, p: string, q: string)
    requires one == [p] && p != "" && FieldIn(p) == Path && ValueIn(p) != ""
    requires q != "" && FieldIn(q) == RocksDB && ValueIn(q) != ""
    ensures Good(lib, one + [q])
  {
    OneGood(lib, one, p);
    PairGood(lib, one, q);
  }

  lemma BuiltIs(lib: Library, ps: seq<string>, a: string, b: string)
    requires Good(lib, ps) && Get(ps, Path) == Some(a) && Get(ps, RocksDB) == Some(b)
    requires Get(ps, SizeOf).None? && Get(ps, BallastSize).None? && Get(ps, Kind).None?
    requires Get(ps, Attrs).None? && Get(ps, Pebble).None?
    ensures Built(lib, ps) == EMPTY.(path := a, rocksdb := b)
  {
  }

  lemma TwoBuilt(lib: Library, ps: seq<string>, p: string, q: string)
    requires ps == [p, q] && p != "" && FieldIn(p) == Path && ValueIn(p) != ""
    requires q != "" && FieldIn(q) == RocksDB && ValueIn(q) != ""
    ensures Good(lib, ps) && Built(lib, ps) == EMPTY.(path := ValueIn(p), rocksdb := ValueIn(q))
  {
    assert ps == [p] + [q];
    TwoGood(lib, [p], p, q);
    TwoGet(p, q, Path);
    TwoGet(p, q, RocksDB);
    TwoGet(p, q, SizeOf);
    TwoGet(p, q, BallastSize);
    TwoGet(p, q, Kind);
    TwoGet(p, q, Attrs);
    TwoGet(p, q, Pebble);
    BuiltIs(lib, ps, ValueIn(p), ValueIn(q));
  }

  lemma RocksDBLost(lib: Library, value: string)
    requires Parse(lib, value).Some? && SizeTexts(lib, Parse(lib, value).value)
    requires Parse(lib, value).value.rocksdb != ""
    ensures Parse(lib, Text(lib, Parse(lib, value).value)) != Parse(lib, value)
  {
    TextRoundTripsExactlyWhen(lib, value);
  }

  /** RocksDB options are accepted and not printed, so such a spec is printed as the text of another. */
  lemma RocksDBOptionsAreLost(lib: Library, a: string, b: string)
    requires a != "" && b != "" && ',' !in a && ',' !in b
    ensures var value := "path" + "=" + a + "," + ("rocksdb" + "=" + b);
            && Parse(lib, value) == Some(EMPTY.(path := a, rocksdb := b))
            && Parse(lib, Text(lib, Parse(lib, value).value)) != Parse(lib, value)
  {
    var p, q := "path" + "=" + a, "rocksdb" + "=" + b;
    Names();
    NamedPiece("path", a);
    NamedPiece("rocksdb", b);
    TwoPieces(p, q);
    TwoBuilt(lib, [p, q], p, q);
    RocksDBLost(lib, p + "," + q);
  }
}
