/**
The parser of a --store flag and the printer of what it parsed.  Parsing numbers, printing them and
pebble's own option parser are parameters.  Strings are ASCII.
*/
module StoreSpecs {
  import opened Common
  import opened SortedAttrs
  import P = PebbleTokens

  const MINIMUM_STORE_SIZE: int := 671088640

  datatype Size = Size(inBytes: int, percent: real)

  const UNSET := Size(0, 0.0)

  datatype StoreSpec = StoreSpec(
    path: string, size: Size, ballast: Option<Size>, inMemory: bool,
    attrs: seq<string>, rocksdb: string, pebble: string)

  const EMPTY := StoreSpec("", UNSET, None, false, [], "", "")

  datatype Library = Library(
    isFraction: string -> bool,
    parseFloat: string -> Option<real>,
    parseBytes: string -> Option<int>,
    validOptions: string -> bool,
    bytesText: int -> string,
    percentText: real -> string)

  // ---- one field ----

  datatype Field = NoName | Path | SizeOf | BallastSize | Attrs | Kind | RocksDB | Pebble | Unknown(name: string)

  function FieldOf(name: string): Field {
    if name == "" then NoName
    else if name == "path" then Path
    else if name == "size" then SizeOf
    else if name == "ballast-size" then BallastSize
    else if name == "attrs" then Attrs
    else if name == "type" then Kind
    else if name == "rocksdb" then RocksDB
    else if name == "pebble" then Pebble
    else Unknown(name)
  }

  function ToLower(s: string): (r: string)
    ensures |r| == |s|
  {
    seq(|s|, i requires 0 <= i < |s| =>
      if 'A' <= s[i] <= 'Z' then (s[i] as int + 32) as char else s[i])
  }

  /** The same character, or the upper- and lower-case form of one letter. */
  predicate SameLetter(a: char, b: char) {
    || a == b
    || ('A' <= a <= 'Z' && b as int == a as int + ('a' as int - 'A' as int))
    || ('A' <= b <= 'Z' && a as int == b as int + ('a' as int - 'A' as int))
  }

  /** The field a comma-separated piece sets; a piece without '=' is a path. */
  function FieldIn(piece: string): Field {
    var i := P.IndexOf(piece, '=');
    if i < 0 then Path else FieldOf(ToLower(piece[..i]))
  }

  function ValueIn(piece: string): string {
    piece[P.IndexOf(piece, '=') + 1..]
  }

  function NewSizeSpec(lib: Library, value: string, minBytes: int, minPercent: real, maxPercent: real)
    : (r: Option<Size>)
    ensures r.Some? ==> r.value.inBytes == 0 || r.value.percent == 0.0
    ensures r.Some? ==> minBytes <= r.value.inBytes || minPercent <= r.value.percent <= maxPercent
  {
    if lib.isFraction(value) then
      var percent :=
        if value != "" && value[|value| - 1] == '%' then lib.parseFloat(value[..|value| - 1])
        else match lib.parseFloat(value) case Some(f) => Some(f * 100.0) case None => None;
      match percent
      case Some(p) => if minPercent <= p <= maxPercent then Some(Size(0, p)) else None
      case None => None
    else
      match lib.parseBytes(value)
      case Some(b) => if minBytes <= b then Some(Size(b, 0.0)) else None
      case None => None
  }

  /** A fraction of 1 is the size that a hundred times as many percent is. */
  lemma FractionIsPercent(lib: Library, v: string, w: string, min: int, minPercent: real, maxPercent: real)
    requires lib.isFraction(v) && (v == "" || v[|v| - 1] != '%')
    requires lib.isFraction(w) && w != "" && w[|w| - 1] == '%'
    requires lib.parseFloat(v).Some? && lib.parseFloat(w[..|w| - 1]) == Some(lib.parseFloat(v).value * 100.0)
    ensures NewSizeSpec(lib, v, min, minPercent, maxPercent) == NewSizeSpec(lib, w, min, minPercent, maxPercent)
    ensures var r := NewSizeSpec(lib, w, min, minPercent, maxPercent);
            r.Some? ==> r == Some(Size(0, lib.parseFloat(w[..|w| - 1]).value))
  {
  }

  function StoreSize(lib: Library, value: string): (r: Option<Size>)
    ensures r.Some? ==> r.value.inBytes >= 640 * 1024 * 1024 || 1.0 <= r.value.percent <= 100.0
    ensures r.Some? ==> r.value.inBytes >= 0 && r.value.percent >= 0.0
    ensures r.Some? ==> (r.value.inBytes == 0 <==> r.value.percent != 0.0)
  {
    NewSizeSpec(lib, value, MINIMUM_STORE_SIZE, 1.0, 100.0)
  }

  function BallastOf(lib: Library, value: string): (r: Option<Size>)
    ensures r.Some? ==> r.value.percent <= 50.0
    ensures r.Some? ==> r.value.inBytes >= 0 && r.value.percent >= 0.0
    ensures r.Some? ==> r.value.inBytes == 0 || r.value.percent == 0.0
  {
    NewSizeSpec(lib, value, 0, 0.0, 50.0)
  }

  /** The pebble options stored for a value whose brackets are closed. */
  function Options(value: string): string
    requires P.Closed(value)
  {
    P.ClosedTrimmed(value);
    P.Norm(P.Trim(value))
  }

  /** The value is acceptable for the field. */
  predicate Valid(lib: Library, f: Field, v: string) {
    f.NoName? || (v != "" &&
      match f
      case NoName => true
      case Path => true
      case SizeOf => StoreSize(lib, v).Some?
      case BallastSize => BallastOf(lib, v).Some?
      case Attrs => AttrsOf(v).Some?
      case Kind => v == "mem"
      case RocksDB => true
      case Pebble => P.Closed(v) && lib.validOptions(Options(v))
      case Unknown(_) => false)
  }

  datatype Outcome = Accepted(spec: StoreSpec) | Rejected | Hangs

  /** The spec with one field set. */
  function With(lib: Library, ss: StoreSpec, f: Field, v: string): StoreSpec
    requires Valid(lib, f, v)
  {
    match f
    case NoName => ss
    case Path => ss.(path := v)
    case SizeOf => ss.(size := StoreSize(lib, v).value)
    case BallastSize => ss.(ballast := Some(BallastOf(lib, v).value))
    case Attrs => ss.(attrs := AttrsOf(v).value)
    case Kind => ss.(inMemory := true)
    case RocksDB => ss.(rocksdb := v)
    case Pebble => ss.(pebble := Options(v))
  }

  /** The switch over the fields.  A pebble value with an open bracket is never finished. */
  method SetField(lib: Library, ss: StoreSpec, f: Field, v: string) returns (r: Outcome)
    requires !f.NoName? && v != ""
    ensures r.Accepted? <==> Valid(lib, f, v)
    ensures r.Accepted? ==> r.spec == With(lib, ss, f, v)
    ensures r.Hangs? <==> f.Pebble? && !P.Closed(v)
  {
    match f
    case Path => r := Accepted(ss.(path := v));
    case SizeOf =>
      var size := StoreSize(lib, v);
      r := if size.Some? then Accepted(ss.(size := size.value)) else Rejected;
    case BallastSize =>
      var size := BallastOf(lib, v);
      r := if size.Some? then Accepted(ss.(ballast := size)) else Rejected;
    case Attrs =>
      var attrs := ParseAttrs(v);
      r := if attrs.Some? then Accepted(ss.(attrs := attrs.value)) else Rejected;
    case Kind => r := if v == "mem" then Accepted(ss.(inMemory := true)) else Rejected;
    case RocksDB => r := Accepted(ss.(rocksdb := v));
    case Pebble =>
      if !P.Closed(v) {
        return Hangs;
      }
      var options := P.Normalize(v);
      r := if lib.validOptions(options) then Accepted(ss.(pebble := options)) else Rejected;
    case Unknown(_) => r := Rejected;
  }

  // ---- the whole list ----

  function Fields(ps: seq<string>): set<Field> {
    if ps == [] then {}
    else
      var p := ps[|ps| - 1];
      Fields(ps[..|ps| - 1]) + if p == "" then {} else {FieldIn(p)}
  }

  /** Every piece is empty, or sets a field that no earlier piece sets to an acceptable value. */
  predicate Good(lib: Library, ps: seq<string>) {
    ps == [] ||
    var p, q := ps[|ps| - 1], ps[..|ps| - 1];
    Good(lib, q) && (p == "" || (FieldIn(p) !in Fields(q) && Valid(lib, FieldIn(p), ValueIn(p))))
  }

  /** The value the list gives a field. */
  function Get(ps: seq<string>, f: Field): Option<string> {
    if ps == [] then None
    else
      var p := ps[|ps| - 1];
      if p != "" && FieldIn(p) == f then Some(ValueIn(p)) else Get(ps[..|ps| - 1], f)
  }

  lemma {:induction false} GetValid(lib: Library, ps: seq<string>, f: Field)
    requires Good(lib, ps)
    ensures Get(ps, f).Some? ==> Valid(lib, f, Get(ps, f).value)
    ensures Get(ps, f).Some? <==> f in Fields(ps)
  {
    if ps != [] {
      GetValid(lib, ps[..|ps| - 1], f);
    }
  }

  lemma GetsValid(lib: Library, ps: seq<string>)
    requires Good(lib, ps)
    ensures forall f :: Get(ps, f).Some? ==> Valid(lib, f, Get(ps, f).value)
  {
    forall f
      ensures Get(ps, f).Some? ==> Valid(lib, f, Get(ps, f).value)
    {
      GetValid(lib, ps, f);
    }
  }

  /** The values given to the fields. */
  datatype Values = Values(
    path: Option<string>, size: Option<string>, ballast: Option<string>, kind: Option<string>,
    attrs: Option<string>, rocksdb: Option<string>, pebble: Option<string>)

  predicate Fits(lib: Library, f: Field, o: Option<string>) { o.Some? ==> Valid(lib, f, o.value) }

  predicate AllFit(lib: Library, v: Values) {
    && Fits(lib, Path, v.path) && Fits(lib, SizeOf, v.size) && Fits(lib, BallastSize, v.ballast)
    && Fits(lib, Kind, v.kind) && Fits(lib, Attrs, v.attrs) && Fits(lib, RocksDB, v.rocksdb)
    && Fits(lib, Pebble, v.pebble)
  }

  /** The spec that acceptable values stand for. */
  function Spec(lib: Library, v: Values): StoreSpec
    requires AllFit(lib, v)
  {
    StoreSpec(
      Or(v.path, ""),
      match v.size case Some(x) => StoreSize(lib, x).value case None => UNSET,
      match v.ballast case Some(x) => BallastOf(lib, x) case None => None,
      v.kind.Some?,
      match v.attrs case Some(x) => AttrsOf(x).value case None => [],
      Or(v.rocksdb, ""),
      match v.pebble case Some(x) => Options(x) case None => "")
  }

  function Given(v: Values, f: Field, x: string): Values {
    match f
    case Path => v.(path := Some(x))
    case SizeOf => v.(size := Some(x))
    case BallastSize => v.(ballast := Some(x))
    case Kind => v.(kind := Some(x))
    case Attrs => v.(attrs := Some(x))
    case RocksDB => v.(rocksdb := Some(x))
    case Pebble => v.(pebble := Some(x))
    case _ => v
  }

  /** Giving a field a value sets it in the spec. */
  lemma SpecWith(lib: Library, v: Values, f: Field, x: string)
    requires AllFit(lib, v) && Valid(lib, f, x)
    ensures AllFit(lib, Given(v, f, x)) && Spec(lib, Given(v, f, x)) == With(lib, Spec(lib, v), f, x)
  {
  }

  function ValuesOf(ps: seq<string>): Values {
    Values(Get(ps, Path), Get(ps, SizeOf), Get(ps, BallastSize), Get(ps, Kind),
           Get(ps, Attrs), Get(ps, RocksDB), Get(ps, Pebble))
  }

  lemma GetSnoc(ps: seq<string>, p: string, f: Field)
    ensures Get(ps + [p], f) == if p != "" && FieldIn(p) == f then Some(ValueIn(p)) else Get(ps, f)
  {
    assert (ps + [p])[..|ps|] == ps;
  }

  lemma ValuesSnoc(ps: seq<string>, p: string)
    ensures ValuesOf(ps + [p]) == if p == "" then ValuesOf(ps) else Given(ValuesOf(ps), FieldIn(p), ValueIn(p))
  {
    GetSnoc(ps, p, Path);
    GetSnoc(ps, p, SizeOf);
    GetSnoc(ps, p, BallastSize);
    GetSnoc(ps, p, Kind);
    GetSnoc(ps, p, Attrs);
    GetSnoc(ps, p, RocksDB);
    GetSnoc(ps, p, Pebble);
  }

  lemma ValuesFit(lib: Library, ps: seq<string>)
    requires Good(lib, ps)
    ensures AllFit(lib, ValuesOf(ps))
  {
    GetsValid(lib, ps);
  }

  /** The spec that a good list stands for. */
  function Built(lib: Library, ps: seq<string>): StoreSpec
    requires Good(lib, ps)
  {
    ValuesFit(lib, ps);
    Spec(lib, ValuesOf(ps))
  }

  function Or(o: Option<string>, d: string): string {
    match o case Some(v) => v case None => d
  }

  /** The checks after the loop. */
  predicate Complete(ss: StoreSpec) {
    if ss.inMemory then ss.path == "" && (ss.size.percent != 0.0 || ss.size.inBytes != 0) && ss.ballast.None?
    else ss.path != ""
  }

  function Parse(lib: Library, value: string): Option<StoreSpec> {
    var ps := Split(value, ',');
    if value != "" && Good(lib, ps) && Complete(Built(lib, ps)) then Some(Built(lib, ps)) else None
  }

  lemma BuiltStep(lib: Library, ps: seq<string>, p: string)
    requires Good(lib, ps + [p])
    ensures Good(lib, ps)
    ensures p == "" ==> Built(lib, ps + [p]) == Built(lib, ps)
    ensures p != "" ==> Valid(lib, FieldIn(p), ValueIn(p))
                        && Built(lib, ps + [p]) == With(lib, Built(lib, ps), FieldIn(p), ValueIn(p))
  {
    assert (ps + [p])[..|ps|] == ps;
    ValuesFit(lib, ps);
    ValuesSnoc(ps, p);
    if p != "" {
      SpecWith(lib, ValuesOf(ps), FieldIn(p), ValueIn(p));
    }
  }

  lemma {:induction false} GoodPrefix(lib: Library, ps: seq<string>, k: nat)
    requires k <= |ps| && Good(lib, ps)
    ensures Good(lib, ps[..k])
  {
    if k == |ps| {
      assert ps[..k] == ps;
    } else {
      GoodPrefix(lib, ps[..|ps| - 1], k);
      assert ps[..|ps| - 1][..k] == ps[..k];
    }
  }

  /** A pebble field with an opening bracket that is not closed. */
  predicate OpenPebble(p: string) {
    p != "" && FieldIn(p).Pebble? && ValueIn(p) != "" && !P.Closed(ValueIn(p))
  }

  /** The piece that the tokenizer never gets past, the pieces before it being good. */
  ghost predicate HangsAt(lib: Library, ps: seq<string>, k: nat) {
    k < |ps| && Good(lib, ps[..k]) && Pebble !in Fields(ps[..k]) && OpenPebble(ps[k])
  }

  ghost predicate HangsOn(lib: Library, ps: seq<string>) {
    exists k: nat :: HangsAt(lib, ps, k)
  }

  lemma NeverHangs(lib: Library, ps: seq<string>)
    requires Good(lib, ps)
    ensures !HangsOn(lib, ps)
  {
    forall k: nat
      ensures !HangsAt(lib, ps, k)
    {
      if HangsAt(lib, ps, k) {
        HangsNotGood(lib, ps, k);
      }
    }
  }

  /** The parser stops at the first piece that is not good. */
  lemma StopsAt(lib: Library, ps: seq<string>, i: nat)
    requires i < |ps| && Good(lib, ps[..i]) && !Good(lib, ps[..i + 1])
    ensures !Good(lib, ps)
    ensures HangsOn(lib, ps) <==> HangsAt(lib, ps, i)
  {
    if Good(lib, ps) {
      GoodPrefix(lib, ps, i + 1);
    }
    forall k: nat | HangsAt(lib, ps, k)
      ensures k == i
    {
      if i < k {
        assert ps[..k][..i + 1] == ps[..i + 1];
        GoodPrefix(lib, ps[..k], i + 1);
      } else if k < i {
        assert HangsAt(lib, ps[..i], k) by { assert ps[..i][..k] == ps[..k]; }
        HangsNotGood(lib, ps[..i], k);
      }
    }
  }

  lemma HangsNotGood(lib: Library, ps: seq<string>, k: nat)
    requires HangsAt(lib, ps, k)
    ensures !Good(lib, ps)
  {
    assert ps[..k + 1][..k] == ps[..k];
    assert !Good(lib, ps[..k + 1]);
    if Good(lib, ps) {
      GoodPrefix(lib, ps, k + 1);
    }
  }

  /** The pieces `ps` are good, and stand for `ss`, which uses the fields `used`. */
  ghost predicate Parsed(lib: Library, ps: seq<string>, ss: StoreSpec, used: set<Field>) {
    Good(lib, ps) && ss == Built(lib, ps) && used == Fields(ps)
  }

  lemma FieldsPush(ps: seq<string>, p: string)
    ensures Fields(ps + [p]) == if p == "" then Fields(ps) else Fields(ps) + {FieldIn(p)}
  {
    assert (ps + [p])[..|ps|] == ps;
  }

  /** Whether one more piece is good, after pieces that are. */
  lemma GoodPush(lib: Library, ps: seq<string>, p: string)
    requires Good(lib, ps)
    ensures Good(lib, ps + [p]) <==> p == "" || (FieldIn(p) !in Fields(ps) && Valid(lib, FieldIn(p), ValueIn(p)))
    ensures HangsAt(lib, ps + [p], |ps|) <==> Pebble !in Fields(ps) && OpenPebble(p)
  {
    assert (ps + [p])[..|ps|] == ps;
  }

  /** What it makes of the spec. */
  lemma ParsedPush(lib: Library, ps: seq<string>, p: string, ss: StoreSpec, used: set<Field>)
    requires Parsed(lib, ps, ss, used) && Good(lib, ps + [p])
    ensures p == "" ==> Parsed(lib, ps + [p], ss, used)
    ensures p != "" ==> Valid(lib, FieldIn(p), ValueIn(p))
    ensures p != "" ==> Parsed(lib, ps + [p], With(lib, ss, FieldIn(p), ValueIn(p)), used + {FieldIn(p)})
  {
    FieldsPush(ps, p);
    BuiltStep(lib, ps, p);
  }

  /** One turn of the loop over the comma-separated pieces. */
  method TakePiece(lib: Library, piece: string, ss: StoreSpec, used: set<Field>, ghost ps: seq<string>)
    returns (r: Outcome, used': set<Field>)
    requires Parsed(lib, ps, ss, used)
    ensures r.Accepted? <==> Good(lib, ps + [piece])
    ensures r.Accepted? ==> Parsed(lib, ps + [piece], r.spec, used')
    ensures r.Hangs? <==> HangsAt(lib, ps + [piece], |ps|)
  {
    GoodPush(lib, ps, piece);
    if Good(lib, ps + [piece]) {
      ParsedPush(lib, ps, piece, ss, used);
    }
    used' := used;
    if piece == "" {
      return Accepted(ss), used';
    }
    var field, v := FieldIn(piece), ValueIn(piece);
    if field in used {
      return Rejected, used';
    }
    used' := used' + {field};
    if field.NoName? {
      return Accepted(ss), used';
    }
    if v == "" {
      return Rejected, used';
    }
    r := SetField(lib, ss, field, v);
  }

  /** The parser: what it accepts and builds, and the inputs on which it never returns. */
  method NewStoreSpec(lib: Library, value: string) returns (r: Outcome)
    ensures r.Accepted? <==> Parse(lib, value).Some?
    ensures r.Accepted? ==> r.spec == Parse(lib, value).value
    ensures r.Hangs? <==> HangsOn(lib, Split(value, ','))
  {
    var ps := Split(value, ',');
    if value == "" {
      NeverHangs(lib, ps);
      return Rejected;
    }
    r := ParsePieces(lib, ps);
    if r.Accepted? && !Complete(r.spec) {
      r := Rejected;
    }
  }

  method ParsePieces(lib: Library, ps: seq<string>) returns (r: Outcome)
    ensures r.Accepted? <==> Good(lib, ps)
    ensures r.Accepted? ==> r.spec == Built(lib, ps)
    ensures r.Hangs? <==> HangsOn(lib, ps)
  {
    var ss, used := EMPTY, {};
    for i := 0 to |ps|
      invariant Parsed(lib, ps[..i], ss, used)
    {
      r, used := TakePiece(lib, ps[i], ss, used, ps[..i]);
      assert ps[..i + 1] == ps[..i] + [ps[i]];
      if !r.Accepted? {
        StopsAt(lib, ps, i);
        HangsSame(lib, ps, i);
        return;
      }
      ss := r.spec;
    }
    assert ps[..|ps|] == ps;
    NeverHangs(lib, ps);
    r := Accepted(ss);
  }

  lemma HangsSame(lib: Library, ps: seq<string>, i: nat)
    requires i < |ps|
    ensures HangsAt(lib, ps[..i] + [ps[i]], i) <==> HangsAt(lib, ps, i)
  {
    assert (ps[..i] + [ps[i]])[..i] == ps[..i];
  }

  // ---- which flags are accepted ----

  /**
  A flag whose pieces are good is accepted exactly when it gives a path, or `type=mem` and a size and neither a
  path nor a ballast size.
  */
  lemma AcceptedExactlyWhen(lib: Library, value: string)
    requires value != "" && Good(lib, Split(value, ','))
    ensures var fs := Fields(Split(value, ','));
            Parse(lib, value).Some? <==>
              if Kind in fs then SizeOf in fs && Path !in fs && BallastSize !in fs else Path in fs
    ensures Kind in Fields(Split(value, ',')) ==> Get(Split(value, ','), Kind) == Some("mem")
  {
    var ps := Split(value, ',');
    GetValid(lib, ps, Kind);
    GetValid(lib, ps, SizeOf);
    GetValid(lib, ps, Path);
    GetValid(lib, ps, BallastSize);
  }

  /** The lower-case form has the same letters, none of them upper-case. */
  lemma LowerCase(s: string, i: nat)
    requires i < |s|
    ensures SameLetter(ToLower(s)[i], s[i]) && !('A' <= ToLower(s)[i] <= 'Z')
  {
  }

  lemma SameLower(a: string, b: string)
    requires |a| == |b| && forall i | 0 <= i < |a| :: SameLetter(a[i], b[i])
    ensures ToLower(a) == ToLower(b)
  {
    forall i | 0 <= i < |a|
      ensures ToLower(a)[i] == ToLower(b)[i]
    {
      assert SameLetter(a[i], b[i]);
    }
  }

  /** The case of a field's name makes no difference. */
  lemma CaseDoesNotMatter(a: string, b: string, v: string)
    requires '=' !in a && '=' !in b && |a| == |b| && forall i | 0 <= i < |a| :: SameLetter(a[i], b[i])
    ensures FieldIn(a + "=" + v) == FieldIn(b + "=" + v) && ValueIn(a + "=" + v) == ValueIn(b + "=" + v) == v
  {
    NamedIs(a, v);
    NamedIs(b, v);
    SameLower(a, b);
  }

  lemma NamedIs(name: string, v: string)
    requires '=' !in name
    ensures FieldIn(name + "=" + v) == FieldOf(ToLower(name)) && ValueIn(name + "=" + v) == v
  {
    var p := name + "=" + v;
    assert p[|name|] == '=';
    assert forall k | 0 <= k < |name| :: p[k] == name[k] && name[k] in name;
    assert P.IndexOf(p, '=') == |name|;
    assert p[..|name|] == name && p[|name| + 1..] == v;
  }

  /** A flag without commas and equals signs is a path. */
  lemma BarePath(lib: Library, path: string)
    requires path != "" && ',' !in path && '=' !in path
    ensures Parse(lib, path) == Some(EMPTY.(path := path))
  {
    SplitFront(path, "", ',');
    var ps := Split(path, ',');
    assert path + "" == path && ps == [path] && ps[..0] == [];
    assert FieldIn(path) == Path && ValueIn(path) == path;
    assert Good(lib, ps[..0]) && Fields(ps[..0]) == {};
    assert Good(lib, ps);
    forall f
      ensures Get(ps, f) == if f == Path then Some(path) else None
    {
    }
  }

  /** A piece with an empty name is passed over, whatever its value, but only once. */
  lemma NamelessIsPassedOver(lib: Library, ps: seq<string>, v: string)
    ensures Good(lib, ps + ["=" + v]) <==> Good(lib, ps) && NoName !in Fields(ps)
    ensures Good(lib, ps + ["=" + v]) ==> Built(lib, ps + ["=" + v]) == Built(lib, ps)
  {
    var p := "=" + v;
    assert (ps + [p])[..|ps|] == ps;
    assert "" + "=" + v == p;
    NamedIs("", v);
    if Good(lib, ps + [p]) {
      BuiltStep(lib, ps, p);
    }
  }

  // ---- the order of the fields does not matter ----

  /** No piece of the bag sets the field. */
  ghost predicate Unset(m: multiset<string>, f: Field) {
    forall q | q in m && q != "" :: FieldIn(q) != f
  }

  lemma {:induction false} FieldsAre(ps: seq<string>, f: Field)
    ensures f in Fields(ps) <==> exists p | p in ps :: p != "" && FieldIn(p) == f
  {
    if ps != [] {
      var p, q := ps[|ps| - 1], ps[..|ps| - 1];
      FieldsAre(q, f);
      assert ps == q + [p];
    }
  }

  /** What makes a list good, said without its order. */
  ghost predicate GoodBag(lib: Library, m: multiset<string>) {
    forall p | p in m && p != "" ::
      && m[p] == 1 && Valid(lib, FieldIn(p), ValueIn(p))
      && forall q | q in m && q != "" && FieldIn(q) == FieldIn(p) :: q == p
  }

  lemma GoodBagStep(lib: Library, m: multiset<string>, p: string)
    ensures GoodBag(lib, m + multiset{p}) <==>
            GoodBag(lib, m) && (p == "" ||
            (Valid(lib, FieldIn(p), ValueIn(p)) && Unset(m, FieldIn(p))))
  {
    var n := m + multiset{p};
    assert p in n;
    assert forall q :: q in n <==> q in m || q == p;
    assert forall q | q != p :: n[q] == m[q];
    if GoodBag(lib, n) {
      if p != "" {
        assert n[p] == 1;
        assert p !in m;
      }
    }
  }

  lemma FieldsUnset(ps: seq<string>, f: Field)
    ensures f !in Fields(ps) <==> Unset(multiset(ps), f)
  {
    FieldsAre(ps, f);
    assert forall p :: p in ps <==> p in multiset(ps);
  }

  lemma {:induction false} GoodIsBag(lib: Library, ps: seq<string>)
    ensures Good(lib, ps) <==> GoodBag(lib, multiset(ps))
  {
    if ps != [] {
      var p, q := ps[|ps| - 1], ps[..|ps| - 1];
      assert ps == q + [p];
      GoodIsBag(lib, q);
      GoodBagStep(lib, multiset(q), p);
      FieldsUnset(q, FieldIn(p));
      assert multiset(ps) == multiset(q) + multiset{p};
    }
  }

  lemma {:induction false} GetFrom(ps: seq<string>, f: Field) returns (p: string)
    requires Get(ps, f).Some?
    ensures p in ps && p != "" && FieldIn(p) == f && Get(ps, f) == Some(ValueIn(p))
  {
    p := ps[|ps| - 1];
    if p == "" || FieldIn(p) != f {
      p := GetFrom(ps[..|ps| - 1], f);
    }
  }

  lemma {:induction false} GetOf(lib: Library, ps: seq<string>, p: string)
    requires Good(lib, ps) && p in ps && p != ""
    ensures Get(ps, FieldIn(p)) == Some(ValueIn(p))
  {
    var l, q := ps[|ps| - 1], ps[..|ps| - 1];
    if p != l {
      assert p in q;
      GetOf(lib, q, p);
      FieldsAre(q, FieldIn(p));
    }
  }

  lemma GetAlso(lib: Library, ps: seq<string>, qs: seq<string>, f: Field)
    requires multiset(ps) == multiset(qs) && Good(lib, qs) && Get(ps, f).Some?
    ensures Get(ps, f) == Get(qs, f)
  {
    var p := GetFrom(ps, f);
    assert p in multiset(ps);
    GetOf(lib, qs, p);
  }

  lemma GetPermutes(lib: Library, ps: seq<string>, qs: seq<string>, f: Field)
    requires multiset(ps) == multiset(qs) && Good(lib, ps) && Good(lib, qs)
    ensures Get(ps, f) == Get(qs, f)
  {
    if Get(ps, f).Some? {
      GetAlso(lib, ps, qs, f);
    } else if Get(qs, f).Some? {
      GetAlso(lib, qs, ps, f);
    }
  }

  lemma BuiltPermutes(lib: Library, ps: seq<string>, qs: seq<string>)
    requires multiset(ps) == multiset(qs) && Good(lib, ps) && Good(lib, qs)
    ensures Built(lib, ps) == Built(lib, qs)
  {
    GetPermutes(lib, ps, qs, Path);
    GetPermutes(lib, ps, qs, SizeOf);
    GetPermutes(lib, ps, qs, BallastSize);
    GetPermutes(lib, ps, qs, Kind);
    GetPermutes(lib, ps, qs, Attrs);
    GetPermutes(lib, ps, qs, RocksDB);
    GetPermutes(lib, ps, qs, Pebble);
  }

  lemma EmptyValue(value: string)
    requires multiset(Split(value, ',')) == multiset([""])
    ensures value == ""
  {
    var ps := Split(value, ',');
    assert |ps| == |multiset(ps)| == 1;
    assert ps[0] in multiset(ps);
    assert ps == [""];
    if value != "" {
      SplitNotEmpty(value, ',');
    }
  }

  /** Reordering the comma-separated pieces changes neither whether the flag is accepted nor the spec. */
  lemma OrderDoesNotMatter(lib: Library, value: string, other: string)
    requires multiset(Split(value, ',')) == multiset(Split(other, ','))
    ensures Parse(lib, value) == Parse(lib, other)
  {
    var ps, qs := Split(value, ','), Split(other, ',');
    if value == "" {
      EmptyValue(other);
    } else if other == "" {
      EmptyValue(value);
    }
    GoodIsBag(lib, ps);
    GoodIsBag(lib, qs);
    if Good(lib, ps) {
      BuiltPermutes(lib, ps, qs);
    }
  }

  // ---- the order of the fields decides only between an error and no answer ----

  /** `other` is the flag with its comma-separated pieces in another order. */
  ghost predicate Reorders(value: string, other: string) {
    multiset(Split(other, ',')) == multiset(Split(value, ','))
  }

  /** The open piece put first is never finished. */
  lemma HangsInFront(lib: Library, ps: seq<string>, k: nat)
    requires k < |ps| && OpenPebble(ps[k])
    ensures var qs := [ps[k]] + ps[..k] + ps[k + 1..];
            multiset(qs) == multiset(ps) && HangsOn(lib, qs)
  {
    var qs := [ps[k]] + ps[..k] + ps[k + 1..];
    assert ps == ps[..k] + [ps[k]] + ps[k + 1..];
    assert qs[..0] == [];
    assert HangsAt(lib, qs, 0);
  }

  /** Every order of the pieces is answered exactly when no pebble field has an open bracket. */
  lemma AllOrdersReturnExactlyWhen(lib: Library, value: string)
    ensures (forall other | Reorders(value, other) :: !HangsOn(lib, Split(other, ','))) <==>
            (forall p | p in Split(value, ',') :: !OpenPebble(p))
  {
    var ps := Split(value, ',');
    forall other | Reorders(value, other) && HangsOn(lib, Split(other, ','))
      ensures exists p | p in ps :: OpenPebble(p)
    {
      var qs := Split(other, ',');
      var k: nat :| HangsAt(lib, qs, k);
      assert qs[k] in multiset(qs);
      assert qs[k] in ps;
    }
    if p :| p in ps && OpenPebble(p) {
      var k :| 0 <= k < |ps| && ps[k] == p;
      var qs := [ps[k]] + ps[..k] + ps[k + 1..];
      HangsInFront(lib, ps, k);
      SplitIsFree(value, ',');
      assert forall x | x in qs :: x in multiset(qs);
      SplitJoin(qs, ',');
      assert Reorders(value, Join(qs, ','));
    }
  }
}
