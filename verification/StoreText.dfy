/**
The text printed for a store spec, and when parsing that text gives the spec back.
*/
module StoreText {
  import opened Common
  import opened SortedAttrs
  import opened StoreSpecs
  import P = PebbleTokens

  // ---- the printer ----

  function Opt(cond: bool, name: string, v: string): seq<string> {
    if cond then [name + "=" + v] else []
  }

  function SizePieces(lib: Library, name: string, sz: Size): seq<string> {
    Opt(sz.inBytes > 0, name, lib.bytesText(sz.inBytes)) +
    Opt(sz.percent > 0.0, name, lib.percentText(sz.percent) + "%")
  }

  function BallastPieces(lib: Library, b: Option<Size>): seq<string> {
    match b case Some(sz) => SizePieces(lib, "ballast-size", sz) case None => []
  }

  function AttrsPieces(l: seq<string>): seq<string> {
    if l == [] then [] else ["attrs=" + Join(l, ':')]
  }

  /** The fields that are printed, in order.  RocksDB options are not printed. */
  function Pieces(lib: Library, ss: StoreSpec): seq<string> {
    Opt(ss.path != "", "path", ss.path) +
    Opt(ss.inMemory, "type", "mem") +
    SizePieces(lib, "size", ss.size) +
    BallastPieces(lib, ss.ballast) +
    AttrsPieces(ss.attrs) +
    Opt(ss.pebble != "", "pebble", P.Flatten(ss.pebble))
  }

  function Text(lib: Library, ss: StoreSpec): string {
    var ps := Pieces(lib, ss);
    if ps == [] then "" else Join(ps, ',')
  }

  /** The buffer before its last comma is cut: every piece followed by a comma. */
  function Ended(ps: seq<string>): string {
    if ps == [] then "" else ps[0] + "," + Ended(ps[1..])
  }

  lemma {:induction false} EndedConcat(a: seq<string>, b: seq<string>)
    ensures Ended(a + b) == Ended(a) + Ended(b)
  {
    if a == [] {
      assert a + b == b;
    } else {
      EndedConcat(a[1..], b);
      assert (a + b)[1..] == a[1..] + b;
      P.Assoc(a[0] + ",", Ended(a[1..]), Ended(b));
    }
  }

  lemma {:induction false} EndedIsJoin(ps: seq<string>)
    requires ps != []
    ensures Ended(ps) == Join(ps, ',') + ","
  {
    if |ps| == 1 {
      assert ps[0] + "," + "" == ps[0] + ",";
    } else {
      EndedIsJoin(ps[1..]);
      P.Assoc(ps[0] + ",", Join(ps[1..], ','), ",");
    }
  }

  lemma EndedOne(p: string)
    ensures Ended([p]) == p + ","
  {
    assert p + "," + "" == p + ",";
  }

  /** Writing one optional field. */
  method Put(buf: string, cond: bool, name: string, v: string, ghost ps: seq<string>) returns (r: string)
    requires buf == Ended(ps)
    ensures r == Ended(ps + Opt(cond, name, v))
  {
    EndedConcat(ps, Opt(cond, name, v));
    EndedOne(name + "=" + v);
    r := buf + if cond then name + "=" + v + "," else "";
  }

  method PutSize(lib: Library, buf: string, name: string, sz: Size, ghost ps: seq<string>) returns (r: string)
    requires buf == Ended(ps)
    ensures r == Ended(ps + SizePieces(lib, name, sz))
  {
    var bytes := lib.bytesText(sz.inBytes);
    var percent := lib.percentText(sz.percent) + "%";
    r := Put(buf, sz.inBytes > 0, name, bytes, ps);
    r := Put(r, sz.percent > 0.0, name, percent, ps + Opt(sz.inBytes > 0, name, bytes));
    assert ps + SizePieces(lib, name, sz)
        == ps + Opt(sz.inBytes > 0, name, bytes) + Opt(sz.percent > 0.0, name, percent);
  }

  lemma {:induction false} JoinAppend(l: seq<string>, x: string, c: char)
    requires l != []
    ensures Join(l + [x], c) == Join(l, c) + [c] + x
  {
    if |l| == 1 {
      assert (l + [x])[1..] == [x];
    } else {
      JoinAppend(l[1..], x, c);
      assert (l + [x])[1..] == l[1..] + [x];
      assert l[0] + [c] + (Join(l[1..], c) + [c] + x) == l[0] + [c] + Join(l[1..], c) + [c] + x;
    }
  }

  method PutAttrs(buf: string, l: seq<string>, ghost ps: seq<string>) returns (r: string)
    requires buf == Ended(ps)
    ensures r == Ended(ps + AttrsPieces(l))
  {
    r := buf;
    if |l| > 0 {
      var w := "";
      for i := 0 to |l|
        invariant w == if i == 0 then "" else Join(l[..i], ':')
      {
        assert l[..i + 1] == l[..i] + [l[i]];
        if i != 0 {
          JoinAppend(l[..i], l[i], ':');
          w := w + ":";
        }
        w := w + l[i];
      }
      assert l[..|l|] == l;
      r := r + ("attrs=" + w + ",");
      EndedConcat(ps, AttrsPieces(l));
      EndedOne("attrs=" + w);
    } else {
      assert ps + AttrsPieces(l) == ps;
    }
  }

  method PutBallast(lib: Library, buf: string, b: Option<Size>, ghost ps: seq<string>) returns (r: string)
    requires buf == Ended(ps)
    ensures r == Ended(ps + BallastPieces(lib, b))
  {
    if b.Some? {
      r := PutSize(lib, buf, "ballast-size", b.value, ps);
    } else {
      assert ps + [] == ps;
      r := buf;
    }
  }

  method WriteFields(lib: Library, ss: StoreSpec) returns (buf: string)
    ensures buf == Ended(Pieces(lib, ss))
  {
    ghost var ps := Opt(ss.path != "", "path", ss.path);
    assert [] + ps == ps;
    buf := Put("", ss.path != "", "path", ss.path, []);
    buf := Put(buf, ss.inMemory, "type", "mem", ps);
    ps := ps + Opt(ss.inMemory, "type", "mem");
    buf := PutSize(lib, buf, "size", ss.size, ps);
    ps := ps + SizePieces(lib, "size", ss.size);
    buf := PutBallast(lib, buf, ss.ballast, ps);
    ps := ps + BallastPieces(lib, ss.ballast);
    buf := PutAttrs(buf, ss.attrs, ps);
    ps := ps + AttrsPieces(ss.attrs);
    buf := Put(buf, ss.pebble != "", "pebble", P.Flatten(ss.pebble), ps);
  }

  /** StoreSpec.String */
  method ToText(lib: Library, ss: StoreSpec) returns (r: string)
    ensures r == Text(lib, ss)
  {
    var buf := WriteFields(lib, ss);
    if Pieces(lib, ss) != [] {
      EndedIsJoin(Pieces(lib, ss));
    }
    r := if |buf| > 0 then buf[..|buf| - 1] else buf;
  }
}
