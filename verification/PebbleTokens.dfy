/**
The normaliser of pebble options in a --store flag: outside square brackets each run of white space
becomes one newline; bracketed text is copied as it is.  Strings here are ASCII.
*/
module PebbleTokens {

  predicate IsSpace(c: char) { c == ' ' || '\t' <= c <= '\r' }

  function TrimLeft(s: string): string {
    if s != "" && IsSpace(s[0]) then TrimLeft(s[1..]) else s
  }

  function TrimRight(s: string): string {
    if s != "" && IsSpace(s[|s| - 1]) then TrimRight(s[..|s| - 1]) else s
  }

  /** strings.TrimSpace */
  function Trim(s: string): string { TrimRight(TrimLeft(s)) }

  /** No white space at the end. */
  predicate Ended(s: string) { s != "" ==> !IsSpace(s[|s| - 1]) }

  /** strings.IndexRune */
  function IndexOf(s: string, c: char): (i: int)
    ensures -1 <= i < |s|
    ensures i >= 0 ==> s[i] == c
    ensures forall k | 0 <= k < (if i < 0 then |s| else i) :: s[k] != c
  {
    if s == "" then -1
    else if s[0] == c then 0
    else var i := IndexOf(s[1..], c); if i < 0 then -1 else i + 1
  }

  predicate Delimits(c: char) { c == '[' || IsSpace(c) }

  /** strings.IndexFunc for the start of a bracket or white space. */
  function IndexDelim(s: string): (i: int)
    ensures -1 <= i < |s|
    ensures i >= 0 ==> Delimits(s[i])
    ensures forall k | 0 <= k < (if i < 0 then |s| else i) :: !Delimits(s[k])
  {
    if s == "" then -1
    else if Delimits(s[0]) then 0
    else var i := IndexDelim(s[1..]); if i < 0 then -1 else i + 1
  }

  // ---- the loop ----

  datatype State = State(value: string, buf: string)

  /** What one turn of the loop leaves of its input. */
  function Left(v: string): string {
    var i := IndexDelim(v);
    if i == -1 then ""
    else if v[i] == '[' then v[i + IndexOf(v[i..], ']') + 1..]
    else Trim(v[i + 1..])
  }

  /** What it writes. */
  function Written(v: string): string {
    var i := IndexDelim(v);
    if i == -1 then v
    else if v[i] == '[' then v[..i + IndexOf(v[i..], ']') + 1]
    else v[..i] + "\n"
  }

  function Turn(s: State): State { State(Left(s.value), s.buf + Written(s.value)) }

  function LoopStep(s: State): State { if s.value == "" then s else Turn(s) }

  /** The state after `n` turns, or at the end if that comes first. */
  function After(s: State, n: nat): State
    decreases n
  {
    if n == 0 then s else LoopStep(After(s, n - 1))
  }

  /** Every opening bracket has a closing one after it. */
  predicate Closed(s: string) {
    s != "" ==> (s[0] == '[' ==> ']' in s[1..]) && Closed(s[1..])
  }

  /** An opening bracket with no closing bracket after it. */
  ghost predicate OpenAt(s: string, p: nat) {
    p < |s| && s[p] == '[' && forall j | p < j < |s| :: s[j] != ']'
  }

  lemma {:induction false} OpenNotClosed(s: string, p: nat)
    requires OpenAt(s, p)
    ensures !Closed(s)
  {
    if p > 0 {
      OpenSuffix(s, p, 1);
      OpenNotClosed(s[1..], p - 1);
    }
  }

  lemma {:induction false} NotClosedOpen(s: string) returns (p: nat)
    requires !Closed(s)
    ensures OpenAt(s, p)
  {
    if s[0] == '[' && ']' !in s[1..] {
      p := 0;
      assert forall j | 0 < j < |s| :: s[j] == s[1..][j - 1];
    } else {
      p := NotClosedOpen(s[1..]);
      p := p + 1;
      assert forall j | 0 < j < |s| :: s[j] == s[1..][j - 1];
    }
  }

  lemma {:induction false} TrimLeftIsSuffix(s: string) returns (k: nat)
    ensures k <= |s| && TrimLeft(s) == s[k..] && forall i | 0 <= i < k :: IsSpace(s[i])
    ensures TrimLeft(s) != "" ==> !IsSpace(TrimLeft(s)[0])
  {
    if s != "" && IsSpace(s[0]) {
      k := TrimLeftIsSuffix(s[1..]);
      k := k + 1;
    } else {
      k := 0;
    }
  }

  lemma TrimRightEnds(s: string) returns (k: nat)
    ensures k <= |s| && TrimRight(s) == s[..k] && forall i | k <= i < |s| :: IsSpace(s[i])
    ensures Ended(TrimRight(s))
  {
    if s != "" && IsSpace(s[|s| - 1]) {
      k := TrimRightEnds(s[..|s| - 1]);
    } else {
      k := |s|;
    }
  }

  lemma TrimEnded(s: string)
    requires Ended(s)
    ensures Trim(s) == TrimLeft(s) && Ended(TrimLeft(s))
  {
    var k := TrimLeftIsSuffix(s);
  }

  // ---- what the loop computes ----

  lemma {:induction false} ClosedSuffix(s: string, k: nat)
    requires Closed(s) && k <= |s|
    ensures Closed(s[k..])
  {
    if k == 0 {
      assert s[0..] == s;
    } else {
      ClosedSuffix(s[1..], k - 1);
      assert s[1..][k - 1..] == s[k..];
    }
  }

  /** The bracketed text at the start of `s`. */
  function Bracket(s: string): (b: string)
    requires s != "" && s[0] == '[' && Closed(s)
    ensures b <= s && IsBracket(b)
  {
    s[..IndexOf(s, ']') + 1]
  }

  /** A single bracketed piece. */
  predicate IsBracket(b: string) {
    2 <= |b| && b[0] == '[' && b[|b| - 1] == ']' && forall k | 0 <= k < |b| - 1 :: b[k] != ']'
  }

  /** The normal form of the first bracketed text, run of white space or other character of `s`. */
  function Piece(s: string): (p: string)
    requires s != "" && Closed(s)
    ensures p != ""
  {
    if s[0] == '[' then Bracket(s) else if IsSpace(s[0]) then "\n" else [s[0]]
  }

  /** What follows that piece. */
  function Rest(s: string): (r: string)
    requires s != "" && Closed(s)
    ensures |r| < |s| && Closed(r) && (Ended(s) ==> Ended(r))
  {
    var k := Skip(s);
    ClosedSuffix(s, k);
    s[k..]
  }

  /** The length of that piece in `s`. */
  function Skip(s: string): (k: nat)
    requires s != "" && Closed(s)
    ensures 0 < k <= |s|
  {
    if s[0] == '[' then |Bracket(s)|
    else if IsSpace(s[0]) then
      assert |TrimLeft(s)| < |s| by { var k := TrimLeftIsSuffix(s); }
      |s| - |TrimLeft(s)|
    else 1
  }

  lemma SpaceRest(s: string)
    requires s != "" && Closed(s) && s[0] != '[' && IsSpace(s[0])
    ensures Rest(s) == TrimLeft(s)
  {
    var k := TrimLeftIsSuffix(s);
  }

  /** The normal form of a string with no white space at its end. */
  function Norm(s: string): string
    requires Closed(s)
    decreases |s|
  {
    if s == "" then "" else Piece(s) + Norm(Rest(s))
  }

  lemma Assoc(a: string, b: string, c: string)
    ensures a + b + c == a + (b + c)
  {
  }

  lemma PlainStep(c: char, w: string)
    requires !Delimits(c) && Closed([c] + w)
    ensures Closed(w) && Norm([c] + w) == [c] + Norm(w)
  {
    assert ([c] + w)[1..] == w;
    assert Rest([c] + w) == w;
  }

  predicate Plain(a: string) { forall k | 0 <= k < |a| :: !Delimits(a[k]) }

  lemma {:induction false} NormSkips(a: string, u: string)
    requires Plain(a) && Closed(a + u)
    ensures Closed(u) && Norm(a + u) == a + Norm(u)
  {
    if a == "" {
      assert a + u == u && a + Norm(u) == Norm(u);
    } else {
      var c, b := a[0], a[1..];
      assert a == [c] + b;
      Assoc([c], b, u);
      PlainStep(c, b + u);
      NormSkips(b, u);
      Assoc([c], b, Norm(u));
    }
  }

  lemma {:induction false} TrimRun(w: string, b: string)
    requires (forall k | 0 <= k < |w| :: IsSpace(w[k])) && (b != "" ==> !IsSpace(b[0]))
    ensures TrimLeft(w + b) == b
  {
    if w == "" {
      assert w + b == b;
    } else {
      assert (w + b)[1..] == w[1..] + b;
      TrimRun(w[1..], b);
    }
  }

  /** A run of white space outside brackets becomes one newline; the text before it stays. */
  lemma NormRun(a: string, w: string, b: string)
    requires Plain(a) && w != "" && (forall k | 0 <= k < |w| :: IsSpace(w[k])) && (b != "" ==> !IsSpace(b[0]))
    requires Closed(a + (w + b))
    ensures Closed(b) && Norm(a + (w + b)) == a + "\n" + Norm(b)
  {
    NormSkips(a, w + b);
    assert (w + b)[0] == w[0] && IsSpace(w[0]);
    SpaceRest(w + b);
    TrimRun(w, b);
    Assoc(a, "\n", Norm(b));
  }

  lemma Slices(a: string, u: string, k: nat)
    requires k <= |u|
    ensures (a + u)[|a|..] == u
    ensures (a + u)[|a| + k..] == u[k..] && (a + u)[..|a| + k] == a + u[..k]
  {
  }

  lemma PlainTurn(v: string)
    requires Closed(v) && IndexDelim(v) == -1
    ensures Left(v) == "" && Written(v) == Norm(v)
  {
    assert v + "" == v;
    NormSkips(v, "");
  }

  lemma BracketRest(u: string)
    requires u != "" && u[0] == '[' && Closed(u)
    ensures var k := IndexOf(u, ']');
            0 < k && Piece(u) == u[..k + 1] && Rest(u) == u[k + 1..]
  {
  }

  lemma BracketTurn(a: string, u: string)
    requires u != "" && u[0] == '[' && |a| == IndexDelim(a + u)
    ensures var k := IndexOf(u, ']') + 1;
            Left(a + u) == u[k..] && Written(a + u) == a + u[..k]
  {
    Slices(a, u, IndexOf(u, ']') + 1);
  }

  lemma SpaceTurn(a: string, u: string)
    requires u != "" && u[0] != '[' && Closed(u) && |a| == IndexDelim(a + u) && Ended(u)
    ensures Left(a + u) == Rest(u) && Written(a + u) == a + Piece(u)
  {
    Slices(a, u, 1);
    TrimEnded(u[1..]);
    SpaceRest(u);
  }

  lemma NormCut(a: string, u: string)
    requires Plain(a) && Closed(a + u) && u != ""
    ensures Closed(u) && a + Piece(u) + Norm(Rest(u)) == Norm(a + u)
  {
    NormSkips(a, u);
    Assoc(a, Piece(u), Norm(Rest(u)));
  }

  lemma CutSplits(a: string, u: string)
    requires u != "" && Closed(u) && |a| == IndexDelim(a + u) && Ended(u)
    ensures Left(a + u) == Rest(u) && Written(a + u) == a + Piece(u)
  {
    if u[0] == '[' {
      BracketRest(u);
      BracketTurn(a, u);
    } else {
      SpaceTurn(a, u);
    }
  }

  /** What a turn writes, followed by the normal form of what it leaves, is the normal form of its input. */
  lemma TurnSplits(v: string)
    requires Closed(v) && Ended(v) && v != ""
    ensures |Left(v)| < |v| && Closed(Left(v)) && Ended(Left(v))
    ensures Written(v) + Norm(Left(v)) == Norm(v)
  {
    var i := IndexDelim(v);
    if i == -1 {
      PlainTurn(v);
      assert Norm(v) + "" == Norm(v);
    } else {
      var a, u := v[..i], v[i..];
      assert v == a + u;
      NormCut(a, u);
      CutSplits(a, u);
    }
  }

  /** A turn moves part of the normal form from the input to the output, and shortens the input. */
  lemma TurnIsNorm(s: State)
    requires Closed(s.value) && Ended(s.value) && s.value != ""
    ensures var t := Turn(s);
            && |t.value| < |s.value| && Closed(t.value) && Ended(t.value)
            && t.buf + Norm(t.value) == s.buf + Norm(s.value)
  {
    var v := s.value;
    TurnSplits(v);
    Assoc(s.buf, Written(v), Norm(Left(v)));
  }

  /** The loop, on options whose brackets are closed. */
  method Normalize(value: string) returns (r: string)
    requires Closed(value)
    ensures Closed(Trim(value)) && r == Norm(Trim(value))
  {
    var v, buf := Trim(value), "";
    ClosedTrimmed(value);
    assert "" + Norm(v) == Norm(v);
    while |v| > 0
      invariant Closed(v) && Ended(v) && Closed(Trim(value))
      invariant buf + Norm(v) == Norm(Trim(value))
      decreases |v|
    {
      TurnIsNorm(State(v, buf));
      v, buf := LoopBody(v, buf);
    }
    assert buf + "" == buf;
    r := buf;
  }

  method LoopBody(value: string, out: string) returns (v: string, buf: string)
    requires value != ""
    ensures State(v, buf) == Turn(State(value, out))
  {
    v, buf := value, out;
    var i := IndexDelim(v);
    if i == -1 {
      buf := buf + v;
      v := v[|v|..];
    } else if v[i] == '[' {
      var j := i + IndexOf(v[i..], ']');
      buf := buf + v[..j + 1];
      v := v[j + 1..];
    } else {
      buf := buf + v[..i];
      buf := buf + "\n";
      v := Trim(v[i + 1..]);
      assert buf == out + (value[..i] + "\n");
    }
  }

  /** Trimming removes no bracket. */
  lemma ClosedTrimmed(s: string)
    ensures Closed(Trim(s)) <==> Closed(s)
    ensures Ended(Trim(s))
  {
    var k := TrimLeftIsSuffix(s);
    var l := TrimRightEnds(TrimLeft(s));
    if !Closed(s) {
      var p := NotClosedOpen(s);
      var q := OpenTrimmed(s, p);
      OpenNotClosed(Trim(s), q);
    }
    if !Closed(Trim(s)) {
      var q := NotClosedOpen(Trim(s));
      OpenUntrimmed(s, k, l, q);
      OpenNotClosed(s, k + q);
    }
  }

  lemma OpenUntrimmed(s: string, k: nat, l: nat, q: nat)
    requires k + l <= |s| && OpenAt(s[k..][..l], q)
    requires forall i | k + l <= i < |s| :: IsSpace(s[i])
    ensures OpenAt(s, k + q)
  {
    var t := s[k..][..l];
    assert forall i | 0 <= i < |t| :: t[i] == s[k + i];
    forall j | k + q < j < |s|
      ensures s[j] != ']'
    {
      assert j < k + l ==> t[j - k] == s[j];
    }
  }

  // ---- when the loop ends ----

  // An opening bracket with no closing bracket after it is never consumed.

  lemma OpenSuffix(s: string, p: nat, k: nat)
    requires OpenAt(s, p) && k <= p
    ensures OpenAt(s[k..], p - k)
  {
    assert forall j | 0 <= j < |s[k..]| :: s[k..][j] == s[k + j];
  }

  lemma OpenTrimmed(s: string, p: nat) returns (q: nat)
    requires OpenAt(s, p)
    ensures OpenAt(Trim(s), q)
  {
    var k := TrimLeftIsSuffix(s);
    var l := TrimRightEnds(TrimLeft(s));
    q := p - k;
    assert forall i | 0 <= i < |Trim(s)| :: Trim(s)[i] == s[k + i];
    assert TrimLeft(s)[q] == '[';
  }

  lemma BracketKeepsOpen(v: string, i: nat, p: nat) returns (q: nat)
    requires OpenAt(v, p) && i <= p
    ensures var j := i + IndexOf(v[i..], ']');
            j < |v| && OpenAt(v[j + 1..], q)
  {
    var j := i + IndexOf(v[i..], ']');
    assert j >= i ==> v[j] == ']';
    OpenSuffix(v, p, j + 1);
    q := p - (j + 1);
  }

  lemma TurnKeepsOpen(v: string, p: nat) returns (q: nat)
    requires OpenAt(v, p)
    ensures OpenAt(Left(v), q)
  {
    var i := IndexDelim(v);
    assert Delimits(v[p]);
    if v[i] == '[' {
      q := BracketKeepsOpen(v, i, p);
    } else {
      OpenSuffix(v, p, i + 1);
      q := OpenTrimmed(v[i + 1..], p - (i + 1));
    }
  }

  lemma {:induction false} OpenRunsOn(s: State, p: nat, n: nat) returns (q: nat)
    requires OpenAt(s.value, p)
    ensures OpenAt(After(s, n).value, q)
    decreases n
  {
    if n == 0 {
      q := p;
    } else {
      q := OpenRunsOn(s, p, n - 1);
      q := TurnKeepsOpen(After(s, n - 1).value, q);
    }
  }

  /** After `n` turns on closed brackets at least `n` characters are gone, and no part of the result is lost. */
  ghost predicate Reduces(s: State, t: State, n: nat)
    requires Closed(s.value)
  {
    && Closed(t.value) && Ended(t.value) && (t.value == "" || |t.value| + n <= |s.value|)
    && t.buf + Norm(t.value) == s.buf + Norm(s.value)
  }

  lemma ReducesStep(s: State, t: State, n: nat)
    requires Closed(s.value) && Reduces(s, t, n)
    ensures Reduces(s, LoopStep(t), n + 1)
  {
    if t.value != "" {
      TurnIsNorm(t);
    }
  }

  lemma {:induction false} ClosedEnds(s: State, n: nat)
    requires Closed(s.value) && Ended(s.value)
    ensures Reduces(s, After(s, n), n)
    decreases n
  {
    if n > 0 {
      ClosedEnds(s, n - 1);
      ReducesStep(s, After(s, n - 1), n - 1);
    }
  }

  /** The loop ends exactly on options in which every opening bracket is closed; otherwise it never does. */
  lemma TerminatesExactlyWhenClosed(value: string)
    ensures (exists n: nat :: After(State(Trim(value), ""), n).value == "") <==> Closed(value)
  {
    var v := Trim(value);
    ClosedTrimmed(value);
    if Closed(value) {
      ClosedEnds(State(v, ""), |v|);
      assert After(State(v, ""), |v|).value == "";
    } else {
      var p := NotClosedOpen(v);
      forall n: nat
        ensures After(State(v, ""), n).value != ""
      {
        var q := OpenRunsOn(State(v, ""), p, n);
      }
    }
  }

  lemma OpenBracketNeverEnds()
    ensures forall n: nat :: After(State(Trim("["), ""), n).value != ""
  {
    assert OpenAt("[", 0);
    OpenNotClosed("[", 0);
    TerminatesExactlyWhenClosed("[");
  }

  // ---- what normalising preserves ----

  function Visible(s: string): string {
    if s == "" then "" else (if IsSpace(s[0]) then "" else [s[0]]) + Visible(s[1..])
  }

  lemma {:induction false} VisibleConcat(a: string, b: string)
    ensures Visible(a + b) == Visible(a) + Visible(b)
  {
    if a == "" {
      assert a + b == b;
    } else {
      var t := a[1..];
      assert (a + b)[1..] == t + b;
      VisibleConcat(t, b);
      var first := if IsSpace(a[0]) then "" else [a[0]];
      Assoc(first, Visible(t), Visible(b));
    }
  }

  lemma {:induction false} VisibleTrim(s: string)
    ensures Visible(TrimLeft(s)) == Visible(s)
  {
    if s != "" && IsSpace(s[0]) {
      VisibleTrim(s[1..]);
    }
  }

  lemma VisibleOne(c: char)
    ensures Visible([c]) == if IsSpace(c) then "" else [c]
  {
    assert [c][1..] == "";
  }

  lemma VisiblePiece(s: string)
    requires s != "" && Closed(s)
    ensures Visible(Piece(s)) + Visible(Rest(s)) == Visible(s)
  {
    if s[0] == '[' {
      var p, r := Piece(s), Rest(s);
      assert s == p + r;
      VisibleConcat(p, r);
    } else if IsSpace(s[0]) {
      SpaceRest(s);
      VisibleTrim(s);
      VisibleOne('\n');
    } else {
      VisibleOne(s[0]);
      assert Rest(s) == s[1..];
    }
  }

  /** Every character that is not white space is kept, in order. */
  lemma {:induction false} NormKeepsVisible(s: string)
    requires Closed(s)
    ensures Visible(Norm(s)) == Visible(s)
    decreases |s|
  {
    if s != "" {
      NormKeepsVisible(Rest(s));
      VisibleConcat(Piece(s), Norm(Rest(s)));
      VisiblePiece(s);
    }
  }

  /** The bracketed pieces of a string, in order. */
  function Brackets(s: string): seq<string>
    requires Closed(s)
    decreases |s|
  {
    if s == "" then [] else (if s[0] == '[' then [Piece(s)] else []) + Brackets(Rest(s))
  }

  lemma {:induction false} ClosedConcat(a: string, b: string)
    requires Closed(a) && Closed(b)
    ensures Closed(a + b)
  {
    if a == "" {
      assert a + b == b;
    } else {
      ClosedConcat(a[1..], b);
      assert (a + b)[1..] == a[1..] + b;
    }
  }

  lemma BracketIsClosed(b: string)
    requires IsBracket(b)
    ensures Closed(b)
  {
    if !Closed(b) {
      var p := NotClosedOpen(b);
      assert false;
    }
  }

  /** A bracketed piece put in front of a string is found there again. */
  lemma BracketFirst(b: string, s: string)
    requires IsBracket(b) && Closed(s)
    ensures Closed(b + s) && Piece(b + s) == b && Rest(b + s) == s
  {
    BracketIsClosed(b);
    ClosedConcat(b, s);
    assert forall k | 0 <= k < |b| :: (b + s)[k] == b[k];
    assert IndexOf(b + s, ']') == |b| - 1;
  }

  /** So is a character. */
  lemma CharFirst(c: char, s: string)
    requires c != '[' && Closed(s) && (IsSpace(c) && s != "" ==> !IsSpace(s[0]))
    ensures Closed([c] + s) && Rest([c] + s) == s
    ensures Piece([c] + s) == if IsSpace(c) then "\n" else [c]
  {
    ClosedConcat([c], s);
    assert ([c] + s)[1..] == s;
    if IsSpace(c) {
      SpaceRest([c] + s);
    }
  }

  /** A bracketed piece is copied as it is. */
  lemma NormBracket(b: string, s: string)
    requires IsBracket(b) && Closed(s)
    ensures Closed(b + s) && Norm(b + s) == b + Norm(s)
  {
    BracketFirst(b, s);
  }

  /** The normal form of what follows white space starts with none. */
  lemma NormHead(s: string)
    requires Closed(s) && Ended(s) && s != "" && IsSpace(s[0])
    ensures Norm(Rest(s)) != "" && !IsSpace(Norm(Rest(s))[0])
  {
    SpaceRest(s);
    var k := TrimLeftIsSuffix(s);
  }

  lemma {:induction false} NormIsClosed(s: string)
    requires Closed(s) && Ended(s)
    ensures Closed(Norm(s))
    decreases |s|
  {
    if s != "" {
      NormIsClosed(Rest(s));
      NormStep(s);
    }
  }

  /** The first piece of a normal form is the normal form of the first piece. */
  lemma NormStep(s: string)
    requires Closed(s) && Ended(s) && s != "" && Closed(Norm(Rest(s)))
    ensures Closed(Norm(s)) && Piece(Norm(s)) == Piece(s) && Rest(Norm(s)) == Norm(Rest(s))
  {
    var n := Norm(Rest(s));
    if s[0] == '[' {
      BracketFirst(Piece(s), n);
    } else if IsSpace(s[0]) {
      NormHead(s);
      CharFirst('\n', n);
    } else {
      CharFirst(s[0], n);
    }
  }

  /** Bracketed text is kept as it is, and normalising again changes nothing. */
  lemma {:induction false} NormKeepsBrackets(s: string)
    requires Closed(s) && Ended(s)
    ensures Closed(Norm(s)) && Brackets(Norm(s)) == Brackets(s) && Norm(Norm(s)) == Norm(s)
    decreases |s|
  {
    if s != "" {
      NormKeepsBrackets(Rest(s));
      NormStep(s);
      assert Norm(s)[0] == Piece(s)[0];
    }
  }

  // ---- printing and reading back ----

  /** StoreSpec.String prints newlines as spaces. */
  function Flatten(s: string): (r: string)
    ensures |r| == |s| && forall i | 0 <= i < |s| :: r[i] == if s[i] == '\n' then ' ' else s[i]
  {
    seq(|s|, i requires 0 <= i < |s| => if s[i] == '\n' then ' ' else s[i])
  }

  lemma FlattenConcat(a: string, b: string)
    ensures Flatten(a + b) == Flatten(a) + Flatten(b)
  {
  }

  /** The first piece after printing and reading it back: newlines inside brackets are lost. */
  function PieceReread(s: string): (r: string)
    requires s != "" && Closed(s)
    ensures |r| == |Piece(s)|
  {
    if s[0] == '[' then Flatten(Piece(s)) else Piece(s)
  }

  function Reread(s: string): (r: string)
    requires Closed(s)
    ensures |r| == |Norm(s)|
    decreases |s|
  {
    if s == "" then "" else PieceReread(s) + Reread(Rest(s))
  }

  lemma FlattenBracket(b: string)
    requires IsBracket(b)
    ensures IsBracket(Flatten(b))
  {
  }

  lemma RereadStep(s: string)
    requires Closed(s) && Ended(s) && s != "" && Closed(Flatten(Norm(Rest(s))))
    ensures var f := Flatten(Norm(s));
            Closed(f) && f != "" && Piece(f) == PieceReread(s) && Rest(f) == Flatten(Norm(Rest(s)))
  {
    var p, n := Piece(s), Norm(Rest(s));
    FlattenConcat(p, n);
    if s[0] == '[' {
      FlattenBracket(p);
      BracketFirst(Flatten(p), Flatten(n));
    } else if IsSpace(s[0]) {
      NormHead(s);
      assert Flatten(p) == " ";
      CharFirst(' ', Flatten(n));
    } else {
      assert Flatten(p) == p;
      CharFirst(s[0], Flatten(n));
    }
  }

  lemma {:induction false} RereadIsNorm(s: string)
    requires Closed(s) && Ended(s)
    ensures Closed(Flatten(Norm(s))) && Norm(Flatten(Norm(s))) == Reread(s)
    decreases |s|
  {
    if s != "" {
      RereadIsNorm(Rest(s));
      RereadStep(s);
    }
  }

  predicate NewlineInBrackets(s: string)
    requires Closed(s)
  {
    exists b | b in Brackets(s) :: '\n' in b
  }

  lemma FlattenSame(b: string)
    ensures Flatten(b) == b <==> '\n' !in b
  {
    if Flatten(b) == b {
      forall i | 0 <= i < |b|
        ensures b[i] != '\n'
      {
        assert Flatten(b)[i] == b[i];
      }
    }
  }

  lemma SamePieces(a: string, b: string, c: string, d: string)
    requires |a| == |c|
    ensures a + b == c + d <==> a == c && b == d
  {
    if a + b == c + d {
      assert a == (a + b)[..|a|] && b == (a + b)[|a|..];
      assert c == (c + d)[..|c|] && d == (c + d)[|c|..];
    }
  }

  lemma {:induction false} RereadSame(s: string)
    requires Closed(s)
    ensures Reread(s) == Norm(s) <==> !NewlineInBrackets(s)
    decreases |s|
  {
    if s != "" {
      RereadSame(Rest(s));
      SamePieces(PieceReread(s), Reread(Rest(s)), Piece(s), Norm(Rest(s)));
      FlattenSame(Piece(s));
      var first := if s[0] == '[' then [Piece(s)] else [];
      assert Brackets(s) == first + Brackets(Rest(s));
      assert forall b :: b in Brackets(s) <==> b in first || b in Brackets(Rest(s));
    }
  }

  lemma {:induction false} NormLast(s: string)
    requires Closed(s) && Ended(s)
    ensures Ended(Norm(s)) && (s != "" ==> Norm(s) != "" && Norm(s)[0] == Piece(s)[0])
    decreases |s|
  {
    if s != "" {
      NormLast(Rest(s));
      var p, n := Piece(s), Norm(Rest(s));
      assert n != "" ==> (p + n)[|p + n| - 1] == n[|n| - 1];
      if Rest(s) == "" && IsSpace(s[0]) {
        NormHead(s);
      }
    }
  }

  lemma NothingToTrim(s: string)
    requires s != "" && !IsSpace(s[0]) && Ended(s)
    ensures Trim(s) == s
  {
  }

  /** What was printed needs no trimming. */
  lemma PrintedIsTrim(value: string)
    requires Closed(Trim(value))
    ensures Trim(Flatten(Norm(Trim(value)))) == Flatten(Norm(Trim(value)))
  {
    var t := Trim(value);
    var k := TrimLeftIsSuffix(value);
    var l := TrimRightEnds(TrimLeft(value));
    NormLast(t);
    var f := Flatten(Norm(t));
    if t != "" {
      assert t[0] == TrimLeft(value)[0];
      NothingToTrim(f);
    }
  }

  /**
  Options read, printed and read again are the same options, exactly when no bracketed piece holds
  a newline.
  */
  lemma RoundTripsExactlyWhen(value: string)
    requires Closed(value)
    ensures Closed(Trim(value))
    ensures var out := Norm(Trim(value));
            && Closed(Trim(Flatten(out)))
            && (Norm(Trim(Flatten(out))) == out <==> !NewlineInBrackets(Trim(value)))
  {
    ClosedTrimmed(value);
    var t := Trim(value);
    PrintedIsTrim(value);
    RereadIsNorm(t);
    RereadSame(t);
  }

  /** A bracketed piece that holds a newline, such as "[\n]", is read back as another. */
  lemma NewlineInBracketsIsLost(b: string)
    requires IsBracket(b) && '\n' in b
    ensures Closed(b) && Norm(b) == b
    ensures Closed(Flatten(b)) && Norm(Flatten(b)) == Flatten(b) != b
  {
    OneBracket(b);
    FlattenBracket(b);
    OneBracket(Flatten(b));
    FlattenSame(b);
  }

  lemma OneBracket(b: string)
    requires IsBracket(b)
    ensures Closed(b) && Norm(b) == b
  {
    BracketFirst(b, "");
    assert b + "" == b;
  }
}
