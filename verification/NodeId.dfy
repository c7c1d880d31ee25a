/**
The set-once cell that holds a node ID: any number of concurrent calls that set it, in any
interleaving.  A failed check ends the process.
*/
module NodeId {

  import opened Common

  /** A call of setInternal. */
  datatype Call = Call(val: int, sql: bool)

  /** Where a call is; `prev` is what its atomic swap returned. */
  datatype Pc = Ready | Swapped(prev: int) | Checked(prev: int) | Done(prev: int)

  /** The precomputed text: the ID, with "sql" in front of it or not. */
  datatype Text = Text(sql: bool, id: int)

  /** `order` lists the calls in the order of their swaps. */
  datatype State = State(cell: int, str: Option<Text>, pcs: seq<Pc>, dead: bool, order: seq<nat>)

  /** The calls, and whether the container is that of a SQL instance. */
  datatype Setup = Setup(calls: seq<Call>, sqlInstance: bool)

  datatype Step = Reject(i: nat) | Swap(i: nat) | Check(i: nat) | Store(i: nat)

  function Start(c: Setup): State {
    State(0, None, seq(|c.calls|, _ => Ready), false, [])
  }

  /** The check after the swap fails. */
  predicate Fails(c: Setup, i: nat, prev: int)
    requires i < |c.calls|
  {
    prev != 0 && (c.sqlInstance != c.calls[i].sql || prev != c.calls[i].val)
  }

  predicate Enabled(c: Setup, s: State, t: Step) {
    && !s.dead && |s.pcs| == |c.calls| && t.i < |c.calls|
    && match t
       case Reject(i) => s.pcs[i].Ready? && c.calls[i].val <= 0
       case Swap(i) => s.pcs[i].Ready? && c.calls[i].val > 0
       case Check(i) => s.pcs[i].Swapped?
       case Store(i) => s.pcs[i].Checked?
  }

  function Do(c: Setup, s: State, t: Step): State
    requires Enabled(c, s, t)
  {
    match t
    case Reject(i) => s.(dead := true)
    case Swap(i) => s.(cell := c.calls[i].val, pcs := s.pcs[i := Swapped(s.cell)], order := s.order + [i])
    case Check(i) =>
      if Fails(c, i, s.pcs[i].prev) then s.(dead := true)
      else s.(pcs := s.pcs[i := Checked(s.pcs[i].prev)])
    case Store(i) =>
      s.(str := Some(Text(c.calls[i].sql, c.calls[i].val)), pcs := s.pcs[i := Done(s.pcs[i].prev)])
  }

  ghost predicate Next(c: Setup, s: State, s': State) {
    exists t :: Enabled(c, s, t) && s' == Do(c, s, t)
  }

  ghost predicate IsRun(c: Setup, b: seq<State>) {
    b != [] && b[0] == Start(c) && forall i | 0 < i < |b| :: Next(c, b[i - 1], b[i])
  }

  // ---- what every step keeps ----

  predicate InRange(c: Setup, order: seq<nat>) { forall k | 0 <= k < |order| :: order[k] < |c.calls| }

  /** What the first `k` swaps left in the cell. */
  function Wrote(c: Setup, order: seq<nat>, k: nat): int
    requires k <= |order| && InRange(c, order)
  {
    if k == 0 then 0 else c.calls[order[k - 1]].val
  }

  /** The `k`th swap returned what the one before it wrote. */
  predicate Link(c: Setup, pcs: seq<Pc>, order: seq<nat>, k: nat)
    requires |pcs| == |c.calls| && InRange(c, order) && k < |order|
  {
    var pc := pcs[order[k]];
    !pc.Ready? && pc.prev == Wrote(c, order, k)
  }

  predicate Chain(c: Setup, pcs: seq<Pc>, order: seq<nat>)
    requires |pcs| == |c.calls| && InRange(c, order)
  {
    forall k: nat | k < |order| :: Link(c, pcs, order, k)
  }

  /** A call that has swapped has a valid ID and a place in the chain; one past its check did not fail it. */
  predicate Started(c: Setup, pcs: seq<Pc>, order: seq<nat>)
    requires |pcs| == |c.calls|
  {
    forall i: nat | i < |pcs| && !pcs[i].Ready? ::
      i in order && c.calls[i].val > 0 && (pcs[i].Swapped? || !Fails(c, i, pcs[i].prev))
  }

  /** The text is that of a call that has returned. */
  predicate Shown(c: Setup, pcs: seq<Pc>, str: Option<Text>)
    requires |pcs| == |c.calls|
  {
    str.Some? ==> exists i: nat | i < |pcs| :: ShownBy(c, pcs, str, i)
  }

  predicate ShownBy(c: Setup, pcs: seq<Pc>, str: Option<Text>, i: nat)
    requires |pcs| == |c.calls| && i < |pcs|
  {
    pcs[i].Done? && str == Some(Text(c.calls[i].sql, c.calls[i].val))
  }

  /** The call has swapped and its check is going to fail, or has failed. */
  predicate Doomed(c: Setup, s: State, i: nat)
    requires |s.pcs| == |c.calls|
  {
    i < |s.pcs| && s.pcs[i].Swapped? && Fails(c, i, s.pcs[i].prev)
  }

  ghost predicate SomeDoomed(c: Setup, s: State)
    requires |s.pcs| == |c.calls|
  {
    exists i: nat :: Doomed(c, s, i)
  }

  ghost predicate Invalid(c: Setup) {
    exists i | 0 <= i < |c.calls| :: c.calls[i].val <= 0
  }

  ghost predicate Inv(c: Setup, s: State) {
    && |s.pcs| == |c.calls| && InRange(c, s.order)
    && Chain(c, s.pcs, s.order) && s.cell == Wrote(c, s.order, |s.order|)
    && Started(c, s.pcs, s.order) && Shown(c, s.pcs, s.str)
    && (forall i | 0 <= i < |s.pcs| :: s.pcs[i].Done? ==> s.str.Some?)
    && (s.dead ==> Invalid(c) || SomeDoomed(c, s))
  }

  lemma SwapChains(c: Setup, pcs: seq<Pc>, order: seq<nat>, i: nat)
    requires |pcs| == |c.calls| && InRange(c, order) && Chain(c, pcs, order) && i < |pcs| && pcs[i].Ready?
    ensures InRange(c, order + [i]) && Wrote(c, order + [i], |order| + 1) == c.calls[i].val
    ensures Chain(c, pcs[i := Swapped(Wrote(c, order, |order|))], order + [i])
  {
    var order' := order + [i];
    var pcs' := pcs[i := Swapped(Wrote(c, order, |order|))];
    forall k: nat | k < |order'|
      ensures Link(c, pcs', order', k)
    {
      assert Wrote(c, order', k) == Wrote(c, order, k);
      if k < |order| {
        assert Link(c, pcs, order, k);
      }
    }
  }

  /** A step that moves a call past its check keeps the chain. */
  lemma MoveChains(c: Setup, pcs: seq<Pc>, order: seq<nat>, i: nat, pc: Pc)
    requires |pcs| == |c.calls| && InRange(c, order) && Chain(c, pcs, order) && i < |pcs|
    requires !pcs[i].Ready? && !pc.Ready? && pc.prev == pcs[i].prev
    ensures Chain(c, pcs[i := pc], order)
  {
    var pcs' := pcs[i := pc];
    forall k: nat | k < |order|
      ensures Link(c, pcs', order, k)
    {
      assert Link(c, pcs, order, k);
    }
  }

  /** The text stays that of a call that has returned. */
  lemma ShownStays(c: Setup, pcs: seq<Pc>, str: Option<Text>, i: nat, pc: Pc)
    requires |pcs| == |c.calls| && Shown(c, pcs, str) && i < |pcs| && !pcs[i].Done?
    ensures Shown(c, pcs[i := pc], str)
  {
    if str.Some? {
      var k: nat :| k < |pcs| && ShownBy(c, pcs, str, k);
      assert ShownBy(c, pcs[i := pc], str, k);
    }
  }

  lemma InvStep(c: Setup, s: State, t: Step)
    requires Inv(c, s) && Enabled(c, s, t)
    ensures Inv(c, Do(c, s, t))
  {
    var s' := Do(c, s, t);
    match t
    case Reject(i) => assert c.calls[i].val <= 0;
    case Swap(i) =>
      SwapChains(c, s.pcs, s.order, i);
      ShownStays(c, s.pcs, s.str, i, Swapped(s.cell));
    case Check(i) =>
      if Fails(c, i, s.pcs[i].prev) {
        assert Doomed(c, s', i);
      } else {
        MoveChains(c, s.pcs, s.order, i, Checked(s.pcs[i].prev));
        ShownStays(c, s.pcs, s.str, i, Checked(s.pcs[i].prev));
      }
    case Store(i) =>
      MoveChains(c, s.pcs, s.order, i, Done(s.pcs[i].prev));
      assert ShownBy(c, s'.pcs, s'.str, i);
  }

  lemma {:induction false} InvHolds(c: Setup, b: seq<State>, i: nat)
    requires IsRun(c, b) && i < |b|
    ensures Inv(c, b[i])
  {
    if i > 0 {
      InvHolds(c, b, i - 1);
      var t :| Enabled(c, b[i - 1], t) && b[i] == Do(c, b[i - 1], t);
      InvStep(c, b[i - 1], t);
    }
  }

  // ---- agreement ----

  /** With no call doomed, every swap wrote what the first one wrote. */
  lemma {:induction false} ChainAgrees(c: Setup, s: State, k: nat)
    requires Inv(c, s) && !SomeDoomed(c, s) && k < |s.order|
    ensures c.calls[s.order[k]].val == c.calls[s.order[0]].val
  {
    if k > 0 {
      ChainAgrees(c, s, k - 1);
      assert Link(c, s.pcs, s.order, k) && Link(c, s.pcs, s.order, k - 1);
      assert !Doomed(c, s, s.order[k]);
    }
  }

  /** Every call that has swapped sets `v`, and what `Get` and `String` return is unset or `v`. */
  ghost predicate Agreed(c: Setup, s: State, v: int) {
    && |s.pcs| == |c.calls|
    && (forall i | 0 <= i < |c.calls| && !s.pcs[i].Ready? :: c.calls[i].val == v)
    && (s.cell == 0 || s.cell == v) && (s.str.None? || s.str.value.id == v)
  }

  /** In every state of every run a call is bound to abort, or all calls so far agree. */
  lemma AgreeOrAbort(c: Setup, b: seq<State>, n: nat)
    requires IsRun(c, b) && n < |b|
    ensures |b[n].pcs| == |c.calls|
    ensures SomeDoomed(c, b[n]) || exists v :: Agreed(c, b[n], v)
  {
    InvHolds(c, b, n);
    var s := b[n];
    if !SomeDoomed(c, s) {
      var v := if s.order == [] then 0 else c.calls[s.order[0]].val;
      forall i | 0 <= i < |c.calls| && !s.pcs[i].Ready?
        ensures c.calls[i].val == v
      {
        var k :| 0 <= k < |s.order| && s.order[k] == i;
        ChainAgrees(c, s, k);
      }
      CellIsSet(c, s);
      assert Agreed(c, s, v);
    }
  }

  /** What `Get` and `String` return comes from calls that have swapped. */
  lemma CellIsSet(c: Setup, s: State)
    requires Inv(c, s)
    ensures s.cell == 0 || exists i | 0 <= i < |c.calls| && !s.pcs[i].Ready? :: c.calls[i].val == s.cell
    ensures s.str.None? || exists i | 0 <= i < |c.calls| && !s.pcs[i].Ready? :: c.calls[i].val == s.str.value.id
  {
    if s.order != [] {
      assert Link(c, s.pcs, s.order, |s.order| - 1);
    }
    if s.str.Some? {
      var i: nat :| i < |s.pcs| && ShownBy(c, s.pcs, s.str, i);
      assert c.calls[i].val == s.str.value.id;
    }
  }

  /** Nothing can happen any more. */
  ghost predicate Finished(c: Setup, s: State) {
    forall t :: !Enabled(c, s, t)
  }

  lemma FinishedMeans(c: Setup, s: State)
    requires Finished(c, s) && |s.pcs| == |c.calls| && !s.dead
    ensures forall i | 0 <= i < |s.pcs| :: s.pcs[i].Done?
  {
    forall i | 0 <= i < |s.pcs|
      ensures s.pcs[i].Done?
    {
      assert !Enabled(c, s, Reject(i)) && !Enabled(c, s, Swap(i));
      assert !Enabled(c, s, Check(i)) && !Enabled(c, s, Store(i));
    }
  }

  /** Two calls that set different IDs. */
  ghost predicate Conflict(c: Setup) {
    exists i, j | 0 <= i < j < |c.calls| :: c.calls[i].val != c.calls[j].val
  }

  /** A call for the wrong kind of server that was not the first to swap. */
  ghost predicate WrongKind(c: Setup, s: State) {
    exists i | 0 <= i < |c.calls| :: c.calls[i].sql != c.sqlInstance && s.order != [] && s.order[0] != i
  }

  lemma DoomedIsWrong(c: Setup, s: State, i: nat)
    requires Inv(c, s) && Doomed(c, s, i)
    ensures Conflict(c) || WrongKind(c, s)
  {
    var k :| 0 <= k < |s.order| && s.order[k] == i;
    assert Link(c, s.pcs, s.order, 0) && Link(c, s.pcs, s.order, k);
    assert s.order[0] != i;
    var j := s.order[k - 1];
    if s.pcs[i].prev != c.calls[i].val {
      assert c.calls[j].val != c.calls[i].val;
      assert i < j || j < i;
    }
  }

  lemma CalmIsRight(c: Setup, s: State)
    requires Inv(c, s) && !s.dead && forall i | 0 <= i < |s.pcs| :: s.pcs[i].Done?
    ensures !Invalid(c) && !Conflict(c) && !WrongKind(c, s)
  {
    forall i | 0 <= i < |c.calls|
      ensures c.calls[i].val > 0 && c.calls[i].val == c.calls[s.order[0]].val
      ensures c.calls[i].sql != c.sqlInstance ==> s.order[0] == i
    {
      assert !Fails(c, i, s.pcs[i].prev);
      var k :| 0 <= k < |s.order| && s.order[k] == i;
      ChainAgrees(c, s, k);
      assert Link(c, s.pcs, s.order, k);
      if k > 0 {
        assert Link(c, s.pcs, s.order, k - 1);
      }
    }
  }

  /**
  A finished run has aborted exactly when an ID was invalid, two IDs differed, or a call that was not the
  first to swap was of the wrong kind.
  */
  lemma AbortsExactlyWhen(c: Setup, b: seq<State>)
    requires IsRun(c, b) && Finished(c, b[|b| - 1])
    ensures b[|b| - 1].dead <==> Invalid(c) || Conflict(c) || WrongKind(c, b[|b| - 1])
  {
    var s := b[|b| - 1];
    InvHolds(c, b, |b| - 1);
    if s.dead {
      if !Invalid(c) {
        var i :| 0 <= i < |s.pcs| && Doomed(c, s, i);
        DoomedIsWrong(c, s, i);
      }
    } else {
      FinishedMeans(c, s);
      CalmIsRight(c, s);
    }
  }

  /** In a run that finishes without an abort, `Get` returned 0 or the one ID at every moment, and so did `String`. */
  lemma GetIsZeroOrTheId(c: Setup, b: seq<State>, n: nat, i: nat)
    requires IsRun(c, b) && Finished(c, b[|b| - 1]) && !b[|b| - 1].dead && n < |b| && i < |c.calls|
    ensures b[n].cell == 0 || b[n].cell == c.calls[i].val
    ensures b[n].str.None? || b[n].str.value.id == c.calls[i].val
  {
    AbortsExactlyWhen(c, b);
    InvHolds(c, b, n);
    CellIsSet(c, b[n]);
    assert forall j | 0 <= j < |c.calls| && j != i :: c.calls[j].val == c.calls[i].val;
  }

  /** Once a call has returned, `Get` and `String` show an ID, and `String` with the prefix of a call that returned. */
  lemma ReturnedIsShown(c: Setup, b: seq<State>, n: nat, i: nat)
    requires IsRun(c, b) && n < |b| && i < |b[n].pcs| && b[n].pcs[i].Done?
    ensures b[n].cell != 0 && b[n].str.Some? && |b[n].pcs| == |c.calls|
    ensures exists k | 0 <= k < |c.calls| ::
              b[n].pcs[k].Done? && b[n].str == Some(Text(c.calls[k].sql, c.calls[k].val))
  {
    InvHolds(c, b, n);
    var s := b[n];
    assert i in s.order;
    var last := s.order[|s.order| - 1];
    assert Link(c, s.pcs, s.order, |s.order| - 1);
    assert !s.pcs[last].Ready? && c.calls[last].val > 0;
    var k: nat :| k < |s.pcs| && ShownBy(c, s.pcs, s.str, k);
  }

  // ---- every run finishes ----

  function Stage(pc: Pc): nat {
    match pc case Ready => 3 case Swapped(_) => 2 case Checked(_) => 1 case Done(_) => 0
  }

  /** The steps that calls have yet to take. */
  function Remaining(pcs: seq<Pc>): nat {
    if pcs == [] then 0 else Stage(pcs[0]) + Remaining(pcs[1..])
  }

  lemma {:induction false} RemainingUpdate(pcs: seq<Pc>, i: nat, pc: Pc)
    requires i < |pcs|
    ensures Remaining(pcs[i := pc]) == Remaining(pcs) - Stage(pcs[i]) + Stage(pc)
  {
    if i > 0 {
      RemainingUpdate(pcs[1..], i - 1, pc);
      assert pcs[i := pc][1..] == pcs[1..][i - 1 := pc];
    }
  }

  lemma {:induction false} RemainingStart(n: nat)
    ensures Remaining(seq(n, _ => Ready)) == 3 * n
  {
    if n > 0 {
      RemainingStart(n - 1);
      assert seq(n, _ => Ready)[1..] == seq(n - 1, _ => Ready);
    }
  }

  lemma {:induction false} StepsAreCounted(c: Setup, b: seq<State>, n: nat)
    requires IsRun(c, b) && n < |b|
    ensures Remaining(b[n].pcs) + n <= 3 * |c.calls| + if b[n].dead then 1 else 0
  {
    if n == 0 {
      RemainingStart(|c.calls|);
    } else {
      StepsAreCounted(c, b, n - 1);
      var t :| Enabled(c, b[n - 1], t) && b[n] == Do(c, b[n - 1], t);
      if !b[n].dead {
        RemainingUpdate(b[n - 1].pcs, t.i, b[n].pcs[t.i]);
      }
    }
  }

  /** No run takes more than three steps a call and one for an abort. */
  lemma RunsAreBounded(c: Setup, b: seq<State>)
    requires IsRun(c, b)
    ensures |b| <= 3 * |c.calls| + 2
  {
    StepsAreCounted(c, b, |b| - 1);
  }

  // ---- a conflict can be seen before it aborts ----

  ghost predicate Swappers(c: Setup, s: State, i: nat)
    requires |s.pcs| == |c.calls|
  {
    i < |c.calls| && !s.pcs[i].Ready?
  }

  lemma SwapShows(c: Setup, s: State, s': State, i: nat)
    requires Next(c, s, s') && |s.pcs| == |s'.pcs| == |c.calls| && !Swappers(c, s, i) && Swappers(c, s', i)
    ensures s'.cell == c.calls[i].val != 0
  {
    var t :| Enabled(c, s, t) && s' == Do(c, s, t);
    assert t == Swap(i);
  }

  lemma {:induction false} SwapWasSeen(c: Setup, b: seq<State>, n: nat, i: nat) returns (m: nat)
    requires IsRun(c, b) && n < |b| && |b[n].pcs| == |c.calls| && Swappers(c, b[n], i)
    ensures m <= n && b[m].cell == c.calls[i].val && c.calls[i].val != 0
  {
    InvHolds(c, b, n);
    if n > 0 {
      InvHolds(c, b, n - 1);
      if Swappers(c, b[n - 1], i) {
        m := SwapWasSeen(c, b, n - 1, i);
      } else {
        SwapShows(c, b[n - 1], b[n], i);
        m := n;
      }
    }
  }

  lemma {:induction false} CellWasSwapped(c: Setup, b: seq<State>, n: nat, m: nat) returns (i: nat)
    requires IsRun(c, b) && m <= n < |b| && b[m].cell != 0
    ensures |b[n].pcs| == |c.calls| && Swappers(c, b[n], i) && c.calls[i].val == b[m].cell
    decreases n - m
  {
    InvHolds(c, b, n);
    if m == n {
      var k := |b[n].order| - 1;
      assert Link(c, b[n].pcs, b[n].order, k);
      i := b[n].order[k];
    } else {
      i := CellWasSwapped(c, b, n - 1, m);
      var t :| Enabled(c, b[n - 1], t) && b[n] == Do(c, b[n - 1], t);
    }
  }

  ghost predicate Changed(b: seq<State>, n: nat)
    requires n < |b|
  {
    exists m, k | 0 <= m <= n && 0 <= k <= n :: b[m].cell != 0 && b[k].cell != 0 && b[m].cell != b[k].cell
  }

  ghost predicate SwappedConflict(c: Setup, s: State)
    requires |s.pcs| == |c.calls|
  {
    exists i: nat, j: nat :: Swappers(c, s, i) && Swappers(c, s, j) && c.calls[i].val != c.calls[j].val
  }

  /** Two IDs have been visible to `Get` exactly when two calls with different IDs have swapped. */
  lemma ValueChangesExactlyWhen(c: Setup, b: seq<State>, n: nat)
    requires IsRun(c, b) && n < |b|
    ensures |b[n].pcs| == |c.calls|
    ensures Changed(b, n) <==> SwappedConflict(c, b[n])
  {
    InvHolds(c, b, n);
    if Changed(b, n) {
      var m, k :| 0 <= m <= n && 0 <= k <= n && b[m].cell != 0 && b[k].cell != 0 && b[m].cell != b[k].cell;
      var i := CellWasSwapped(c, b, n, m);
      var j := CellWasSwapped(c, b, n, k);
      assert c.calls[i].val != c.calls[j].val;
    }
    if SwappedConflict(c, b[n]) {
      var i: nat, j: nat :| Swappers(c, b[n], i) && Swappers(c, b[n], j) && c.calls[i].val != c.calls[j].val;
      var m := SwapWasSeen(c, b, n, i);
      var k := SwapWasSeen(c, b, n, j);
      assert b[m].cell != b[k].cell;
    }
  }

  /** Two calls that set 1 and 2 can both have swapped, and the first has returned, before anything aborts. */
  lemma ValueCanChange() returns (c: Setup, b: seq<State>)
    ensures IsRun(c, b) && |b| == 5 && !b[4].dead && b[3].cell == 1 && b[3].pcs[0].Done? && b[4].cell == 2
  {
    c := Setup([Call(1, false), Call(2, false)], false);
    var s0 := Start(c);
    var s1 := Do(c, s0, Swap(0));
    var s2 := Do(c, s1, Check(0));
    var s3 := Do(c, s2, Store(0));
    var s4 := Do(c, s3, Swap(1));
    b := [s0, s1, s2, s3, s4];
    assert Next(c, s0, s1) && Next(c, s1, s2) && Next(c, s2, s3) && Next(c, s3, s4);
  }
}
