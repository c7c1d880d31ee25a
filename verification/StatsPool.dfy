/**
The store checker's statistics pass: one goroutine iterates over the range descriptors, a pool of
workers recomputes each range's statistics, and the main goroutine tallies the results.
*/
module StatsPool {
  import opened MvccStats

  const OUT_SIZE: nat := 1000

  // ---- one result ----

  datatype Loaded = LoadFailed | Loaded(s: Stats)

  /** checkResult: `err` is a failure to read or recompute. */
  datatype Result = Result(err: bool, claim: Stats, act: Stats)

  /** worker: the stored statistics, and the recomputed ones if both could be obtained. */
  function Work(stored: Loaded, recomputed: Loaded): Result {
    if stored.LoadFailed? || recomputed.LoadFailed? then Result(true, NO_STATS, NO_STATS)
    else Result(false, stored.s, recomputed.s)
  }

  /** checkResult.Error */
  predicate Bad(r: Result) {
    r.err || (r.act != NO_STATS && r.act != r.claim && r.claim.containsEstimates <= 0)
  }

  // ---- the goroutines ----

  /** What travels to the main goroutine: the result for the i-th descriptor, or the feeder's own error. */
  datatype Item = Of(desc: nat) | IterErr

  datatype Worker = Idle | Busy(desc: nat) | Done

  datatype Feeder = Iterating | Failing | ClosingIn | AwaitingWorkers | ClosingOut | Over

  datatype State = State(
    next: nat,              // descriptors handed out so far
    feeder: Feeder,
    inClosed: bool,
    workers: seq<Worker>,
    out: seq<Item>, outClosed: bool,
    received: seq<Item>, finished: bool)

  function Start(pool: nat): State {
    State(0, Iterating, false, seq(pool, _ => Idle), [], false, [], false)
  }

  datatype Step = HandOut(w: nat) | EndIteration | SendIterErr | CloseIn | Await | CloseOut
                | SendResult(w: nat) | WorkerExit(w: nat) | Receive | Finish

  /** `n` descriptors are iterated, after which the iteration ends, in an error if `fails`. */
  predicate Enabled(n: nat, s: State, step: Step) {
    match step
    case HandOut(w) => s.feeder.Iterating? && s.next < n && w < |s.workers| && s.workers[w].Idle?
    case EndIteration => s.feeder.Iterating? && s.next == n
    case SendIterErr => s.feeder.Failing? && |s.out| < OUT_SIZE
    case CloseIn => s.feeder.ClosingIn?
    case Await => s.feeder.AwaitingWorkers? && forall w | 0 <= w < |s.workers| :: s.workers[w].Done?
    case CloseOut => s.feeder.ClosingOut?
    case SendResult(w) => w < |s.workers| && s.workers[w].Busy? && |s.out| < OUT_SIZE
    case WorkerExit(w) => w < |s.workers| && s.workers[w].Idle? && s.inClosed
    case Receive => s.out != []
    case Finish => s.out == [] && s.outClosed && !s.finished
  }

  function Do(n: nat, fails: bool, s: State, step: Step): State
    requires Enabled(n, s, step)
  {
    match step
    case HandOut(w) => s.(next := s.next + 1, workers := s.workers[w := Busy(s.next)])
    case EndIteration => s.(feeder := if fails then Failing else ClosingIn)
    case SendIterErr => s.(out := s.out + [IterErr], feeder := ClosingIn)
    case CloseIn => s.(inClosed := true, feeder := AwaitingWorkers)
    case Await => s.(feeder := ClosingOut)
    case CloseOut => s.(outClosed := true, feeder := Over)
    case SendResult(w) => s.(out := s.out + [Of(s.workers[w].desc)], workers := s.workers[w := Idle])
    case WorkerExit(w) => s.(workers := s.workers[w := Done])
    case Receive => s.(received := s.received + [s.out[0]], out := s.out[1..])
    case Finish => s.(finished := true)
  }

  ghost predicate Next(n: nat, fails: bool, s: State, s': State) {
    exists step :: Enabled(n, s, step) && s' == Do(n, fails, s, step)
  }

  ghost predicate IsRun(b: seq<State>, pool: nat, n: nat, fails: bool) {
    && b != [] && b[0] == Start(pool)
    && forall i | 0 <= i < |b| - 1 :: Next(n, fails, b[i], b[i + 1])
  }

  /** A send would hit a closed channel, or a closed channel would be closed again: Go would panic. */
  predicate Panics(s: State) {
    || (s.inClosed && (s.feeder.Iterating? || s.feeder.ClosingIn?))
    || (s.outClosed && (s.feeder.Failing? || s.feeder.ClosingOut?))
    || (s.outClosed && exists w | 0 <= w < |s.workers| :: s.workers[w].Busy?)
  }

  // ---- conservation ----

  ghost function InHand(w: Worker, x: Item): nat {
    if w.Busy? && x == Of(w.desc) then 1 else 0
  }

  /** How many workers hold item `x`. */
  ghost function InHands(ws: seq<Worker>, x: Item): nat {
    if ws == [] then 0 else InHand(ws[0], x) + InHands(ws[1..], x)
  }

  lemma {:induction false} InHandsUpdate(ws: seq<Worker>, k: nat, w: Worker, x: Item)
    requires k < |ws|
    ensures InHands(ws[k := w], x) == InHands(ws, x) - InHand(ws[k], x) + InHand(w, x)
  {
    if k > 0 {
      InHandsUpdate(ws[1..], k - 1, w, x);
      assert ws[k := w][1..] == ws[1..][k - 1 := w];
    }
  }

  lemma {:induction false} NobodyBusy(ws: seq<Worker>, x: Item)
    requires forall w | 0 <= w < |ws| :: !ws[w].Busy?
    ensures InHands(ws, x) == 0
  {
    if ws != [] {
      NobodyBusy(ws[1..], x);
    }
  }

  ghost predicate Control(n: nat, fails: bool, s: State) {
    && s.next <= n
    && (s.inClosed <==> s.feeder.AwaitingWorkers? || s.feeder.ClosingOut? || s.feeder.Over?)
    && (s.outClosed <==> s.feeder.Over?)
    && (s.feeder.ClosingOut? || s.feeder.Over? ==> forall w | 0 <= w < |s.workers| :: s.workers[w].Done?)
    && (!s.inClosed ==> forall w | 0 <= w < |s.workers| :: !s.workers[w].Done?)
    && (!s.feeder.Iterating? ==> s.next == n)
    && (s.feeder.Failing? ==> fails)
    && (s.finished ==> s.outClosed && s.out == [])
  }

  /** How often `x` has been received, is in the channel, or is in a worker's hands. */
  ghost function Copies(s: State, x: Item): nat {
    multiset(s.received)[x] + multiset(s.out)[x] + InHands(s.workers, x)
  }

  ghost function Due(fails: bool, s: State, x: Item): nat {
    match x
    case Of(d) => if d < s.next then 1 else 0
    case IterErr => if fails && !s.feeder.Iterating? && !s.feeder.Failing? then 1 else 0
  }

  ghost predicate Inv(n: nat, fails: bool, s: State) {
    Control(n, fails, s) && forall x :: Copies(s, x) == Due(fails, s, x)
  }

  lemma ControlStep(n: nat, fails: bool, s: State, step: Step)
    requires Control(n, fails, s) && Enabled(n, s, step)
    ensures Control(n, fails, Do(n, fails, s, step))
  {
  }

  lemma Pushed(q: seq<Item>, y: Item, x: Item)
    ensures multiset(q + [y])[x] == multiset(q)[x] + if x == y then 1 else 0
  {
  }

  lemma CopiesOfWorkerSteps(n: nat, fails: bool, s: State, step: Step, x: Item)
    requires Enabled(n, s, step) && (step.HandOut? || step.WorkerExit?) && Copies(s, x) == Due(fails, s, x)
    ensures var s' := Do(n, fails, s, step); Copies(s', x) == Due(fails, s', x)
  {
    InHandsUpdate(s.workers, step.w, if step.HandOut? then Busy(s.next) else Done, x);
  }

  lemma CopiesOfSend(n: nat, fails: bool, s: State, w: nat, x: Item)
    requires Enabled(n, s, SendResult(w))
    ensures Copies(Do(n, fails, s, SendResult(w)), x) == Copies(s, x)
  {
    InHandsUpdate(s.workers, w, Idle, x);
    Pushed(s.out, Of(s.workers[w].desc), x);
  }

  lemma CopiesOfReceive(n: nat, fails: bool, s: State, x: Item)
    requires Enabled(n, s, Receive)
    ensures Copies(Do(n, fails, s, Receive), x) == Copies(s, x)
  {
    Pushed(s.received, s.out[0], x);
    assert s.out == [s.out[0]] + s.out[1..];
    assert multiset(s.out)[x] == multiset([s.out[0]])[x] + multiset(s.out[1..])[x];
  }

  lemma CopiesOfOtherSteps(n: nat, fails: bool, s: State, step: Step, x: Item)
    requires Enabled(n, s, step) && Copies(s, x) == Due(fails, s, x)
    requires step.EndIteration? || step.CloseIn? || step.Await? || step.CloseOut? || step.Finish?
    ensures var s' := Do(n, fails, s, step); Copies(s', x) == Due(fails, s', x)
  {
  }

  lemma CopiesStep(n: nat, fails: bool, s: State, step: Step, x: Item)
    requires Control(n, fails, s) && Enabled(n, s, step) && Copies(s, x) == Due(fails, s, x)
    ensures var s' := Do(n, fails, s, step); Copies(s', x) == Due(fails, s', x)
  {
    match step
    case HandOut(_) => CopiesOfWorkerSteps(n, fails, s, step, x);
    case WorkerExit(_) => CopiesOfWorkerSteps(n, fails, s, step, x);
    case SendResult(w) => CopiesOfSend(n, fails, s, w, x);
    case Receive => CopiesOfReceive(n, fails, s, x);
    case SendIterErr => Pushed(s.out, IterErr, x);
    case _ => CopiesOfOtherSteps(n, fails, s, step, x);
  }

  lemma InvStep(n: nat, fails: bool, s: State, step: Step)
    requires Inv(n, fails, s) && Enabled(n, s, step)
    ensures Inv(n, fails, Do(n, fails, s, step))
  {
    ControlStep(n, fails, s, step);
    forall x
      ensures Copies(Do(n, fails, s, step), x) == Due(fails, Do(n, fails, s, step), x)
    {
      CopiesStep(n, fails, s, step, x);
    }
  }

  lemma {:induction false} InvHolds(b: seq<State>, pool: nat, n: nat, fails: bool, i: nat)
    requires IsRun(b, pool, n, fails) && i < |b|
    ensures Inv(n, fails, b[i]) && |b[i].workers| == pool
  {
    if i == 0 {
      forall x ensures InHands(b[0].workers, x) == 0 {
        NobodyBusy(b[0].workers, x);
      }
    } else {
      InvHolds(b, pool, n, fails, i - 1);
      assert Next(n, fails, b[i - 1], b[i]);
      var step :| Enabled(n, b[i - 1], step) && b[i] == Do(n, fails, b[i - 1], step);
      InvStep(n, fails, b[i - 1], step);
    }
  }

  /** No schedule sends on, or closes again, a closed channel. */
  lemma NeverPanics(b: seq<State>, pool: nat, n: nat, fails: bool, i: nat)
    requires IsRun(b, pool, n, fails) && i < |b|
    ensures !Panics(b[i])
  {
    InvHolds(b, pool, n, fails, i);
  }

  /** When the main goroutine is done it has one result per descriptor, and nothing else but the feeder's error. */
  lemma ExactlyOneEach(b: seq<State>, pool: nat, n: nat, fails: bool, i: nat)
    requires IsRun(b, pool, n, fails) && i < |b| && b[i].finished
    ensures forall d: nat :: multiset(b[i].received)[Of(d)] == if d < n then 1 else 0
    ensures multiset(b[i].received)[IterErr] == if fails then 1 else 0
  {
    InvHolds(b, pool, n, fails, i);
    forall x
      ensures multiset(b[i].received)[x] == Due(fails, b[i], x)
    {
      NobodyBusy(b[i].workers, x);
      assert Copies(b[i], x) == Due(fails, b[i], x);
    }
  }

  // ---- progress ----

  ghost function Load(w: Worker): nat { match w case Idle => 1 case Busy(_) => 4 case Done => 0 }

  ghost function Loads(ws: seq<Worker>): nat {
    if ws == [] then 0 else Load(ws[0]) + Loads(ws[1..])
  }

  lemma {:induction false} LoadsUpdate(ws: seq<Worker>, k: nat, w: Worker)
    requires k < |ws|
    ensures Loads(ws[k := w]) == Loads(ws) - Load(ws[k]) + Load(w)
  {
    if k > 0 {
      LoadsUpdate(ws[1..], k - 1, w);
      assert ws[k := w][1..] == ws[1..][k - 1 := w];
    }
  }

  lemma {:induction false} IdleLoads(ws: seq<Worker>)
    requires forall w | 0 <= w < |ws| :: ws[w].Idle?
    ensures Loads(ws) == |ws|
  {
    if ws != [] {
      IdleLoads(ws[1..]);
    }
  }

  ghost function Remaining(n: nat, s: State): int {
    5 * (n - s.next) + Loads(s.workers) + 2 * |s.out|
    + (match s.feeder
       case Iterating => 8 case Failing => 7 case ClosingIn => 3
       case AwaitingWorkers => 2 case ClosingOut => 1 case Over => 0)
    + if s.finished then 0 else 1
  }

  lemma RemainingShrinks(n: nat, fails: bool, s: State, step: Step)
    requires Enabled(n, s, step)
    ensures Remaining(n, Do(n, fails, s, step)) < Remaining(n, s)
  {
    match step
    case HandOut(w) => LoadsUpdate(s.workers, w, Busy(s.next));
    case SendResult(w) => LoadsUpdate(s.workers, w, Idle);
    case WorkerExit(w) => LoadsUpdate(s.workers, w, Done);
    case _ =>
  }

  lemma {:induction false} RunsAreShort(b: seq<State>, pool: nat, n: nat, fails: bool, i: nat)
    requires IsRun(b, pool, n, fails) && i < |b|
    ensures i + Remaining(n, b[i]) <= 5 * n + pool + 9
  {
    if i == 0 {
      IdleLoads(b[0].workers);
    } else {
      RunsAreShort(b, pool, n, fails, i - 1);
      assert Next(n, fails, b[i - 1], b[i]);
      var step :| Enabled(n, b[i - 1], step) && b[i] == Do(n, fails, b[i - 1], step);
      RemainingShrinks(n, fails, b[i - 1], step);
    }
  }

  lemma NeverDeadlocked(n: nat, fails: bool, s: State)
    requires Inv(n, fails, s) && s.workers != [] && !s.finished
    ensures exists step :: Enabled(n, s, step)
  {
    if s.out != [] {
      assert Enabled(n, s, Receive);
    } else if w :| 0 <= w < |s.workers| && s.workers[w].Busy? {
      assert Enabled(n, s, SendResult(w));
    } else if w :| 0 <= w < |s.workers| && s.workers[w].Idle? && s.inClosed {
      assert Enabled(n, s, WorkerExit(w));
    } else {
      match s.feeder
      case Iterating =>
        assert s.next == n ==> Enabled(n, s, EndIteration);
        assert s.next < n && s.workers[0].Idle? ==> Enabled(n, s, HandOut(0));
        assert !s.workers[0].Done?;
      case Failing => assert Enabled(n, s, SendIterErr);
      case ClosingIn => assert Enabled(n, s, CloseIn);
      case AwaitingWorkers => assert Enabled(n, s, Await);
      case ClosingOut => assert Enabled(n, s, CloseOut);
      case Over => assert Enabled(n, s, Finish);
    }
  }

  /** Every schedule ends, within a number of steps fixed by the store, and never in a deadlock. */
  lemma PoolTerminates(b: seq<State>, pool: nat, n: nat, fails: bool)
    requires IsRun(b, pool, n, fails) && pool > 0
    ensures |b| <= 5 * n + pool + 10
    ensures var s := b[|b| - 1]; s.finished || exists step :: Enabled(n, s, step)
  {
    var i := |b| - 1;
    InvHolds(b, pool, n, fails, i);
    RunsAreShort(b, pool, n, fails, i);
    if !b[i].finished {
      NeverDeadlocked(n, fails, b[i]);
    }
  }

  lemma Extend(b: seq<State>, pool: nat, n: nat, fails: bool, step: Step, s': State)
    requires IsRun(b, pool, n, fails) && Enabled(n, b[|b| - 1], step) && s' == Do(n, fails, b[|b| - 1], step)
    ensures IsRun(b + [s'], pool, n, fails)
  {
    var b' := b + [s'];
    assert Next(n, fails, b[|b| - 1], s');
    forall i | 0 <= i < |b'| - 1
      ensures Next(n, fails, b'[i], b'[i + 1])
    {
      assert i < |b| - 1 ==> Next(n, fails, b[i], b[i + 1]);
    }
  }

  /** Any run of a pool with a worker can be continued until the main goroutine is done. */
  lemma {:induction false} RunToEnd(b: seq<State>, pool: nat, n: nat, fails: bool) returns (b': seq<State>)
    requires IsRun(b, pool, n, fails) && pool > 0
    ensures IsRun(b', pool, n, fails) && b <= b' && b'[|b'| - 1].finished
    decreases 5 * n + pool + 10 - |b|
  {
    var s := b[|b| - 1];
    if s.finished {
      b' := b;
    } else {
      PoolTerminates(b, pool, n, fails);
      var step :| Enabled(n, s, step);
      Extend(b, pool, n, fails, step, Do(n, fails, s, step));
      b' := RunToEnd(b + [Do(n, fails, s, step)], pool, n, fails);
    }
  }

  // ---- the tally ----

  /** How two statistics are added up; MvccStats.Plus is the one in use. */
  type Adder = (Stats, Stats) -> Stats

  /** What the main goroutine counts: results, problems, estimates, and the sum of good statistics. */
  datatype Tally = Tally(seen: int, bad: int, estimated: int, total: Stats)

  const NO_TALLY := Tally(0, 0, 0, NO_STATS)

  /** The result an item carries, given the workers' results by descriptor. */
  function Carried(results: seq<Result>, x: Item): Result {
    if x.Of? && x.desc < |results| then results[x.desc] else Result(true, NO_STATS, NO_STATS)
  }

  /** What one result makes of the tally. */
  function Counted(plus: Adder, t: Tally, r: Result): Tally {
    if Bad(r) then t.(seen := t.seen + 1, bad := t.bad + 1)
    else
      Tally(t.seen + 1, t.bad, t.estimated + (if r.claim.containsEstimates > 0 then 1 else 0), plus(t.total, r.act))
  }

  function Sum(plus: Adder, results: seq<Result>, items: seq<Item>): Tally {
    if items == [] then NO_TALLY
    else Counted(plus, Sum(plus, results, items[..|items| - 1]), Carried(results, items[|items| - 1]))
  }

  /** How many of the results are bad. */
  function BadOnes(results: seq<Result>, items: seq<Item>): nat {
    if items == [] then 0
    else BadOnes(results, items[..|items| - 1]) + if Bad(Carried(results, items[|items| - 1])) then 1 else 0
  }

  /** The tally counts the results and the bad ones among them. */
  lemma {:induction false} SumCounts(plus: Adder, results: seq<Result>, items: seq<Item>)
    ensures Sum(plus, results, items).seen == |items| && Sum(plus, results, items).bad == BadOnes(results, items)
    ensures BadOnes(results, items) > 0 <==> exists x | x in items :: Bad(Carried(results, x))
  {
    if items != [] {
      var q, x := items[..|items| - 1], items[|items| - 1];
      assert items == q + [x];
      SumCounts(plus, results, q);
    }
  }

  lemma SumNext(plus: Adder, results: seq<Result>, items: seq<Item>, i: nat)
    requires i < |items|
    ensures Sum(plus, results, items[..i + 1])
            == Counted(plus, Sum(plus, results, items[..i]), Carried(results, items[i]))
  {
    assert items[..i + 1][..i] == items[..i];
  }

  /** The loop variables hold the tally `t`. */
  ghost predicate Held(t: Tally, foundProblem: bool, cR: int, cE: int, total: Stats) {
    t.seen == cR && t.estimated == cE && t.total == total && t.bad >= 0 && (foundProblem <==> t.bad > 0)
  }

  /** The loop over outCh. */
  method TallyUp(plus: Adder, results: seq<Result>, items: seq<Item>)
    returns (foundProblem: bool, cR: int, cE: int, total: Stats)
    ensures foundProblem <==> exists x | x in items :: Bad(Carried(results, x))
    ensures Sum(plus, results, items) == Tally(cR, BadOnes(results, items), cE, total) && cR == |items|
  {
    foundProblem, cR, cE, total := false, 0, 0, NO_STATS;
    ghost var t := NO_TALLY;
    for i := 0 to |items|
      invariant t == Sum(plus, results, items[..i]) && Held(t, foundProblem, cR, cE, total)
    {
      var res := Carried(results, items[i]);
      SumNext(plus, results, items, i);
      t := Counted(plus, t, res);
      cR := cR + 1;
      if Bad(res) {
        foundProblem := true;
      } else {
        if res.claim.containsEstimates > 0 {
          cE := cE + 1;
        }
        total := plus(total, res.act);
      }
    }
    assert items[..|items|] == items;
    SumCounts(plus, results, items);
  }

  ghost predicate Swaps(plus: Adder) {
    forall a, b, c :: plus(plus(a, b), c) == plus(plus(a, c), b)
  }

  lemma CountedSwaps(plus: Adder, t: Tally, r: Result, r': Result)
    requires Swaps(plus)
    ensures Counted(plus, Counted(plus, t, r), r') == Counted(plus, Counted(plus, t, r'), r)
  {
  }

  lemma {:induction false} SumRemove(plus: Adder, results: seq<Result>, items: seq<Item>, k: nat)
    requires k < |items| && Swaps(plus)
    ensures Sum(plus, results, items)
            == Counted(plus, Sum(plus, results, items[..k] + items[k + 1..]), Carried(results, items[k]))
  {
    var n := |items| - 1;
    if k == n {
      assert items[..k] + items[k + 1..] == items[..n];
    } else {
      var rest, rest' := items[..k] + items[k + 1..], items[..n][..k] + items[..n][k + 1..];
      assert rest[..|rest| - 1] == rest' && rest[|rest| - 1] == items[n];
      SumRemove(plus, results, items[..n], k);
      CountedSwaps(plus, Sum(plus, results, rest'), Carried(results, items[k]), Carried(results, items[n]));
    }
  }

  lemma BagRemove(b: seq<Item>, k: nat)
    requires k < |b|
    ensures multiset(b[..k] + b[k + 1..]) == multiset(b) - multiset{b[k]}
  {
    assert b == b[..k] + [b[k]] + b[k + 1..];
  }

  lemma {:induction false} SumPermutes(plus: Adder, results: seq<Result>, a: seq<Item>, b: seq<Item>)
    requires multiset(a) == multiset(b) && Swaps(plus)
    ensures Sum(plus, results, a) == Sum(plus, results, b)
  {
    if a == [] {
      assert |multiset(b)| == 0;
    } else {
      var n := |a| - 1;
      BagRemove(a, n);
      assert a[..n] + a[n + 1..] == a[..n];
      assert a[n] in multiset(b);
      var k :| 0 <= k < |b| && b[k] == a[n];
      BagRemove(b, k);
      SumRemove(plus, results, b, k);
      SumPermutes(plus, results, a[..n], b[..k] + b[k + 1..]);
    }
  }

  lemma PlusIsAdder()
    ensures Swaps(Plus)
  {
    forall a, b, c
      ensures Plus(Plus(a, b), c) == Plus(Plus(a, c), b)
    {
      PlusSwaps(a, b, c);
    }
  }

  /** The items in the order of the descriptors, the iteration's error last. */
  function InOrder(n: nat, fails: bool): seq<Item>
    decreases fails, n
  {
    if fails then InOrder(n, false) + [IterErr]
    else if n == 0 then []
    else InOrder(n - 1, false) + [Of(n - 1)]
  }

  lemma {:induction false} CountInOrder(n: nat, x: Item)
    ensures multiset(InOrder(n, false))[x] == if x.Of? && x.desc < n then 1 else 0
  {
    if n > 0 {
      CountInOrder(n - 1, x);
      Pushed(InOrder(n - 1, false), Of(n - 1), x);
    }
  }

  /** Any finished schedule tallies what going through the descriptors in order would. */
  lemma TalliesInOrder(b: seq<State>, pool: nat, n: nat, fails: bool, results: seq<Result>)
    requires IsRun(b, pool, n, fails) && b[|b| - 1].finished
    ensures Sum(Plus, results, b[|b| - 1].received) == Sum(Plus, results, InOrder(n, fails))
  {
    var r := b[|b| - 1].received;
    ExactlyOneEach(b, pool, n, fails, |b| - 1);
    forall x: Item
      ensures multiset(r)[x] == multiset(InOrder(n, fails))[x]
    {
      CountInOrder(n, x);
      if fails {
        Pushed(InOrder(n, false), IterErr, x);
      }
      match x
      case Of(d) =>
      case IterErr =>
    }
    PlusIsAdder();
    SumPermutes(Plus, results, r, InOrder(n, fails));
  }

  /** The verdict, the counts and the totals do not depend on the schedule or the number of workers. */
  lemma ScheduleIndependent(
      b1: seq<State>, pool1: nat, b2: seq<State>, pool2: nat, n: nat, fails: bool, results: seq<Result>)
    requires IsRun(b1, pool1, n, fails) && b1[|b1| - 1].finished
    requires IsRun(b2, pool2, n, fails) && b2[|b2| - 1].finished
    ensures Sum(Plus, results, b1[|b1| - 1].received) == Sum(Plus, results, b2[|b2| - 1].received)
  {
    TalliesInOrder(b1, pool1, n, fails, results);
    TalliesInOrder(b2, pool2, n, fails, results);
  }

  // ---- what the check finds ----

  lemma SumPush(plus: Adder, results: seq<Result>, items: seq<Item>, x: Item)
    ensures Sum(plus, results, items + [x]) == Counted(plus, Sum(plus, results, items), Carried(results, x))
  {
    assert (items + [x])[..|items|] == items;
  }

  /** A number that adds up when statistics do. */
  ghost predicate Additive(plus: Adder, f: Stats -> int) {
    f(NO_STATS) == 0 && forall a, b :: f(plus(a, b)) == f(a) + f(b)
  }

  /** Every number but the times and ages does. */
  lemma FieldsAreAdditive()
    ensures Additive(Plus, (s: Stats) => s.containsEstimates)
    ensures Additive(Plus, (s: Stats) => s.liveBytes) && Additive(Plus, (s: Stats) => s.liveCount)
    ensures Additive(Plus, (s: Stats) => s.keyBytes) && Additive(Plus, (s: Stats) => s.keyCount)
    ensures Additive(Plus, (s: Stats) => s.valBytes) && Additive(Plus, (s: Stats) => s.valCount)
    ensures Additive(Plus, (s: Stats) => s.intentBytes) && Additive(Plus, (s: Stats) => s.intentCount)
    ensures Additive(Plus, (s: Stats) => s.separatedIntentCount)
    ensures Additive(Plus, (s: Stats) => s.sysBytes) && Additive(Plus, (s: Stats) => s.sysCount)
    ensures Additive(Plus, (s: Stats) => s.abortSpanBytes)
  {
    forall a, b {
      PlusAddsUp(a, b);
    }
  }

  /** `f` added up over the results that are not bad. */
  function GoodSum(f: Result -> int, results: seq<Result>, n: nat): int
    requires n <= |results|
  {
    if n == 0 then 0 else GoodSum(f, results, n - 1) + if Bad(results[n - 1]) then 0 else f(results[n - 1])
  }

  function Actual(f: Stats -> int): Result -> int { (r: Result) => f(r.act) }

  function Estimated(r: Result): int { if r.claim.containsEstimates > 0 then 1 else 0 }

  lemma {:induction false} SumsInOrder(plus: Adder, f: Stats -> int, results: seq<Result>, n: nat)
    requires Additive(plus, f) && n <= |results|
    ensures var t := Sum(plus, results, InOrder(n, false));
            && t.seen == n && (t.bad > 0 <==> exists d | 0 <= d < n :: Bad(results[d])) && t.bad >= 0
            && t.estimated == GoodSum(Estimated, results, n) && f(t.total) == GoodSum(Actual(f), results, n)
  {
    if n > 0 {
      SumsInOrder(plus, f, results, n - 1);
      SumPush(plus, results, InOrder(n - 1, false), Of(n - 1));
    }
  }

  /** What the workers make of the stored and the recomputed statistics of each range. */
  function WorkAll(stored: seq<Loaded>, recomputed: seq<Loaded>): (rs: seq<Result>)
    requires |stored| == |recomputed|
    ensures |rs| == |stored| && forall d | 0 <= d < |rs| :: rs[d] == Work(stored[d], recomputed[d])
  {
    seq(|stored|, d requires 0 <= d < |stored| => Work(stored[d], recomputed[d]))
  }

  /**
  A problem is found, in any finished schedule, exactly if the iteration failed, some range's statistics
  could not be read or recomputed, or some range's recomputed statistics are not all zero, differ from the
  stored ones, and the stored ones are not marked as estimates.
  */
  lemma ProblemFoundExactlyWhen(
      b: seq<State>, pool: nat, n: nat, fails: bool, stored: seq<Loaded>, recomputed: seq<Loaded>)
    requires IsRun(b, pool, n, fails) && b[|b| - 1].finished && |stored| == |recomputed| == n
    ensures var t := Sum(Plus, WorkAll(stored, recomputed), b[|b| - 1].received);
            && t.seen == n + (if fails then 1 else 0)
            && (t.bad > 0 <==>
                  || fails
                  || (exists d | 0 <= d < n :: stored[d].LoadFailed? || recomputed[d].LoadFailed?)
                  || (exists d | 0 <= d < n ::
                        && stored[d].Loaded? && recomputed[d].Loaded? && recomputed[d].s != NO_STATS
                        && recomputed[d].s != stored[d].s && stored[d].s.containsEstimates <= 0))
  {
    var results := WorkAll(stored, recomputed);
    TalliesInOrder(b, pool, n, fails, results);
    SumsInOrder(Plus, (s: Stats) => 0, results, n);
    if fails {
      SumPush(Plus, results, InOrder(n, false), IterErr);
    }
    if d :| 0 <= d < n && Bad(results[d]) {
      assert results[d] == Work(stored[d], recomputed[d]);
    }
    forall d | 0 <= d < n
      ensures Bad(results[d]) <==>
              || stored[d].LoadFailed? || recomputed[d].LoadFailed?
              || (recomputed[d].s != NO_STATS && recomputed[d].s != stored[d].s && stored[d].s.containsEstimates <= 0)
    {
    }
  }

  /** The totals printed are those of the recomputed statistics of the good ranges, in any finished schedule. */
  lemma TotalsAreRecomputed(b: seq<State>, pool: nat, n: nat, fails: bool, results: seq<Result>, f: Stats -> int)
    requires IsRun(b, pool, n, fails) && b[|b| - 1].finished && |results| == n && Additive(Plus, f)
    ensures var t := Sum(Plus, results, b[|b| - 1].received);
            t.estimated == GoodSum(Estimated, results, n) && f(t.total) == GoodSum(Actual(f), results, n)
  {
    TalliesInOrder(b, pool, n, fails, results);
    SumsInOrder(Plus, f, results, n);
    if fails {
      SumPush(Plus, results, InOrder(n, false), IterErr);
    }
  }
}
