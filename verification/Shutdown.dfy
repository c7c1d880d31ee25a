/**
Starting and stopping a node.  The startup goroutine, the main goroutine waiting to shut down and
the goroutine that drains share two flags under a mutex; signals, the stopper and errors arrive at
any time.  A run is any interleaving; the other goroutines may go on for a while after the main one has returned.
*/
module Shutdown {

  datatype Startup =
    | Creating                 // in NewServer
    | Checking                 // about to look at `draining`
    | Cleared                  // saw draining == false
    | PreStarting              // inside PreStart
    | PreStarted               // PreStart succeeded, `started` not yet set
    | Serving                  // `started` set
    | StartupOver(failed: bool)

  datatype Drainer =
    | NotLaunched
    | Launched                 // about to raise `draining`
    | TooEarly                 // found `started` unset; about to close stopWithoutDrain
    | Ready                    // about to call Drain
    | Draining                 // inside Drain
    | Stopping                 // about to call stopper.Stop
    | DrainerOver

  /** What a call of Drain answers. */
  datatype Reply = Remaining(n: nat) | DrainFailed

  /** Drain is called again after this answer. */
  predicate GoesOn(r: Reply) { r.Remaining? && r.n > 0 }

  datatype Main = Waiting | AwaitingStopped | ShuttingDown | Blocked | Returned

  datatype State = State(
    startup: Startup, drainer: Drainer, main: Main,
    started: bool, draining: bool,        // serverStatus
    errSent: bool,                        // errChan
    stopWithoutDrain: bool,               // closed
    quiescing: bool, stopped: bool,       // stopper
    // history
    preStartCalls: nat, preStartOk: bool, drainCalls: nat, replies: seq<Reply>,
    raisedBeforeCheck: bool,              // draining was set before startup looked at it
    raisedInWindow: bool,                 // draining was set after that, but before PreStart was called
    lateStart: bool,                      // PreStart was called with draining already set
    forced: bool)                         // a signal other than SIGTERM came during the shutdown

  const START := State(
    Creating, NotLaunched, Waiting, false, false, false, false, false, false,
    0, false, 0, [], false, false, false, false)

  datatype StartupAct =
    | Create(ok: bool) | Check | CallPreStart | PreStartReturns(ok: bool) | SetStarted | Serve(ok: bool)
  datatype MainAct =
    | TakeError | TakeQuiesce | TakeSignal | TakeFatal | SeeStopped | SecondTerm | HardSignal | SeeTooEarly
  datatype DrainAct = RaiseDraining | CloseTooEarly | CallDrain | DrainReturns(reply: Reply) | CallStop
  datatype StopperAct = Quiesce | Stop

  datatype Step = S(startup: StartupAct) | M(main: MainAct) | D(drain: DrainAct) | T(stopper: StopperAct)

  predicate StartupEnabled(s: State, a: StartupAct) {
    match a
    case Create(_) => s.startup.Creating?
    case Check => s.startup.Checking?
    case CallPreStart => s.startup.Cleared?
    case PreStartReturns(_) => s.startup.PreStarting?
    case SetStarted => s.startup.PreStarted?
    case Serve(_) => s.startup.Serving?
  }

  /** All but startup's own state is the same; `started` and an error are only ever added. */
  predicate SameElsewhere(s: State, r: State) {
    && r.drainer == s.drainer && r.main == s.main && r.draining == s.draining
    && r.stopWithoutDrain == s.stopWithoutDrain && r.quiescing == s.quiescing && r.stopped == s.stopped
    && r.drainCalls == s.drainCalls && r.replies == s.replies && r.forced == s.forced
    && (s.started ==> r.started) && (s.errSent ==> r.errSent)
  }

  function DoStartup(s: State, a: StartupAct): (r: State)
    ensures SameElsewhere(s, r)
  {
    match a
    case Create(ok) =>
      if ok then s.(startup := Checking) else s.(startup := StartupOver(true), errSent := true)
    case Check =>
      if s.draining then s.(startup := StartupOver(false)) else s.(startup := Cleared)
    case CallPreStart =>
      s.(startup := PreStarting, preStartCalls := s.preStartCalls + 1, lateStart := s.draining)
    case PreStartReturns(ok) =>
      if ok then s.(startup := PreStarted, preStartOk := true) else s.(startup := StartupOver(true), errSent := true)
    case SetStarted => s.(startup := Serving, started := true)
    case Serve(ok) => s.(startup := StartupOver(!ok), errSent := s.errSent || !ok)
  }

  predicate MainEnabled(s: State, a: MainAct) {
    match a
    case TakeError => s.main.Waiting? && s.errSent
    case TakeQuiesce => s.main.Waiting? && s.quiescing
    case TakeSignal => s.main.Waiting?
    case TakeFatal => s.main.Waiting?
    case SeeStopped => (s.main.AwaitingStopped? || s.main.ShuttingDown?) && s.stopped
    case SecondTerm => s.main.ShuttingDown?
    case HardSignal => s.main.ShuttingDown?
    case SeeTooEarly => s.main.ShuttingDown? && s.stopWithoutDrain
  }

  function DoMain(s: State, a: MainAct): (r: State)
    ensures r.draining == s.draining && r.stopWithoutDrain == s.stopWithoutDrain
    ensures r.drainer == if a.TakeSignal? then Launched else s.drainer
  {
    match a
    case TakeError => s.(main := Returned)
    case TakeQuiesce => s.(main := AwaitingStopped)
    case TakeSignal => s.(main := ShuttingDown, drainer := Launched)
    case TakeFatal => s.(main := Blocked, quiescing := true)
    case SecondTerm => s
    case SeeStopped => s.(main := Returned)
    case HardSignal => s.(main := Returned, forced := true)
    case SeeTooEarly => s.(main := Returned)
  }

  predicate DrainEnabled(s: State, a: DrainAct) {
    match a
    case RaiseDraining => s.drainer.Launched?
    case CloseTooEarly => s.drainer.TooEarly?
    case CallDrain => s.drainer.Ready?
    case DrainReturns(_) => s.drainer.Draining?
    case CallStop => s.drainer.Stopping?
  }

  function DoDrain(s: State, a: DrainAct): (r: State)
    ensures r.startup == s.startup && r.main == s.main && r.started == s.started
    ensures r.draining == (s.draining || a.RaiseDraining?)
    ensures r.stopWithoutDrain == (s.stopWithoutDrain || a.CloseTooEarly?)
  {
    match a
    case RaiseDraining =>
      s.(draining := true,
         drainer := if s.started then Ready else TooEarly,
         raisedBeforeCheck := s.startup.Creating? || s.startup.Checking?,
         raisedInWindow := s.startup.Cleared?)
    case CloseTooEarly => s.(stopWithoutDrain := true, drainer := DrainerOver)
    case CallDrain => s.(drainer := Draining, drainCalls := s.drainCalls + 1)
    case DrainReturns(reply) =>
      s.(drainer := if GoesOn(reply) then Ready else Stopping, replies := s.replies + [reply])
    case CallStop => s.(quiescing := true, drainer := DrainerOver)
  }

  predicate Enabled(s: State, step: Step) {
    match step
    case S(a) => StartupEnabled(s, a)
    case M(a) => MainEnabled(s, a)
    case D(a) => DrainEnabled(s, a)
    case T(a) => a.Stop? ==> s.quiescing
  }

  function Do(s: State, step: Step): State {
    match step
    case S(a) => DoStartup(s, a)
    case M(a) => DoMain(s, a)
    case D(a) => DoDrain(s, a)
    case T(a) => if a.Quiesce? then s.(quiescing := true) else s.(stopped := true)
  }

  ghost predicate Next(s: State, s': State) {
    exists step :: Enabled(s, step) && s' == Do(s, step)
  }

  ghost predicate IsRun(b: seq<State>) {
    && b != [] && b[0] == START
    && forall i | 0 <= i < |b| - 1 :: Next(b[i], b[i + 1])
  }

  ghost predicate StartupInv(s: State) {
    && (s.errSent <==> s.startup == StartupOver(true))
    && (s.startup.Serving? ==> s.started)
    && (s.started ==> s.startup.Serving? || s.startup.StartupOver?)
    && (s.preStartOk ==> s.startup.PreStarted? || s.startup.Serving? || s.startup.StartupOver?)
    && (s.startup.PreStarted? || s.started ==> s.preStartOk)
    && s.preStartCalls == (
         if s.startup.PreStarting? || s.preStartOk || (s.startup.StartupOver? && s.preStartCalls > 0) then 1 else 0)
  }

  ghost predicate DrainerInv(s: State) {
    && (s.main.Waiting? || s.main.AwaitingStopped? || s.main.Blocked? ==> s.drainer.NotLaunched?)
    && (s.draining <==> !s.drainer.NotLaunched? && !s.drainer.Launched?)
    && (s.drainer.Ready? || s.drainer.Draining? || s.drainer.Stopping? || s.drainCalls > 0 ==> s.started)
    && (s.drainer.NotLaunched? || s.drainer.Launched? || s.drainer.TooEarly? ==> s.drainCalls == 0)
    && (s.stopWithoutDrain ==> s.drainer.DrainerOver? && s.drainCalls == 0)
  }

  /** Drain has been called until it failed or had nothing left. */
  predicate DrainedOut(s: State) {
    s.drainCalls == |s.replies| > 0 && !GoesOn(s.replies[|s.replies| - 1])
  }

  ghost predicate RepliesInv(s: State) {
    && s.drainCalls == |s.replies| + (if s.drainer.Draining? then 1 else 0)
    && (forall k | 0 <= k < |s.replies| - 1 :: GoesOn(s.replies[k]))
    && (s.drainer.Ready? || s.drainer.Draining? ==> forall k | 0 <= k < |s.replies| :: GoesOn(s.replies[k]))
    && (s.drainer.Stopping? ==> DrainedOut(s))
    && (s.drainer.DrainerOver? && !s.stopWithoutDrain ==> DrainedOut(s) && s.quiescing)
  }

  ghost predicate MainInv(s: State) {
    && (s.main.ShuttingDown? ==> !s.drainer.NotLaunched?)
    && (s.main.AwaitingStopped? || s.main.Blocked? || s.stopped ==> s.quiescing)
    && (s.main.Returned? ==>
          if s.drainer.NotLaunched? then s.errSent || s.stopped else s.stopped || s.stopWithoutDrain || s.forced)
  }

  ghost predicate WindowInv(s: State) {
    && (s.raisedBeforeCheck || s.raisedInWindow ==> s.draining)
    && (s.raisedBeforeCheck ==> s.preStartCalls == 0 && !s.startup.Cleared?)
    && (s.draining && (s.startup.Creating? || s.startup.Checking?) ==> s.raisedBeforeCheck)
    && (s.draining && s.startup.Cleared? ==> s.raisedInWindow)
    && (s.lateStart <==> s.raisedInWindow && s.preStartCalls > 0)
  }

  ghost predicate Inv(s: State) {
    StartupInv(s) && DrainerInv(s) && RepliesInv(s) && MainInv(s) && WindowInv(s)
  }

  lemma StartupKeepsItsOwn(s: State, a: StartupAct)
    requires StartupInv(s) && WindowInv(s) && StartupEnabled(s, a)
    ensures StartupInv(DoStartup(s, a)) && WindowInv(DoStartup(s, a))
  {
    match a
    case Create(_) =>
    case Check =>
    case CallPreStart =>
    case PreStartReturns(_) =>
    case SetStarted =>
    case Serve(_) =>
  }

  lemma OthersAreKept(s: State, r: State)
    requires DrainerInv(s) && RepliesInv(s) && MainInv(s) && SameElsewhere(s, r)
    ensures DrainerInv(r) && RepliesInv(r) && MainInv(r)
  {
  }

  lemma StartupKeeps(s: State, a: StartupAct)
    requires Inv(s) && StartupEnabled(s, a)
    ensures Inv(DoStartup(s, a))
  {
    StartupKeepsItsOwn(s, a);
    OthersAreKept(s, DoStartup(s, a));
  }

  lemma MainKeeps(s: State, a: MainAct)
    requires Inv(s) && MainEnabled(s, a)
    ensures Inv(DoMain(s, a))
  {
  }

  lemma DrainKeeps(s: State, a: DrainAct)
    requires Inv(s) && DrainEnabled(s, a)
    ensures Inv(DoDrain(s, a))
  {
  }

  lemma InvStep(s: State, step: Step)
    requires Inv(s) && Enabled(s, step)
    ensures Inv(Do(s, step))
  {
    match step
    case S(a) => StartupKeeps(s, a);
    case M(a) => MainKeeps(s, a);
    case D(a) => DrainKeeps(s, a);
    case T(_) =>
  }

  lemma {:induction false} InvHolds(b: seq<State>, i: nat)
    requires IsRun(b) && i < |b|
    ensures Inv(b[i])
  {
    if i > 0 {
      InvHolds(b, i - 1);
      assert Next(b[i - 1], b[i]);
      var step :| Enabled(b[i - 1], step) && b[i] == Do(b[i - 1], step);
      InvStep(b[i - 1], step);
    }
  }

  /** A server is drained only once PreStart has succeeded, and never while it runs. */
  lemma DrainOnlyAfterStart(b: seq<State>, i: nat)
    requires IsRun(b) && i < |b|
    ensures b[i].drainer.Draining? || b[i].drainCalls > 0 ==>
              b[i].preStartOk && b[i].started && !b[i].startup.PreStarting? && b[i].preStartCalls == 1
  {
    InvHolds(b, i);
  }

  /** If draining was raised before startup looked, PreStart is never called. */
  lemma NoStartAfterEarlySignal(b: seq<State>, i: nat)
    requires IsRun(b) && i < |b| && b[i].raisedBeforeCheck
    ensures b[i].preStartCalls == 0 && !b[i].started && b[i].drainCalls == 0
  {
    InvHolds(b, i);
  }

  /** A run either drains or gives up draining, never both. */
  lemma DrainOrTooEarly(b: seq<State>, i: nat)
    requires IsRun(b) && i < |b|
    ensures !(b[i].drainCalls > 0 && b[i].stopWithoutDrain)
  {
    InvHolds(b, i);
  }

  // ---- a serving node is drained ----

  /** The drain goroutine raises the flag in step `j`. */
  ghost predicate RaisedAt(b: seq<State>, j: nat) {
    j + 1 < |b| && !b[j].draining && b[j + 1].draining
  }

  lemma {:induction false} WasRaised(b: seq<State>, i: nat) returns (j: nat)
    requires IsRun(b) && i < |b| && b[i].draining
    ensures j < i && RaisedAt(b, j)
  {
    if b[i - 1].draining {
      j := WasRaised(b, i - 1);
    } else {
      j := i - 1;
    }
  }

  /** What becomes of the drain goroutine that found a server started, or not. */
  ghost predicate Fate(s: State, started: bool) {
    && s.draining
    && if started then !s.drainer.TooEarly? && !s.stopWithoutDrain else s.drainer.TooEarly? || s.stopWithoutDrain
  }

  lemma FateOfDrain(s: State, a: DrainAct, started: bool)
    requires DrainerInv(s) && DrainEnabled(s, a)
    requires if s.draining then Fate(s, started) else s.started == started
    ensures Fate(DoDrain(s, a), started)
  {
    match a
    case RaiseDraining => assert Fate(DoDrain(s, RaiseDraining), started);
    case CloseTooEarly => assert Fate(DoDrain(s, CloseTooEarly), started);
    case CallDrain => assert Fate(DoDrain(s, CallDrain), started);
    case DrainReturns(reply) => assert Fate(DoDrain(s, DrainReturns(reply)), started);
    case CallStop => assert Fate(DoDrain(s, CallStop), started);
  }

  lemma FateStays(s: State, r: State, started: bool)
    requires s.draining ==> Fate(s, started) && r.drainer == s.drainer
    requires r.draining == s.draining && r.stopWithoutDrain == s.stopWithoutDrain
    ensures r.draining ==> Fate(r, started)
  {
  }

  lemma FateOfMain(s: State, a: MainAct, started: bool)
    requires DrainerInv(s) && MainEnabled(s, a) && (s.draining ==> Fate(s, started))
    ensures DoMain(s, a).draining == s.draining && (s.draining ==> Fate(DoMain(s, a), started))
  {
    if a.TakeSignal? {
      assert !s.draining;
    } else {
      FateStays(s, DoMain(s, a), started);
    }
  }

  lemma FateStep(s: State, step: Step, started: bool)
    requires DrainerInv(s) && Enabled(s, step)
    requires if s.draining then Fate(s, started) else s.started == started
    ensures Do(s, step).draining ==> Fate(Do(s, step), started)
    ensures s.draining ==> Do(s, step).draining
  {
    match step
    case S(a) => FateStays(s, DoStartup(s, a), started);
    case M(a) => FateOfMain(s, a, started);
    case D(a) => FateOfDrain(s, a, started);
    case T(a) => FateStays(s, Do(s, T(a)), started);
  }

  lemma FateNext(s: State, s': State, started: bool)
    requires DrainerInv(s) && Next(s, s') && (if s.draining then Fate(s, started) else s.started == started)
    ensures s'.draining ==> Fate(s', started)
    ensures s.draining ==> s'.draining
  {
    var step :| Enabled(s, step) && s' == Do(s, step);
    FateStep(s, step, started);
  }

  lemma DrainerHolds(b: seq<State>, i: nat)
    requires IsRun(b) && i < |b|
    ensures DrainerInv(b[i])
  {
    InvHolds(b, i);
  }

  lemma {:induction false} FateHolds(b: seq<State>, j: nat, i: nat)
    requires IsRun(b) && RaisedAt(b, j) && j < i < |b|
    ensures Fate(b[i], b[j].started)
  {
    DrainerHolds(b, i - 1);
    assert Next(b[i - 1], b[i]);
    if i > j + 1 {
      FateHolds(b, j, i - 1);
    }
    FateNext(b[i - 1], b[i], b[j].started);
  }

  /**
  A node that was serving when the flag was raised is never stopped without a drain: when the drain goroutine
  goes on to stop it, Drain has been called until it failed or nothing was left, and when that goroutine has
  returned, the stopper has been told.  One that was not is never drained.
  */
  lemma DrainsExactlyWhenStarted(b: seq<State>, j: nat, i: nat)
    requires IsRun(b) && RaisedAt(b, j) && j < i < |b|
    ensures b[j].started && (b[i].drainer.Stopping? || b[i].drainer.DrainerOver?) ==> DrainedOut(b[i])
    ensures b[j].started && b[i].drainer.DrainerOver? ==> b[i].quiescing
    ensures b[i].drainer.DrainerOver? ==> (b[i].drainCalls > 0 <==> b[j].started)
    ensures b[i].stopWithoutDrain ==> !b[j].started
    ensures !b[j].started ==> b[i].drainCalls == 0 && (b[i].drainer.DrainerOver? ==> b[i].stopWithoutDrain)
  {
    InvHolds(b, i);
    FateHolds(b, j, i);
  }

  /**
  The main goroutine returns only for a reason: before any signal on a startup error or once the stopper has
  stopped; after one once the stopper has stopped, it was too early to drain, or a harder signal came.  A
  further SIGTERM is no reason, and a startup error is one only if startup failed.
  */
  lemma ReturnsForAReason(b: seq<State>, i: nat)
    requires IsRun(b) && i < |b|
    ensures b[i].main.Returned? ==>
              if b[i].drainer.NotLaunched? then b[i].errSent || b[i].stopped
              else b[i].stopped || b[i].stopWithoutDrain || b[i].forced
    ensures b[i].stopped ==> b[i].quiescing
    ensures b[i].errSent <==> b[i].startup == StartupOver(true)
  {
    InvHolds(b, i);
  }

  lemma Grow(b: seq<State>, step: Step) returns (b': seq<State>)
    requires IsRun(b) && Enabled(b[|b| - 1], step)
    ensures IsRun(b') && b' == b + [Do(b[|b| - 1], step)]
  {
    b' := b + [Do(b[|b| - 1], step)];
    NextBy(b[|b| - 1], step);
    forall i | 0 <= i < |b'| - 1
      ensures Next(b'[i], b'[i + 1])
    {
      assert i < |b| - 1 ==> Next(b[i], b[i + 1]);
    }
  }

  /** A run that starts a node. */
  lemma Serves() returns (b: seq<State>)
    ensures IsRun(b)
    ensures b[|b| - 1] == START.(startup := Serving, started := true, preStartCalls := 1, preStartOk := true)
  {
    assert IsRun([START]);
    b := Grow([START], S(Create(true)));
    b := Grow(b, S(Check));
    b := Grow(b, S(CallPreStart));
    b := Grow(b, S(PreStartReturns(true)));
    b := Grow(b, S(SetStarted));
  }

  /** Such a run can go on to drain the node twice, stop it, and return. */
  lemma DrainIsPossible() returns (b: seq<State>)
    ensures IsRun(b)
    ensures var s := b[|b| - 1];
            s.main.Returned? && s.drainer.DrainerOver? && s.stopped && s.replies == [Remaining(1), Remaining(0)]
  {
    b := Serves();
    b := Grow(b, M(TakeSignal));
    b := Grow(b, D(RaiseDraining));
    b := Grow(b, D(CallDrain));
    b := Grow(b, D(DrainReturns(Remaining(1))));
    b := Grow(b, D(CallDrain));
    b := Grow(b, D(DrainReturns(Remaining(0))));
    b := Grow(b, D(CallStop));
    b := Grow(b, T(Stop));
    b := Grow(b, M(SeeStopped));
  }

  /**
  "A server must not start after draining has begun" can fail, and exactly this way: the flag was
  raised between startup's look at it and its call of PreStart.
  */
  lemma LateStartExactly(b: seq<State>, i: nat)
    requires IsRun(b) && i < |b|
    ensures b[i].lateStart <==> b[i].raisedInWindow && b[i].preStartCalls > 0
  {
    InvHolds(b, i);
  }

  lemma NextBy(s: State, step: Step)
    requires Enabled(s, step)
    ensures Next(s, Do(s, step))
  {
  }

  lemma LateStartIsPossible() returns (b: seq<State>)
    ensures IsRun(b) && b[|b| - 1].lateStart && b[|b| - 1].startup.PreStarting?
  {
    var s1 := Do(START, S(Create(true)));
    var s2 := Do(s1, S(Check));
    var s3 := Do(s2, M(TakeSignal));
    var s4 := Do(s3, D(RaiseDraining));
    var s5 := Do(s4, S(CallPreStart));
    NextBy(START, S(Create(true)));
    NextBy(s1, S(Check));
    NextBy(s2, M(TakeSignal));
    NextBy(s3, D(RaiseDraining));
    NextBy(s4, S(CallPreStart));
    b := [START, s1, s2, s3, s4, s5];
  }

  // ---- the drain loop ----

  const MAX_UINT64: nat := 0xFFFF_FFFF_FFFF_FFFF

  /** What was reported before the k-th call. */
  function Previous(replies: seq<Reply>, k: nat): nat
    requires k <= |replies|
  {
    if k == 0 || replies[k - 1].DrainFailed? then MAX_UINT64 else replies[k - 1].n
  }

  /** The k-th reply reports no progress over the one before it. */
  predicate Stalled(replies: seq<Reply>, k: nat)
    requires k < |replies|
  {
    replies[k].Remaining? && replies[k].n >= Previous(replies, k)
  }

  /**
  Drain is retried until it fails or reports nothing left, and is called verbosely from the first
  report of no progress on.  `replies` is what the server answers, as far as the loop is observed.
  */
  method DrainLoop(replies: seq<Reply>) returns (verbosity: seq<bool>, finished: bool)
    ensures |verbosity| <= |replies|
    ensures finished <==> |verbosity| > 0 && (replies[|verbosity| - 1].DrainFailed? || replies[|verbosity| - 1].n == 0)
    ensures !finished ==> |verbosity| == |replies|
    ensures forall k | 0 <= k < |verbosity| - 1 :: replies[k].Remaining? && replies[k].n > 0
    ensures forall k | 0 <= k < |verbosity| :: verbosity[k] <==> exists j | 0 <= j < k :: Stalled(replies, j)
  {
    var remaining, prevRemaining, verbose := MAX_UINT64, MAX_UINT64, false;
    verbosity, finished := [], false;
    for i := 0 to |replies|
      invariant |verbosity| == i && !finished
      invariant prevRemaining == Previous(replies, i)
      invariant verbose <==> exists j | 0 <= j < i :: Stalled(replies, j)
      invariant forall k | 0 <= k < i :: replies[k].Remaining? && replies[k].n > 0
      invariant forall k | 0 <= k < i :: verbosity[k] <==> exists j | 0 <= j < k :: Stalled(replies, j)
    {
      verbosity := verbosity + [verbose];
      if replies[i].DrainFailed? {
        finished := true;
        break;
      }
      remaining := replies[i].n;
      if remaining == 0 {
        finished := true;
        break;
      }
      if remaining >= prevRemaining {
        assert Stalled(replies, i);
        verbose := true;
      }
      prevRemaining := remaining;
    }
  }
}
