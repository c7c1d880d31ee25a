/**
The merge over its buffered streams.  Every stream has its own goroutine; they share one context,
which is done as soon as a goroutine has returned an error.  A goroutine blocked with an entry in hand
may then give up, and the merge takes the end of its channel for the end of its file.

A run is any interleaving of the goroutines and of the reader, which emits the entry at the root of the
heap and then waits for that stream's next one.
*/
module BufferedMerge {
  import opened LogEntries
  import opened MergeHeap
  import B = BufferedStream

  datatype State = State(
    streams: seq<B.Stream>,
    cancelled: bool,        // the context is done
    l: seq<nat>,            // the heap
    awaiting: bool,         // the root's entry was emitted, and its next one is being waited for
    out: seq<Tagged>)       // emitted so far

  /** What the heap compares: the entry each stream holds ready, or nothing once it has ended. */
  function Keys(ss: seq<B.Stream>): (r: Rest)
    ensures |r| == |ss| && forall k | 0 <= k < |ss| :: r[k] == if ss[k].ok then [ss[k].e] else []
  {
    seq(|ss|, k requires 0 <= k < |ss| => if ss[k].ok then [ss[k].e] else [])
  }

  function Streams(inputs: seq<Input>): (r: seq<B.Stream>)
    ensures |r| == |inputs| && forall k | 0 <= k < |inputs| :: r[k] == B.Start(inputs[k].entries)
  {
    seq(|inputs|, k requires 0 <= k < |inputs| => B.Start(inputs[k].entries))
  }

  /** newMergedStream returned: no file failed before its first entry. */
  predicate AllOpened(inputs: seq<Input>) {
    forall k | 0 <= k < |inputs| :: inputs[k].fails ==> inputs[k].entries != []
  }

  /** heap.Init may leave any heap order. */
  ghost predicate IsStart(inputs: seq<Input>, s: State) {
    && s == State(Streams(inputs), false, s.l, false, [])
    && Named(s.l, Keys(s.streams)) && Heap(Keys(s.streams), s.l) && Holds(Keys(s.streams), multiset(s.l))
  }

  /** `order` is the heap after the awaited read. */
  datatype Step = Produce(k: nat, act: B.Act) | Raise | Emit | Launch | Receive(order: seq<nat>)

  predicate RootIs(s: State) { s.l != [] && s.l[0] < |s.streams| }

  function Root(s: State): B.Stream
    requires RootIs(s)
  {
    s.streams[s.l[0]]
  }

  /** The goroutine of stream `k` returned an error. */
  predicate Failed(inputs: seq<Input>, ss: seq<B.Stream>, k: nat) {
    k < |inputs| && k < |ss| && inputs[k].fails && B.CameToEnd(ss[k])
  }

  ghost predicate SomeFailed(inputs: seq<Input>, ss: seq<B.Stream>) {
    exists k: nat :: Failed(inputs, ss, k)
  }

  /** The streams once the awaited read has completed. */
  function AfterRead(s: State): seq<B.Stream>
    requires RootIs(s) && B.Can(Root(s), s.cancelled, B.Receive)
  {
    s.streams[s.l[0] := B.Did(Root(s), s.cancelled, B.Receive)]
  }

  /** What mergedStream.pop makes of the heap: stuck on a stream that failed, otherwise reordered. */
  ghost predicate Settles(inputs: seq<Input>, s: State, order: seq<nat>)
    requires RootIs(s) && B.Can(Root(s), s.cancelled, B.Receive) && Named(s.l, Keys(s.streams))
  {
    var k, ss := s.l[0], AfterRead(s);
    if !ss[k].ok && Failed(inputs, ss, k) then order == s.l else Reordered(Keys(ss), s.l, order)
  }

  ghost predicate Enabled(inputs: seq<Input>, s: State, step: Step) {
    match step
    case Produce(k, act) => k < |s.streams| && B.ByProducer(act) && B.Can(s.streams[k], s.cancelled, act)
    case Raise => !s.cancelled && SomeFailed(inputs, s.streams)
    case Emit => !s.awaiting && RootIs(s) && B.Can(Root(s), s.cancelled, B.Take)
    case Launch => s.awaiting && RootIs(s) && B.Can(Root(s), s.cancelled, B.Launch)
    case Receive(order) =>
      && s.awaiting && RootIs(s) && B.Can(Root(s), s.cancelled, B.Receive)
      && Named(s.l, Keys(s.streams)) && Settles(inputs, s, order)
  }

  ghost function Do(inputs: seq<Input>, s: State, step: Step): State
    requires Enabled(inputs, s, step)
  {
    match step
    case Produce(k, act) => s.(streams := s.streams[k := B.Did(s.streams[k], s.cancelled, act)])
    case Raise => s.(cancelled := true)
    case Emit =>
      s.(streams := s.streams[s.l[0] := B.Did(Root(s), s.cancelled, B.Take)],
         out := s.out + [Tagged(s.l[0], Root(s).e)], awaiting := true)
    case Launch => s.(streams := s.streams[s.l[0] := B.Did(Root(s), s.cancelled, B.Launch)])
    case Receive(order) => s.(streams := AfterRead(s), l := order, awaiting := false)
  }

  ghost predicate Next(inputs: seq<Input>, s: State, s': State) {
    exists step :: Enabled(inputs, s, step) && s' == Do(inputs, s, step)
  }

  ghost predicate IsRun(inputs: seq<Input>, b: seq<State>) {
    && AllOpened(inputs) && b != [] && IsStart(inputs, b[0])
    && forall i | 0 <= i < |b| - 1 :: Next(inputs, b[i], b[i + 1])
  }

  /** The stream at the root has ended and stays there. */
  predicate StuckAtRoot(s: State) { !s.awaiting && RootIs(s) && !Root(s).ok }

  /** The reader is offered nothing more. */
  predicate Over(s: State) { !s.awaiting && (s.l == [] || StuckAtRoot(s)) }

  // ---- the invariant ----

  ghost predicate StreamOk(inputs: seq<Input>, ss: seq<B.Stream>, k: nat) {
    k < |inputs| && k < |ss| && B.Inv(ss[k], inputs[k].entries)
  }

  ghost predicate StreamsOk(inputs: seq<Input>, ss: seq<B.Stream>) {
    |ss| == |inputs| && forall k: nat | k < |ss| :: StreamOk(inputs, ss, k)
  }

  /** Only the awaited stream has no entry ready. */
  ghost predicate Ready(s: State) {
    && (s.awaiting ==> RootIs(s) && Root(s).ok && !Root(s).read)
    && forall k | 0 <= k < |s.streams| && s.streams[k].ok :: s.streams[k].read || (s.awaiting && s.l[0] == k)
  }

  predicate Member(s: State, k: nat)
    requires k < |s.streams|
  {
    s.streams[k].ok || (StuckAtRoot(s) && s.l[0] == k)
  }

  /** The heap holds the streams that have not ended, and the one it is stuck on. */
  ghost predicate Members(s: State) {
    && (forall i | 0 <= i < |s.l| :: s.l[i] < |s.streams|)
    && forall k: nat | k < |s.streams| :: multiset(s.l)[k] == if Member(s, k) then 1 else 0
  }

  /** In heap order; while the root's next entry is awaited, everywhere but at the root. */
  ghost predicate Ordered(s: State) {
    && Named(s.l, Keys(s.streams))
    && (s.awaiting ==> Sinking(Keys(s.streams), s.l, 0, |s.l|, 0))
    && (!s.awaiting && !StuckAtRoot(s) ==> Heap(Keys(s.streams), s.l))
  }

  /** Only a failure cancels, only a cancelled stream gives up, and a failure that was read holds the root. */
  ghost predicate Causes(inputs: seq<Input>, s: State) {
    && (s.cancelled ==> SomeFailed(inputs, s.streams))
    && (forall k | 0 <= k < |s.streams| && B.GaveUp(s.streams[k]) :: s.cancelled)
    && (forall k: nat | Failed(inputs, s.streams, k) && !s.streams[k].ok :: StuckAtRoot(s) && s.l[0] == k)
    && (StuckAtRoot(s) ==> Failed(inputs, s.streams, s.l[0]))
  }

  predicate JustEmitted(out: seq<Tagged>, delivered: seq<Entry>) {
    out != [] && delivered != [] && out[|out| - 1].entry == delivered[|delivered| - 1]
  }

  ghost predicate Emitted(s: State) {
    && (forall i | 0 <= i < |s.out| :: s.out[i].file < |s.streams|)
    && (forall k: nat | k < |s.streams| :: From(s.out, k) == s.streams[k].delivered)
    && (s.awaiting ==> RootIs(s) && JustEmitted(s.out, Root(s).delivered))
  }

  ghost predicate NotBeforeOut(out: seq<Tagged>, t: int) {
    forall i | 0 <= i < |out| :: out[i].entry.time <= t
  }

  /** In time order, and nothing ready is earlier than anything emitted. */
  ghost predicate InTime(s: State) {
    && SortedTagged(s.out)
    && forall k | 0 <= k < |s.streams| && s.streams[k].ok && s.streams[k].read ::
         NotBeforeOut(s.out, s.streams[k].e.time)
  }

  ghost predicate Inv(inputs: seq<Input>, s: State) {
    && StreamsOk(inputs, s.streams) && Ready(s) && Members(s) && Ordered(s)
    && Causes(inputs, s) && Emitted(s)
    && (AllSorted(inputs) ==> InTime(s))
  }

  lemma StartStreams(inputs: seq<Input>)
    ensures StreamsOk(inputs, Streams(inputs))
  {
    forall k: nat | k < |inputs|
      ensures StreamOk(inputs, Streams(inputs), k)
    {
      B.StartInv(inputs[k].entries);
    }
  }

  lemma StartMembers(inputs: seq<Input>, s: State)
    requires IsStart(inputs, s)
    ensures Members(s) && Ordered(s) && !StuckAtRoot(s)
  {
    if s.l != [] {
      HeldRoot(Keys(s.streams), s.l);
    }
  }

  lemma StartHolds(inputs: seq<Input>, s: State)
    requires AllOpened(inputs) && IsStart(inputs, s)
    ensures Inv(inputs, s)
  {
    StartStreams(inputs);
    StartMembers(inputs, s);
  }

  lemma StreamsOkUpdate(inputs: seq<Input>, ss: seq<B.Stream>, k: nat, x: B.Stream)
    requires StreamsOk(inputs, ss) && k < |ss| && B.Inv(x, inputs[k].entries)
    ensures StreamsOk(inputs, ss[k := x])
  {
    var ss' := ss[k := x];
    forall j: nat | j < |ss|
      ensures StreamOk(inputs, ss', j)
    {
      assert StreamOk(inputs, ss, j);
    }
  }

  lemma ActOk(inputs: seq<Input>, s: State, k: nat, act: B.Act)
    requires StreamsOk(inputs, s.streams) && k < |s.streams| && B.Can(s.streams[k], s.cancelled, act)
    ensures StreamsOk(inputs, s.streams[k := B.Did(s.streams[k], s.cancelled, act)])
  {
    assert StreamOk(inputs, s.streams, k);
    B.ActKeeps(s.streams[k], s.cancelled, act, inputs[k].entries);
    StreamsOkUpdate(inputs, s.streams, k, B.Did(s.streams[k], s.cancelled, act));
  }

  // ---- steps of the goroutines ----

  /** What the reader sees of a stream. */
  predicate SameView(x: B.Stream, y: B.Stream) {
    x.ok == y.ok && x.read == y.read && x.e == y.e && x.delivered == y.delivered
  }

  /** A stream changes behind the reader's back. */
  lemma HiddenView(s: State, k: nat, x: B.Stream)
    requires k < |s.streams| && SameView(s.streams[k], x) && Ready(s) && Members(s) && Ordered(s) && Emitted(s)
    ensures var s' := s.(streams := s.streams[k := x]);
            && Ready(s') && Members(s') && Ordered(s') && Emitted(s')
            && (InTime(s) ==> InTime(s')) && StuckAtRoot(s') == StuckAtRoot(s)
  {
    var s' := s.(streams := s.streams[k := x]);
    assert Keys(s'.streams) == Keys(s.streams);
    assert forall j: nat | j < |s.streams| :: Member(s', j) == Member(s, j);
  }

  lemma HiddenCauses(inputs: seq<Input>, s: State, k: nat, x: B.Stream)
    requires Causes(inputs, s) && k < |s.streams| && SameView(s.streams[k], x)
    requires s.streams[k].producer.Finished? ==> x.producer == s.streams[k].producer
    requires B.GaveUp(x) ==> s.cancelled
    requires !x.ok ==> s.streams[k].producer.Finished?
    ensures Causes(inputs, s.(streams := s.streams[k := x]))
  {
    var s' := s.(streams := s.streams[k := x]);
    assert StuckAtRoot(s') == StuckAtRoot(s);
    if s.cancelled {
      var j: nat :| Failed(inputs, s.streams, j);
      assert Failed(inputs, s'.streams, j);
    }
    forall j: nat | Failed(inputs, s'.streams, j) && !s'.streams[j].ok
      ensures StuckAtRoot(s') && s'.l[0] == j
    {
      assert Failed(inputs, s.streams, j);
    }
  }

  lemma HiddenStep(inputs: seq<Input>, s: State, k: nat, act: B.Act)
    requires Inv(inputs, s) && k < |s.streams| && B.Can(s.streams[k], s.cancelled, act)
    requires B.ByProducer(act) || act.Launch?
    ensures Inv(inputs, s.(streams := s.streams[k := B.Did(s.streams[k], s.cancelled, act)]))
  {
    var x := B.Did(s.streams[k], s.cancelled, act);
    ActOk(inputs, s, k, act);
    assert StreamOk(inputs, s.streams, k);
    HiddenView(s, k, x);
    HiddenCauses(inputs, s, k, x);
  }

  // ---- steps of the reader ----

  /** No stream that is ready has anything before the root's entry. */
  lemma RootComesFirst(s: State, k: nat)
    requires Members(s) && Ordered(s) && !s.awaiting && RootIs(s) && Root(s).ok && k < |s.streams| && s.streams[k].ok
    ensures Root(s).e.time <= s.streams[k].e.time
  {
    assert Member(s, k);
    assert k in multiset(s.l);
    var j :| 0 <= j < |s.l| && s.l[j] == k;
    RootIsLeast(Keys(s.streams), s.l, j);
  }

  lemma EmitEmits(inputs: seq<Input>, s: State)
    requires Emitted(s) && Enabled(inputs, s, Emit)
    ensures Emitted(Do(inputs, s, Emit))
  {
    var s' := Do(inputs, s, Emit);
    forall k: nat | k < |s'.streams|
      ensures From(s'.out, k) == s'.streams[k].delivered
    {
      FromAppend(s.out, Tagged(s.l[0], Root(s).e), k);
    }
  }

  lemma EmitInTime(inputs: seq<Input>, s: State)
    requires Members(s) && Ordered(s) && Enabled(inputs, s, Emit) && InTime(s)
    ensures InTime(Do(inputs, s, Emit))
  {
    var s' := Do(inputs, s, Emit);
    forall k | 0 <= k < |s'.streams| && s'.streams[k].ok && s'.streams[k].read
      ensures NotBeforeOut(s'.out, s'.streams[k].e.time)
    {
      assert NotBeforeOut(s.out, s.streams[k].e.time);
      RootComesFirst(s, k);
    }
  }

  lemma EmitMembers(inputs: seq<Input>, s: State)
    requires Members(s) && Ready(s) && Ordered(s) && Enabled(inputs, s, Emit)
    ensures Members(Do(inputs, s, Emit)) && Ready(Do(inputs, s, Emit)) && Ordered(Do(inputs, s, Emit))
  {
    var s' := Do(inputs, s, Emit);
    assert forall j: nat | j < |s.streams| :: Member(s', j) == Member(s, j);
    assert Keys(s'.streams) == Keys(s.streams);
  }

  lemma EmitKeeps(inputs: seq<Input>, s: State)
    requires Inv(inputs, s) && Enabled(inputs, s, Emit)
    ensures Inv(inputs, Do(inputs, s, Emit))
  {
    ActOk(inputs, s, s.l[0], B.Take);
    EmitMembers(inputs, s);
    EmitEmits(inputs, s);
    if AllSorted(inputs) {
      EmitInTime(inputs, s);
    }
    CausesStay(inputs, s, Do(inputs, s, Emit));
  }

  /** The goroutines are as they were. */
  lemma CausesStay(inputs: seq<Input>, s: State, s': State)
    requires Causes(inputs, s) && |s'.streams| == |s.streams| && s'.cancelled == s.cancelled
    requires forall k | 0 <= k < |s.streams| :: s'.streams[k].producer == s.streams[k].producer
    requires forall k: nat | Failed(inputs, s.streams, k) && !s'.streams[k].ok :: StuckAtRoot(s') && s'.l[0] == k
    requires StuckAtRoot(s') ==> Failed(inputs, s.streams, s'.l[0])
    ensures Causes(inputs, s')
  {
    assert forall k: nat :: Failed(inputs, s'.streams, k) == Failed(inputs, s.streams, k);
  }

  // ---- the awaited read ----

  lemma RootInHeap(s: State)
    requires s.l != []
    ensures multiset(s.l)[s.l[0]] >= 1
  {
    assert s.l[0] in multiset(s.l);
  }

  /** The streams in the new heap have not ended. */
  lemma NewRoot(s: State, ss: seq<B.Stream>, order: seq<nat>)
    requires Members(s) && s.awaiting && RootIs(s) && |ss| == |s.streams|
    requires forall k | 0 <= k < |ss| && k != s.l[0] :: ss[k] == s.streams[k]
    requires Reordered(Keys(ss), s.l, order) && order != []
    ensures order[0] < |ss| && ss[order[0]].ok
  {
    assert order[0] in multiset(order);
    RootInHeap(s);
    assert multiset(s.l)[order[0]] == 1;
    assert Member(s, order[0]);
  }

  lemma ReadStuck(inputs: seq<Input>, s: State, s': State)
    requires Members(s) && s.awaiting && RootIs(s) && Root(s).ok && |s'.streams| == |s.streams|
    requires forall k | 0 <= k < |s.streams| && k != s.l[0] :: s'.streams[k] == s.streams[k]
    requires !s'.streams[s.l[0]].ok && s'.l == s.l && !s'.awaiting
    ensures StuckAtRoot(s') && Members(s') && Ordered(s')
  {
    assert forall j: nat | j < |s.streams| :: Member(s', j) == Member(s, j);
  }

  lemma ReadOn(inputs: seq<Input>, s: State, s': State)
    requires Members(s) && s.awaiting && RootIs(s) && Root(s).ok && |s'.streams| == |s.streams|
    requires forall k | 0 <= k < |s.streams| && k != s.l[0] :: s'.streams[k] == s.streams[k]
    requires Reordered(Keys(s'.streams), s.l, s'.l) && !s'.awaiting
    ensures !StuckAtRoot(s') && Members(s') && Ordered(s')
  {
    var k := s.l[0];
    RootInHeap(s);
    if s'.l != [] {
      NewRoot(s, s'.streams, s'.l);
    }
    assert !StuckAtRoot(s');
    assert forall j: nat | j < |s.streams| :: Member(s', j) == (Member(s, j) && (j != k || s'.streams[k].ok));
  }

  lemma ReadMembers(inputs: seq<Input>, s: State, order: seq<nat>)
    requires Members(s) && Ready(s) && Enabled(inputs, s, Receive(order))
    ensures var s' := Do(inputs, s, Receive(order));
            && Members(s') && Ordered(s')
            && (StuckAtRoot(s') <==> !s'.streams[s.l[0]].ok && Failed(inputs, s.streams, s.l[0]))
            && (StuckAtRoot(s') ==> s'.l == s.l)
  {
    var s', k := Do(inputs, s, Receive(order)), s.l[0];
    assert Failed(inputs, AfterRead(s), k) == Failed(inputs, s.streams, k);
    if !s'.streams[k].ok && Failed(inputs, s'.streams, k) {
      ReadStuck(inputs, s, s');
    } else {
      ReadOn(inputs, s, s');
    }
  }

  lemma ReadCauses(inputs: seq<Input>, s: State, s': State)
    requires Causes(inputs, s) && s.awaiting && RootIs(s) && Root(s).ok && s'.cancelled == s.cancelled
    requires |s'.streams| == |s.streams|
    requires forall k | 0 <= k < |s.streams| && k != s.l[0] :: s'.streams[k] == s.streams[k]
    requires s'.streams[s.l[0]].producer == Root(s).producer
    requires StuckAtRoot(s') <==> !s'.streams[s.l[0]].ok && Failed(inputs, s.streams, s.l[0])
    requires StuckAtRoot(s') ==> s'.l == s.l
    ensures Causes(inputs, s')
  {
    CausesStay(inputs, s, s');
  }

  lemma ReadNext(inputs: seq<Input>, s: State)
    requires StreamsOk(inputs, s.streams) && s.awaiting && RootIs(s) && B.Can(Root(s), s.cancelled, B.Receive)
    requires AllSorted(inputs) && Emitted(s) && InTime(s) && AfterRead(s)[s.l[0]].ok
    ensures NotBeforeOut(s.out, AfterRead(s)[s.l[0]].e.time)
  {
    var k := s.l[0];
    var x, all := s.streams[k], inputs[k].entries;
    assert StreamOk(inputs, s.streams, k);
    B.ReceivesNext(x, all);
    assert all[|x.delivered| - 1] == x.delivered[|x.delivered| - 1];
    assert all[|x.delivered| - 1].time <= all[|x.delivered|].time;
  }

  lemma ReadInTime(inputs: seq<Input>, s: State, s': State)
    requires InTime(s) && RootIs(s) && s'.out == s.out
    requires |s'.streams| == |s.streams|
    requires forall k | 0 <= k < |s.streams| && k != s.l[0] :: s'.streams[k] == s.streams[k]
    requires s'.streams[s.l[0]].ok ==> NotBeforeOut(s.out, s'.streams[s.l[0]].e.time)
    ensures InTime(s')
  {
  }

  lemma ReadKeeps(inputs: seq<Input>, s: State, order: seq<nat>)
    requires Inv(inputs, s) && Enabled(inputs, s, Receive(order))
    ensures Inv(inputs, Do(inputs, s, Receive(order)))
  {
    var s' := Do(inputs, s, Receive(order));
    ActOk(inputs, s, s.l[0], B.Receive);
    ReadMembers(inputs, s, order);
    ReadCauses(inputs, s, s');
    if AllSorted(inputs) {
      if s'.streams[s.l[0]].ok {
        ReadNext(inputs, s);
      }
      ReadInTime(inputs, s, s');
    }
  }

  lemma InvStep(inputs: seq<Input>, s: State, step: Step)
    requires Inv(inputs, s) && Enabled(inputs, s, step)
    ensures Inv(inputs, Do(inputs, s, step))
  {
    match step
    case Produce(k, act) => HiddenStep(inputs, s, k, act);
    case Raise =>
    case Emit => EmitKeeps(inputs, s);
    case Launch => HiddenStep(inputs, s, s.l[0], B.Launch);
    case Receive(order) => ReadKeeps(inputs, s, order);
  }

  lemma {:induction false} InvHolds(inputs: seq<Input>, b: seq<State>, i: nat)
    requires IsRun(inputs, b) && i < |b|
    ensures Inv(inputs, b[i])
  {
    if i == 0 {
      StartHolds(inputs, b[0]);
    } else {
      InvHolds(inputs, b, i - 1);
      assert Next(inputs, b[i - 1], b[i]);
      var step :| Enabled(inputs, b[i - 1], step) && b[i] == Do(inputs, b[i - 1], step);
      InvStep(inputs, b[i - 1], step);
    }
  }

  // ---- results ----

  ghost predicate AnyFails(inputs: seq<Input>) { exists k | 0 <= k < |inputs| :: inputs[k].fails }

  /** In every run, failing or not: a prefix of every file, in time order. */
  lemma AlwaysInOrder(inputs: seq<Input>, b: seq<State>, i: nat)
    requires IsRun(inputs, b) && i < |b|
    ensures AllSorted(inputs) ==> SortedTagged(b[i].out)
    ensures forall j | 0 <= j < |b[i].out| :: b[i].out[j].file < |inputs|
    ensures forall k | 0 <= k < |inputs| :: From(b[i].out, k) <= inputs[k].entries
  {
    InvHolds(inputs, b, i);
    forall k | 0 <= k < |inputs|
      ensures From(b[i].out, k) <= inputs[k].entries
    {
      assert StreamOk(inputs, b[i].streams, k);
      B.DeliversPrefix(b[i].streams[k], inputs[k].entries);
    }
  }

  /** Without a failing file nothing is ever cancelled, and a stream that ends has delivered its whole file. */
  lemma BufferIsTransparent(inputs: seq<Input>, b: seq<State>, i: nat, k: nat)
    requires IsRun(inputs, b) && i < |b| && !AnyFails(inputs) && k < |inputs|
    ensures |b[i].streams| == |inputs| && !b[i].cancelled && !B.GaveUp(b[i].streams[k])
    ensures !b[i].streams[k].ok ==> From(b[i].out, k) == inputs[k].entries
  {
    InvHolds(inputs, b, i);
    assert StreamOk(inputs, b[i].streams, k);
    B.DeliversPrefix(b[i].streams[k], inputs[k].entries);
  }

  /**
  A stream that has ended is missing entries exactly if it gave up.  That takes the failure of another file,
  and a file of two entries or more: the first one is never lost.
  */
  lemma LostExactlyWhen(inputs: seq<Input>, b: seq<State>, i: nat, k: nat)
    requires IsRun(inputs, b) && i < |b| && k < |inputs|
    ensures |b[i].streams| == |inputs|
    ensures !b[i].streams[k].ok ==> (From(b[i].out, k) != inputs[k].entries <==> B.GaveUp(b[i].streams[k]))
    ensures B.GaveUp(b[i].streams[k]) ==> |inputs[k].entries| >= 2
    ensures B.GaveUp(b[i].streams[k]) ==> exists j: nat :: j != k && Failed(inputs, b[i].streams, j)
  {
    InvHolds(inputs, b, i);
    assert StreamOk(inputs, b[i].streams, k);
    B.DeliversPrefix(b[i].streams[k], inputs[k].entries);
    if B.GaveUp(b[i].streams[k]) {
      var j: nat :| Failed(inputs, b[i].streams, j);
      assert j != k;
    }
  }

  lemma EndedStream(inputs: seq<Input>, s: State, k: nat)
    requires Inv(inputs, s) && Over(s) && s.l == [] && k < |inputs|
    ensures !s.streams[k].ok && !Failed(inputs, s.streams, k)
  {
    assert !Member(s, k);
    assert StreamOk(inputs, s.streams, k);
  }

  /**
  When the reader is offered nothing more, it is given an error exactly if some file fails; if none
  does, the output is a complete interleaving.
  */
  lemma FailureIsReported(inputs: seq<Input>, b: seq<State>)
    requires IsRun(inputs, b) && Over(b[|b| - 1])
    ensures StuckAtRoot(b[|b| - 1]) <==> AnyFails(inputs)
    ensures !AnyFails(inputs) ==> Interleaves(b[|b| - 1].out, Entries(inputs))
    ensures StuckAtRoot(b[|b| - 1]) ==>
              var k := b[|b| - 1].l[0]; k < |inputs| && inputs[k].fails && From(b[|b| - 1].out, k) == inputs[k].entries
  {
    var n, s := |b| - 1, b[|b| - 1];
    InvHolds(inputs, b, n);
    if s.l == [] {
      forall k: nat | k < |inputs|
        ensures !s.streams[k].ok && !Failed(inputs, s.streams, k)
      {
        EndedStream(inputs, s, k);
      }
      assert !s.cancelled;
      forall k | 0 <= k < |inputs|
        ensures !inputs[k].fails && From(s.out, k) == inputs[k].entries
      {
        assert StreamOk(inputs, s.streams, k) && !B.GaveUp(s.streams[k]);
        B.DeliversPrefix(s.streams[k], inputs[k].entries);
      }
    } else {
      assert StreamOk(inputs, s.streams, s.l[0]);
      B.DeliversPrefix(Root(s), inputs[s.l[0]].entries);
    }
  }

  // ---- every run ends ----

  function Sum(ss: seq<B.Stream>): nat {
    if ss == [] then 0 else B.Work(ss[0]) + Sum(ss[1..])
  }

  lemma {:induction false} SumUpdate(ss: seq<B.Stream>, k: nat, x: B.Stream)
    requires k < |ss|
    ensures Sum(ss[k := x]) == Sum(ss) - B.Work(ss[k]) + B.Work(x)
  {
    if k > 0 {
      assert ss[k := x][1..] == ss[1..][k - 1 := x];
      SumUpdate(ss[1..], k - 1, x);
    }
  }

  lemma {:induction false} SumStart(inputs: seq<Input>)
    ensures Sum(Streams(inputs)) == 4 * Total(Entries(inputs))
  {
    if inputs != [] {
      SumStart(inputs[1..]);
      assert Streams(inputs)[1..] == Streams(inputs[1..]);
      assert Entries(inputs)[1..] == Entries(inputs[1..]);
    }
  }

  function Work(s: State): nat { Sum(s.streams) + if s.cancelled then 0 else 1 }

  lemma ActShrinks(s: State, k: nat, act: B.Act)
    requires k < |s.streams| && B.Can(s.streams[k], s.cancelled, act)
    ensures Sum(s.streams[k := B.Did(s.streams[k], s.cancelled, act)]) < Sum(s.streams)
  {
    B.WorkShrinks(s.streams[k], s.cancelled, act);
    SumUpdate(s.streams, k, B.Did(s.streams[k], s.cancelled, act));
  }

  lemma WorkShrinks(inputs: seq<Input>, s: State, step: Step)
    requires Enabled(inputs, s, step)
    ensures Work(Do(inputs, s, step)) < Work(s)
  {
    match step
    case Produce(k, act) => ActShrinks(s, k, act);
    case Raise =>
    case Emit => ActShrinks(s, s.l[0], B.Take);
    case Launch => ActShrinks(s, s.l[0], B.Launch);
    case Receive(_) => ActShrinks(s, s.l[0], B.Receive);
  }

  lemma {:induction false} RunsAreShort(inputs: seq<Input>, b: seq<State>, i: nat)
    requires IsRun(inputs, b) && i < |b|
    ensures i + Work(b[i]) <= 4 * Total(Entries(inputs)) + 1
  {
    if i == 0 {
      SumStart(inputs);
    } else {
      RunsAreShort(inputs, b, i - 1);
      assert Next(inputs, b[i - 1], b[i]);
      var step :| Enabled(inputs, b[i - 1], step) && b[i] == Do(inputs, b[i - 1], step);
      WorkShrinks(inputs, b[i - 1], step);
    }
  }

  /** The reader, or the goroutine it waits for, can go on. */
  lemma NeverDeadlocked(inputs: seq<Input>, s: State) returns (step: Step)
    requires Inv(inputs, s) && !Over(s)
    ensures Enabled(inputs, s, step) && !step.Raise?
  {
    if !s.awaiting {
      step := Emit;
    } else {
      var k := s.l[0];
      assert StreamOk(inputs, s.streams, k);
      B.CanGoOn(Root(s), s.cancelled, inputs[k].entries);
      if B.Can(Root(s), s.cancelled, B.Launch) {
        step := Launch;
      } else if B.Can(Root(s), s.cancelled, B.PopInner) {
        step := Produce(k, B.PopInner);
      } else if B.Can(Root(s), s.cancelled, B.Send) {
        step := Produce(k, B.Send);
      } else {
        var order := s.l;
        if AfterRead(s)[k].ok || !Failed(inputs, AfterRead(s), k) {
          order := ReorderExists(Keys(AfterRead(s)), s.l);
        }
        step := Receive(order);
      }
    }
  }

  /** Every run is bounded by the number of entries, and no read blocks for ever: a run that is not over can go on. */
  lemma MergeTerminates(inputs: seq<Input>, b: seq<State>)
    requires IsRun(inputs, b)
    ensures |b| <= 4 * Total(Entries(inputs)) + 2
    ensures var s := b[|b| - 1]; Over(s) || exists step :: Enabled(inputs, s, step)
  {
    RunsAreShort(inputs, b, |b| - 1);
    InvHolds(inputs, b, |b| - 1);
    if !Over(b[|b| - 1]) {
      var step := NeverDeadlocked(inputs, b[|b| - 1]);
    }
  }

  // ---- runs to the end ----

  /** The streams that have entries, each once. */
  lemma {:induction false} LiveStreams(keys: Rest, n: nat) returns (l: seq<nat>)
    requires n <= |keys|
    ensures forall i | 0 <= i < |l| :: l[i] < n
    ensures forall k: nat | k < |keys| :: multiset(l)[k] == if k < n && keys[k] != [] then 1 else 0
  {
    if n == 0 {
      l := [];
    } else {
      l := LiveStreams(keys, n - 1);
      if keys[n - 1] != [] {
        l := l + [n - 1];
      }
    }
  }

  lemma StartExists(inputs: seq<Input>) returns (s: State)
    ensures IsStart(inputs, s)
  {
    var keys := Keys(Streams(inputs));
    var live := LiveStreams(keys, |keys|);
    var l := HeapOrderExists(keys, live);
    s := State(Streams(inputs), false, l, false, []);
  }

  lemma Extend(inputs: seq<Input>, b: seq<State>, step: Step, s': State)
    requires IsRun(inputs, b) && Enabled(inputs, b[|b| - 1], step) && s' == Do(inputs, b[|b| - 1], step)
    ensures IsRun(inputs, b + [s'])
  {
    var b' := b + [s'];
    assert Next(inputs, b[|b| - 1], s');
    forall i | 0 <= i < |b'| - 1
      ensures Next(inputs, b'[i], b'[i + 1])
    {
      if i < |b| - 1 {
        assert Next(inputs, b[i], b[i + 1]);
      }
    }
  }

  /** Any run can be continued until the reader is offered nothing more, without a cancellation on the way. */
  lemma {:induction false} RunToEnd(inputs: seq<Input>, b: seq<State>) returns (b': seq<State>)
    requires IsRun(inputs, b)
    ensures IsRun(inputs, b') && b <= b' && Over(b'[|b'| - 1])
    ensures b'[|b'| - 1].cancelled == b[|b| - 1].cancelled
    decreases Work(b[|b| - 1])
  {
    var s := b[|b| - 1];
    if Over(s) {
      b' := b;
    } else {
      InvHolds(inputs, b, |b| - 1);
      var step := NeverDeadlocked(inputs, s);
      var s' := Do(inputs, s, step);
      WorkShrinks(inputs, s, step);
      Extend(inputs, b, step, s');
      b' := RunToEnd(inputs, b + [s']);
    }
  }

  /** There is a run to the end over any files that could be opened. */
  lemma CompleteRun(inputs: seq<Input>) returns (b: seq<State>)
    requires AllOpened(inputs)
    ensures IsRun(inputs, b) && Over(b[|b| - 1])
  {
    var s := StartExists(inputs);
    assert IsRun(inputs, [s]);
    b := RunToEnd(inputs, [s]);
  }

  // ---- the awaited read is what MergedStream does ----

  /** The streams hold ready what comes first in `rest`. */
  ghost predicate Heads(rest: Rest, ss: seq<B.Stream>) {
    && |rest| == |ss|
    && forall k | 0 <= k < |ss| :: if ss[k].ok then rest[k] != [] && rest[k][0] == ss[k].e else rest[k] == []
  }

  lemma HeadsCompare(rest: Rest, ss: seq<B.Stream>, l: seq<nat>)
    requires Heads(rest, ss) && Named(l, rest)
    ensures Named(l, Keys(ss)) && forall i, j :: NotBefore(rest, l, i, j) == NotBefore(Keys(ss), l, i, j)
  {
  }

  /** Reordering by the entries held ready is reordering by everything left. */
  lemma HeadsDecide(rest: Rest, ss: seq<B.Stream>, l: seq<nat>, l': seq<nat>)
    requires Heads(rest, ss) && l != [] && Named(l, rest)
    ensures Reordered(rest, l, l') <==> Reordered(Keys(ss), l, l')
  {
    if Named(l', rest) {
      HeadsCompare(rest, ss, l');
    }
  }

  /** Once the awaited entry has come, the heap is in order everywhere but at the root. */
  lemma ReadDisturbsRoot(inputs: seq<Input>, s: State)
    requires Inv(inputs, s) && s.awaiting && B.Can(Root(s), s.cancelled, B.Receive)
    ensures Named(s.l, Keys(AfterRead(s))) && Sinking(Keys(AfterRead(s)), s.l, 0, |s.l|, 0)
  {
    var k, keys, ss := s.l[0], Keys(s.streams), AfterRead(s);
    assert Member(s, k);
    assert Keys(ss) == keys[k := Keys(ss)[k]];
    RootAdvanced(keys, s.l, Keys(ss)[k]);
  }

  /** What MergedStream makes of its heap after an awaited read is a step of the merge. */
  method Settle(ghost inputs: seq<Input>, ghost s: State, m: MergedStream)
    requires Inv(inputs, s) && s.awaiting && B.Can(Root(s), s.cancelled, B.Receive)
    requires m.l == s.l && Heads(m.rest, AfterRead(s))
    requires AfterRead(s)[s.l[0]].ok || !Failed(inputs, AfterRead(s), s.l[0])
    modifies m`l
    ensures Enabled(inputs, s, Receive(m.l))
  {
    ReadDisturbsRoot(inputs, s);
    HeadsCompare(m.rest, AfterRead(s), m.l);
    m.Restore();
    HeadsDecide(m.rest, AfterRead(s), s.l, m.l);
  }

  // ---- a failing file can cost another file its last entries ----

  ghost predicate Reaches(inputs: seq<Input>, s: State) {
    exists b :: IsRun(inputs, b) && b[|b| - 1] == s
  }

  lemma ReachRun(inputs: seq<Input>, b: seq<State>)
    requires IsRun(inputs, b)
    ensures Reaches(inputs, b[|b| - 1])
  {
  }

  lemma ReachStart(inputs: seq<Input>, s: State)
    requires AllOpened(inputs) && IsStart(inputs, s)
    ensures Reaches(inputs, s)
  {
    assert IsRun(inputs, [s]);
  }

  lemma ReachStep(inputs: seq<Input>, s: State, step: Step, s': State)
    requires Reaches(inputs, s) && Enabled(inputs, s, step) && s' == Do(inputs, s, step)
    ensures Reaches(inputs, s')
  {
    var b :| IsRun(inputs, b) && b[|b| - 1] == s;
    Extend(inputs, b, step, s');
    ReachRun(inputs, b + [s']);
  }

  /** Stream `k` does `act` without the reader. */
  lemma ReachProduce(inputs: seq<Input>, s: State, k: nat, act: B.Act, x: B.Stream)
    requires Reaches(inputs, s) && k < |s.streams| && B.ByProducer(act) && B.Can(s.streams[k], s.cancelled, act)
    requires x == B.Did(s.streams[k], s.cancelled, act)
    ensures Reaches(inputs, s.(streams := s.streams[k := x]))
  {
    ReachStep(inputs, s, Produce(k, act), s.(streams := s.streams[k := x]));
  }

  lemma ReachEmit(inputs: seq<Input>, s: State, x: B.Stream, out: seq<Tagged>)
    requires Reaches(inputs, s) && !s.awaiting && RootIs(s) && B.Can(Root(s), s.cancelled, B.Take)
    requires x == B.Did(Root(s), s.cancelled, B.Take) && out == s.out + [Tagged(s.l[0], Root(s).e)]
    ensures Reaches(inputs, State(s.streams[s.l[0] := x], s.cancelled, s.l, true, out))
  {
    ReachStep(inputs, s, Emit, State(s.streams[s.l[0] := x], s.cancelled, s.l, true, out));
  }

  lemma ReachLaunch(inputs: seq<Input>, s: State, x: B.Stream)
    requires Reaches(inputs, s) && s.awaiting && RootIs(s) && B.Can(Root(s), s.cancelled, B.Launch)
    requires x == B.Did(Root(s), s.cancelled, B.Launch)
    ensures Reaches(inputs, s.(streams := s.streams[s.l[0] := x]))
  {
    ReachStep(inputs, s, Launch, s.(streams := s.streams[s.l[0] := x]));
  }

  lemma ReachReceive(inputs: seq<Input>, s: State, x: B.Stream, order: seq<nat>)
    requires Reaches(inputs, s) && s.awaiting && RootIs(s) && B.Can(Root(s), s.cancelled, B.Receive)
    requires x == B.Did(Root(s), s.cancelled, B.Receive) && Named(s.l, Keys(s.streams))
    requires x.ok || B.GaveUp(x)
    requires Reordered(Keys(s.streams[s.l[0] := x]), s.l, order)
    ensures Reaches(inputs, State(s.streams[s.l[0] := x], s.cancelled, order, false, s.out))
  {
    ReachStep(inputs, s, Receive(order), State(s.streams[s.l[0] := x], s.cancelled, order, false, s.out));
  }

  /** Heap order of two streams. */
  lemma TwoInOrder(ss: seq<B.Stream>, x: nat, y: nat)
    requires |ss| == 2 && {x, y} == {0, 1} && ss[x].ok && ss[y].ok && ss[x].e.time <= ss[y].e.time
    ensures Named([x, y], Keys(ss)) && Heap(Keys(ss), [x, y]) && multiset([x, y]) == multiset{0, 1}
  {
    assert multiset([x, y]) == multiset{x, y};
    assert x != y;
  }

  lemma TwoReordered(ss: seq<B.Stream>, l: seq<nat>, x: nat, y: nat)
    requires |ss| == 2 && {x, y} == {0, 1} && ss[x].ok && ss[y].ok && ss[x].e.time <= ss[y].e.time
    requires l == [0, 1] || l == [1, 0]
    ensures Named(l, Keys(ss)) && Reordered(Keys(ss), l, [x, y])
  {
    TwoInOrder(ss, x, y);
    assert multiset(l) == multiset{0, 1};
  }
}
