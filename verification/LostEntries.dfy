/**
A run of the merge in which a file that does not fail loses its last entry to another file's failure,
while a later entry of the failing file is still emitted.
*/
module LostEntries {
  import opened LogEntries
  import opened MergeHeap
  import opened BufferedMerge
  import B = BufferedStream

  /** The entries of the two files: the first fails after a1, the second does not fail. */
  datatype Files = Files(a0: Entry, a1: Entry, b0: Entry, b1: Entry, b2: Entry)

  predicate InTurn(f: Files) {
    f.b0.time <= f.a0.time <= f.b1.time <= f.b2.time < f.a1.time
  }

  function Inputs(f: Files): seq<Input> {
    [Input([f.a0, f.a1], true), Input([f.b0, f.b1, f.b2], false)]
  }

  function Going(inner: seq<Entry>, p: B.Producer, chan: seq<Entry>, e: Entry, read: bool, done: seq<Entry>): B.Stream {
    B.Stream(inner, p, chan, e, read, true, done)
  }

  /** Before anything happens. */
  function First(f: Files): State {
    State([Going([f.a1], B.NotStarted, [], f.a0, true, []), Going([f.b1, f.b2], B.NotStarted, [], f.b0, true, [])],
          false, [1, 0], false, [])
  }

  /** b0 is out, and its file's goroutine has been started. */
  function Started(f: Files): State {
    State([Going([f.a1], B.NotStarted, [], f.a0, true, []), Going([f.b1, f.b2], B.Idle, [], f.b0, false, [f.b0])],
          false, [1, 0], true, [Tagged(1, f.b0)])
  }

  /** b1 is ready and the goroutine is blocked on b2; a0 comes next. */
  function Blocked(f: Files): State {
    State([Going([f.a1], B.NotStarted, [], f.a0, true, []), Going([], B.Holding(f.b2), [], f.b1, true, [f.b0])],
          false, [0, 1], false, [Tagged(1, f.b0)])
  }

  /** a0 is out, and its file's goroutine has been started. */
  function Launched(f: Files): State {
    State([Going([f.a1], B.Idle, [], f.a0, false, [f.a0]), Going([], B.Holding(f.b2), [], f.b1, true, [f.b0])],
          false, [0, 1], true, [Tagged(1, f.b0), Tagged(0, f.a0)])
  }

  /** That goroutine has sent a1 and failed. */
  function Broken(f: Files): State {
    State([Going([], B.Finished(false), [f.a1], f.a0, false, [f.a0]),
           Going([], B.Holding(f.b2), [], f.b1, true, [f.b0])],
          false, [0, 1], true, [Tagged(1, f.b0), Tagged(0, f.a0)])
  }

  /** The context is done, the other goroutine has given up on b2, and a1 is ready. */
  function GivenUp(f: Files): State {
    State([Going([], B.Finished(false), [], f.a1, true, [f.a0]), Going([], B.Finished(true), [], f.b1, true, [f.b0])],
          true, [1, 0], false, [Tagged(1, f.b0), Tagged(0, f.a0)])
  }

  /** b1 is out, and its file has left the heap. */
  function Dropped(f: Files): State {
    State([Going([], B.Finished(false), [], f.a1, true, [f.a0]),
           B.Stream([], B.Finished(true), [], f.b1, true, false, [f.b0, f.b1])],
          true, [0], false, [Tagged(1, f.b0), Tagged(0, f.a0), Tagged(1, f.b1)])
  }

  /** a1 is out too; b2 will never be. */
  function Lost(f: Files): State {
    State([Going([], B.Finished(false), [], f.a1, false, [f.a0, f.a1]),
           B.Stream([], B.Finished(true), [], f.b1, true, false, [f.b0, f.b1])],
          true, [0], true, [Tagged(1, f.b0), Tagged(0, f.a0), Tagged(1, f.b1), Tagged(0, f.a1)])
  }

  // ---- steps of two streams x and y ----

  lemma ProduceX(inputs: seq<Input>, s: State, x: B.Stream, y: B.Stream, act: B.Act, x': B.Stream)
    requires Reaches(inputs, s) && s.streams == [x, y] && B.ByProducer(act)
    requires B.Can(x, s.cancelled, act) && x' == B.Did(x, s.cancelled, act)
    ensures Reaches(inputs, s.(streams := [x', y]))
  {
    assert [x, y][0 := x'] == [x', y];
    ReachProduce(inputs, s, 0, act, x');
  }

  lemma ProduceY(inputs: seq<Input>, s: State, x: B.Stream, y: B.Stream, act: B.Act, y': B.Stream)
    requires Reaches(inputs, s) && s.streams == [x, y] && B.ByProducer(act)
    requires B.Can(y, s.cancelled, act) && y' == B.Did(y, s.cancelled, act)
    ensures Reaches(inputs, s.(streams := [x, y']))
  {
    assert [x, y][1 := y'] == [x, y'];
    ReachProduce(inputs, s, 1, act, y');
  }

  /** x is at the root: its entry is emitted and its goroutine started. */
  lemma EmitX(inputs: seq<Input>, s: State, x: B.Stream, y: B.Stream, x': B.Stream, out: seq<Tagged>)
    requires Reaches(inputs, s) && s.streams == [x, y] && !s.awaiting && s.l != [] && s.l[0] == 0
    requires B.Can(x, s.cancelled, B.Take) && x' == B.Did(x, s.cancelled, B.Take) && out == s.out + [Tagged(0, x.e)]
    ensures Reaches(inputs, State([x', y], s.cancelled, s.l, true, out))
  {
    assert [x, y][0 := x'] == [x', y];
    ReachEmit(inputs, s, x', out);
  }

  lemma EmitY(inputs: seq<Input>, s: State, x: B.Stream, y: B.Stream, y': B.Stream, out: seq<Tagged>)
    requires Reaches(inputs, s) && s.streams == [x, y] && !s.awaiting && s.l != [] && s.l[0] == 1
    requires B.Can(y, s.cancelled, B.Take) && y' == B.Did(y, s.cancelled, B.Take) && out == s.out + [Tagged(1, y.e)]
    ensures Reaches(inputs, State([x, y'], s.cancelled, s.l, true, out))
  {
    assert [x, y][1 := y'] == [x, y'];
    ReachEmit(inputs, s, y', out);
  }

  lemma LaunchX(inputs: seq<Input>, s: State, x: B.Stream, y: B.Stream, x': B.Stream)
    requires Reaches(inputs, s) && s.streams == [x, y] && s.awaiting && s.l != [] && s.l[0] == 0
    requires B.Can(x, s.cancelled, B.Launch) && x' == B.Did(x, s.cancelled, B.Launch)
    ensures Reaches(inputs, s.(streams := [x', y]))
  {
    assert [x, y][0 := x'] == [x', y];
    ReachLaunch(inputs, s, x');
  }

  lemma LaunchY(inputs: seq<Input>, s: State, x: B.Stream, y: B.Stream, y': B.Stream)
    requires Reaches(inputs, s) && s.streams == [x, y] && s.awaiting && s.l != [] && s.l[0] == 1
    requires B.Can(y, s.cancelled, B.Launch) && y' == B.Did(y, s.cancelled, B.Launch)
    ensures Reaches(inputs, s.(streams := [x, y']))
  {
    assert [x, y][1 := y'] == [x, y'];
    ReachLaunch(inputs, s, y');
  }

  /** The awaited x gets an entry that comes after y's. */
  lemma ReceiveX(inputs: seq<Input>, s: State, x: B.Stream, y: B.Stream, x': B.Stream)
    requires Reaches(inputs, s) && s.streams == [x, y] && s.awaiting && s.l == [0, 1]
    requires B.Can(x, s.cancelled, B.Receive) && x' == B.Did(x, s.cancelled, B.Receive)
    requires y.ok && x'.ok && y.e.time <= x'.e.time
    ensures Reaches(inputs, State([x', y], s.cancelled, [1, 0], false, s.out))
  {
    assert [x, y][0 := x'] == [x', y];
    TwoReordered([x', y], [0, 1], 1, 0);
    ReachReceive(inputs, s, x', [1, 0]);
  }

  /** The awaited y gets an entry that comes after x's. */
  lemma ReceiveY(inputs: seq<Input>, s: State, x: B.Stream, y: B.Stream, y': B.Stream)
    requires Reaches(inputs, s) && s.streams == [x, y] && s.awaiting && s.l == [1, 0]
    requires B.Can(y, s.cancelled, B.Receive) && y' == B.Did(y, s.cancelled, B.Receive)
    requires x.ok && y'.ok && x.e.time <= y'.e.time
    ensures Reaches(inputs, State([x, y'], s.cancelled, [0, 1], false, s.out))
  {
    assert [x, y][1 := y'] == [x, y'];
    TwoReordered([x, y'], [1, 0], 0, 1);
    ReachReceive(inputs, s, y', [0, 1]);
  }

  /** The awaited y ends, because its goroutine gave up, and leaves the heap. */
  lemma DropY(inputs: seq<Input>, s: State, x: B.Stream, y: B.Stream, y': B.Stream)
    requires Reaches(inputs, s) && s.streams == [x, y] && s.awaiting && s.l == [1, 0]
    requires B.Can(y, s.cancelled, B.Receive) && y' == B.Did(y, s.cancelled, B.Receive)
    requires x.ok && !y'.ok && B.GaveUp(y')
    ensures Reaches(inputs, State([x, y'], s.cancelled, [0], false, s.out))
  {
    assert [x, y][1 := y'] == [x, y'];
    OneLeft([x, y']);
    ReachReceive(inputs, s, y', [0]);
  }

  lemma OneLeft(ss: seq<B.Stream>)
    requires |ss| == 2 && ss[0].ok && !ss[1].ok
    ensures Named([1, 0], Keys(ss)) && Reordered(Keys(ss), [1, 0], [0])
  {
    assert multiset([1, 0]) == multiset{1, 0} && multiset([0]) == multiset{0};
  }

  // ---- the run ----

  lemma ReachFirst(f: Files)
    requires InTurn(f)
    ensures Reaches(Inputs(f), First(f))
  {
    var s := First(f);
    assert [f.a0, f.a1][1..] == [f.a1] && [f.b0, f.b1, f.b2][1..] == [f.b1, f.b2];
    assert Streams(Inputs(f)) == s.streams;
    TwoInOrder(s.streams, 1, 0);
    ReachStart(Inputs(f), s);
  }

  lemma ReachStarted(f: Files)
    requires Reaches(Inputs(f), First(f))
    ensures Reaches(Inputs(f), Started(f))
  {
    var s, x, y := First(f), First(f).streams[0], First(f).streams[1];
    var out := [Tagged(1, f.b0)];
    var y1 := y.(read := false, delivered := [f.b0]);
    EmitY(Inputs(f), s, x, y, y1, out);
    LaunchY(Inputs(f), State([x, y1], false, [1, 0], true, out), x, y1, y1.(producer := B.Idle));
  }

  lemma ReachBlocked(f: Files)
    requires InTurn(f) && Reaches(Inputs(f), Started(f))
    ensures Reaches(Inputs(f), Blocked(f))
  {
    var s, x, y := Started(f), Started(f).streams[0], Started(f).streams[1];
    var y1 := y.(inner := [f.b2], producer := B.Holding(f.b1));
    ProduceY(Inputs(f), s, x, y, B.PopInner, y1);
    var y2 := y1.(producer := B.Idle, chan := [f.b1]);
    ProduceY(Inputs(f), s.(streams := [x, y1]), x, y1, B.Send, y2);
    var y3 := y2.(inner := [], producer := B.Holding(f.b2));
    ProduceY(Inputs(f), s.(streams := [x, y2]), x, y2, B.PopInner, y3);
    ReceiveY(Inputs(f), s.(streams := [x, y3]), x, y3, y3.(chan := [], e := f.b1, read := true));
  }

  lemma ReachLaunched(f: Files)
    requires Reaches(Inputs(f), Blocked(f))
    ensures Reaches(Inputs(f), Launched(f))
  {
    var s, x, y := Blocked(f), Blocked(f).streams[0], Blocked(f).streams[1];
    var out := [Tagged(1, f.b0), Tagged(0, f.a0)];
    var x1 := x.(read := false, delivered := [f.a0]);
    EmitX(Inputs(f), s, x, y, x1, out);
    LaunchX(Inputs(f), State([x1, y], false, [0, 1], true, out), x1, y, x1.(producer := B.Idle));
  }

  lemma ReachBroken(f: Files)
    requires Reaches(Inputs(f), Launched(f))
    ensures Reaches(Inputs(f), Broken(f))
  {
    var s, x, y := Launched(f), Launched(f).streams[0], Launched(f).streams[1];
    var x1 := x.(inner := [], producer := B.Holding(f.a1));
    ProduceX(Inputs(f), s, x, y, B.PopInner, x1);
    var x2 := x1.(producer := B.Idle, chan := [f.a1]);
    ProduceX(Inputs(f), s.(streams := [x1, y]), x1, y, B.Send, x2);
    ProduceX(Inputs(f), s.(streams := [x2, y]), x2, y, B.PopInner, x2.(producer := B.Finished(false)));
  }

  lemma ReachGivenUp(f: Files)
    requires InTurn(f) && Reaches(Inputs(f), Broken(f))
    ensures Reaches(Inputs(f), GivenUp(f))
  {
    var s, x, y := Broken(f), Broken(f).streams[0], Broken(f).streams[1];
    assert Failed(Inputs(f), s.streams, 0);
    var s1 := s.(cancelled := true);
    ReachStep(Inputs(f), s, Raise, s1);
    var y1 := y.(producer := B.Finished(true));
    ProduceY(Inputs(f), s1, x, y, B.GiveUp, y1);
    ReceiveX(Inputs(f), s1.(streams := [x, y1]), x, y1, x.(chan := [], e := f.a1, read := true));
  }

  lemma ReachDropped(f: Files)
    requires Reaches(Inputs(f), GivenUp(f))
    ensures Reaches(Inputs(f), Dropped(f))
  {
    var s, x, y := GivenUp(f), GivenUp(f).streams[0], GivenUp(f).streams[1];
    var out := [Tagged(1, f.b0), Tagged(0, f.a0), Tagged(1, f.b1)];
    var y1 := y.(read := false, delivered := [f.b0, f.b1]);
    EmitY(Inputs(f), s, x, y, y1, out);
    DropY(Inputs(f), State([x, y1], true, [1, 0], true, out), x, y1, y1.(ok := false, read := true));
  }

  lemma ReachLost(f: Files)
    requires Reaches(Inputs(f), Dropped(f))
    ensures Reaches(Inputs(f), Lost(f))
  {
    var s, x, y := Dropped(f), Dropped(f).streams[0], Dropped(f).streams[1];
    EmitX(Inputs(f), s, x, y, x.(read := false, delivered := [f.a0, f.a1]), Lost(f).out);
  }

  lemma SecondFile(t0: Tagged, t1: Tagged, t2: Tagged, t3: Tagged)
    requires t0.file == t2.file == 1 && t1.file == t3.file == 0
    ensures From([t0, t1, t2, t3], 1) == [t0.entry, t2.entry]
  {
    FromAppend([], t0, 1);
    FromAppend([t0], t1, 1);
    FromAppend([t0, t1], t2, 1);
    FromAppend([t0, t1, t2], t3, 1);
    assert [] + [t0] == [t0] && [t0] + [t1] == [t0, t1] && [t0, t1] + [t2] == [t0, t1, t2];
    assert [t0, t1, t2] + [t3] == [t0, t1, t2, t3];
  }

  /** b2 is never emitted although its file does not fail, and the later a1 is. */
  lemma EntryIsLost(f: Files)
    requires InTurn(f)
    ensures var s := Lost(f);
            && Reaches(Inputs(f), s) && !Inputs(f)[1].fails && !s.streams[1].ok
            && From(s.out, 1) == [f.b0, f.b1] && Tagged(0, f.a1) in s.out && f.b2.time < f.a1.time
  {
    ReachFirst(f);
    ReachStarted(f);
    ReachBlocked(f);
    ReachLaunched(f);
    ReachBroken(f);
    ReachGivenUp(f);
    ReachDropped(f);
    ReachLost(f);
    SecondFile(Tagged(1, f.b0), Tagged(0, f.a0), Tagged(1, f.b1), Tagged(0, f.a1));
    assert Lost(f).out[3] == Tagged(0, f.a1);
  }
}
