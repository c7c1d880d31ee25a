/**
The three goroutines that print a merged log stream.  `read` moves entries into a channel;
`bufferWrites` renders and filters them into `pending` and, over an unbuffered channel, hands
that buffer to `write` while it goes on filling the other one.

Both buffers are shared, so the writer takes bytes from its buffer a few at a time, at whatever
moment the schedule lets it.
*/
module LogPipeline {
  import opened Common
  import opened LogEntries

  const CHAN_SIZE: nat := 0x1_0000
  const MAX_WRITE_BUF: nat := 0x4_0000

  // ---- rendering and filtering ----

  datatype Match = NoMatch | Whole | Groups(captured: seq<Bytes>)
  datatype Filter = NoFilter | Filter(find: Bytes -> Match)
  datatype Config = Config(render: Tagged -> Bytes, filter: Filter)

  const NEWLINE: Bytes := [10]

  function Concat(parts: seq<Bytes>): Bytes {
    if parts == [] then [] else Concat(parts[..|parts| - 1]) + parts[|parts| - 1]
  }

  /** Concat strings the parts together in their order. */
  lemma {:induction false} ConcatAppend(a: seq<Bytes>, b: seq<Bytes>)
    ensures Concat(a + b) == Concat(a) + Concat(b)
    ensures forall x: Bytes :: Concat([x]) == x
  {
    forall x: Bytes
      ensures Concat([x]) == x
    {
      assert [x][..0] == [];
    }
    if b == [] {
      assert a + b == a;
    } else {
      var init, x := b[..|b| - 1], b[|b| - 1];
      ConcatAppend(a, init);
      assert (a + b)[..|a + b| - 1] == a + init;
      assert Concat(a) + Concat(init) + x == Concat(a) + (Concat(init) + x);
    }
  }

  /** What one entry contributes to the output. */
  function Printed(c: Config, t: Tagged): Bytes {
    var r := c.render(t);
    match c.filter
    case NoFilter => r
    case Filter(find) =>
      match find(r)
      case NoMatch => []
      case Whole => r
      case Groups(captured) => Concat(captured) + NEWLINE
  }

  /**
  The receive branch of bufferWrites: render at the end of the buffer, then edit what was added.  `peak`
  is the length of the buffer when it is longest.
  */
  method AppendPrinted(c: Config, pending: Bytes, t: Tagged) returns (r: Bytes, ghost peak: nat)
    ensures r == pending + Printed(c, t)
    ensures c.filter.NoFilter? ==> r == pending + c.render(t)
    ensures c.filter.Filter? ==>
              match c.filter.find(c.render(t))
              case NoMatch => r == pending
              case Whole => r == pending + c.render(t)
              case Groups(captured) => r == pending + Concat(captured) + [10]
    ensures peak == Max(|pending + c.render(t)|, |r|)
  {
    var startLen := |pending|;
    r := pending + c.render(t);
    peak := |r|;
    assert r[startLen..] == c.render(t) && r[..startLen] == pending;
    if c.filter.Filter? {
      var matches := c.filter.find(r[startLen..]);
      if matches.NoMatch? {
        r := r[..startLen];
      } else if matches.Groups? {
        var scratch := [];
        for i := 0 to |matches.captured|
          invariant scratch == Concat(matches.captured[..i])
        {
          assert matches.captured[..i + 1][..i] == matches.captured[..i];
          scratch := scratch + matches.captured[i];
        }
        assert matches.captured[..|matches.captured|] == matches.captured;
        r := r[..startLen] + scratch + NEWLINE;
        peak := Max(peak, |r|);
      }
    }
  }

  /** The output a sequence of entries must produce. */
  ghost function Output(c: Config, ts: seq<Tagged>): Bytes {
    if ts == [] then [] else Printed(c, ts[0]) + Output(c, ts[1..])
  }

  // ---- the filter ----

  /** The filter lets the entry through. */
  predicate Matches(c: Config, t: Tagged) {
    c.filter.Filter? ==> !c.filter.find(c.render(t)).NoMatch?
  }

  /** The entries that the filter lets through. */
  ghost function Matching(c: Config, ts: seq<Tagged>): seq<Tagged> {
    if ts == [] then [] else (if Matches(c, ts[0]) then [ts[0]] else []) + Matching(c, ts[1..])
  }

  /** The filter has no capturing groups. */
  ghost predicate WithoutGroups(c: Config) {
    c.filter.Filter? ==> forall x :: !c.filter.find(x).Groups?
  }

  function Renders(render: Tagged -> Bytes, ts: seq<Tagged>): seq<Bytes> {
    if ts == [] then [] else [render(ts[0])] + Renders(render, ts[1..])
  }

  lemma OutputOf(c: Config, t: Tagged, ts: seq<Tagged>)
    ensures Output(c, [t] + ts) == Printed(c, t) + Output(c, ts)
  {
    assert ([t] + ts)[1..] == ts;
  }

  /** A filter without groups prints what is printed without a filter of the entries it lets through. */
  lemma {:induction false} FilterSelects(c: Config, ts: seq<Tagged>)
    requires WithoutGroups(c)
    ensures Output(c, ts) == Output(c.(filter := NoFilter), Matching(c, ts))
  {
    if ts != [] {
      FilterSelects(c, ts[1..]);
      var plain, rest := c.(filter := NoFilter), Matching(c, ts[1..]);
      if Matches(c, ts[0]) {
        OutputOf(plain, ts[0], rest);
      } else {
        assert [] + rest == rest && [] + Output(plain, rest) == Output(plain, rest);
      }
    }
  }

  /** Without a filter the output is every entry's rendering, in order. */
  lemma {:induction false} PlainOutput(c: Config, ts: seq<Tagged>)
    requires c.filter.NoFilter?
    ensures Output(c, ts) == Concat(Renders(c.render, ts))
  {
    if ts != [] {
      PlainOutput(c, ts[1..]);
      ConcatAppend([c.render(ts[0])], Renders(c.render, ts[1..]));
    }
  }

  // ---- the goroutines ----

  datatype Phase = Selecting | Swapping | Returned
  datatype Writer = Waiting | Writing(first: bool, pos: nat) | Dead(first: bool, pos: nat) | Gone

  datatype State = State(
    rest: seq<Tagged>,      // not yet sent by read
    chan: seq<Tagged>,      // entryChan
    readDone: bool,         // read has returned and closed entryChan
    sawClose: bool,         // bufferWrites has set entryChan to nil
    one: Bytes, two: Bytes, // the two buffers
    pendingFirst: bool,     // whether `pending` is buffer one
    phase: Phase,           // bufferWrites
    writer: Writer,         // write
    out: Bytes,
    failed: bool)           // some goroutine returned an error, so the context is done

  function Contents(s: State, first: bool): Bytes { if first then s.one else s.two }

  function Pending(s: State): Bytes { Contents(s, s.pendingFirst) }

  function WithContents(s: State, first: bool, b: Bytes): State {
    if first then s.(one := b) else s.(two := b)
  }

  function Start(ts: seq<Tagged>): State {
    State(ts, [], false, false, [], [], true, Selecting, Waiting, [], false)
  }

  datatype Step =
    | ReadSend | ReadEnd | ReadCancelled
    | Receive | SeeClose | HandOff | Swap | BufferReturn | BufferCancelled | RenderFails
    | Write(upTo: nat) | WriteDone | WriteFails | WriterReturn

  predicate Enabled(s: State, step: Step) {
    match step
    case ReadSend => !s.readDone && s.rest != [] && |s.chan| < CHAN_SIZE
    case ReadEnd => !s.readDone && s.rest == []
    case ReadCancelled => !s.readDone && s.failed
    case Receive => s.phase.Selecting? && !s.sawClose && |Pending(s)| <= MAX_WRITE_BUF && s.chan != []
    case SeeClose => s.phase.Selecting? && !s.sawClose && |Pending(s)| <= MAX_WRITE_BUF && s.chan == [] && s.readDone
    case HandOff => s.phase.Selecting? && Pending(s) != [] && s.writer.Waiting?
    case Swap => s.phase.Swapping?
    case BufferReturn => s.phase.Selecting? && Pending(s) == [] && s.sawClose
    case BufferCancelled => s.phase.Selecting? && s.failed
    case RenderFails => s.phase.Selecting? && !s.sawClose && |Pending(s)| <= MAX_WRITE_BUF && s.chan != []
    case Write(upTo) => s.writer.Writing? && s.writer.pos < upTo <= |Contents(s, s.writer.first)|
    case WriteDone => s.writer.Writing? && s.writer.pos == |Contents(s, s.writer.first)|
    case WriteFails => s.writer.Writing?
    case WriterReturn => s.writer.Waiting? && s.phase.Returned?
  }

  /** `streamFails`: whether the stream being read ends in an error. */
  function Do(c: Config, streamFails: bool, s: State, step: Step): State
    requires Enabled(s, step)
  {
    match step
    case ReadSend => s.(chan := s.chan + [s.rest[0]], rest := s.rest[1..])
    case ReadEnd => s.(readDone := true, failed := s.failed || streamFails)
    case ReadCancelled => s.(readDone := true)
    case Receive => WithContents(s, s.pendingFirst, Pending(s) + Printed(c, s.chan[0])).(chan := s.chan[1..])
    case SeeClose => s.(sawClose := true)
    case HandOff => s.(writer := Writing(s.pendingFirst, 0), phase := Swapping)
    case Swap => WithContents(s, !s.pendingFirst, []).(pendingFirst := !s.pendingFirst, phase := Selecting)
    case BufferReturn => s.(phase := Returned)
    case BufferCancelled => s.(phase := Returned)
    case RenderFails => s.(phase := Returned, failed := true)
    case Write(upTo) =>
      s.(out := s.out + Contents(s, s.writer.first)[s.writer.pos..upTo], writer := Writing(s.writer.first, upTo))
    case WriteDone => s.(writer := Waiting)
    case WriteFails => s.(writer := Dead(s.writer.first, s.writer.pos), failed := true)
    case WriterReturn => s.(writer := Gone)
  }

  ghost predicate Next(c: Config, streamFails: bool, s: State, s': State) {
    exists step :: Enabled(s, step) && s' == Do(c, streamFails, s, step)
  }

  ghost predicate IsRun(b: seq<State>, c: Config, ts: seq<Tagged>, streamFails: bool) {
    && b != [] && b[0] == Start(ts)
    && forall i | 0 <= i < |b| - 1 :: Next(c, streamFails, b[i], b[i + 1])
  }

  predicate Final(s: State) {
    s.readDone && s.phase.Returned? && (s.writer.Gone? || s.writer.Dead?)
  }

  // ---- the invariant ----

  /** Handed to the writer but not written yet. */
  ghost function InFlight(s: State): Bytes {
    if (s.writer.Writing? || s.writer.Dead?) && s.writer.pos <= |Contents(s, s.writer.first)|
    then Contents(s, s.writer.first)[s.writer.pos..] else []
  }

  /** Rendered but not handed over. */
  ghost function Unsent(s: State): Bytes {
    if s.phase.Swapping? then [] else Pending(s)
  }

  /** Written, or rendered and on its way to being written. */
  ghost function Rendered(s: State): Bytes {
    s.out + InFlight(s) + Unsent(s)
  }

  ghost function Accounted(c: Config, s: State): Bytes {
    Rendered(s) + Output(c, s.chan + s.rest)
  }

  ghost predicate Bounded(c: Config, ts: seq<Tagged>, m: nat) {
    forall t | t in ts :: |c.render(t)| <= m && |Printed(c, t)| <= m
  }

  /** The writer's buffer is the pending one only between the hand-over and the swap. */
  ghost predicate Apart(s: State) {
    s.writer.Writing? || s.writer.Dead? ==>
      && s.writer.pos <= |Contents(s, s.writer.first)|
      && (s.writer.first == s.pendingFirst <==> s.phase.Swapping?)
  }

  ghost predicate Control(fails: bool, s: State) {
    && Apart(s)
    && (s.readDone && !s.failed ==> s.rest == [] && !fails)
    && (s.sawClose ==> s.readDone && s.chan == [])
    && (s.phase.Returned? && !s.failed ==> s.sawClose && Pending(s) == [])
    && (s.writer.Dead? ==> s.failed)
    && (s.writer.Gone? ==> s.phase.Returned?)
  }

  ghost predicate Inv(c: Config, ts: seq<Tagged>, fails: bool, s: State) {
    Control(fails, s) && Accounted(c, s) == Output(c, ts)
  }

  lemma ControlStep(c: Config, fails: bool, s: State, step: Step)
    requires Control(fails, s) && Enabled(s, step)
    ensures Control(fails, Do(c, fails, s, step))
  {
  }

  lemma RenderedReceive(c: Config, fails: bool, s: State)
    requires Apart(s) && Enabled(s, Receive)
    ensures Rendered(Do(c, fails, s, Receive)) == Rendered(s) + Printed(c, s.chan[0])
  {
    var s' := Do(c, fails, s, Receive);
    assert InFlight(s') == InFlight(s);
    assert Unsent(s') == Unsent(s) + Printed(c, s.chan[0]);
  }

  lemma Written(out: Bytes, x: Bytes, pos: nat, upTo: nat)
    requires pos <= upTo <= |x|
    ensures out + x[pos..upTo] + x[upTo..] == out + x[pos..]
  {
    assert x[pos..] == x[pos..upTo] + x[upTo..];
  }

  lemma RenderedWrite(c: Config, fails: bool, s: State, upTo: nat)
    requires Apart(s) && Enabled(s, Write(upTo))
    ensures Rendered(Do(c, fails, s, Write(upTo))) == Rendered(s)
  {
    Written(s.out, Contents(s, s.writer.first), s.writer.pos, upTo);
  }

  lemma RenderedHandOff(c: Config, fails: bool, s: State)
    requires Enabled(s, HandOff)
    ensures Rendered(Do(c, fails, s, HandOff)) == Rendered(s)
  {
    var s' := Do(c, fails, s, HandOff);
    assert InFlight(s') == Pending(s) && Unsent(s') == [] && InFlight(s) == [] && Unsent(s) == Pending(s);
  }

  /** The other steps move no bytes. */
  lemma RenderedSame(c: Config, fails: bool, s: State, step: Step)
    requires Apart(s) && Enabled(s, step) && !step.Receive? && !step.Write? && !step.HandOff?
    ensures Rendered(Do(c, fails, s, step)) == Rendered(s)
  {
    var s' := Do(c, fails, s, step);
    assert s'.out == s.out && InFlight(s') == InFlight(s) && Unsent(s') == Unsent(s);
  }

  lemma OutputFirst(c: Config, r: Bytes, ts: seq<Tagged>)
    requires ts != []
    ensures r + Printed(c, ts[0]) + Output(c, ts[1..]) == r + Output(c, ts)
  {
  }

  lemma AccountedReceive(c: Config, fails: bool, s: State)
    requires Apart(s) && Enabled(s, Receive)
    ensures Accounted(c, Do(c, fails, s, Receive)) == Accounted(c, s)
  {
    RenderedReceive(c, fails, s);
    var ts := s.chan + s.rest;
    assert ts[0] == s.chan[0] && ts[1..] == s.chan[1..] + s.rest;
    OutputFirst(c, Rendered(s), ts);
  }

  lemma AccountedStep(c: Config, fails: bool, s: State, step: Step)
    requires Apart(s) && Enabled(s, step)
    ensures Accounted(c, Do(c, fails, s, step)) == Accounted(c, s)
  {
    match step
    case Receive => AccountedReceive(c, fails, s);
    case Write(upTo) => RenderedWrite(c, fails, s, upTo);
    case HandOff => RenderedHandOff(c, fails, s);
    case ReadSend =>
      RenderedSame(c, fails, s, step);
      var s' := Do(c, fails, s, step);
      assert s'.chan + s'.rest == s.chan + s.rest;
    case _ => RenderedSame(c, fails, s, step);
  }

  lemma InvStep(c: Config, ts: seq<Tagged>, fails: bool, s: State, step: Step)
    requires Inv(c, ts, fails, s) && Enabled(s, step)
    ensures Inv(c, ts, fails, Do(c, fails, s, step))
  {
    ControlStep(c, fails, s, step);
    AccountedStep(c, fails, s, step);
  }

  lemma {:induction false} InvHolds(b: seq<State>, c: Config, ts: seq<Tagged>, fails: bool, i: nat)
    requires IsRun(b, c, ts, fails) && i < |b|
    ensures Inv(c, ts, fails, b[i])
  {
    if i == 0 {
      assert [] + ts == ts;
    } else {
      InvHolds(b, c, ts, fails, i - 1);
      assert Next(c, fails, b[i - 1], b[i]);
      var step :| Enabled(b[i - 1], step) && b[i] == Do(c, fails, b[i - 1], step);
      InvStep(c, ts, fails, b[i - 1], step);
    }
  }

  // ---- results ----

  /**
  Under every schedule, failing or not, what has been written is a prefix of the rendered and
  filtered entries in order; when all goroutines have returned without error, it is all of it, and the
  stream did not fail.
  */
  lemma OutputIsExact(b: seq<State>, c: Config, ts: seq<Tagged>, fails: bool, i: nat)
    requires IsRun(b, c, ts, fails) && i < |b|
    ensures b[i].out <= Output(c, ts)
    ensures Final(b[i]) && !b[i].failed ==> b[i].out == Output(c, ts) && !fails
  {
    InvHolds(b, c, ts, fails, i);
    assert b[i].out <= Rendered(b[i]) <= Accounted(c, b[i]);
  }

  /**
  Under a filter without groups, what is written are the renderings of the matching entries, in order: a
  prefix of them in any state, and all of them when everything has returned without error.
  */
  lemma FilteredOutputIsExact(b: seq<State>, c: Config, ts: seq<Tagged>, fails: bool, i: nat)
    requires IsRun(b, c, ts, fails) && i < |b| && WithoutGroups(c)
    ensures b[i].out <= Concat(Renders(c.render, Matching(c, ts)))
    ensures Final(b[i]) && !b[i].failed ==> b[i].out == Concat(Renders(c.render, Matching(c, ts)))
  {
    OutputIsExact(b, c, ts, fails, i);
    FilterSelects(c, ts);
    PlainOutput(c.(filter := NoFilter), Matching(c, ts));
  }

  lemma StableStep(c: Config, fails: bool, s: State, step: Step)
    requires Enabled(s, step) && s.writer.Writing?
    requires s.writer.first == s.pendingFirst <==> s.phase.Swapping?
    ensures Contents(Do(c, fails, s, step), s.writer.first) == Contents(s, s.writer.first)
  {
  }

  /** A buffer in the writer's hands is neither reset nor appended to. */
  lemma HandedBufferIsStable(b: seq<State>, c: Config, ts: seq<Tagged>, fails: bool, i: nat)
    requires IsRun(b, c, ts, fails) && i + 1 < |b| && b[i].writer.Writing?
    ensures var first := b[i].writer.first; Contents(b[i + 1], first) == Contents(b[i], first)
  {
    InvHolds(b, c, ts, fails, i);
    assert Next(c, fails, b[i], b[i + 1]);
    var step :| Enabled(b[i], step) && b[i + 1] == Do(c, fails, b[i], step);
    StableStep(c, fails, b[i], step);
  }

  ghost predicate Fits(c: Config, s: State, m: nat) {
    && |s.one| <= MAX_WRITE_BUF + m && |s.two| <= MAX_WRITE_BUF + m
    && Bounded(c, s.chan, m) && Bounded(c, s.rest, m)
  }

  lemma FitsStep(c: Config, fails: bool, s: State, step: Step, m: nat)
    requires Enabled(s, step) && Fits(c, s, m)
    ensures Fits(c, Do(c, fails, s, step), m)
  {
  }

  /** `pending` never exceeds the limit by more than one entry's rendering or output, even while it is rendered. */
  lemma {:induction false} PendingIsBounded(b: seq<State>, c: Config, ts: seq<Tagged>, fails: bool, m: nat, i: nat)
    requires IsRun(b, c, ts, fails) && i < |b| && Bounded(c, ts, m)
    ensures |Pending(b[i])| <= MAX_WRITE_BUF + m && Fits(c, b[i], m)
    ensures Enabled(b[i], Receive) ==>
              var t := b[i].chan[0];
              Max(|Pending(b[i]) + c.render(t)|, |Pending(b[i]) + Printed(c, t)|) <= MAX_WRITE_BUF + m
  {
    if i > 0 {
      PendingIsBounded(b, c, ts, fails, m, i - 1);
      assert Next(c, fails, b[i - 1], b[i]);
      var step :| Enabled(b[i - 1], step) && b[i] == Do(c, fails, b[i - 1], step);
      FitsStep(c, fails, b[i - 1], step, m);
    }
  }

  // ---- progress ----

  ghost function Work(c: Config, ts: seq<Tagged>, s: State): int {
    6 * |s.rest| + 5 * |s.chan| + (|Output(c, ts)| - |s.out|)
    + (if s.phase.Selecting? && Pending(s) != [] then 4 else if s.phase.Swapping? then 1 else 0)
    + (if s.writer.Writing? then 1 else 0)
    + (if s.readDone then 0 else 1) + (if s.sawClose then 0 else 1)
    + (if s.phase.Returned? then 0 else 1)
    + (if s.writer.Gone? || s.writer.Dead? then 0 else 1)
  }

  predicate ByWriter(step: Step) { step.Write? || step.WriteDone? || step.WriteFails? || step.WriterReturn? }

  lemma WriterShrinks(c: Config, ts: seq<Tagged>, fails: bool, s: State, step: Step)
    requires Enabled(s, step) && ByWriter(step)
    ensures Work(c, ts, Do(c, fails, s, step)) < Work(c, ts, s)
  {
  }

  lemma OthersShrink(c: Config, ts: seq<Tagged>, fails: bool, s: State, step: Step)
    requires Enabled(s, step) && !ByWriter(step)
    ensures Work(c, ts, Do(c, fails, s, step)) < Work(c, ts, s)
  {
  }

  lemma WorkShrinks(c: Config, ts: seq<Tagged>, fails: bool, s: State, step: Step)
    requires Enabled(s, step)
    ensures Work(c, ts, Do(c, fails, s, step)) < Work(c, ts, s)
  {
    if ByWriter(step) {
      WriterShrinks(c, ts, fails, s, step);
    } else {
      OthersShrink(c, ts, fails, s, step);
    }
  }

  lemma {:induction false} RunsAreShort(b: seq<State>, c: Config, ts: seq<Tagged>, fails: bool, i: nat)
    requires IsRun(b, c, ts, fails) && i < |b|
    ensures i + Work(c, ts, b[i]) <= Work(c, ts, Start(ts))
  {
    if i > 0 {
      RunsAreShort(b, c, ts, fails, i - 1);
      InvHolds(b, c, ts, fails, i - 1);
      assert Next(c, fails, b[i - 1], b[i]);
      var step :| Enabled(b[i - 1], step) && b[i] == Do(c, fails, b[i - 1], step);
      WorkShrinks(c, ts, fails, b[i - 1], step);
    }
  }

  /** A step that is a failure of rendering or writing. */
  predicate Fault(step: Step) { step.RenderFails? || step.WriteFails? }

  lemma NeverDeadlocked(c: Config, ts: seq<Tagged>, fails: bool, s: State) returns (step: Step)
    requires Inv(c, ts, fails, s) && !Final(s)
    ensures Enabled(s, step) && !Fault(step)
  {
    if s.writer.Writing? {
      var n := |Contents(s, s.writer.first)|;
      step := if s.writer.pos < n then Write(n) else WriteDone;
    } else if s.phase.Swapping? {
      step := Swap;
    } else if s.phase.Returned? && s.writer.Waiting? {
      step := WriterReturn;
    } else if s.phase.Returned? {
      step := if s.failed then ReadCancelled else ReadEnd;
    } else if s.failed {
      step := BufferCancelled;
    } else if Pending(s) != [] {
      step := HandOff;
    } else if s.sawClose {
      step := BufferReturn;
    } else if s.chan != [] {
      step := Receive;
    } else if s.readDone {
      step := SeeClose;
    } else {
      step := if s.rest == [] then ReadEnd else ReadSend;
    }
  }

  /** Every schedule ends, after a number of steps bounded by the input, and never in a deadlock. */
  lemma PipelineTerminates(b: seq<State>, c: Config, ts: seq<Tagged>, fails: bool)
    requires IsRun(b, c, ts, fails)
    ensures |b| <= 6 * |ts| + |Output(c, ts)| + 5
    ensures var s := b[|b| - 1]; Final(s) || exists step :: Enabled(s, step) && !Fault(step)
  {
    var i := |b| - 1;
    InvHolds(b, c, ts, fails, i);
    RunsAreShort(b, c, ts, fails, i);
    OutputIsExact(b, c, ts, fails, i);
    if !Final(b[i]) {
      var step := NeverDeadlocked(c, ts, fails, b[i]);
    }
  }

  // ---- runs to the end ----

  lemma Extend(b: seq<State>, c: Config, ts: seq<Tagged>, fails: bool, step: Step, s': State)
    requires IsRun(b, c, ts, fails) && Enabled(b[|b| - 1], step) && s' == Do(c, fails, b[|b| - 1], step)
    ensures IsRun(b + [s'], c, ts, fails)
  {
    var b' := b + [s'];
    assert Next(c, fails, b[|b| - 1], s');
    forall i | 0 <= i < |b'| - 1
      ensures Next(c, fails, b'[i], b'[i + 1])
    {
      if i < |b| - 1 {
        assert Next(c, fails, b[i], b[i + 1]);
      }
    }
  }

  lemma WorkLeft(c: Config, ts: seq<Tagged>, fails: bool, s: State)
    requires Inv(c, ts, fails, s)
    ensures Work(c, ts, s) >= 0
  {
    assert s.out <= Rendered(s) <= Accounted(c, s);
  }

  lemma GoOn(b: seq<State>, c: Config, ts: seq<Tagged>, fails: bool) returns (b': seq<State>)
    requires IsRun(b, c, ts, fails) && !Final(b[|b| - 1])
    ensures IsRun(b', c, ts, fails) && |b'| > |b| && b <= b'
    ensures 0 <= Work(c, ts, b'[|b'| - 1]) < Work(c, ts, b[|b| - 1])
    ensures b'[|b'| - 1].failed ==> b[|b| - 1].failed || fails
    ensures b[|b| - 1].failed ==> b'[|b'| - 1].failed
  {
    var s := b[|b| - 1];
    InvHolds(b, c, ts, fails, |b| - 1);
    var step := NeverDeadlocked(c, ts, fails, s);
    var s' := Do(c, fails, s, step);
    InvStep(c, ts, fails, s, step);
    WorkShrinks(c, ts, fails, s, step);
    WorkLeft(c, ts, fails, s');
    Extend(b, c, ts, fails, step, s');
    b' := b + [s'];
  }

  lemma FinalFails(b: seq<State>, c: Config, ts: seq<Tagged>, fails: bool)
    requires IsRun(b, c, ts, fails) && Final(b[|b| - 1]) && fails
    ensures b[|b| - 1].failed
  {
    OutputIsExact(b, c, ts, fails, |b| - 1);
  }

  /** Any run can be continued until every goroutine has returned, without a fault on the way. */
  lemma {:induction false} RunToEnd(b: seq<State>, c: Config, ts: seq<Tagged>, fails: bool) returns (b': seq<State>)
    requires IsRun(b, c, ts, fails)
    ensures IsRun(b', c, ts, fails) && b <= b' && Final(b'[|b'| - 1])
    ensures b'[|b'| - 1].failed <==> b[|b| - 1].failed || fails
    decreases Work(c, ts, b[|b| - 1])
  {
    if Final(b[|b| - 1]) {
      b' := b;
      if fails {
        FinalFails(b, c, ts, fails);
      }
    } else {
      var b1 := GoOn(b, c, ts, fails);
      b' := RunToEnd(b1, c, ts, fails);
    }
  }

  /** There is a run to the end that fails only if the stream does. */
  lemma CompleteRun(c: Config, ts: seq<Tagged>, fails: bool) returns (b: seq<State>)
    ensures IsRun(b, c, ts, fails) && Final(b[|b| - 1]) && (b[|b| - 1].failed <==> fails)
  {
    assert IsRun([Start(ts)], c, ts, fails);
    b := RunToEnd([Start(ts)], c, ts, fails);
  }
}
