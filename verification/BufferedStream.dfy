/**
The buffer between a file stream and the merge: a goroutine, started on the first read after the
first pop, that moves entries into a bounded channel from which the merge takes them.  One buffered
stream by itself; BufferedMerge runs many of them under one context.
*/
module BufferedStream {
  import opened LogEntries

  const CHAN_SIZE: nat := 512

  datatype Producer =
    | NotStarted
    | Idle                    // about to pop the file stream
    | Holding(e: Entry)       // blocked on the channel with an entry in hand
    | Finished(gaveUp: bool)  // returned, the channel is closed; gaveUp: because the context was done

  datatype Stream = Stream(
    inner: seq<Entry>,        // not yet popped from the file stream
    producer: Producer,
    chan: seq<Entry>,
    e: Entry, read: bool, ok: bool,
    delivered: seq<Entry>)    // popped by the merge so far

  /** newBufferedLogStream over a stream that has `all` to deliver; without entries there is no stream. */
  function Start(all: seq<Entry>): Stream {
    if all == [] then Stream([], Finished(false), [], Entry(0, []), true, false, [])
    else Stream(all[1..], NotStarted, [], all[0], true, true, [])
  }

  /** What the goroutine does (PopInner, Send, GiveUp) and what the merge does (Launch, Receive, Take). */
  datatype Act = PopInner | Send | GiveUp | Launch | Receive | Take

  predicate ByProducer(act: Act) { act.PopInner? || act.Send? || act.GiveUp? }

  predicate Can(s: Stream, cancelled: bool, act: Act) {
    match act
    case PopInner => s.producer.Idle?
    case Send => s.producer.Holding? && |s.chan| < CHAN_SIZE
    case GiveUp => s.producer.Holding? && cancelled
    case Launch => s.ok && !s.read && s.producer.NotStarted?
    case Receive => s.ok && !s.read && (s.chan != [] || s.producer.Finished?)
    case Take => s.ok && s.read
  }

  function Did(s: Stream, cancelled: bool, act: Act): Stream
    requires Can(s, cancelled, act)
  {
    match act
    case PopInner =>
      if s.inner == [] then s.(producer := Finished(false))
      else s.(producer := Holding(s.inner[0]), inner := s.inner[1..])
    case Send => s.(chan := s.chan + [s.producer.e], producer := Idle)
    case GiveUp => s.(producer := Finished(true))
    case Launch => s.(producer := Idle)
    case Receive =>
      if s.chan != [] then s.(e := s.chan[0], chan := s.chan[1..], read := true)
      else s.(ok := false, read := true)
    case Take => s.(read := false, delivered := s.delivered + [s.e])
  }

  predicate GaveUp(s: Stream) { s.producer.Finished? && s.producer.gaveUp }

  /** The goroutine came to the end of its file. */
  predicate CameToEnd(s: Stream) { s.producer.Finished? && !s.producer.gaveUp }

  function Held(s: Stream): seq<Entry> {
    if s.producer.Holding? then [s.producer.e] else []
  }

  function Front(s: Stream): seq<Entry> { if s.ok && s.read then [s.e] else [] }

  /** Everything that has left the file stream for the merge, in order. */
  function Passed(s: Stream): seq<Entry> { s.delivered + Front(s) + s.chan }

  ghost predicate Inv(s: Stream, all: seq<Entry>) {
    && |s.chan| <= CHAN_SIZE
    && (CameToEnd(s) ==> s.inner == [])
    && (!s.ok ==> s.producer.Finished? && s.chan == [])
    && (s.producer.NotStarted? ==> s.chan == [])
    && Passed(s) <= all && (all != [] ==> Passed(s) != [])
    && (if GaveUp(s) then |Passed(s)| < |all| else Passed(s) + Held(s) + s.inner == all)
  }

  lemma StartInv(all: seq<Entry>)
    ensures Inv(Start(all), all)
  {
    assert all != [] ==> all == [all[0]] + all[1..];
  }

  lemma PopInnerKeeps(s: Stream, cancelled: bool, all: seq<Entry>)
    requires Inv(s, all) && Can(s, cancelled, PopInner)
    ensures Inv(Did(s, cancelled, PopInner), all)
  {
    assert s.inner != [] ==> s.inner == [s.inner[0]] + s.inner[1..];
    assert Passed(Did(s, cancelled, PopInner)) == Passed(s);
  }

  lemma SendKeeps(s: Stream, cancelled: bool, all: seq<Entry>)
    requires Inv(s, all) && Can(s, cancelled, Send)
    ensures Inv(Did(s, cancelled, Send), all)
  {
    var s' := Did(s, cancelled, Send);
    assert Passed(s') == Passed(s) + [s.producer.e];
    assert Passed(s) + Held(s) + s.inner == Passed(s') + Held(s') + s'.inner;
  }

  lemma ReceiveKeeps(s: Stream, cancelled: bool, all: seq<Entry>)
    requires Inv(s, all) && Can(s, cancelled, Receive)
    ensures Inv(Did(s, cancelled, Receive), all)
  {
    assert s.chan != [] ==> s.chan == [s.chan[0]] + s.chan[1..];
    assert Passed(Did(s, cancelled, Receive)) == Passed(s);
  }

  lemma ActKeeps(s: Stream, cancelled: bool, act: Act, all: seq<Entry>)
    requires Inv(s, all) && Can(s, cancelled, act)
    ensures Inv(Did(s, cancelled, act), all)
  {
    match act
    case PopInner => PopInnerKeeps(s, cancelled, all);
    case Send => SendKeeps(s, cancelled, all);
    case Receive => ReceiveKeeps(s, cancelled, all);
    case Take => assert Passed(Did(s, cancelled, Take)) == Passed(s);
    case GiveUp => assert Passed(Did(s, cancelled, GiveUp)) == Passed(s);
    case Launch => assert Passed(Did(s, cancelled, Launch)) == Passed(s);
  }

  /**
  The merge has been given a prefix of the file; once it saw the end, all of it exactly if the stream did
  not give up.
  */
  lemma DeliversPrefix(s: Stream, all: seq<Entry>)
    requires Inv(s, all)
    ensures s.delivered <= all
    ensures !s.ok ==> (s.delivered == all <==> !GaveUp(s))
    ensures GaveUp(s) ==> |all| >= 2
  {
    assert s.delivered <= Passed(s);
  }

  /** The entry received next is the file's next one. */
  lemma ReceivesNext(s: Stream, all: seq<Entry>)
    requires Inv(s, all) && s.ok && !s.read && s.chan != []
    ensures |s.delivered| < |all| && s.chan[0] == all[|s.delivered|] && s.delivered == all[..|s.delivered|]
  {
    assert Passed(s)[|s.delivered|] == s.chan[0];
  }

  // ---- progress ----

  /** The steps that a stream and the merge can still take on its account. */
  function Work(s: Stream): nat {
    4 * |s.inner| + 2 * |s.chan| + (if s.ok then if s.read then 2 else 1 else 0) +
    match s.producer
    case NotStarted => 2
    case Idle => 1
    case Holding(_) => 4
    case Finished(_) => 0
  }

  lemma WorkShrinks(s: Stream, cancelled: bool, act: Act)
    requires Can(s, cancelled, act)
    ensures Work(Did(s, cancelled, act)) < Work(s)
  {
  }

  /** A stream that the merge waits for has a step. */
  lemma CanGoOn(s: Stream, cancelled: bool, all: seq<Entry>)
    requires Inv(s, all) && s.ok && !s.read
    ensures || Can(s, cancelled, Launch) || Can(s, cancelled, PopInner)
            || Can(s, cancelled, Send) || Can(s, cancelled, Receive)
  {
  }
}
