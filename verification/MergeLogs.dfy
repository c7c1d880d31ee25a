/**
`debug merge-logs` from files to bytes: file streams, their buffers, the merge and the printing pipeline
together.
*/
module MergeLogs {
  import opened Common
  import opened LogEntries
  import opened FileStream
  import MergeHeap
  import BufferedMerge
  import LogPipeline

  /** The stream each file is turned into: opened, peeked, closed, and reopened when read. */
  function StreamOf(f: LogFile, from: Option<int>, to: Option<int>): MergeHeap.Input {
    var r := Reopened(f, from, to);
    MergeHeap.Input(r.kept, r.err != EOF)
  }

  function StreamsOf(fs: seq<LogFile>, from: Option<int>, to: Option<int>): (r: seq<MergeHeap.Input>)
    ensures |r| == |fs| && forall k | 0 <= k < |fs| :: r[k] == StreamOf(fs[k], from, to)
  {
    seq(|fs|, k requires 0 <= k < |fs| => StreamOf(fs[k], from, to))
  }

  /** The file ends in an error, and no entry past `to` stops the reading before that. */
  ghost predicate Fails(f: LogFile, from: Option<int>, to: Option<int>) { f.end != EOF && !StopsEarly(f, from, to) }

  /** What a file's stream delivers is in time order, and it fails exactly when the error of the file is reached. */
  lemma StreamInOrder(f: LogFile, from: Option<int>, to: Option<int>)
    requires WellFormed(f)
    ensures Sorted(StreamOf(f, from, to).entries)
    ensures StreamOf(f, from, to).fails <==> Fails(f, from, to)
  {
    ReopenIsFaithful(f, from, to);
    StraightInOrder(f, from, to);
    StraightEnds(f, from, to);
  }

  lemma StreamsInOrder(fs: seq<LogFile>, from: Option<int>, to: Option<int>)
    requires forall k | 0 <= k < |fs| :: WellFormed(fs[k])
    ensures MergeHeap.AllSorted(StreamsOf(fs, from, to))
    ensures BufferedMerge.AnyFails(StreamsOf(fs, from, to)) <==> exists k | 0 <= k < |fs| :: Fails(fs[k], from, to)
  {
    forall k | 0 <= k < |fs|
      ensures Sorted(StreamsOf(fs, from, to)[k].entries)
      ensures StreamsOf(fs, from, to)[k].fails <==> Fails(fs[k], from, to)
    {
      StreamInOrder(fs[k], from, to);
    }
    if BufferedMerge.AnyFails(StreamsOf(fs, from, to)) {
      var k :| 0 <= k < |fs| && StreamsOf(fs, from, to)[k].fails;
      assert Fails(fs[k], from, to);
    }
    if k :| 0 <= k < |fs| && Fails(fs[k], from, to) {
      assert StreamsOf(fs, from, to)[k].fails;
    }
  }

  /**
  What a complete merge holds of a file: what reading it straight through delivers, if that starts in 1970
  or later.
  */
  lemma WholeFile(f: LogFile, from: Option<int>, to: Option<int>)
    requires WellFormed(f)
    ensures FirstTime(f, from) >= 0 ==> StreamOf(f, from, to).entries == Straight(f, from, to).kept
    ensures f.end == EOF && Sorted(EntriesOf(f.recs)) && FirstTime(f, from) >= 0 ==>
              StreamOf(f, from, to).entries == Within(from, to, EntriesOf(f.recs))
  {
    ReopenIsFaithful(f, from, to);
    if f.end == EOF && Sorted(EntriesOf(f.recs)) {
      SortedFileIsFiltered(f, from, to);
    }
  }

  /**
  From files to bytes.  `m` is any run of the merge over the buffered file streams, up to where its reader
  is offered nothing more; `b` any run of the pipeline that prints what the reader was given.  What is
  written is a prefix of the rendering of a time-ordered merge of prefixes of the files.  If a file fails,
  the command does.  If the command does not fail, no file does and nothing is missing.
  */
  lemma PrintedInOrder(
      fs: seq<LogFile>, from: Option<int>, to: Option<int>, c: LogPipeline.Config,
      m: seq<BufferedMerge.State>, b: seq<LogPipeline.State>)
    requires forall k | 0 <= k < |fs| :: WellFormed(fs[k])
    requires BufferedMerge.IsRun(StreamsOf(fs, from, to), m) && BufferedMerge.Over(m[|m| - 1])
    requires LogPipeline.IsRun(b, c, m[|m| - 1].out, BufferedMerge.StuckAtRoot(m[|m| - 1]))
    requires LogPipeline.Final(b[|b| - 1])
    ensures var merged, s := m[|m| - 1].out, b[|b| - 1];
            && SortedTagged(merged) && s.out <= LogPipeline.Output(c, merged)
            && (forall k | 0 <= k < |fs| :: From(merged, k) <= StreamOf(fs[k], from, to).entries)
            && ((exists k | 0 <= k < |fs| :: Fails(fs[k], from, to)) ==> s.failed)
            && (!s.failed ==> s.out == LogPipeline.Output(c, merged)
                              && forall k | 0 <= k < |fs| :: From(merged, k) == StreamOf(fs[k], from, to).entries)
  {
    var inputs := StreamsOf(fs, from, to);
    StreamsInOrder(fs, from, to);
    BufferedMerge.AlwaysInOrder(inputs, m, |m| - 1);
    BufferedMerge.FailureIsReported(inputs, m);
    LogPipeline.OutputIsExact(b, c, m[|m| - 1].out, BufferedMerge.StuckAtRoot(m[|m| - 1]), |b| - 1);
  }

  /** There are such runs for any files that could be opened, and the command then fails only if a file does. */
  lemma CommandRuns(fs: seq<LogFile>, from: Option<int>, to: Option<int>, c: LogPipeline.Config)
    returns (m: seq<BufferedMerge.State>, b: seq<LogPipeline.State>)
    requires forall k | 0 <= k < |fs| :: WellFormed(fs[k])
    requires BufferedMerge.AllOpened(StreamsOf(fs, from, to))
    ensures BufferedMerge.IsRun(StreamsOf(fs, from, to), m) && BufferedMerge.Over(m[|m| - 1])
    ensures LogPipeline.IsRun(b, c, m[|m| - 1].out, BufferedMerge.StuckAtRoot(m[|m| - 1]))
    ensures LogPipeline.Final(b[|b| - 1])
    ensures b[|b| - 1].failed <==> exists k | 0 <= k < |fs| :: Fails(fs[k], from, to)
  {
    var inputs := StreamsOf(fs, from, to);
    StreamsInOrder(fs, from, to);
    m := BufferedMerge.CompleteRun(inputs);
    BufferedMerge.FailureIsReported(inputs, m);
    b := LogPipeline.CompleteRun(c, m[|m| - 1].out, BufferedMerge.StuckAtRoot(m[|m| - 1]));
  }
}
