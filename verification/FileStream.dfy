/**
One log file read as a stream: binary search to the first entry at or after `from`,
timestamps ratcheted so they never go back, a stop at the first one past `to`, and a file
that is peeked once, closed, and later reopened where it was.
*/
module FileStream {
  import opened Common
  import opened LogEntries

  datatype Err = EOF | Broken

  /** A whole entry and the byte offset it starts at. */
  datatype Rec = Rec(at: nat, entry: Entry)

  /**
  A log file.  Decoding from any byte offset yields the entries starting at or after it, and
  then `end`: end-of-file, or the error the decoder meets.
  */
  datatype LogFile = LogFile(size: nat, recs: seq<Rec>, end: Err)

  /** The zero value of an entry, which no decoder produces: a decoded entry has a severity. */
  const ZERO := Entry(0, [])

  ghost predicate WellFormed(f: LogFile) {
    && (forall i | 0 <= i < |f.recs| :: f.recs[i].at < f.size && f.recs[i].entry != ZERO)
    && (forall i, j | 0 <= i < j < |f.recs| :: f.recs[i].at < f.recs[j].at)
  }

  function EntriesOf(recs: seq<Rec>): (es: seq<Entry>)
    ensures |es| == |recs| && forall i | 0 <= i < |es| :: es[i] == recs[i].entry
  {
    seq(|recs|, i requires 0 <= i < |recs| => recs[i].entry)
  }

  // ---- seeking ----

  /** The index of the first record starting at or after byte `off`. */
  function FirstAt(recs: seq<Rec>, off: nat): (k: nat)
    ensures k <= |recs|
    ensures forall i | 0 <= i < k :: recs[i].at < off
    ensures k < |recs| ==> off <= recs[k].at
  {
    if recs == [] || off <= recs[0].at then 0 else 1 + FirstAt(recs[1..], off)
  }

  datatype Probe = Yes | No | Panic

  /** sort.Search for the predicate `p` between `i` and `j`; None when the predicate panics. */
  function Search(p: nat -> Probe, i: nat, j: nat): (r: Option<nat>)
    requires i <= j
    decreases j - i
  {
    if i == j then Some(i)
    else
      var h := (i + j) / 2;
      match p(h)
      case Panic => None
      case No => Search(p, h + 1, j)
      case Yes => Search(p, i, h)
  }

  /** Binary search lands on a boundary of the predicate, monotone or not. */
  lemma {:induction false} SearchBoundary(p: nat -> Probe, n: nat, i: nat, j: nat)
    requires i <= j <= n
    requires i > 0 ==> p(i - 1) == No
    requires j < n ==> p(j) == Yes
    ensures var r := Search(p, i, j);
            r.Some? ==>
              && r.value <= n
              && (r.value > 0 ==> p(r.value - 1) == No)
              && (r.value < n ==> p(r.value) == Yes)
    ensures (forall h: nat :: p(h) != Panic) ==> Search(p, i, j).Some?
    decreases j - i
  {
    if i < j {
      var h := (i + j) / 2;
      match p(h)
      case Panic =>
      case No => SearchBoundary(p, n, h + 1, j);
      case Yes => SearchBoundary(p, n, i, h);
    }
  }

  function ProbeAt(f: LogFile, from: int, off: nat): Probe {
    var k := FirstAt(f.recs, off);
    if k == |f.recs| then (if f.end == EOF then Yes else Panic)
    else if f.recs[k].entry.time >= from then Yes else No
  }

  /** The predicate handed to sort.Search. */
  function Prober(f: LogFile, from: int): nat -> Probe {
    (off: nat) => ProbeAt(f, from, off)
  }

  /** Where reading starts: a record to decode first, or the error the seek ends in. */
  datatype Opened = At(k: nat) | Failed(err: Err)

  function SeekTo(f: LogFile, from: Option<int>): (r: Opened)
    ensures r.At? ==> r.k <= |f.recs|
  {
    if from.None? then At(0)
    else
      match Search(Prober(f, from.value), 0, f.size)
      case None => Failed(Broken)
      case Some(off) =>
        var k := FirstAt(f.recs, off);
        if k == |f.recs| then Failed(f.end) else At(k)
  }

  /** The first entry decoded after a successful seek is at or after `from`. */
  lemma SeekLands(f: LogFile, from: int)
    requires WellFormed(f) && SeekTo(f, Some(from)).At?
    ensures var k := SeekTo(f, Some(from)).k;
            k < |f.recs| && f.recs[k].entry.time >= from
  {
    SearchBoundary(Prober(f, from), f.size, 0, f.size);
  }

  /** How many records the seek passes over. */
  function Skipped(f: LogFile, from: Option<int>): nat {
    match SeekTo(f, from) case At(k) => k case Failed(_) => |f.recs|
  }

  lemma NeverPanics(f: LogFile, from: int)
    requires f.end == EOF
    ensures forall h: nat :: Prober(f, from)(h) != Panic
  {
  }

  lemma PastTheEnd(f: LogFile)
    requires WellFormed(f)
    ensures FirstAt(f.recs, f.size) == |f.recs|
  {
  }

  lemma SearchFile(f: LogFile, from: int) returns (off: nat)
    requires f.end == EOF
    ensures Search(Prober(f, from), 0, f.size) == Some(off) && off <= f.size
    ensures off > 0 ==> ProbeAt(f, from, off - 1) == No
    ensures off < f.size ==> ProbeAt(f, from, off) == Yes
  {
    var p := Prober(f, from);
    NeverPanics(f, from);
    SearchBoundary(p, f.size, 0, f.size);
    off := Search(p, 0, f.size).value;
    assert off > 0 ==> p(off - 1) == ProbeAt(f, from, off - 1);
    assert p(off) == ProbeAt(f, from, off);
  }

  lemma SkippedIsFirstAt(f: LogFile, from: int) returns (off: nat)
    requires WellFormed(f) && f.end == EOF
    ensures Skipped(f, Some(from)) == FirstAt(f.recs, off)
    ensures off > 0 ==> ProbeAt(f, from, off - 1) == No
    ensures off < f.size ==> ProbeAt(f, from, off) == Yes
    ensures off == f.size ==> FirstAt(f.recs, off) == |f.recs|
  {
    off := SearchFile(f, from);
    PastTheEnd(f);
    assert Skipped(f, Some(from)) == FirstAt(f.recs, off);
  }

  /** In a file sorted by time, the seek skips exactly the entries before `from`. */
  lemma SeekSplits(f: LogFile, from: int)
    requires WellFormed(f) && Sorted(EntriesOf(f.recs)) && f.end == EOF
    ensures forall i | 0 <= i < Skipped(f, Some(from)) :: f.recs[i].entry.time < from
    ensures forall i | Skipped(f, Some(from)) <= i < |f.recs| :: f.recs[i].entry.time >= from
  {
    var off := SkippedIsFirstAt(f, from);
    var es := EntriesOf(f.recs);
    if off > 0 {
      FirstAtStep(f, off);
      SortedPrefix(es, FirstAt(f.recs, off - 1), from);
    }
    if FirstAt(f.recs, off) < |f.recs| {
      SortedSuffix(es, FirstAt(f.recs, off), from);
    }
  }

  lemma FirstAtStep(f: LogFile, off: nat)
    requires WellFormed(f) && off > 0
    ensures FirstAt(f.recs, off) <= FirstAt(f.recs, off - 1) + 1
  {
    var k := FirstAt(f.recs, off - 1);
    assert k + 1 < |f.recs| ==> f.recs[k].at < f.recs[k + 1].at;
  }

  lemma SortedPrefix(es: seq<Entry>, k: nat, t: int)
    requires Sorted(es) && k < |es| && es[k].time < t
    ensures forall i | 0 <= i <= k :: es[i].time < t
  {
  }

  lemma SortedSuffix(es: seq<Entry>, k: nat, t: int)
    requires Sorted(es) && k < |es| && t <= es[k].time
    ensures forall i | k <= i < |es| :: t <= es[i].time
  {
  }

  lemma {:induction false} SameSearch(p: nat -> Probe, q: nat -> Probe, i: nat, j: nat)
    requires i <= j && Search(p, i, j).Some?
    requires forall h: nat | p(h) != Panic :: q(h) == p(h)
    ensures Search(q, i, j) == Search(p, i, j)
    decreases j - i
  {
    if i < j {
      var h := (i + j) / 2;
      match p(h)
      case Panic =>
      case No => SameSearch(p, q, h + 1, j);
      case Yes => SameSearch(p, q, i, h);
    }
  }

  /** A file that breaks off is opened where it would be if it ended there, unless the search runs into the break. */
  lemma SeekIgnoresEnd(f: LogFile, from: int)
    ensures var whole := SeekTo(f.(end := EOF), Some(from));
            if Search(Prober(f, from), 0, f.size).None? then f.end != EOF && SeekTo(f, Some(from)) == Failed(f.end)
            else SeekTo(f, Some(from)) == if whole.At? then whole else Failed(f.end)
  {
    var p, q := Prober(f, from), Prober(f.(end := EOF), from);
    if Search(p, 0, f.size).Some? {
      assert forall h: nat | p(h) != Panic :: q(h) == p(h);
      SameSearch(p, q, 0, f.size);
    } else if f.end == EOF {
      NeverPanics(f, from);
      SearchBoundary(p, f.size, 0, f.size);
    }
  }

  // ---- scanning ----

  function Past(to: Option<int>, t: int): bool { to.Some? && t > to.value }

  function Before(from: Option<int>, t: int): bool { from.Some? && t < from.value }

  /** What a scan delivers, and the error it stops with. */
  datatype Scanned = Scanned(kept: seq<Entry>, err: Err)

  function Scan(from: Option<int>, to: Option<int>, prev: int, es: seq<Entry>, end: Err): (r: Scanned)
    decreases es
  {
    if es == [] then Scanned([], end)
    else
      var t := Max(prev, es[0].time);
      if Past(to, t) then Scanned([], EOF)
      else
        var r := Scan(from, to, t, es[1..], end);
        if Before(from, t) then r else r.(kept := [es[0].(time := t)] + r.kept)
  }

  /** A stream that is opened once and never closed. */
  function Straight(f: LogFile, from: Option<int>, to: Option<int>): Scanned {
    match SeekTo(f, from)
    case At(k) => Scan(from, to, 0, EntriesOf(f.recs[k..]), f.end)
    case Failed(err) => Scanned([], err)
  }

  /** Timestamps made non-decreasing, starting from `prev`. */
  ghost function Ratchet(prev: int, es: seq<Entry>): seq<Entry>
    decreases es
  {
    if es == [] then []
    else [es[0].(time := Max(prev, es[0].time))] + Ratchet(Max(prev, es[0].time), es[1..])
  }

  ghost function Within(from: Option<int>, to: Option<int>, es: seq<Entry>): seq<Entry> {
    if es == [] then []
    else if Before(from, es[0].time) || Past(to, es[0].time) then Within(from, to, es[1..])
    else [es[0]] + Within(from, to, es[1..])
  }

  lemma WithinOne(from: Option<int>, to: Option<int>, e: Entry)
    ensures Within(from, to, [e]) ==
            if (from.Some? ==> from.value <= e.time) && (to.Some? ==> e.time <= to.value) then [e] else []
  {
    assert [e][1..] == [];
  }

  /** The filter goes entry by entry and keeps their order. */
  lemma {:induction false} WithinAppend(from: Option<int>, to: Option<int>, a: seq<Entry>, b: seq<Entry>)
    ensures Within(from, to, a + b) == Within(from, to, a) + Within(from, to, b)
  {
    if a == [] {
      assert a + b == b;
    } else {
      assert (a + b)[1..] == a[1..] + b;
      WithinAppend(from, to, a[1..], b);
    }
  }

  lemma {:induction false} RatchetRises(prev: int, es: seq<Entry>)
    ensures var r := Ratchet(prev, es);
            |r| == |es| && Sorted(r) && forall i | 0 <= i < |r| :: prev <= r[i].time
    decreases es
  {
    if es != [] {
      RatchetRises(Max(prev, es[0].time), es[1..]);
    }
  }

  /** A ratcheted time is the latest of `prev` and the times so far. */
  lemma {:induction false} RatchetIsLatest(prev: int, es: seq<Entry>, i: nat)
    requires i < |es|
    ensures |Ratchet(prev, es)| == |es| && Ratchet(prev, es)[i].text == es[i].text
    ensures var t := Ratchet(prev, es)[i].time;
            && prev <= t && (forall j | 0 <= j <= i :: es[j].time <= t)
            && (t == prev || exists j | 0 <= j <= i :: t == es[j].time)
    decreases es
  {
    var t := Max(prev, es[0].time);
    RatchetRises(t, es[1..]);
    if i > 0 {
      RatchetIsLatest(t, es[1..], i - 1);
      assert forall j | 0 < j <= i :: es[j] == es[1..][j - 1];
    }
  }

  lemma {:induction false} WithinLate(from: Option<int>, to: Option<int>, es: seq<Entry>)
    requires forall i | 0 <= i < |es| :: Past(to, es[i].time)
    ensures Within(from, to, es) == []
  {
    if es != [] {
      WithinLate(from, to, es[1..]);
    }
  }

  /** Stopping at the first ratcheted time past `to` is the same as filtering the whole remainder. */
  lemma {:induction false} ScanIsFilter(from: Option<int>, to: Option<int>, prev: int, es: seq<Entry>, end: Err)
    ensures Scan(from, to, prev, es, end).kept == Within(from, to, Ratchet(prev, es))
    decreases es
  {
    if es != [] {
      var t := Max(prev, es[0].time);
      if Past(to, t) {
        RatchetRises(t, es[1..]);
        WithinLate(from, to, Ratchet(t, es[1..]));
      } else {
        ScanIsFilter(from, to, t, es[1..], end);
      }
    }
  }

  lemma {:induction false} WithinBounds(from: Option<int>, to: Option<int>, es: seq<Entry>)
    requires Sorted(es)
    ensures Sorted(Within(from, to, es))
    ensures forall e | e in Within(from, to, es) :: e in es && !Before(from, e.time) && !Past(to, e.time)
  {
    if es != [] {
      WithinBounds(from, to, es[1..]);
      assert forall e | e in es[1..] :: es[0].time <= e.time;
    }
  }

  /** Every sequence a file delivers is in time order and inside [from, to]. */
  lemma StraightInOrder(f: LogFile, from: Option<int>, to: Option<int>)
    ensures var es := Straight(f, from, to).kept;
            && Sorted(es)
            && (forall i | 0 <= i < |es| ::
                  (from.Some? ==> from.value <= es[i].time) && (to.Some? ==> es[i].time <= to.value))
  {
    if SeekTo(f, from).At? {
      var es := EntriesOf(f.recs[SeekTo(f, from).k..]);
      ScanIsFilter(from, to, 0, es, f.end);
      RatchetRises(0, es);
      WithinBounds(from, to, Ratchet(0, es));
    }
  }

  // ---- how reading ends ----

  /** Some entry, ratcheted from `prev`, is past `to`. */
  ghost predicate Overruns(to: Option<int>, prev: int, es: seq<Entry>) {
    exists e | e in Ratchet(prev, es) :: Past(to, e.time)
  }

  lemma OverrunsRest(to: Option<int>, prev: int, es: seq<Entry>)
    requires es != []
    ensures var t := Max(prev, es[0].time); Overruns(to, prev, es) <==> Past(to, t) || Overruns(to, t, es[1..])
  {
    var t := Max(prev, es[0].time);
    var first, rest := es[0].(time := t), Ratchet(t, es[1..]);
    assert Ratchet(prev, es) == [first] + rest;
    assert first in Ratchet(prev, es) && forall e :: e in Ratchet(prev, es) <==> e == first || e in rest;
  }

  /** A scan ends in EOF if it comes upon a ratcheted time past `to`, and otherwise as the file does. */
  lemma {:induction false} ScanEnds(from: Option<int>, to: Option<int>, prev: int, es: seq<Entry>, end: Err)
    ensures Scan(from, to, prev, es, end).err == if Overruns(to, prev, es) then EOF else end
    decreases es
  {
    if es != [] {
      var t := Max(prev, es[0].time);
      OverrunsRest(to, prev, es);
      if !Past(to, t) {
        ScanEnds(from, to, t, es[1..], end);
      }
    }
  }

  /** Ratcheting takes an entry past `to` exactly if one is past it by itself, or `prev` is. */
  lemma {:induction false} OverrunsExactly(to: Option<int>, prev: int, es: seq<Entry>)
    ensures Overruns(to, prev, es) <==> es != [] && (Past(to, prev) || exists e | e in es :: Past(to, e.time))
    decreases es
  {
    if es != [] {
      OverrunsRest(to, prev, es);
      OverrunsExactly(to, Max(prev, es[0].time), es[1..]);
      assert es == [es[0]] + es[1..];
      assert forall e :: e in es <==> e == es[0] || e in es[1..];
    }
  }

  /** From where the seek lands on there is an entry past `to`, or any entry at all if 1970 is past it. */
  ghost predicate StopsEarly(f: LogFile, from: Option<int>, to: Option<int>) {
    && SeekTo(f, from).At? && SeekTo(f, from).k < |f.recs|
    && (Past(to, 0) || exists i | SeekTo(f, from).k <= i < |f.recs| :: Past(to, f.recs[i].entry.time))
  }

  lemma SeekFails(f: LogFile, from: Option<int>)
    requires SeekTo(f, from).Failed?
    ensures SeekTo(f, from).err == f.end
  {
    SeekIgnoresEnd(f, from.value);
  }

  lemma PastAfter(recs: seq<Rec>, k: nat, to: Option<int>)
    requires k <= |recs|
    ensures (exists e | e in EntriesOf(recs[k..]) :: Past(to, e.time)) <==>
            exists i | k <= i < |recs| :: Past(to, recs[i].entry.time)
  {
    var es := EntriesOf(recs[k..]);
    if i :| k <= i < |recs| && Past(to, recs[i].entry.time) {
      assert es[i - k] == recs[i].entry;
    }
    if e :| e in es && Past(to, e.time) {
      var i :| 0 <= i < |es| && es[i] == e;
      assert recs[k + i].entry == e;
    }
  }

  /** Reading a file ends in EOF when it is stopped by `to`, and in the file's own end otherwise. */
  lemma StraightEnds(f: LogFile, from: Option<int>, to: Option<int>)
    ensures Straight(f, from, to).err == if StopsEarly(f, from, to) then EOF else f.end
    ensures StopsEarly(f, from, to) <==>
            SeekTo(f, from).At? && Overruns(to, 0, EntriesOf(f.recs[SeekTo(f, from).k..]))
  {
    match SeekTo(f, from)
    case At(k) =>
      var es := EntriesOf(f.recs[k..]);
      ScanEnds(from, to, 0, es, f.end);
      OverrunsExactly(to, 0, es);
      PastAfter(f.recs, k, to);
    case Failed(_) => SeekFails(f, from);
  }

  lemma {:induction false} RatchetSorted(prev: int, es: seq<Entry>)
    requires Sorted(es) && (es != [] ==> prev <= es[0].time)
    ensures Ratchet(prev, es) == es
    decreases es
  {
    if es != [] {
      RatchetSorted(es[0].time, es[1..]);
    }
  }

  lemma {:induction false} WithinDrops(from: Option<int>, to: Option<int>, es: seq<Entry>, k: nat)
    requires k <= |es| && forall i | 0 <= i < k :: Before(from, es[i].time)
    ensures Within(from, to, es) == Within(from, to, es[k..])
  {
    if k > 0 {
      WithinDrops(from, to, es[1..], k - 1);
      assert es[1..][k - 1..] == es[k..];
    }
  }

  /** The first entry at or after `from` has a non-negative timestamp, or is past `to`, or is missing. */
  predicate StartsInRange(f: LogFile, from: Option<int>, to: Option<int>) {
    var k := Skipped(f, from);
    k < |f.recs| ==> f.recs[k].entry.time >= 0 || Past(to, f.recs[k].entry.time)
  }

  lemma FilterFromSeek(f: LogFile, from: Option<int>, to: Option<int>)
    requires WellFormed(f) && f.end == EOF && Sorted(EntriesOf(f.recs))
    ensures var es := EntriesOf(f.recs[Skipped(f, from)..]);
            && Sorted(es) && (forall i | 0 <= i < |es| :: !Before(from, es[i].time))
            && Within(from, to, EntriesOf(f.recs)) == Within(from, to, es)
            && Straight(f, from, to).kept == Within(from, to, Ratchet(0, es))
  {
    var k := Skipped(f, from);
    var es := EntriesOf(f.recs);
    assert EntriesOf(f.recs[k..]) == es[k..];
    if from.Some? {
      SeekSplits(f, from.value);
    }
    WithinDrops(from, to, es, k);
    ScanIsFilter(from, to, 0, es[k..], f.end);
  }

  lemma RatchetedFilter(from: Option<int>, to: Option<int>, es: seq<Entry>)
    requires Sorted(es) && es != [] && !Before(from, es[0].time)
    ensures Within(from, to, Ratchet(0, es)) == Within(from, to, es) <==> es[0].time >= 0 || Past(to, es[0].time)
  {
    var r := Ratchet(0, es);
    RatchetRises(0, es);
    if es[0].time >= 0 {
      RatchetSorted(0, es);
    } else if Past(to, es[0].time) {
      WithinLate(from, to, es);
      WithinLate(from, to, r);
    } else {
      WithinBounds(from, to, r);
      assert Within(from, to, es)[0] == es[0];
      assert es[0] !in r;
    }
  }

  /**
  In a file sorted by time, seek-then-scan is a plain filter of the whole file exactly when the first
  entry the seek finds is not in range with a negative timestamp.
  */
  lemma SortedFileIsFiltered(f: LogFile, from: Option<int>, to: Option<int>)
    requires WellFormed(f) && f.end == EOF && Sorted(EntriesOf(f.recs))
    ensures Straight(f, from, to).kept == Within(from, to, EntriesOf(f.recs)) <==> StartsInRange(f, from, to)
  {
    FilterFromSeek(f, from, to);
    var es := EntriesOf(f.recs[Skipped(f, from)..]);
    if es != [] {
      RatchetedFilter(from, to, es);
    }
  }

  // ---- closing and reopening ----

  /** What is decoded after reopening: the remembered entry is skipped if it comes first again. */
  function AfterReopen(es: seq<Entry>, seen: Entry): seq<Entry> {
    if es != [] && es[0] == seen then es[1..] else es
  }

  /** A stream peeked once, closed, and reopened for the rest. */
  function Reopened(f: LogFile, from: Option<int>, to: Option<int>): Scanned {
    var s := Straight(f, from, to);
    if s.kept == [] then s
    else
      var e := s.kept[0];
      var k := SeekTo(f, from).k;
      var r := Scan(from, to, e.time, AfterReopen(EntriesOf(f.recs[k..]), e), f.end);
      r.(kept := [e] + r.kept)
  }

  /** The first entry kept is the first one decoded, ratcheted from zero. */
  lemma FirstKept(f: LogFile, from: Option<int>, to: Option<int>)
    requires WellFormed(f) && Straight(f, from, to).kept != []
    ensures var k := SeekTo(f, from).k;
            && SeekTo(f, from).At? && k < |f.recs|
            && var raw := f.recs[k].entry;
            && Straight(f, from, to).kept[0] == raw.(time := Max(0, raw.time))
  {
    if from.Some? {
      SeekLands(f, from.value);
    }
  }

  lemma ReopenNonNegative(f: LogFile, from: Option<int>, to: Option<int>)
    requires WellFormed(f) && Straight(f, from, to).kept != []
    requires FirstTime(f, from) >= 0
    ensures Reopened(f, from, to) == Straight(f, from, to)
  {
    FirstKept(f, from, to);
    var es := EntriesOf(f.recs[SeekTo(f, from).k..]);
    assert es[0].(time := es[0].time) == es[0];
    assert Scan(from, to, 0, es, f.end).kept == [es[0]] + Scan(from, to, es[0].time, es[1..], f.end).kept by {
      if from.Some? {
        SeekLands(f, from.value);
      }
    }
  }

  lemma ReopenNegative(f: LogFile, from: Option<int>, to: Option<int>)
    requires WellFormed(f) && Straight(f, from, to).kept != []
    requires FirstTime(f, from) < 0
    ensures var s := Straight(f, from, to);
            Reopened(f, from, to) == s.(kept := [s.kept[0]] + s.kept)
  {
    FirstKept(f, from, to);
  }

  /** The timestamp of the first entry decoded after opening; 0 when there is none. */
  function FirstTime(f: LogFile, from: Option<int>): int {
    match SeekTo(f, from)
    case At(k) => if k < |f.recs| then f.recs[k].entry.time else 0
    case Failed(_) => 0
  }

  /** With a negative first timestamp, nothing is delivered exactly when 1970 is past `to`. */
  lemma NegativeStart(f: LogFile, from: Option<int>, to: Option<int>)
    requires WellFormed(f) && FirstTime(f, from) < 0
    ensures Straight(f, from, to).kept == [] <==> Past(to, 0)
  {
    var es := EntriesOf(f.recs[SeekTo(f, from).k..]);
    assert es != [] && es[0].time == FirstTime(f, from);
    if from.Some? {
      SeekLands(f, from.value);
    }
  }

  /**
  Closing and reopening is invisible exactly when the first entry decoded has a non-negative timestamp,
  or there is none, or 1970 is already past `to`; otherwise that entry is delivered twice.
  */
  lemma ReopenIsFaithful(f: LogFile, from: Option<int>, to: Option<int>)
    requires WellFormed(f)
    ensures var s := Straight(f, from, to);
            && (Reopened(f, from, to) == s <==> FirstTime(f, from) >= 0 || Past(to, 0))
            && (FirstTime(f, from) < 0 && !Past(to, 0) ==>
                  s.kept != [] && Reopened(f, from, to) == s.(kept := [s.kept[0]] + s.kept))
  {
    if FirstTime(f, from) < 0 {
      NegativeStart(f, from, to);
      if !Past(to, 0) {
        ReopenNegative(f, from, to);
      }
    } else if Straight(f, from, to).kept != [] {
      ReopenNonNegative(f, from, to);
    }
  }

  /** A file with one entry from before 1970 delivers it twice, both times stamped 1970. */
  lemma EntryDeliveredTwice(e: Entry) returns (f: LogFile)
    requires e.time < 0
    ensures WellFormed(f) && EntriesOf(f.recs) == [e]
    ensures Straight(f, None, None).kept == [e.(time := 0)]
    ensures Reopened(f, None, None).kept == [e.(time := 0), e.(time := 0)]
  {
    f := LogFile(1, [Rec(0, e)], EOF);
    var es := EntriesOf(f.recs[0..]);
    assert es == [e] && es[1..] == [];
    assert Scan(None, None, 0, es[1..], EOF).kept == [];
    assert Straight(f, None, None).kept == [e.(time := 0)];
    ReopenIsFaithful(f, None, None);
  }

  // ---- the stream object ----

  lemma EntriesTail(recs: seq<Rec>, k: nat)
    requires k < |recs|
    ensures EntriesOf(recs[k..]) == [recs[k].entry] + EntriesOf(recs[k + 1..])
    ensures EntriesOf(recs[k..])[1..] == EntriesOf(recs[k + 1..])
  {
  }

  /** sort.Search as the loop it is. */
  method SearchLoop(p: nat -> Probe, n: nat) returns (r: Option<nat>)
    ensures r == Search(p, 0, n)
  {
    var i, j := 0, n;
    while i < j
      invariant 0 <= i <= j
      invariant Search(p, 0, n) == Search(p, i, j)
    {
      var h := (i + j) / 2;
      match p(h)
      case Panic => return None;
      case No => i := h + 1;
      case Yes => j := h;
    }
    return Some(i);
  }

  class FileLogStream {
    const f: LogFile
    const from: Option<int>
    const to: Option<int>
    var prevTime: int
    var d: Option<nat>      // next record to decode, when the file is open
    var read: bool
    var e: Entry
    var err: Option<Err>

    ghost predicate Valid()
      reads this
    {
      && WellFormed(f)
      && (d.Some? ==> d.value <= |f.recs|)
      && (read ==> err.None? && prevTime == e.time)
    }

    /** The entries still to be decoded. */
    ghost function Todo(): seq<Entry>
      reads this
      requires Valid()
    {
      if d.Some? then EntriesOf(f.recs[d.value..])
      else if SeekTo(f, from).At? then AfterReopen(EntriesOf(f.recs[SeekTo(f, from).k..]), e)
      else []
    }

    /** What the stream has still to deliver and how it will end. */
    ghost function Remaining(): Scanned
      reads this
      requires Valid()
    {
      if err.Some? then Scanned([], err.value)
      else
        var end := if d.None? && SeekTo(f, from).Failed? then SeekTo(f, from).err else f.end;
        var r := Scan(from, to, prevTime, Todo(), end);
        if read then r.(kept := [e] + r.kept) else r
    }

    constructor (f: LogFile, from: Option<int>, to: Option<int>)
      requires WellFormed(f)
      ensures Valid() && this.f == f && this.from == from && this.to == to
      ensures d.None? && !read && err.None? && e == ZERO && prevTime == 0
      ensures Remaining() == Straight(f, from, to)
    {
      this.f, this.from, this.to := f, from, to;
      prevTime, d, read, e, err := 0, None, false, ZERO, None;
    }

    method Close()
      requires Valid()
      modifies this`d
      ensures Valid() && d.None?
    {
      d := None;
    }

    method Open() returns (ok: bool)
      requires Valid() && err.None?
      modifies this`d, this`err
      ensures Valid() || !ok
      ensures match SeekTo(f, from)
              case At(k) => ok && d == Some(k) && err.None?
              case Failed(x) => !ok && d == old(d) && err == Some(x)
    {
      if from.None? {
        d := Some(0);
        return true;
      }
      var off := SearchLoop(Prober(f, from.value), f.size);
      if off.None? {
        err := Some(Broken);
        return false;
      }
      var k := FirstAt(f.recs, off.value);
      if k == |f.recs| {
        err := Some(f.end);
        return false;
      }
      d := Some(k);
      return true;
    }

    /** The ratchet and the range test, on the entry just decoded. */
    method Accept(x: Entry)
      requires Valid() && !read && err.None? && d.Some?
      modifies this
      ensures Valid() && (err.Some? || d == old(d))
      ensures Remaining() == Scan(from, to, old(prevTime), [x] + old(Todo()), f.end)
    {
      ghost var es := [x] + Todo();
      assert es[0] == x && es[1..] == Todo();
      e := x;
      if e.time < prevTime {
        e := e.(time := prevTime);
      } else {
        prevTime := e.time;
      }
      if Past(to, e.time) {
        Close();
        e := ZERO;
        err := Some(EOF);
      } else {
        read := !Before(from, e.time);
      }
    }

    /** One turn of peek's loop. */
    method Turn()
      requires Valid() && !read && err.None?
      modifies this
      ensures Valid() && Remaining() == old(Remaining())
      ensures !read && err.None? ==> d.Some? && (old(d).Some? ==> old(d.value) < d.value)
    {
      var justOpened := false;
      if d.None? {
        var isOpen := Open();
        if !isOpen {
          return;
        }
        justOpened := true;
      }
      if d.value == |f.recs| {
        err := Some(f.end);
        Close();
        e := ZERO;
        return;
      }
      var x := f.recs[d.value].entry;
      EntriesTail(f.recs, d.value);
      d := Some(d.value + 1);
      if justOpened && x == e {
        return;
      }
      Accept(x);
    }

    /** Peeking delivers nothing and loses nothing. */
    method Peek() returns (r: Entry, ok: bool)
      requires Valid()
      modifies this
      ensures Valid() && Remaining() == old(Remaining())
      ensures ok <==> Remaining().kept != []
      ensures ok <==> read
      ensures ok ==> r == e == Remaining().kept[0]
      ensures !ok ==> err == Some(Remaining().err)
    {
      while !read && err.None?
        invariant Valid() && Remaining() == old(Remaining())
        decreases !read && err.None?, d.None?, if d.Some? then |f.recs| - d.value else 0
      {
        Turn();
      }
      return e, err.None?;
    }

    method Pop() returns (r: Entry, ok: bool)
      requires Valid()
      modifies this
      ensures Valid()
      ensures ok <==> old(Remaining()).kept != []
      ensures ok ==> r == old(Remaining()).kept[0]
      ensures Remaining() == if ok then old(Remaining()).(kept := old(Remaining()).kept[1..]) else old(Remaining())
    {
      r, ok := Peek();
      if !ok {
        return;
      }
      read := false;
    }
  }

  /**
  newFileLogStream: peeks, so that a file with nothing in range is dropped, then closes the file.
  */
  method NewFileLogStream(f: LogFile, from: Option<int>, to: Option<int>) returns (s: FileLogStream?, err: Option<Err>)
    requires WellFormed(f)
    ensures s == null <==> Straight(f, from, to).kept == []
    ensures err == if s == null && Straight(f, from, to).err != EOF then Some(Straight(f, from, to).err) else None
    ensures err.Some? <==> s == null && f.end != EOF && !StopsEarly(f, from, to)
    ensures s != null ==> fresh(s) && s.Valid() && s.d.None?
    ensures s != null ==> s.Remaining() == Reopened(f, from, to)
  {
    StraightEnds(f, from, to);
    var t := new FileLogStream(f, from, to);
    var _, ok := t.Peek();
    if !ok {
      return null, if t.err == Some(EOF) then None else t.err;
    }
    t.Close();
    return t, None;
  }
}
