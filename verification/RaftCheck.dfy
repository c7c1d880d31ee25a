/**
The store checker's pass over raft state: one scan of the range-local keys, which interleave the
keys of all ranges, against what a well-formed store looks like.
*/
module RaftCheck {
  import opened Common

  const U64: nat := 0x1_0000_0000_0000_0000

  type Index = x: nat | x < U64

  /** Unsigned 64-bit arithmetic wraps. */
  function Inc(x: Index): Index { if x + 1 == U64 then 0 else x + 1 }
  function Dec(x: Index): Index { if x == 0 then U64 - 1 else x - 1 }

  /** The keys the scan looks at; every other range-local key is Other. */
  datatype KV =
    | HardState(range: int, commit: Index)
    | Truncated(range: int, index: Index)
    | Applied(range: int, index: Index)
    | Log(range: int, index: Index)
    | Other(range: int)

  datatype Info = Info(truncated: Index, applied: Index, first: Index, last: Index, committed: Index)

  const EMPTY := Info(0, 0, 0, 0, 0)

  // ---- the scan ----

  function Update(info: Info, kv: KV): Info {
    match kv
    case HardState(_, commit) => info.(committed := commit)
    case Truncated(_, index) => info.(truncated := index)
    case Applied(_, index) => info.(applied := index)
    case Log(_, index) => if info.first == 0 then info.(first := index, last := index) else info.(last := index)
    case Other(_) => info
  }

  /** What the scan remembers of a range after `kvs`. */
  function After(kvs: seq<KV>, r: int): Info {
    if kvs == [] then EMPTY
    else
      var kv := kvs[|kvs| - 1];
      var info := After(kvs[..|kvs| - 1], r);
      if kv.range == r then Update(info, kv) else info
  }

  /** The scan complains about the i-th key: a log index that does not follow the one before it. */
  predicate Anomaly(kvs: seq<KV>, i: nat)
    requires i < |kvs|
  {
    kvs[i].Log? && var info := After(kvs[..i], kvs[i].range); info.first != 0 && kvs[i].index != Inc(info.last)
  }

  /** Something is known about range `r`. */
  predicate Seen(kvs: seq<KV>, r: int) {
    exists i | 0 <= i < |kvs| :: kvs[i].range == r && !kvs[i].Other?
  }

  /** The complaints made about one range once the scan is over. */
  predicate Suspect(info: Info) {
    || (info.truncated != 0 && info.truncated != Dec(info.first))
    || info.first > info.last
    || info.applied < info.first || info.applied > info.last
    || info.applied > info.committed
    || info.committed > info.last
  }

  ghost predicate Reported(kvs: seq<KV>) {
    || (exists i | 0 <= i < |kvs| :: Anomaly(kvs, i))
    || (exists r | Seen(kvs, r) :: Suspect(After(kvs, r)))
  }

  method CheckRaftState(kvs: seq<KV>) returns (foundProblem: bool)
    ensures foundProblem <==> Reported(kvs)
  {
    foundProblem := false;
    var info: map<int, Info> := map[];
    for i := 0 to |kvs|
      invariant forall r :: r in info <==> Seen(kvs[..i], r)
      invariant forall r | r in info :: info[r] == After(kvs[..i], r)
      invariant forall r | r !in info :: After(kvs[..i], r) == EMPTY
      invariant foundProblem <==> exists j | 0 <= j < i :: Anomaly(kvs, j)
    {
      var kv := kvs[i];
      assert kvs[..i + 1][..i] == kvs[..i];
      SeenStep(kvs, i);
      if !kv.Other? {
        var ri := if kv.range in info then info[kv.range] else EMPTY;
        if kv.Log? && ri.first != 0 && kv.index != Inc(ri.last) {
          assert Anomaly(kvs, i);
          foundProblem := true;
        }
        info := info[kv.range := Update(ri, kv)];
      }
    }
    assert kvs[..|kvs|] == kvs;
    var suspect := AnySuspect(info);
    foundProblem := foundProblem || suspect;
  }

  /** The loop over the collected ranges, in whatever order the map yields them. */
  method AnySuspect(info: map<int, Info>) returns (found: bool)
    ensures found <==> exists r | r in info :: Suspect(info[r])
  {
    found := false;
    var todo := info.Keys;
    while todo != {}
      invariant todo <= info.Keys
      invariant found <==> exists r | r in info && r !in todo :: Suspect(info[r])
      decreases |todo|
    {
      ghost var some := AnElement(todo);
      var r :| r in todo;
      found := found || Suspect(info[r]);
      todo := todo - {r};
    }
  }

  lemma SeenStep(kvs: seq<KV>, i: nat)
    requires i < |kvs|
    ensures forall r :: Seen(kvs[..i + 1], r) <==> Seen(kvs[..i], r) || (kvs[i].range == r && !kvs[i].Other?)
  {
    forall r
      ensures Seen(kvs[..i + 1], r) <==> Seen(kvs[..i], r) || (kvs[i].range == r && !kvs[i].Other?)
    {
      if j :| 0 <= j < i && kvs[..i][j].range == r && !kvs[..i][j].Other? {
        assert kvs[..i + 1][j] == kvs[..i][j];
      }
      if kvs[i].range == r && !kvs[i].Other? {
        assert kvs[..i + 1][i] == kvs[i];
      }
    }
  }

  // ---- what a well-formed store looks like ----

  /** The log indices of a range, in key order. */
  function Indices(kvs: seq<KV>, r: int): seq<Index> {
    if kvs == [] then []
    else
      var kv := kvs[|kvs| - 1];
      var before := Indices(kvs[..|kvs| - 1], r);
      if kv.Log? && kv.range == r then before + [kv.index] else before
  }

  function First(ix: seq<Index>): Index { if ix == [] then 0 else ix[0] }
  function Last(ix: seq<Index>): Index { if ix == [] then 0 else ix[|ix| - 1] }

  /** The indices are exactly first, first + 1, ..., last. */
  ghost predicate Interval(ix: seq<Index>) {
    forall i | 0 <= i < |ix| :: ix[i] as int == ix[0] as int + i
  }

  /** The index stored under range `r`'s key of the kind selected by `kind`; 0 when there is none. */
  function Stored(kvs: seq<KV>, r: int, kind: KV -> bool): Index {
    if kvs == [] then 0
    else
      var kv := kvs[|kvs| - 1];
      if kv.range == r && kind(kv) then Value(kv) else Stored(kvs[..|kvs| - 1], r, kind)
  }

  function Value(kv: KV): Index {
    match kv
    case HardState(_, commit) => commit
    case Truncated(_, index) => index
    case Applied(_, index) => index
    case Log(_, index) => index
    case Other(_) => 0
  }

  predicate IsApplied(kv: KV) { kv.Applied? }
  predicate IsHardState(kv: KV) { kv.HardState? }
  predicate IsTruncated(kv: KV) { kv.Truncated? }

  ghost predicate RangeOk(kvs: seq<KV>, r: int) {
    Consistent(Indices(kvs, r), Stored(kvs, r, IsApplied), Stored(kvs, r, IsHardState), Stored(kvs, r, IsTruncated))
  }

  /**
  A gapless log, applied inside it, not beyond what is committed, and truncated just before it; before index 0,
  which also stands for an empty log, comes the largest index.
  */
  ghost predicate Consistent(ix: seq<Index>, applied: Index, committed: Index, truncated: Index) {
    && Interval(ix)
    && First(ix) <= applied <= Last(ix)
    && applied <= committed <= Last(ix)
    && (truncated == 0 || truncated + 1 == First(ix) || (truncated + 1 == U64 && First(ix) == 0))
  }

  lemma {:induction false} ScanRemembers(kvs: seq<KV>, r: int)
    ensures After(kvs, r).applied == Stored(kvs, r, IsApplied)
    ensures After(kvs, r).committed == Stored(kvs, r, IsHardState)
    ensures After(kvs, r).truncated == Stored(kvs, r, IsTruncated)
  {
    if kvs != [] {
      ScanRemembers(kvs[..|kvs| - 1], r);
    }
  }

  /** Raft log indices start at 1. */
  ghost predicate PositiveLogs(kvs: seq<KV>) {
    forall i | 0 <= i < |kvs| :: kvs[i].Log? ==> kvs[i].index >= 1
  }

  lemma {:induction false} EndsOfLog(kvs: seq<KV>, r: int)
    requires PositiveLogs(kvs)
    ensures After(kvs, r).first == First(Indices(kvs, r))
    ensures After(kvs, r).last == Last(Indices(kvs, r))
    ensures Indices(kvs, r) != [] ==> First(Indices(kvs, r)) >= 1
  {
    if kvs != [] {
      EndsOfLog(kvs[..|kvs| - 1], r);
    }
  }

  /** Range `r` draws no complaint during the scan of the first `n` keys. */
  ghost predicate Quiet(kvs: seq<KV>, r: int, n: nat)
    requires n <= |kvs|
  {
    forall i | 0 <= i < n :: kvs[i].range == r ==> !Anomaly(kvs, i)
  }

  lemma {:induction false} QuietIsInterval(kvs: seq<KV>, r: int, n: nat)
    requires PositiveLogs(kvs) && n <= |kvs|
    ensures Quiet(kvs, r, n) <==> Interval(Indices(kvs[..n], r))
  {
    if n > 0 {
      QuietIsInterval(kvs, r, n - 1);
      EndsOfLog(kvs[..n - 1], r);
      assert kvs[..n][..n - 1] == kvs[..n - 1];
      var kv, ix := kvs[n - 1], Indices(kvs[..n - 1], r);
      if kv.Log? && kv.range == r {
        IntervalStep(ix, kv.index);
      }
      assert Quiet(kvs, r, n) <==> Quiet(kvs, r, n - 1) && (kv.range == r ==> !Anomaly(kvs, n - 1));
    }
  }

  lemma IntervalStep(ix: seq<Index>, x: Index)
    requires x >= 1
    ensures Interval(ix + [x]) <==> Interval(ix) && (ix == [] || x == Inc(Last(ix)))
  {
    var ix' := ix + [x];
    if Interval(ix') {
      assert forall i | 0 <= i < |ix| :: ix'[i] == ix[i];
      assert ix' [|ix|] == x;
    }
  }

  lemma UnseenIsEmpty(kvs: seq<KV>, r: int)
    requires !Seen(kvs, r)
    ensures After(kvs, r) == EMPTY && Indices(kvs, r) == []
  {
    if kvs != [] {
      var n := |kvs| - 1;
      forall i | 0 <= i < n
        ensures !(kvs[..n][i].range == r && !kvs[..n][i].Other?)
      {
        assert kvs[..n][i] == kvs[i];
      }
      UnseenIsEmpty(kvs[..n], r);
    }
  }

  /**
  Whatever the interleaving of the ranges' keys, the check reports nothing exactly when every range's
  log is an unbroken interval that agrees with its applied, committed and truncated indices.
  */
  lemma CheckIsExact(kvs: seq<KV>)
    requires PositiveLogs(kvs)
    ensures !Reported(kvs) <==> forall r :: RangeOk(kvs, r)
  {
    assert kvs[..|kvs|] == kvs;
    forall r
      ensures RangeOk(kvs, r) <==> Quiet(kvs, r, |kvs|) && (Seen(kvs, r) ==> !Suspect(After(kvs, r)))
    {
      QuietIsInterval(kvs, r, |kvs|);
      EndsOfLog(kvs, r);
      ScanRemembers(kvs, r);
      IntervalOrdered(Indices(kvs, r));
      if !Seen(kvs, r) {
        UnseenIsEmpty(kvs, r);
      }
    }
    if !Reported(kvs) {
      forall r
        ensures Quiet(kvs, r, |kvs|)
      {
      }
    } else if i :| 0 <= i < |kvs| && Anomaly(kvs, i) {
      assert !Quiet(kvs, kvs[i].range, |kvs|);
    }
  }

  lemma IntervalOrdered(ix: seq<Index>)
    ensures Interval(ix) ==> First(ix) <= Last(ix)
  {
  }

  /** Index 0 blinds the check: the gap in 0, 5 is not noticed. */
  lemma IndexZeroHidesGaps() returns (kvs: seq<KV>)
    ensures !PositiveLogs(kvs) && !Reported(kvs) && !RangeOk(kvs, 1)
  {
    var k0, k1, k2, k3 := Log(1, 0), Log(1, 5), Applied(1, 5), HardState(1, 5);
    kvs := [k0, k1, k2, k3];
    assert kvs[0] == k0;
    Snoc([], k0, 1);
    Snoc([k0], k1, 1);
    Snoc([k0, k1], k2, 1);
    Snoc([k0, k1, k2], k3, 1);
    assert kvs[..0] == [] && kvs[..1] == [k0] && kvs[..2] == [k0, k1] && kvs[..3] == [k0, k1, k2];
    assert [] + [k0] == [k0] && [k0] + [k1] == [k0, k1];
    assert [k0, k1] + [k2] == [k0, k1, k2] && [k0, k1, k2] + [k3] == kvs;
    assert Indices(kvs, 1)[1] == 5;
  }

  lemma Snoc(kvs: seq<KV>, kv: KV, r: int)
    ensures After(kvs + [kv], r) == if kv.range == r then Update(After(kvs, r), kv) else After(kvs, r)
    ensures Indices(kvs + [kv], r) == if kv.Log? && kv.range == r then Indices(kvs, r) + [kv.index] else Indices(kvs, r)
  {
    assert (kvs + [kv])[..|kvs|] == kvs;
  }

  // ---- logs that hold index 0 ----

  /** Each range's log keys come in ascending order, as the store yields them. */
  ghost predicate Ascending(kvs: seq<KV>) {
    forall i, j | 0 <= i < j < |kvs| ::
      kvs[i].Log? && kvs[j].Log? && kvs[i].range == kvs[j].range ==> kvs[i].index < kvs[j].index
  }

  predicate IsZero(kv: KV) { kv.Log? && kv.index == 0 }

  /** The keys without the log entries of index 0. */
  function Drop0(kvs: seq<KV>): (r: seq<KV>)
    ensures forall kv :: kv in r <==> kv in kvs && !IsZero(kv)
  {
    if kvs == [] then []
    else
      var q, kv := kvs[..|kvs| - 1], kvs[|kvs| - 1];
      assert kvs == q + [kv];
      if IsZero(kv) then Drop0(q) else Drop0(q) + [kv]
  }

  lemma AscendingPrefix(kvs: seq<KV>)
    requires Ascending(kvs) && kvs != []
    ensures Ascending(kvs[..|kvs| - 1])
    ensures IsZero(kvs[|kvs| - 1]) ==> NoLog(kvs[..|kvs| - 1], kvs[|kvs| - 1].range)
  {
  }

  ghost predicate NoLog(kvs: seq<KV>, r: int) {
    forall i | 0 <= i < |kvs| :: !(kvs[i].Log? && kvs[i].range == r)
  }

  lemma {:induction false} NoLogNoEnds(kvs: seq<KV>, r: int)
    requires NoLog(kvs, r)
    ensures After(kvs, r).first == 0 && After(kvs, r).last == 0
  {
    if kvs != [] {
      NoLogNoEnds(kvs[..|kvs| - 1], r);
    }
  }

  /** An entry of index 0 leaves no trace in what the scan remembers. */
  lemma {:induction false} DropAfter(kvs: seq<KV>, r: int)
    requires Ascending(kvs)
    ensures After(Drop0(kvs), r) == After(kvs, r)
  {
    if kvs != [] {
      var q, kv := kvs[..|kvs| - 1], kvs[|kvs| - 1];
      AscendingPrefix(kvs);
      DropAfter(q, r);
      if IsZero(kv) {
        NoLogNoEnds(q, kv.range);
      } else {
        Snoc(Drop0(q), kv, r);
      }
    }
  }

  ghost predicate AnyAnomaly(kvs: seq<KV>) { exists i | 0 <= i < |kvs| :: Anomaly(kvs, i) }

  predicate Breaks(info: Info, kv: KV) { kv.Log? && info.first != 0 && kv.index != Inc(info.last) }

  lemma AnomalySnoc(q: seq<KV>, kv: KV)
    ensures AnyAnomaly(q + [kv]) <==> AnyAnomaly(q) || Breaks(After(q, kv.range), kv)
  {
    var kvs := q + [kv];
    forall i | 0 <= i < |q|
      ensures Anomaly(kvs, i) == Anomaly(q, i)
    {
      assert kvs[..i] == q[..i];
    }
    assert kvs[..|q|] == q;
    assert Anomaly(kvs, |q|) == Breaks(After(q, kv.range), kv);
    if AnyAnomaly(q) {
      var i :| 0 <= i < |q| && Anomaly(q, i);
      assert Anomaly(kvs, i);
    }
  }

  lemma {:induction false} DropAnomaly(kvs: seq<KV>)
    requires Ascending(kvs)
    ensures AnyAnomaly(Drop0(kvs)) <==> AnyAnomaly(kvs)
  {
    if kvs != [] {
      var q, kv := kvs[..|kvs| - 1], kvs[|kvs| - 1];
      assert kvs == q + [kv];
      AscendingPrefix(kvs);
      DropAnomaly(q);
      AnomalySnoc(q, kv);
      if IsZero(kv) {
        NoLogNoEnds(q, kv.range);
      } else {
        AnomalySnoc(Drop0(q), kv);
        DropAfter(q, kv.range);
      }
    }
  }

  lemma DropSeen(kvs: seq<KV>, r: int)
    requires Ascending(kvs)
    ensures Seen(Drop0(kvs), r) ==> Seen(kvs, r)
    ensures Seen(kvs, r) && Suspect(After(kvs, r)) ==> Seen(Drop0(kvs), r)
  {
    var d := Drop0(kvs);
    if Seen(d, r) {
      var i :| 0 <= i < |d| && d[i].range == r && !d[i].Other?;
      assert d[i] in kvs;
    } else {
      UnseenIsEmpty(d, r);
      DropAfter(kvs, r);
    }
  }

  /** The check never sees the log entries of index 0: it gives the verdict it gives without them. */
  lemma DropReported(kvs: seq<KV>)
    requires Ascending(kvs)
    ensures Reported(Drop0(kvs)) <==> Reported(kvs)
  {
    DropAnomaly(kvs);
    assert AnyAnomaly(kvs) ==> Reported(kvs);
    assert AnyAnomaly(Drop0(kvs)) ==> Reported(Drop0(kvs));
    forall r
      ensures (Seen(Drop0(kvs), r) && Suspect(After(Drop0(kvs), r))) == (Seen(kvs, r) && Suspect(After(kvs, r)))
    {
      DropAfter(kvs, r);
      DropSeen(kvs, r);
    }
  }

  /** Every range is as it should be. */
  ghost predicate AllOk(kvs: seq<KV>) { forall r :: RangeOk(kvs, r) }

  /**
  On every store, with or without log entries of index 0: nothing is reported exactly when every range is
  as it should be once those entries are taken away.
  */
  lemma CheckSeesNonzero(kvs: seq<KV>)
    requires Ascending(kvs)
    ensures !Reported(kvs) <==> AllOk(Drop0(kvs))
  {
    DropReported(kvs);
    DropIsPositive(kvs);
    CheckIsExact(Drop0(kvs));
  }

  /** A range whose log starts at 0. */
  ghost predicate HasZero(kvs: seq<KV>, r: int) { Log(r, 0) in kvs }

  lemma {:induction false} DropStored(kvs: seq<KV>, r: int, kind: KV -> bool)
    requires forall kv | IsZero(kv) :: !kind(kv)
    ensures Stored(Drop0(kvs), r, kind) == Stored(kvs, r, kind)
  {
    if kvs != [] {
      var q, kv := kvs[..|kvs| - 1], kvs[|kvs| - 1];
      DropStored(q, r, kind);
      if !IsZero(kv) {
        assert (Drop0(q) + [kv])[..|Drop0(q)|] == Drop0(q);
      }
    }
  }

  lemma {:induction false} NoLogNoIndices(kvs: seq<KV>, r: int)
    requires NoLog(kvs, r)
    ensures Indices(kvs, r) == []
  {
    if kvs != [] {
      NoLogNoIndices(kvs[..|kvs| - 1], r);
    }
  }

  lemma Prepend(first: seq<Index>, ix: seq<Index>, x: Index)
    ensures first + ix + [x] == first + (ix + [x])
  {
  }

  function ZeroOf(kvs: seq<KV>, r: int): seq<Index> { if Log(r, 0) in kvs then [0] else [] }

  lemma ZeroSnoc(q: seq<KV>, kv: KV, r: int)
    ensures ZeroOf(q + [kv], r) == if kv == Log(r, 0) then [0] else ZeroOf(q, r)
  {
    assert Log(r, 0) in q + [kv] <==> Log(r, 0) in q || Log(r, 0) == kv;
  }

  /** Taking away index 0 takes the first index of the log away, if that is what it is. */
  lemma {:induction false} DropIndices(kvs: seq<KV>, r: int)
    requires Ascending(kvs)
    ensures Indices(kvs, r) == ZeroOf(kvs, r) + Indices(Drop0(kvs), r)
  {
    if kvs != [] {
      var q, kv := kvs[..|kvs| - 1], kvs[|kvs| - 1];
      assert kvs == q + [kv];
      AscendingPrefix(kvs);
      DropIndices(q, r);
      ZeroSnoc(q, kv, r);
      if IsZero(kv) {
        if kv.range == r {
          NoLogNoIndices(q, r);
        }
      } else {
        Snoc(Drop0(q), kv, r);
        if kv.Log? && kv.range == r {
          Prepend(ZeroOf(q, r), Indices(Drop0(q), r), kv.index);
        }
      }
    }
  }

  /** The log of `r` holds index 0 and goes on after it. */
  ghost predicate ZeroAndMore(kvs: seq<KV>, r: int) { HasZero(kvs, r) && Indices(Drop0(kvs), r) != [] }

  /** It does not go on at 1. */
  ghost predicate GapAfterZero(kvs: seq<KV>, r: int) {
    ZeroAndMore(kvs, r) && Indices(Drop0(kvs), r)[0] != 1
  }

  /** It goes on, but nothing is applied yet or the log is said to be truncated. */
  ghost predicate OddAfterZero(kvs: seq<KV>, r: int) {
    ZeroAndMore(kvs, r) && (Stored(kvs, r, IsApplied) == 0 || Stored(kvs, r, IsTruncated) != 0)
  }

  lemma IntervalFromZero(rest: seq<Index>)
    requires rest != [] && rest[0] >= 1
    ensures Interval([0] + rest) <==> Interval(rest) && rest[0] == 1
  {
    var ix := [0] + rest;
    assert forall i | 0 <= i < |rest| :: ix[i + 1] == rest[i];
    if Interval(ix) {
      assert ix[1] == rest[0];
    }
  }

  lemma ConsistentFromZero(rest: seq<Index>, applied: Index, committed: Index, truncated: Index)
    requires rest != [] && rest[0] >= 1
    ensures Consistent(rest, applied, committed, truncated) ==>
              (Consistent([0] + rest, applied, committed, truncated) <==> rest[0] == 1)
    ensures Consistent([0] + rest, applied, committed, truncated) ==>
              (Consistent(rest, applied, committed, truncated) <==> applied >= 1 && truncated == 0)
  {
    IntervalFromZero(rest);
    assert First([0] + rest) == 0 && Last([0] + rest) == Last(rest);
  }

  lemma DropStores(kvs: seq<KV>, r: int)
    ensures Stored(Drop0(kvs), r, IsApplied) == Stored(kvs, r, IsApplied)
    ensures Stored(Drop0(kvs), r, IsHardState) == Stored(kvs, r, IsHardState)
    ensures Stored(Drop0(kvs), r, IsTruncated) == Stored(kvs, r, IsTruncated)
  {
    DropStored(kvs, r, IsApplied);
    DropStored(kvs, r, IsHardState);
    DropStored(kvs, r, IsTruncated);
  }

  lemma {:induction false} PositiveIndices(kvs: seq<KV>, r: int)
    requires PositiveLogs(kvs)
    ensures forall i | 0 <= i < |Indices(kvs, r)| :: Indices(kvs, r)[i] >= 1
  {
    if kvs != [] {
      PositiveIndices(kvs[..|kvs| - 1], r);
    }
  }

  lemma DropIsPositive(kvs: seq<KV>)
    ensures PositiveLogs(Drop0(kvs))
  {
    var d := Drop0(kvs);
    assert forall i | 0 <= i < |d| :: d[i] in d;
  }

  /** What taking index 0 away changes about one range. */
  lemma ZeroInRange(kvs: seq<KV>, r: int)
    requires Ascending(kvs)
    ensures RangeOk(Drop0(kvs), r) ==> (RangeOk(kvs, r) <==> !GapAfterZero(kvs, r))
    ensures RangeOk(kvs, r) ==> (RangeOk(Drop0(kvs), r) <==> !OddAfterZero(kvs, r))
  {
    DropIndices(kvs, r);
    DropStores(kvs, r);
    var rest := Indices(Drop0(kvs), r);
    if ZeroAndMore(kvs, r) {
      DropIsPositive(kvs);
      PositiveIndices(Drop0(kvs), r);
      ConsistentFromZero(rest, Stored(kvs, r, IsApplied), Stored(kvs, r, IsHardState), Stored(kvs, r, IsTruncated));
    } else {
      assert [] + rest == rest;
    }
  }

  /**
  Exactly when index 0 misleads the check.  It passes a store that is not well formed if and only if all
  is well without those entries and some log has a gap after 0.  It complains about one that is well formed
  if and only if some log goes on after 0 with nothing applied or with a truncated index.
  */
  lemma ZeroMisleadsExactlyWhen(kvs: seq<KV>)
    requires Ascending(kvs)
    ensures !Reported(kvs) && !AllOk(kvs) <==> AllOk(Drop0(kvs)) && exists r :: GapAfterZero(kvs, r)
    ensures Reported(kvs) && AllOk(kvs) <==> AllOk(kvs) && exists r :: OddAfterZero(kvs, r)
  {
    CheckSeesNonzero(kvs);
    forall r
      ensures RangeOk(Drop0(kvs), r) ==> (RangeOk(kvs, r) <==> !GapAfterZero(kvs, r))
      ensures RangeOk(kvs, r) ==> (RangeOk(Drop0(kvs), r) <==> !OddAfterZero(kvs, r))
    {
      ZeroInRange(kvs, r);
    }
    assert AllOk(Drop0(kvs)) && !AllOk(kvs) ==> exists r :: !RangeOk(kvs, r) && RangeOk(Drop0(kvs), r);
    assert AllOk(kvs) && !AllOk(Drop0(kvs)) ==> exists r :: !RangeOk(Drop0(kvs), r) && RangeOk(kvs, r);
  }

  /** A log of 0 and 1 of which nothing is applied yet is well formed, and reported. */
  lemma IndexZeroRaisesAlarm() returns (kvs: seq<KV>)
    ensures Ascending(kvs) && AllOk(kvs) && Reported(kvs)
  {
    var k0, k1 := Log(1, 0), Log(1, 1);
    kvs := [k0, k1];
    assert [] + [k0] == [k0] && [k0] + [k1] == kvs;
    forall r
      ensures RangeOk(kvs, r) && After(kvs, r) == if r == 1 then Info(0, 0, 1, 1, 0) else EMPTY
    {
      Snoc([], k0, r);
      Snoc([k0], k1, r);
      ScanRemembers(kvs, r);
    }
    assert kvs[0].range == 1 && !kvs[0].Other?;
    assert Seen(kvs, 1) && Suspect(After(kvs, 1));
  }
}
