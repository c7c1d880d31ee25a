/**
The filesystem sync tester.  Each epoch opens the store, checks that the keys found there are exactly
1, 2, ..., m with nothing acknowledged missing, then appends keys until writes fail.

Storage is assumed to keep every acknowledged write; an unacknowledged one may or may not survive.
*/
module SyncTest {

  /** The keys 1..n. */
  ghost function Upto(n: nat): (s: set<nat>)
    ensures forall k: nat :: k in s <==> 1 <= k <= n
  {
    if n == 0 then {} else Upto(n - 1) + {n}
  }

  function Counting(n: nat): (s: seq<nat>)
    ensures |s| == n && forall i | 0 <= i < n :: s[i] == i + 1
  {
    seq(n, i => i + 1)
  }

  /** Keys `kept` survive; keys in `doubt` were written without acknowledgement. */
  class Disk {
    var kept: set<nat>
    var doubt: set<nat>

    constructor ()
      ensures kept == {} && doubt == {}
    {
      kept, doubt := {}, {};
    }
  }

  /** Everything up to `seq` is safe, and nothing beyond the next key was ever tried. */
  ghost predicate Sound(d: Disk, seq_: nat)
    reads d
  {
    d.kept == Upto(seq_) && d.doubt <= Upto(seq_ + 1)
  }

  /** The keys of a store in iteration order. */
  ghost predicate Enumerates(keys: seq<nat>, s: set<nat>) {
    && (forall i, j | 0 <= i < j < |keys| :: keys[i] < keys[j])
    && (forall k :: k in s <==> k in keys)
  }

  lemma {:induction false} MinExists(s: set<nat>) returns (m: nat)
    requires s != {}
    ensures m in s && forall k | k in s :: m <= k
  {
    var x :| x in s;
    var rest := s - {x};
    assert forall k | k in s :: k == x || k in rest;
    if rest == {} {
      m := x;
    } else {
      m := MinExists(rest);
      if x < m {
        m := x;
      }
    }
  }

  /** Iterates over the store from the smallest key on. */
  method Iterate(s: set<nat>) returns (keys: seq<nat>)
    ensures Enumerates(keys, s)
  {
    keys := [];
    var rest := s;
    while rest != {}
      invariant rest <= s && Enumerates(keys, s - rest)
      invariant forall k, i | k in rest && 0 <= i < |keys| :: keys[i] < k
      decreases |rest|
    {
      ghost var m := MinExists(rest);
      var k :| k in rest && forall j | j in rest :: k <= j;
      keys := keys + [k];
      rest := rest - {k};
    }
  }

  lemma {:induction false} KeyAt(keys: seq<nat>, n: nat, i: nat)
    requires Enumerates(keys, Upto(n)) && i < |keys|
    ensures keys[i] == i + 1 <= n
    decreases i
  {
    assert keys[i] in keys;
    if i > 0 {
      KeyAt(keys, n, i - 1);
    }
    assert i + 1 in Upto(n);
    var j :| 0 <= j < |keys| && keys[j] == i + 1;
    if j < i {
      KeyAt(keys, n, j);
    }
  }

  lemma EnumeratesUpto(keys: seq<nat>, n: nat)
    requires Enumerates(keys, Upto(n))
    ensures keys == Counting(n)
  {
    forall i | 0 <= i < |keys|
      ensures keys[i] == i + 1 <= n
    {
      KeyAt(keys, n, i);
    }
    if n > 0 {
      assert n in Upto(n);
      var j :| 0 <= j < |keys| && keys[j] == n;
    }
    if keys != [] {
      assert keys[|keys| - 1] == |keys| <= n;
    }
  }

  /** What reopening makes of the keys in doubt: `survive` are there, the others never happened. */
  method Reopen(d: Disk, survive: set<nat>)
    requires survive <= d.doubt
    modifies d
    ensures d.kept == old(d.kept) + survive && d.doubt == {}
  {
    d.kept, d.doubt := d.kept + survive, {};
  }

  /** After a reopen the keys are 1..m, and m is the last acknowledged key or the one after it. */
  lemma ReopenedKeys(lastSeq: nat, doubt: set<nat>, survive: set<nat>)
    requires survive <= doubt <= Upto(lastSeq + 1)
    ensures Upto(lastSeq) + survive == Upto(if lastSeq + 1 in survive then lastSeq + 1 else lastSeq)
  {
  }

  datatype Verdict = Found(seq_: nat) | UnexpectedKey | LostWrites

  /** The check at the start of an epoch, over the keys in iteration order. */
  method VerifyKeys(keys: seq<nat>, expSeq: nat) returns (v: Verdict)
    ensures v.Found? <==> keys == Counting(|keys|) && (expSeq != 0 ==> |keys| >= expSeq)
    ensures v.Found? ==> v.seq_ == |keys|
    ensures v.UnexpectedKey? <==> keys != Counting(|keys|)
  {
    var n := 0;
    for i := 0 to |keys|
      invariant n == i && forall j | 0 <= j < i :: keys[j] == j + 1
    {
      n := n + 1;
      if keys[i] != n {
        return UnexpectedKey;
      }
    }
    assert keys == Counting(|keys|);
    if expSeq != 0 && n < expSeq {
      return LostWrites;
    }
    return Found(n);
  }

  /** One write of the next key; a failed one leaves the sequence number where it was. */
  method WriteNext(d: Disk, seq_: nat, ack: bool) returns (s: nat)
    requires Sound(d, seq_)
    modifies d
    ensures s == if ack then seq_ + 1 else seq_
    ensures Sound(d, s)
    ensures d.doubt >= old(d.doubt) && (!ack ==> seq_ + 1 in d.doubt)
  {
    s := seq_ + 1;
    if !ack {
      d.doubt := d.doubt + {s};
      s := s - 1;
      return;
    }
    d.kept := d.kept + {s};
    assert Upto(s) == Upto(seq_) + {s};
    assert Upto(s) <= Upto(s + 1);
  }

  /**
  What happens to an epoch: whether the store opens, which doubtful keys survive, which writes are
  acknowledged, after how many writes the context expires or a signal arrives (if none fails first),
  the random number of extra attempts, and whether the nemesis can be switched off.
  */
  datatype Epoch = Epoch(
    opens: bool, survive: set<nat>, ack: nat -> bool, until: nat, interrupted: bool, extra: nat, offFails: bool)

  datatype Result = Next(lastSeq: nat) | Expired | Failed | Alarm

  lemma ReopenedEnumeration(keys: seq<nat>, lastSeq: nat, doubt: set<nat>, survive: set<nat>)
    requires survive <= doubt <= Upto(lastSeq + 1) && Enumerates(keys, Upto(lastSeq) + survive)
    ensures keys == Counting(|keys|) && lastSeq <= |keys| <= lastSeq + 1
    ensures Upto(lastSeq) + survive == Upto(|keys|)
  {
    ReopenedKeys(lastSeq, doubt, survive);
    EnumeratesUpto(keys, if lastSeq + 1 in survive then lastSeq + 1 else lastSeq);
  }

  /** How many of the first `n` writes are acknowledged. */
  ghost function Acks(ack: nat -> bool, n: nat): nat {
    if n == 0 then 0 else Acks(ack, n - 1) + if ack(n - 1) then 1 else 0
  }

  lemma {:induction false} AllAcked(ack: nat -> bool, n: nat)
    requires forall i: nat | i < n :: ack(i)
    ensures Acks(ack, n) == n
  {
    if n > 0 {
      AllAcked(ack, n - 1);
    }
  }

  /** Write `i` is the first to fail. */
  ghost predicate FirstFailure(e: Epoch, i: nat) {
    i < e.until && !e.ack(i) && forall j: nat | j < i :: e.ack(j)
  }

  ghost predicate SomeFailure(e: Epoch) { exists i: nat :: FirstFailure(e, i) }

  /** The writing ends in an error: the nemesis is to be switched off after a failed write and cannot, or a signal. */
  ghost predicate EndsBadly(e: Epoch) {
    if SomeFailure(e) then e.extra >= 1 && e.offFails else e.interrupted
  }

  /** The attempts after write `i` failed, whatever comes of them; before the last but one the nemesis is stopped. */
  method Retry(d: Disk, ghost start: nat, seq0: nat, e: Epoch, i: nat) returns (r: Result)
    requires Sound(d, seq0) && seq0 == start + Acks(e.ack, i + 1)
    modifies d
    ensures r.Failed? || r.Next?
    ensures r.Failed? <==> e.extra >= 1 && e.offFails
    ensures r.Next? ==> Sound(d, r.lastSeq) && r.lastSeq == start + Acks(e.ack, i + e.extra + 2)
  {
    var seq_ := seq0;
    var n: int := e.extra;
    var k: nat := i;
    while n >= 0
      invariant Sound(d, seq_) && n >= -1 && k == i + e.extra - n
      invariant seq_ == start + Acks(e.ack, k + 1)
      invariant n < 1 <= e.extra ==> !e.offFails
    {
      if n == 1 && e.offFails {
        return Failed;
      }
      k := k + 1;
      seq_ := WriteNext(d, seq_, e.ack(k));
      n := n - 1;
    }
    return Next(seq_);
  }

  /**
  Writes until one fails, then `extra` + 1 more times, whatever comes of those: the sequence number
  advances by exactly the writes acknowledged.
  */
  method WriteUntilFailure(d: Disk, start: nat, e: Epoch) returns (r: Result)
    requires Sound(d, start) && e.extra <= 2
    modifies d
    ensures !r.Alarm?
    ensures r.Failed? <==> EndsBadly(e)
    ensures r.Expired? <==> !SomeFailure(e) && !e.interrupted
    ensures r.Next? ==> Sound(d, r.lastSeq) && start <= r.lastSeq
    ensures r.Next? ==> exists i: nat :: FirstFailure(e, i) && r.lastSeq == start + Acks(e.ack, i + e.extra + 2)
    ensures r.Expired? ==> Sound(d, start + e.until) && forall j: nat | j < e.until :: e.ack(j)
  {
    var seq_ := start;
    for i := 0 to e.until
      invariant Sound(d, seq_) && seq_ == start + i
      invariant forall j: nat | j < i :: e.ack(j)
    {
      seq_ := WriteNext(d, seq_, e.ack(i));
      if !e.ack(i) {
        assert FirstFailure(e, i);
        AllAcked(e.ack, i);
        r := Retry(d, start, seq_, e, i);
        return;
      }
    }
    return if e.interrupted then Failed else Expired;
  }

  /** The keys are 1..m for some m, and nothing up to `expSeq` is missing. */
  ghost predicate Intact(keys: set<nat>, expSeq: nat) {
    exists m: nat :: m >= expSeq && keys == Upto(m)
  }

  lemma CountingIsUpto(keys: seq<nat>, s: set<nat>)
    requires Enumerates(keys, s) && keys == Counting(|keys|)
    ensures s == Upto(|keys|)
  {
    forall k: nat
      ensures k in s <==> k in Upto(|keys|)
    {
      if k in Upto(|keys|) {
        assert keys[k - 1] == k;
      }
    }
  }

  /** The check on an arbitrary store alarms exactly when the store is not intact. */
  lemma VerdictIsExact(keys: seq<nat>, s: set<nat>, expSeq: nat)
    requires Enumerates(keys, s)
    ensures keys == Counting(|keys|) && |keys| >= expSeq <==> Intact(s, expSeq)
  {
    if keys == Counting(|keys|) {
      CountingIsUpto(keys, s);
    }
    if Intact(s, expSeq) {
      var m: nat :| m >= expSeq && s == Upto(m);
      EnumeratesUpto(keys, m);
    }
  }

  /** Storage that keeps acknowledged writes is intact when it is opened again, whatever else survives. */
  lemma SoundIsIntact(lastSeq: nat, doubt: set<nat>, survive: set<nat>)
    requires survive <= doubt <= Upto(lastSeq + 1)
    ensures Intact(Upto(lastSeq) + survive, lastSeq)
  {
    ReopenedKeys(lastSeq, doubt, survive);
  }

  /** Verifies the existing sequence numbers. */
  method CheckStore(store: set<nat>, expSeq: nat) returns (v: Verdict)
    ensures v.Found? <==> Intact(store, expSeq)
    ensures v.Found? ==> store == Upto(v.seq_) && expSeq <= v.seq_
  {
    var keys := Iterate(store);
    VerdictIsExact(keys, store, expSeq);
    v := VerifyKeys(keys, expSeq);
    if v.Found? {
      CountingIsUpto(keys, store);
    }
  }

  /** Starting from `keys`, which are 1..m, write `i` was the first to fail and `lastSeq` the last one acknowledged. */
  ghost predicate Advanced(keys: set<nat>, e: Epoch, m: nat, i: nat, lastSeq: nat) {
    keys == Upto(m) && FirstFailure(e, i) && lastSeq == m + Acks(e.ack, i + e.extra + 2)
  }

  /**
  One epoch on any store at all: it alarms exactly when keys are missing or unexpected, and otherwise
  leaves the disk as the next epoch expects it.
  */
  method RunSyncer(d: Disk, expSeq: nat, e: Epoch) returns (r: Result)
    requires e.survive <= d.doubt && e.extra <= 2
    modifies d
    ensures r.Alarm? <==> e.opens && !Intact(old(d.kept) + e.survive, expSeq)
    ensures r.Next? && r.lastSeq > 0 ==> Sound(d, r.lastSeq) && expSeq <= r.lastSeq
    ensures !e.opens ==> r == if expSeq == 0 then Failed else Next(0)
    ensures e.opens && Intact(old(d.kept) + e.survive, expSeq) ==>
              && (r.Failed? <==> EndsBadly(e))
              && (r.Expired? <==> !SomeFailure(e) && !e.interrupted)
              && (r.Next? ==> exists m: nat, i: nat :: Advanced(old(d.kept) + e.survive, e, m, i, r.lastSeq))
  {
    if !e.opens {
      return if expSeq == 0 then Failed else Next(0);
    }
    Reopen(d, e.survive);
    var v := CheckStore(d.kept, expSeq);
    if !v.Found? {
      return Alarm;
    }
    r := WriteUntilFailure(d, v.seq_, e);
    if r.Next? {
      ghost var i: nat :| FirstFailure(e, i) && r.lastSeq == v.seq_ + Acks(e.ack, i + e.extra + 2);
      assert Advanced(old(d.kept) + e.survive, e, v.seq_, i, r.lastSeq);
    }
  }

  /** The part of an epoch's doubtful keys that is really in doubt. */
  function Settled(e: Epoch, doubt: set<nat>): Epoch {
    e.(survive := e.survive * doubt, extra := e.extra % 3)
  }

  /** The store does not open, or the writing ends in an error. */
  ghost predicate CanFail(e: Epoch) { !e.opens || EndsBadly(e.(extra := e.extra % 3)) }

  /** The store opens, no write fails, and no signal arrives before the time is up. */
  ghost predicate CanExpire(e: Epoch) { e.opens && !SomeFailure(e) && !e.interrupted }

  lemma SameFailures(e: Epoch, f: Epoch)
    requires e.ack == f.ack && e.until == f.until
    ensures SomeFailure(e) == SomeFailure(f)
  {
    assert forall i: nat :: FirstFailure(e, i) == FirstFailure(f, i);
  }

  /**
  The whole test: epoch after epoch on the same directory, moving to a new, empty one whenever an
  epoch ends without a sequence number.  On storage that keeps its word it never raises an alarm.
  */
  method RunSyncTest(epochs: seq<Epoch>) returns (r: Result)
    ensures !r.Alarm?
    ensures r.Failed? ==> exists i | 0 <= i < |epochs| :: CanFail(epochs[i])
    ensures r.Expired? ==> exists i | 0 <= i < |epochs| :: CanExpire(epochs[i])
  {
    var d := new Disk();
    var lastSeq := 0;
    for i := 0 to |epochs|
      invariant Sound(d, lastSeq) && fresh(d)
    {
      ghost var doubt := d.doubt;
      SoundIsIntact(lastSeq, d.doubt, Settled(epochs[i], d.doubt).survive);
      var cur := RunSyncer(d, lastSeq, Settled(epochs[i], d.doubt));
      if !cur.Next? {
        SameFailures(epochs[i], Settled(epochs[i], doubt));
        SameFailures(epochs[i].(extra := epochs[i].extra % 3), epochs[i]);
        return cur;
      }
      lastSeq := cur.lastSeq;
      if lastSeq == 0 {
        d := new Disk();
      }
    }
    return Next(lastSeq);
  }
}
