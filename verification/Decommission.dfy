/**
Decommissioning nodes: poll until the targets hold no replicas, drain them, mark them decommissioned,
against a server that may answer anything.
*/
module Decommission {

  const MAX_INT64: int := 0x7FFF_FFFF_FFFF_FFFF
  const SAME_STATUS_THRESHOLD: nat := 15

  /** One target's line in a response; `rest` stands for the fields the loop only prints. */
  datatype Status = Status(active: bool, replicas: nat, rest: string)

  type Response = seq<Status>

  datatype Reply = Ok(resp: Response) | Refused

  datatype Wait = WaitAll | WaitNone

  /**
  The server and the terminal: the answers to successive polls (after which the context ends), and
  whether the i-th status print, the i-th drain and the final request succeed.
  */
  datatype World = World(replies: seq<Reply>, prints: nat -> bool, drains: nat -> bool, final: bool)

  /** What the loop does, in order. */
  datatype Event = Poll(report: nat) | Reset | Drain(node: int) | MarkDecommissioned

  datatype Result = Done | StillWaiting | Exhausted | PollFailed | PrintFailed | DrainFailed | MarkFailed

  // ---- what the loop should do ----

  function Count(r: Response): nat {
    if r == [] then 0 else Count(r[..|r| - 1]) + r[|r| - 1].replicas
  }

  predicate AnyActive(r: Response) {
    exists i | 0 <= i < |r| :: r[i].active
  }

  /** The targets are ready to be drained. */
  predicate Idle(r: Response) { !AnyActive(r) && Count(r) == 0 }

  /** The first `n` polls were answered. */
  ghost predicate Answered(w: World, n: nat) {
    n <= |w.replies| && forall i | 0 <= i < n :: w.replies[i].Ok?
  }

  function ResponseAt(w: World, i: int): Response
    requires i < |w.replies| && (0 <= i ==> w.replies[i].Ok?)
  {
    if i < 0 then [] else w.replies[i].resp
  }

  /** How many of the first `n` responses differ from the one before them; each of those is printed. */
  ghost function Changes(w: World, n: nat): nat
    requires Answered(w, n)
  {
    if n == 0 then 0 else Changes(w, n - 1) + if ResponseAt(w, n - 1) != ResponseAt(w, n - 2) then 1 else 0
  }

  /** Response `i` is the same as the one before, or could be printed. */
  ghost predicate Shown(w: World, i: nat)
    requires Answered(w, i + 1)
  {
    ResponseAt(w, i) != ResponseAt(w, i - 1) ==> w.prints(Changes(w, i))
  }

  /** How many of the latest of the first `n` responses repeat the one before them. */
  ghost function Stall(w: World, n: nat): nat
    requires Answered(w, n)
  {
    if n == 0 || ResponseAt(w, n - 1) != ResponseAt(w, n - 2) then 0 else Stall(w, n - 1) + 1
  }

  /** Replicas are asked for by name once the status has not changed for long enough. */
  ghost function Report(w: World, n: nat): nat
    requires Answered(w, n)
  {
    if Stall(w, n) > SAME_STATUS_THRESHOLD then 5 else 0
  }

  /** The smallest replica count among the first `n` responses. */
  ghost function Least(w: World, n: nat): int
    requires Answered(w, n)
  {
    if n == 0 then MAX_INT64
    else
      var m := Least(w, n - 1);
      if Count(ResponseAt(w, n - 1)) < m then Count(ResponseAt(w, n - 1)) else m
  }

  /** The events of the first `n` turns: a poll each, and a backoff reset on every strict new minimum. */
  ghost function Turns(w: World, n: nat): seq<Event>
    requires Answered(w, n)
  {
    if n == 0 then []
    else
      Turns(w, n - 1) + [Poll(Report(w, n - 1))] + (if Least(w, n) < Least(w, n - 1) then [Reset] else [])
  }

  /** Every target except the node serving the request. */
  function Targets(nodes: seq<int>, local: int): seq<int> {
    if nodes == [] then []
    else Targets(nodes[..|nodes| - 1], local) + (if nodes[|nodes| - 1] == local then [] else [nodes[|nodes| - 1]])
  }

  function Drains(nodes: seq<int>): (es: seq<Event>)
    ensures |es| == |nodes| && forall i | 0 <= i < |es| :: es[i] == Drain(nodes[i])
  {
    seq(|nodes|, i requires 0 <= i < |nodes| => Drain(nodes[i]))
  }

  /** Draining `ts` in order stopped at the first one that failed. */
  ghost predicate StoppedDraining(w: World, ts: seq<int>, events: seq<Event>) {
    exists k | 0 < k <= |ts| ::
      events == Drains(ts[..k]) && !w.drains(k - 1) && forall j | 0 <= j < k - 1 :: w.drains(j)
  }

  ghost predicate AllDrain(w: World, ts: seq<int>) { forall j | 0 <= j < |ts| :: w.drains(j) }

  /** How a run with `n` completed turns ends. */
  ghost predicate Ends(w: World, wait: Wait, nodes: seq<int>, local: int, n: nat, last: seq<Event>, r: Result)
    requires Answered(w, n)
  {
    if n == |w.replies| then r == Exhausted && last == []
    else
      var poll := [Poll(Report(w, n))];
      match w.replies[n]
      case Refused => r == PollFailed && last == poll
      case Ok(resp) =>
        if !Shown(w, n) then r == PrintFailed && last == poll
        else
          match r
          case StillWaiting => !Idle(resp) && wait.WaitNone? && last == poll
          case DrainFailed =>
            && Idle(resp)
            && exists drained :: StoppedDraining(w, Targets(nodes, local), drained) && last == poll + drained
          case Done =>
            && Idle(resp) && AllDrain(w, Targets(nodes, local)) && w.final
            && last == poll + Drains(Targets(nodes, local)) + [MarkDecommissioned]
          case MarkFailed =>
            && Idle(resp) && AllDrain(w, Targets(nodes, local)) && !w.final
            && last == poll + Drains(Targets(nodes, local)) + [MarkDecommissioned]
          case _ => false
  }

  // ---- what these words mean ----

  /** The count of a response is the sum over its lines, and 0 only if every line's is. */
  lemma {:induction false} CountAppend(a: Response, b: Response)
    ensures Count(a + b) == Count(a) + Count(b)
    ensures Count(b) == 0 <==> forall i | 0 <= i < |b| :: b[i].replicas == 0
  {
    if b == [] {
      assert a + b == a;
    } else {
      assert (a + b)[..|a + b| - 1] == a + b[..|b| - 1];
      CountAppend(a, b[..|b| - 1]);
    }
  }

  lemma CountOne(x: Status)
    ensures Count([x]) == x.replicas
  {
    assert [x][..0] == [];
  }

  /** The targets are idle exactly if no line shows a member active or a replica. */
  lemma IdleMeans(r: Response)
    ensures Idle(r) <==> forall i | 0 <= i < |r| :: !r[i].active && r[i].replicas == 0
  {
    CountAppend([], r);
  }

  lemma TargetsPush(nodes: seq<int>, local: int, x: int)
    ensures Targets(nodes + [x], local) == Targets(nodes, local) + if x == local then [] else [x]
  {
    assert (nodes + [x])[..|nodes|] == nodes;
  }

  /** The targets are the nodes other than the local one, each as often as it was named. */
  lemma {:induction false} TargetsAre(nodes: seq<int>, local: int, y: int)
    ensures multiset(Targets(nodes, local))[y] == if y == local then 0 else multiset(nodes)[y]
  {
    if nodes != [] {
      var init, x := nodes[..|nodes| - 1], nodes[|nodes| - 1];
      assert nodes == init + [x];
      TargetsAre(init, local, y);
      TargetsPush(init, local, x);
    }
  }

  /** And they are in the order in which they were named. */
  lemma {:induction false} TargetsAppend(a: seq<int>, b: seq<int>, local: int)
    ensures Targets(a + b, local) == Targets(a, local) + Targets(b, local)
  {
    if b == [] {
      assert a + b == a;
    } else {
      var init, x := b[..|b| - 1], b[|b| - 1];
      assert b == init + [x] && a + b == a + init + [x];
      TargetsAppend(a, init, local);
      TargetsPush(init, local, x);
      TargetsPush(a + init, local, x);
    }
  }

  /** The status has stalled for `k` turns exactly if each of the last `k` responses repeats the one before it. */
  lemma {:induction false} StallMeans(w: World, n: nat, k: nat)
    requires Answered(w, n)
    ensures Stall(w, n) >= k <==> k <= n && forall i | n - k <= i < n :: ResponseAt(w, i) == ResponseAt(w, i - 1)
  {
    if n > 0 && k > 0 {
      StallMeans(w, n - 1, k - 1);
    }
  }

  /** Replicas are asked for by name exactly if the last 16 responses repeat the ones before them. */
  lemma ReportsExactlyWhen(w: World, n: nat)
    requires Answered(w, n)
    ensures Report(w, n) == 5 || Report(w, n) == 0
    ensures Report(w, n) == 5 <==> 16 <= n && forall i | n - 16 <= i < n :: ResponseAt(w, i) == ResponseAt(w, i - 1)
  {
    StallMeans(w, n, 16);
  }

  /** The least count is no more than any count, and one of them unless it is still the largest integer. */
  lemma {:induction false} LeastMeans(w: World, n: nat)
    requires Answered(w, n)
    ensures Least(w, n) <= MAX_INT64 && forall i | 0 <= i < n :: Least(w, n) <= Count(ResponseAt(w, i))
    ensures Least(w, n) == MAX_INT64 || exists i | 0 <= i < n :: Least(w, n) == Count(ResponseAt(w, i))
  {
    if n > 0 {
      LeastMeans(w, n - 1);
    }
  }

  // ---- the loop ----

  method DrainTargets(w: World, nodes: seq<int>, local: int) returns (ok: bool, events: seq<Event>)
    ensures ok ==> events == Drains(Targets(nodes, local)) && AllDrain(w, Targets(nodes, local))
    ensures !ok ==> StoppedDraining(w, Targets(nodes, local), events)
  {
    ok, events := true, [];
    ghost var done: seq<int> := [];
    for i := 0 to |nodes|
      invariant ok && done == Targets(nodes[..i], local) && events == Drains(done)
      invariant forall j | 0 <= j < |done| :: w.drains(j)
    {
      TargetsPrefix(nodes, local, i + 1);
      assert nodes[..i + 1][..i] == nodes[..i];
      if nodes[i] == local {
        continue;
      }
      events, done := events + [Drain(nodes[i])], done + [nodes[i]];
      if !w.drains(|events| - 1) {
        assert done == Targets(nodes, local)[..|done|];
        return false, events;
      }
    }
    assert nodes[..|nodes|] == nodes;
  }

  lemma {:induction false} TargetsPrefix(nodes: seq<int>, local: int, i: nat)
    requires i <= |nodes|
    ensures Targets(nodes[..i], local) <= Targets(nodes, local)
  {
    if i < |nodes| {
      var init := nodes[..|nodes| - 1];
      TargetsPrefix(init, local, i);
      assert nodes[..i] == init[..i];
    } else {
      assert nodes[..i] == nodes;
    }
  }

  /** The totals over a response. */
  method Totals(resp: Response) returns (anyActive: bool, replicaCount: nat)
    ensures anyActive == AnyActive(resp) && replicaCount == Count(resp)
  {
    anyActive, replicaCount := false, 0;
    for i := 0 to |resp|
      invariant anyActive <==> exists j | 0 <= j < i :: resp[j].active
      invariant replicaCount == Count(resp[..i])
    {
      assert resp[..i + 1][..i] == resp[..i];
      anyActive := anyActive || resp[i].active;
      replicaCount := replicaCount + resp[i].replicas;
    }
    assert resp[..|resp|] == resp;
  }

  /** Drains the targets and marks them decommissioned. */
  method Finish(w: World, nodes: seq<int>, local: int) returns (r: Result, events: seq<Event>)
    ensures match r
            case Done =>
              && AllDrain(w, Targets(nodes, local)) && w.final
              && events == Drains(Targets(nodes, local)) + [MarkDecommissioned]
            case MarkFailed =>
              && AllDrain(w, Targets(nodes, local)) && !w.final
              && events == Drains(Targets(nodes, local)) + [MarkDecommissioned]
            case DrainFailed => StoppedDraining(w, Targets(nodes, local), events)
            case _ => false
  {
    var ok;
    ok, events := DrainTargets(w, nodes, local);
    if !ok {
      return DrainFailed, events;
    }
    events := events + [MarkDecommissioned];
    r := if w.final then Done else MarkFailed;
  }

  /** What the loop carries from turn to turn. */
  datatype Memory = Memory(
    minReplicaCount: int, numReplicaReport: nat, sameStatusCount: nat, prevResponse: Response, prints: nat)

  const FRESH := Memory(MAX_INT64, 0, 0, [], 0)

  /** The memory is right after `n` responses. */
  ghost predicate Remembers(w: World, n: nat, m: Memory) {
    && Answered(w, n)
    && m.minReplicaCount == Least(w, n)
    && m.prevResponse == ResponseAt(w, n - 1)
    && m.prints == Changes(w, n)
    && m.numReplicaReport == Report(w, n)
    && m.sameStatusCount == if Stall(w, n) > SAME_STATUS_THRESHOLD then Stall(w, n) - 1 else Stall(w, n)
  }

  /** Notices whether the status changed, and whether it has been the same for too long. */
  method NoteStatus(ghost w: World, ghost n: nat, resp: Response, m: Memory) returns (m': Memory)
    requires Remembers(w, n, m) && Answered(w, n + 1) && resp == ResponseAt(w, n)
    ensures Remembers(w, n + 1, m'.(minReplicaCount := Least(w, n + 1)))
    ensures m'.minReplicaCount == m.minReplicaCount
  {
    m' := m;
    if m.prevResponse != resp {
      m' := m'.(prints := m.prints + 1);
      m' := m'.(prevResponse := resp, sameStatusCount := 0, numReplicaReport := 0);
    } else if m.sameStatusCount >= SAME_STATUS_THRESHOLD && m.numReplicaReport == 0 {
      m' := m'.(numReplicaReport := 5);
    } else {
      m' := m'.(sameStatusCount := m.sameStatusCount + 1);
    }
  }

  /** One turn of the loop: either it ends the run, or it leads to another. */
  method Turn(w: World, wait: Wait, nodes: seq<int>, local: int, n: nat, m: Memory)
    returns (over: bool, r: Result, events: seq<Event>, m': Memory)
    requires n < |w.replies| && Remembers(w, n, m)
    ensures over ==> Ends(w, wait, nodes, local, n, events, r)
    ensures !over ==> Remembers(w, n + 1, m') && Shown(w, n) && !Idle(ResponseAt(w, n)) && wait.WaitAll?
    ensures !over ==> Turns(w, n) + events == Turns(w, n + 1)
  {
    over, r, m' := true, PollFailed, m;
    events := [Poll(m.numReplicaReport)];
    if w.replies[n].Refused? {
      return;
    }
    var resp := w.replies[n].resp;
    if m.prevResponse != resp && !w.prints(m.prints) {
      r := PrintFailed;
      return;
    }
    m' := NoteStatus(w, n, resp, m);
    var anyActive, replicaCount := Totals(resp);
    if !anyActive && replicaCount == 0 {
      var more;
      r, more := Finish(w, nodes, local);
      events := events + more;
      return;
    }
    if wait.WaitNone? {
      r := StillWaiting;
      return;
    }
    over := false;
    if replicaCount < m.minReplicaCount {
      m' := m'.(minReplicaCount := replicaCount);
      events := events + [Reset];
    }
  }

  /** Each of the first `n` responses led to another poll. */
  ghost predicate GoesOn(w: World, wait: Wait, n: nat)
    requires Answered(w, n)
  {
    forall i: nat | i < n :: Shown(w, i) && !Idle(ResponseAt(w, i)) && wait.WaitAll?
  }

  ghost predicate Outcome(w: World, wait: Wait, nodes: seq<int>, local: int, n: nat, trace: seq<Event>, r: Result) {
    && Answered(w, n) && GoesOn(w, wait, n)
    && exists last :: trace == Turns(w, n) + last && Ends(w, wait, nodes, local, n, last, r)
  }

  /** Reply `k` is the first to show the targets idle, and from there on nothing goes wrong. */
  ghost predicate Completes(w: World, wait: Wait, nodes: seq<int>, local: int, k: nat) {
    && Answered(w, k + 1) && Idle(ResponseAt(w, k)) && Shown(w, k)
    && GoesOn(w, wait, k)
    && AllDrain(w, Targets(nodes, local)) && w.final
  }

  lemma NeverStopped(w: World, ts: seq<int>)
    requires AllDrain(w, ts)
    ensures forall events :: !StoppedDraining(w, ts, events)
  {
  }

  lemma DoneThere(w: World, wait: Wait, nodes: seq<int>, local: int, n: nat, last: seq<Event>, r: Result)
    requires Answered(w, n + 1) && Idle(ResponseAt(w, n)) && Shown(w, n)
    requires AllDrain(w, Targets(nodes, local)) && w.final
    requires Ends(w, wait, nodes, local, n, last, r)
    ensures r == Done
  {
    NeverStopped(w, Targets(nodes, local));
  }

  /** A run that has ended does not go on. */
  lemma EndsThere(w: World, wait: Wait, nodes: seq<int>, local: int, n: nat, last: seq<Event>, r: Result)
    requires Answered(w, n) && Ends(w, wait, nodes, local, n, last, r)
    ensures !(Answered(w, n + 1) && Shown(w, n) && !Idle(ResponseAt(w, n)) && wait.WaitAll?)
  {
  }

  /** The nodes end up decommissioned exactly when a reply shows them idle before anything has gone wrong. */
  lemma DoneExactlyWhen(w: World, wait: Wait, nodes: seq<int>, local: int, n: nat, trace: seq<Event>, r: Result)
    requires Outcome(w, wait, nodes, local, n, trace, r)
    ensures r == Done <==> exists k: nat :: Completes(w, wait, nodes, local, k)
  {
    var last :| trace == Turns(w, n) + last && Ends(w, wait, nodes, local, n, last, r);
    if r == Done {
      assert AllDrain(w, Targets(nodes, local)) && w.final && Shown(w, n) && Idle(ResponseAt(w, n));
      assert Completes(w, wait, nodes, local, n);
    }
    if k: nat :| Completes(w, wait, nodes, local, k) {
      EndsThere(w, wait, nodes, local, n, last, r);
      assert n == k;
      DoneThere(w, wait, nodes, local, n, last, r);
    }
  }

  lemma StoppedOnce(w: World, ts: seq<int>, a: seq<Event>, b: seq<Event>)
    requires StoppedDraining(w, ts, a) && StoppedDraining(w, ts, b)
    ensures a == b
  {
    var k :| 0 < k <= |ts| && a == Drains(ts[..k]) && !w.drains(k - 1) && forall j | 0 <= j < k - 1 :: w.drains(j);
    var l :| 0 < l <= |ts| && b == Drains(ts[..l]) && !w.drains(l - 1) && forall j | 0 <= j < l - 1 :: w.drains(j);
    assert k == l;
  }

  lemma EndsOnce(
      w: World, wait: Wait, nodes: seq<int>, local: int, n: nat, a: seq<Event>, q: Result, b: seq<Event>, r: Result)
    requires Answered(w, n) && Ends(w, wait, nodes, local, n, a, q) && Ends(w, wait, nodes, local, n, b, r)
    ensures a == b && q == r
  {
    if q == DrainFailed {
      var x :| StoppedDraining(w, Targets(nodes, local), x) && a == [Poll(Report(w, n))] + x;
      if r == DrainFailed {
        var y :| StoppedDraining(w, Targets(nodes, local), y) && b == [Poll(Report(w, n))] + y;
        StoppedOnce(w, Targets(nodes, local), x, y);
      }
    }
  }

  /** The replies and what succeeds decide the whole run: its requests, its length and its result. */
  lemma OneOutcome(
      w: World, wait: Wait, nodes: seq<int>, local: int,
      m: nat, s: seq<Event>, q: Result, n: nat, t: seq<Event>, r: Result)
    requires Outcome(w, wait, nodes, local, m, s, q) && Outcome(w, wait, nodes, local, n, t, r)
    ensures m == n && s == t && q == r
  {
    var a :| s == Turns(w, m) + a && Ends(w, wait, nodes, local, m, a, q);
    var b :| t == Turns(w, n) + b && Ends(w, wait, nodes, local, n, b, r);
    EndsThere(w, wait, nodes, local, m, a, q);
    EndsThere(w, wait, nodes, local, n, b, r);
    assert m == n;
    EndsOnce(w, wait, nodes, local, n, a, q, b, r);
  }

  /** runDecommissionNodeImpl: some number of polls were answered and led to another, and then it ended. */
  method Run(w: World, wait: Wait, nodes: seq<int>, local: int) returns (r: Result, trace: seq<Event>)
    ensures exists turns: nat :: Outcome(w, wait, nodes, local, turns, trace, r)
    ensures r == Done <==> exists k: nat :: Completes(w, wait, nodes, local, k)
  {
    var m := FRESH;
    trace := [];
    for i := 0 to |w.replies|
      invariant Remembers(w, i, m) && trace == Turns(w, i)
      invariant GoesOn(w, wait, i)
    {
      var over, events;
      over, r, events, m := Turn(w, wait, nodes, local, i, m);
      trace := trace + events;
      if over {
        assert Outcome(w, wait, nodes, local, i, trace, r);
        DoneExactlyWhen(w, wait, nodes, local, i, trace, r);
        return;
      }
    }
    assert trace == Turns(w, |w.replies|) + [];
    r := Exhausted;
    assert Outcome(w, wait, nodes, local, |w.replies|, trace, r);
    DoneExactlyWhen(w, wait, nodes, local, |w.replies|, trace, r);
  }

  // ---- what follows for every run ----

  /** No drain and no mark before the end. */
  lemma {:induction false} TurnsOnlyPoll(w: World, n: nat)
    requires Answered(w, n)
    ensures forall e | e in Turns(w, n) :: e.Poll? || e.Reset?
  {
    if n > 0 {
      TurnsOnlyPoll(w, n - 1);
    }
  }

  lemma MarkEnds(w: World, wait: Wait, nodes: seq<int>, local: int, n: nat, last: seq<Event>, r: Result, j: nat)
    requires Answered(w, n) && Ends(w, wait, nodes, local, n, last, r)
    requires j < |last| && last[j].MarkDecommissioned?
    ensures n < |w.replies| && w.replies[n].Ok? && Idle(w.replies[n].resp)
    ensures (r == Done || r == MarkFailed) && AllDrain(w, Targets(nodes, local))
    ensures last == [Poll(Report(w, n))] + Drains(Targets(nodes, local)) + [MarkDecommissioned] && j == |last| - 1
  {
  }

  lemma MarkInLast(w: World, n: nat, last: seq<Event>, i: nat)
    requires Answered(w, n) && i < |Turns(w, n) + last| && (Turns(w, n) + last)[i].MarkDecommissioned?
    ensures |Turns(w, n)| <= i && last[i - |Turns(w, n)|].MarkDecommissioned?
  {
    TurnsOnlyPoll(w, n);
  }

  lemma Regroup(a: seq<Event>, b: seq<Event>, c: seq<Event>, d: seq<Event>)
    ensures a + (b + c + d) == a + b + c + d
  {
  }

  /**
  The nodes are marked decommissioned at most once, as the last thing done, right after draining every
  target but the local node, and only when the latest response shows no active member and no replica.
  */
  lemma MarkedOnceAndLast(
      w: World, wait: Wait, nodes: seq<int>, local: int, n: nat, trace: seq<Event>, r: Result, i: nat)
    requires Outcome(w, wait, nodes, local, n, trace, r)
    requires i < |trace| && trace[i].MarkDecommissioned?
    ensures i == |trace| - 1
    ensures n < |w.replies| && w.replies[n].Ok?
    ensures var resp := w.replies[n].resp; forall j | 0 <= j < |resp| :: !resp[j].active && resp[j].replicas == 0
    ensures trace == Turns(w, n) + [Poll(Report(w, n))] + Drains(Targets(nodes, local)) + [MarkDecommissioned]
    ensures (r == Done || r == MarkFailed) && AllDrain(w, Targets(nodes, local))
  {
    var last :| trace == Turns(w, n) + last && Ends(w, wait, nodes, local, n, last, r);
    MarkInLast(w, n, last, i);
    MarkEnds(w, wait, nodes, local, n, last, r, i - |Turns(w, n)|);
    IdleMeans(w.replies[n].resp);
    Regroup(Turns(w, n), [Poll(Report(w, n))], Drains(Targets(nodes, local)), [MarkDecommissioned]);
  }

  /** How many backoff resets there are. */
  ghost function Resets(es: seq<Event>): nat {
    if es == [] then 0 else Resets(es[..|es| - 1]) + if es[|es| - 1].Reset? then 1 else 0
  }

  lemma ResetsPush(es: seq<Event>, e: Event)
    ensures Resets(es + [e]) == Resets(es) + if e.Reset? then 1 else 0
  {
    assert (es + [e])[..|es|] == es;
  }

  lemma ResetsTurn(w: World, n: nat)
    requires Answered(w, n) && n > 0
    ensures Resets(Turns(w, n)) == Resets(Turns(w, n - 1)) + if Least(w, n) < Least(w, n - 1) then 1 else 0
  {
    var before, poll := Turns(w, n - 1), Poll(Report(w, n - 1));
    ResetsPush(before, poll);
    if Least(w, n) < Least(w, n - 1) {
      ResetsPush(before + [poll], Reset);
    } else {
      assert before + [poll] + [] == before + [poll];
    }
  }

  lemma {:induction false} ResetsAndLeast(w: World, n: nat)
    requires Answered(w, n) && n > 0
    ensures Resets(Turns(w, n)) > 0 ==> Resets(Turns(w, n)) + Least(w, n) <= Count(ResponseAt(w, 0)) + 1
    ensures Resets(Turns(w, n)) == 0 ==> Least(w, n) == MAX_INT64 <= Count(ResponseAt(w, 0))
    ensures 0 <= Least(w, n)
  {
    ResetsTurn(w, n);
    if n > 1 {
      ResetsAndLeast(w, n - 1);
    }
  }

  lemma {:induction false} NoResets(es: seq<Event>, last: seq<Event>)
    requires forall e | e in last :: !e.Reset?
    ensures Resets(es + last) == Resets(es)
  {
    if last == [] {
      assert es + last == es;
    } else {
      var init := last[..|last| - 1];
      NoResets(es, init);
      ResetsPush(es + init, last[|last| - 1]);
      assert es + last == es + init + [last[|last| - 1]];
    }
  }

  lemma EndWithoutReset(w: World, wait: Wait, nodes: seq<int>, local: int, n: nat, last: seq<Event>, r: Result)
    requires Answered(w, n) && Ends(w, wait, nodes, local, n, last, r)
    ensures forall e | e in last :: !e.Reset?
  {
  }

  /** In any run the backoff is reset at most once more than the first replica count. */
  lemma ResetsAreBounded(w: World, wait: Wait, nodes: seq<int>, local: int, n: nat, trace: seq<Event>, r: Result)
    requires Outcome(w, wait, nodes, local, n, trace, r)
    ensures n == 0 ==> Resets(trace) == 0
    ensures n > 0 ==> Resets(trace) <= Count(ResponseAt(w, 0)) + 1
  {
    var last :| trace == Turns(w, n) + last && Ends(w, wait, nodes, local, n, last, r);
    EndWithoutReset(w, wait, nodes, local, n, last, r);
    NoResets(Turns(w, n), last);
    if n > 0 {
      ResetsAndLeast(w, n);
    }
  }
}
