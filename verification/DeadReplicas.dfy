/**
Recovering from lost quorum.  The tool runs on each surviving store by itself and decides, for each
range descriptor it finds there, whether to make this store the range's only replica.
*/
module DeadReplicas {

  import opened Common

  datatype ReplicaType =
    | VoterFull | VoterIncoming | VoterOutgoing | VoterDemotingLearner | VoterDemotingNonVoter | Learner | NonVoter

  datatype Replica = Replica(nodeId: int, storeId: int, replicaId: int, typ: ReplicaType)

  /** A range descriptor; `rest` stands for the fields the tool does not touch. */
  datatype Desc = Desc(rangeId: int, startKey: string, replicas: seq<Replica>, nextReplicaId: int, rest: string)

  datatype Store = Store(nodeId: int, storeId: int)

  type Dead = set<int>

  predicate VoterNew(r: Replica) { r.typ.VoterFull? || r.typ.VoterIncoming? }

  predicate VoterOld(r: Replica) {
    r.typ.VoterFull? || r.typ.VoterOutgoing? || r.typ.VoterDemotingLearner? || r.typ.VoterDemotingNonVoter?
  }

  predicate Live(dead: Dead, r: Replica) { r.storeId !in dead }

  function Count(rs: seq<Replica>, p: Replica -> bool): nat {
    if rs == [] then 0 else (if p(rs[0]) then 1 else 0) + Count(rs[1..], p)
  }

  function Both(p: Replica -> bool, dead: Dead): Replica -> bool {
    r => p(r) && Live(dead, r)
  }

  /** ReplicaSet.CanMakeProgress: a live majority of the outgoing and of the incoming configuration. */
  predicate CanMakeProgress(rs: seq<Replica>, dead: Dead) {
    var oldVoters := Count(rs, VoterOld);
    var oldLive := Count(rs, Both(VoterOld, dead));
    var newVoters := Count(rs, VoterNew);
    var newLive := Count(rs, Both(VoterNew, dead));
    newLive >= newVoters / 2 + 1 && (oldVoters == 0 || oldLive >= oldVoters / 2 + 1)
  }

  // ---- majorities ----

  /** The positions of the replicas for which `p` holds. */
  ghost function Where(rs: seq<Replica>, p: Replica -> bool): set<int> {
    set i | 0 <= i < |rs| && p(rs[i])
  }

  /** More than half of the voters of either configuration are alive; an empty outgoing one has no say. */
  ghost predicate KeepsMajorities(rs: seq<Replica>, dead: Dead) {
    && 2 * |Where(rs, Both(VoterNew, dead))| > |Where(rs, VoterNew)|
    && (Where(rs, VoterOld) == {} || 2 * |Where(rs, Both(VoterOld, dead))| > |Where(rs, VoterOld)|)
  }

  lemma {:induction false} CountPush(rs: seq<Replica>, r: Replica, p: Replica -> bool)
    ensures Count(rs + [r], p) == Count(rs, p) + if p(r) then 1 else 0
  {
    if rs == [] {
      assert [] + [r] == [r] && [r][1..] == [];
    } else {
      assert (rs + [r])[1..] == rs[1..] + [r];
      CountPush(rs[1..], r, p);
    }
  }

  lemma {:induction false} CountIsCard(rs: seq<Replica>, p: Replica -> bool)
    ensures Count(rs, p) == |Where(rs, p)|
  {
    if rs == [] {
      assert Where(rs, p) == {};
    } else {
      var n := |rs| - 1;
      assert rs == rs[..n] + [rs[n]];
      CountPush(rs[..n], rs[n], p);
      CountIsCard(rs[..n], p);
      assert Where(rs, p) == Where(rs[..n], p) + if p(rs[n]) then {n} else {};
    }
  }

  /** A range can make progress exactly when it keeps its majorities. */
  lemma ProgressIsMajority(rs: seq<Replica>, dead: Dead)
    ensures CanMakeProgress(rs, dead) <==> KeepsMajorities(rs, dead)
  {
    CountIsCard(rs, VoterOld);
    CountIsCard(rs, VoterNew);
    CountIsCard(rs, Both(VoterOld, dead));
    CountIsCard(rs, Both(VoterNew, dead));
  }

  // ---- raft's own view ----

  /** The voters of a raft configuration, and those of the outgoing one while it is joint, by replica ID. */
  datatype Conf = Conf(voters: seq<int>, outgoing: seq<int>)

  /** ReplicaSet.InAtomicReplicationChange */
  predicate InChange(rs: seq<Replica>) {
    exists i | 0 <= i < |rs| :: !rs[i].typ.VoterFull? && !rs[i].typ.Learner? && !rs[i].typ.NonVoter?
  }

  /** ReplicaSet.ConfState */
  function ConfState(rs: seq<Replica>, joint: bool): Conf {
    if rs == [] then Conf([], [])
    else
      var c, id := ConfState(rs[1..], joint), [rs[0].replicaId];
      match rs[0].typ
      case VoterFull => Conf(id + c.voters, if joint then id + c.outgoing else c.outgoing)
      case VoterIncoming => c.(voters := id + c.voters)
      case VoterOutgoing => c.(outgoing := id + c.outgoing)
      case VoterDemotingLearner => c.(outgoing := id + c.outgoing)
      case VoterDemotingNonVoter => c.(outgoing := id + c.outgoing)
      case Learner => c
      case NonVoter => c
  }

  function Alive(ids: seq<int>, live: set<int>): nat {
    if ids == [] then 0 else (if ids[0] in live then 1 else 0) + Alive(ids[1..], live)
  }

  predicate Quorum(ids: seq<int>, live: set<int>) { 2 * Alive(ids, live) > |ids| }

  /** The replicas `live` can commit in configuration `c`. */
  predicate CanCommit(c: Conf, live: set<int>) {
    Quorum(c.voters, live) && (c.outgoing == [] || Quorum(c.outgoing, live))
  }

  /** `live` are the replicas that are not on dead stores. */
  predicate Lives(rs: seq<Replica>, dead: Dead, live: set<int>) {
    forall i | 0 <= i < |rs| :: rs[i].replicaId in live <==> Live(dead, rs[i])
  }

  lemma AliveFirst(id: int, ids: seq<int>, live: set<int>)
    ensures Alive([id] + ids, live) == (if id in live then 1 else 0) + Alive(ids, live)
  {
    assert ([id] + ids)[1..] == ids;
  }

  lemma ConfStep(rs: seq<Replica>, joint: bool)
    requires rs != []
    ensures var c, c', r := ConfState(rs, joint), ConfState(rs[1..], joint), rs[0];
            && c.voters == (if VoterNew(r) then [r.replicaId] + c'.voters else c'.voters)
            && c.outgoing == (if VoterOld(r) && (joint || !r.typ.VoterFull?) then [r.replicaId] + c'.outgoing
                              else c'.outgoing)
  {
  }

  lemma {:induction false} VotersCounted(rs: seq<Replica>, dead: Dead, joint: bool, live: set<int>)
    requires Lives(rs, dead, live)
    ensures var ids := ConfState(rs, joint).voters;
            |ids| == Count(rs, VoterNew) && Alive(ids, live) == Count(rs, Both(VoterNew, dead))
  {
    if rs != [] {
      VotersCounted(rs[1..], dead, joint, live);
      ConfStep(rs, joint);
      AliveFirst(rs[0].replicaId, ConfState(rs[1..], joint).voters, live);
    }
  }

  lemma {:induction false} OutgoingCounted(rs: seq<Replica>, dead: Dead, live: set<int>)
    requires Lives(rs, dead, live)
    ensures var ids := ConfState(rs, true).outgoing;
            |ids| == Count(rs, VoterOld) && Alive(ids, live) == Count(rs, Both(VoterOld, dead))
  {
    if rs != [] {
      OutgoingCounted(rs[1..], dead, live);
      ConfStep(rs, true);
      AliveFirst(rs[0].replicaId, ConfState(rs[1..], true).outgoing, live);
    }
  }

  /** Outside a change the two configurations are one, and raft knows no outgoing voters. */
  lemma {:induction false} NotJoint(rs: seq<Replica>, dead: Dead)
    requires !InChange(rs)
    ensures ConfState(rs, false).outgoing == []
    ensures Count(rs, VoterOld) == Count(rs, VoterNew)
    ensures Count(rs, Both(VoterOld, dead)) == Count(rs, Both(VoterNew, dead))
  {
    if rs != [] {
      assert forall i | 0 <= i < |rs| - 1 :: rs[1..][i] == rs[i + 1];
      NotJoint(rs[1..], dead);
      ConfStep(rs, false);
    }
  }

  /** The tool's notion of progress is raft's: the live replicas can commit in the range's raft configuration. */
  lemma ProgressIsRafts(rs: seq<Replica>, dead: Dead, live: set<int>)
    requires Lives(rs, dead, live)
    ensures CanMakeProgress(rs, dead) <==> CanCommit(ConfState(rs, InChange(rs)), live)
  {
    VotersCounted(rs, dead, InChange(rs), live);
    if InChange(rs) {
      OutgoingCounted(rs, dead, live);
    } else {
      NotJoint(rs, dead);
    }
  }

  // ---- what the decision means ----

  predicate HasDead(d: Desc, dead: Dead) {
    exists i | 0 <= i < |d.replicas| :: !Live(dead, d.replicas[i])
  }

  /** A live voter of the incoming configuration sits on store `id`. */
  predicate LiveVoterOn(d: Desc, dead: Dead, id: int) {
    exists i | 0 <= i < |d.replicas| ::
      d.replicas[i].storeId == id && Live(dead, d.replicas[i]) && VoterNew(d.replicas[i])
  }

  /** The designated survivor: the live voter with the highest store ID. */
  ghost predicate Survivor(d: Desc, dead: Dead, id: int) {
    LiveVoterOn(d, dead, id) && forall other | LiveVoterOn(d, dead, other) :: other <= id
  }

  /** The range needs recovery: it lost a replica, and a majority. */
  ghost predicate Lost(d: Desc, dead: Dead) {
    HasDead(d, dead) && !KeepsMajorities(d.replicas, dead)
  }

  function Recovered(d: Desc, s: Store): Desc {
    d.(replicas := [Replica(s.nodeId, s.storeId, d.nextReplicaId, VoterFull)],
       nextReplicaId := d.nextReplicaId + 1)
  }

  /** The decision taken for one descriptor on one store. */
  ghost function Rewrite(s: Store, dead: Dead, d: Desc): Option<Desc> {
    if Lost(d, dead) && Survivor(d, dead, s.storeId) then Some(Recovered(d, s)) else None
  }

  /** The scan of one descriptor. */
  method Decide(s: Store, dead: Dead, d: Desc) returns (r: Option<Desc>)
    requires s.storeId > 0
    ensures r == Rewrite(s, dead, d)
  {
    var numDeadPeers, maxLiveVoter := 0, -1;
    for i := 0 to |d.replicas|
      invariant numDeadPeers > 0 <==> exists j | 0 <= j < i :: !Live(dead, d.replicas[j])
      invariant numDeadPeers >= 0 && maxLiveVoter >= -1
      invariant forall j | 0 <= j < i ::
                  Live(dead, d.replicas[j]) && VoterNew(d.replicas[j]) ==> d.replicas[j].storeId <= maxLiveVoter
      invariant maxLiveVoter > -1 ==> LiveVoterOn(d, dead, maxLiveVoter)
    {
      var rep := d.replicas[i];
      if rep.storeId in dead {
        numDeadPeers := numDeadPeers + 1;
        continue;
      }
      if VoterNew(rep) && rep.storeId > maxLiveVoter {
        maxLiveVoter := rep.storeId;
        assert LiveVoterOn(d, dead, maxLiveVoter);
      }
    }
    if numDeadPeers == 0 {
      return None;
    }
    if s.storeId != maxLiveVoter {
      return None;
    }
    ProgressIsMajority(d.replicas, dead);
    if CanMakeProgress(d.replicas, dead) {
      return None;
    }
    var replicas := [Replica(s.nodeId, s.storeId, d.nextReplicaId, VoterFull)];
    return Some(d.(replicas := replicas, nextReplicaId := d.nextReplicaId + 1));
  }

  datatype Outcome = Refused | Batch(descs: seq<Desc>)

  /** The descriptors to write, in the order the store's descriptors are scanned. */
  ghost function Rewrites(s: Store, dead: Dead, descs: seq<Desc>): seq<Desc> {
    if descs == [] then []
    else
      var before := Rewrites(s, dead, descs[..|descs| - 1]);
      match Rewrite(s, dead, descs[|descs| - 1])
      case None => before
      case Some(d) => before + [d]
  }

  method RemoveDeadReplicas(s: Store, dead: Dead, descs: seq<Desc>) returns (r: Outcome)
    requires s.storeId > 0
    ensures r == if s.storeId in dead then Refused else Batch(Rewrites(s, dead, descs))
  {
    if s.storeId in dead {
      return Refused;
    }
    var newDescs := [];
    for i := 0 to |descs|
      invariant newDescs == Rewrites(s, dead, descs[..i])
    {
      assert descs[..i + 1][..i] == descs[..i];
      var d := Decide(s, dead, descs[i]);
      if d.Some? {
        newDescs := newDescs + [d.value];
      }
    }
    assert descs[..|descs|] == descs;
    return Batch(newDescs);
  }

  // ---- one range, all stores ----

  /** A store's own identity. */
  predicate Identified(s: Store) { s.nodeId > 0 && s.storeId > 0 }

  /** RangeDescriptor.Validate: no ID is zero, replica IDs are below the next one, no replica or store ID is reused. */
  predicate ValidDesc(d: Desc) {
    && d.nextReplicaId != 0
    && (forall i | 0 <= i < |d.replicas| ::
          var r := d.replicas[i];
          r.nodeId != 0 && r.storeId != 0 && r.replicaId != 0 && r.replicaId < d.nextReplicaId)
    && (forall i, j | 0 <= i < j < |d.replicas| ::
          d.replicas[i].replicaId != d.replicas[j].replicaId && d.replicas[i].storeId != d.replicas[j].storeId)
  }

  /** The IDs of the replicas that are not on dead stores. */
  function LiveIds(d: Desc, dead: Dead): set<int> {
    set r | r in d.replicas && Live(dead, r) :: r.replicaId
  }

  /** A list of descriptors is decided one by one, and the decisions stay in order. */
  lemma {:induction false} RewritesAppend(s: Store, dead: Dead, a: seq<Desc>, b: seq<Desc>)
    ensures Rewrites(s, dead, a + b) == Rewrites(s, dead, a) + Rewrites(s, dead, b)
  {
    if b == [] {
      assert a + b == a;
    } else {
      assert (a + b)[..|a + b| - 1] == a + b[..|b| - 1];
      RewritesAppend(s, dead, a, b[..|b| - 1]);
    }
  }

  lemma RewritesOne(s: Store, dead: Dead, d: Desc)
    ensures Rewrites(s, dead, [d]) == match Rewrite(s, dead, d) case Some(d') => [d'] case None => []
  {
    assert [d][..0] == [];
  }

  /** In raft's terms: a valid range is rewritten if and only if the replicas left to it cannot commit. */
  lemma RewriteIsByQuorum(s: Store, dead: Dead, d: Desc)
    requires ValidDesc(d)
    ensures Rewrite(s, dead, d).Some? <==>
            && HasDead(d, dead) && Survivor(d, dead, s.storeId)
            && !CanCommit(ConfState(d.replicas, InChange(d.replicas)), LiveIds(d, dead))
  {
    ProgressIsRafts(d.replicas, dead, LiveIds(d, dead));
    ProgressIsMajority(d.replicas, dead);
  }

  /** Stores with the same view of a range cannot both rewrite it. */
  lemma AtMostOneRewrites(a: Store, b: Store, dead: Dead, d: Desc)
    requires Rewrite(a, dead, d).Some? && Rewrite(b, dead, d).Some?
    ensures a.storeId == b.storeId
  {
  }

  lemma {:induction false} SurvivorExists(d: Desc, dead: Dead, n: nat, best: int)
    requires n <= |d.replicas| && LiveVoterOn(d, dead, best)
    requires forall i | 0 <= i < n ::
               Live(dead, d.replicas[i]) && VoterNew(d.replicas[i]) ==> d.replicas[i].storeId <= best
    ensures exists id :: Survivor(d, dead, id)
    decreases |d.replicas| - n
  {
    if n == |d.replicas| {
      assert Survivor(d, dead, best);
    } else {
      var r := d.replicas[n];
      if Live(dead, r) && VoterNew(r) && r.storeId > best {
        assert LiveVoterOn(d, dead, r.storeId);
        SurvivorExists(d, dead, n + 1, r.storeId);
      } else {
        SurvivorExists(d, dead, n + 1, best);
      }
    }
  }

  /** The stores the tool is run on: every store holding a live voter is among them. */
  ghost predicate Covers(stores: set<Store>, d: Desc, dead: Dead) {
    forall id | LiveVoterOn(d, dead, id) :: exists s | s in stores :: s.storeId == id
  }

  /** Some store rewrites the range exactly when it is lost and still has a live voter. */
  lemma SomeoneRewritesExactlyWhen(stores: set<Store>, dead: Dead, d: Desc)
    requires Covers(stores, d, dead)
    ensures (exists s | s in stores :: Rewrite(s, dead, d).Some?) <==>
            Lost(d, dead) && exists id :: LiveVoterOn(d, dead, id)
  {
    if Lost(d, dead) && exists id :: LiveVoterOn(d, dead, id) {
      var id0 :| LiveVoterOn(d, dead, id0);
      SurvivorExists(d, dead, 0, id0);
      var id :| Survivor(d, dead, id);
      var s :| s in stores && s.storeId == id;
      assert Rewrite(s, dead, d).Some?;
    }
  }

  ghost predicate IdsBelowNext(d: Desc) {
    forall i | 0 <= i < |d.replicas| :: d.replicas[i].replicaId < d.nextReplicaId
  }

  /** What a rewrite leaves behind. */
  lemma RewriteIsSound(s: Store, dead: Dead, d: Desc)
    requires Rewrite(s, dead, d).Some?
    ensures var d' := Rewrite(s, dead, d).value;
            && d'.rangeId == d.rangeId && d'.startKey == d.startKey && d'.rest == d.rest
            && s.storeId !in dead
            && d'.replicas == [Replica(s.nodeId, s.storeId, d.nextReplicaId, VoterFull)]
            && d'.nextReplicaId == d.nextReplicaId + 1
            && CanMakeProgress(d'.replicas, dead) && KeepsMajorities(d'.replicas, dead)
            && !HasDead(d', dead)
            && (IdsBelowNext(d) ==> IdsBelowNext(d'))
            && (IdsBelowNext(d) ==>
                  forall i | 0 <= i < |d.replicas| :: d.replicas[i].replicaId != d'.replicas[0].replicaId)
            && (Identified(s) && d.nextReplicaId > 0 ==> ValidDesc(d'))
  {
    var rs := Recovered(d, s).replicas;
    assert rs[1..] == [];
    ProgressIsMajority(rs, dead);
  }

  /** After the tool has run everywhere, the survivor's copy is the only one that can make progress. */
  lemma OneCopyCanMakeProgress(stores: set<Store>, dead: Dead, d: Desc, a: Store, b: Store)
    requires a in stores && b in stores && Rewrite(a, dead, d).Some?
    ensures CanMakeProgress(Rewrite(a, dead, d).value.replicas, dead)
    ensures b.storeId != a.storeId ==> Rewrite(b, dead, d).None? && !CanMakeProgress(d.replicas, dead)
  {
    RewriteIsSound(a, dead, d);
    ProgressIsMajority(d.replicas, dead);
  }

  // ---- one store, all ranges ----

  /** A store's descriptors after the batch is committed. */
  ghost function Committed(s: Store, dead: Dead, descs: seq<Desc>): seq<Desc> {
    seq(|descs|, i requires 0 <= i < |descs| =>
      match Rewrite(s, dead, descs[i]) case Some(d) => d case None => descs[i])
  }

  /** A second run finds nothing to do, whatever the descriptors. */
  lemma SecondRunIsIdle(s: Store, dead: Dead, descs: seq<Desc>)
    ensures Rewrites(s, dead, Committed(s, dead, descs)) == []
  {
    var after := Committed(s, dead, descs);
    forall i | 0 <= i < |after|
      ensures Rewrite(s, dead, after[i]).None?
    {
      if Rewrite(s, dead, descs[i]).Some? {
        RewriteIsSound(s, dead, descs[i]);
      }
    }
    NoRewrites(s, dead, after);
  }

  lemma {:induction false} NoRewrites(s: Store, dead: Dead, descs: seq<Desc>)
    requires forall i | 0 <= i < |descs| :: Rewrite(s, dead, descs[i]).None?
    ensures Rewrites(s, dead, descs) == []
  {
    if descs != [] {
      NoRewrites(s, dead, descs[..|descs| - 1]);
    }
  }

  // ---- stores that were given different dead sets ----

  lemma CountTwo(x: Replica, y: Replica, p: Replica -> bool)
    ensures Count([x, y], p) == (if p(x) then 1 else 0) + (if p(y) then 1 else 0)
  {
    assert [x, y][1..] == [y] && [y][1..] == [];
    assert Count([y], p) == if p(y) then 1 else 0;
  }

  lemma CountThree(x: Replica, y: Replica, z: Replica, p: Replica -> bool)
    ensures Count([x, y, z], p) == (if p(x) then 1 else 0) + (if p(y) then 1 else 0) + (if p(z) then 1 else 0)
  {
    assert [x, y, z][1..] == [y, z];
    CountTwo(y, z, p);
  }

  /** Two voters, one on each store. */
  function Pair(a: Store, b: Store): Desc {
    Desc(1, "", [Replica(a.nodeId, a.storeId, 1, VoterFull), Replica(b.nodeId, b.storeId, 2, VoterFull)], 3, "")
  }

  lemma PairSplits(a: Store, b: Store, deadA: Dead, deadB: Dead)
    requires Identified(a) && Identified(b) && a.storeId != b.storeId
    requires a.storeId !in deadA && b.storeId in deadA && b.storeId !in deadB && a.storeId in deadB
    ensures var d := Pair(a, b); ValidDesc(d) && Rewrite(a, deadA, d).Some? && Rewrite(b, deadB, d).Some?
  {
    var d := Pair(a, b);
    var p, q := d.replicas[0], d.replicas[1];
    CountTwo(p, q, VoterNew);
    CountTwo(p, q, Both(VoterNew, deadA));
    CountTwo(p, q, Both(VoterNew, deadB));
    ProgressIsMajority(d.replicas, deadA);
    ProgressIsMajority(d.replicas, deadB);
    assert !Live(deadA, d.replicas[1]) && !Live(deadB, d.replicas[0]);
    assert LiveVoterOn(d, deadA, a.storeId) && LiveVoterOn(d, deadB, b.storeId);
  }

  /** Two incoming voters on the stores, and an outgoing one on a store that the second one takes for dead. */
  function Joint(a: Store, b: Store, x: int): Desc {
    Desc(1, "", [Replica(a.nodeId, a.storeId, 1, VoterIncoming), Replica(b.nodeId, b.storeId, 2, VoterIncoming),
                 Replica(1, x, 3, VoterOutgoing)], 4, "")
  }

  lemma JointFirst(a: Store, b: Store, deadA: Dead, x: int)
    requires a.storeId !in deadA && b.storeId in deadA
    ensures Rewrite(a, deadA, Joint(a, b, x)).Some?
  {
    var d := Joint(a, b, x);
    var p, q, r := d.replicas[0], d.replicas[1], d.replicas[2];
    CountThree(p, q, r, VoterNew);
    CountThree(p, q, r, Both(VoterNew, deadA));
    ProgressIsMajority(d.replicas, deadA);
    assert !Live(deadA, d.replicas[1]);
    assert LiveVoterOn(d, deadA, a.storeId);
  }

  lemma JointSecond(a: Store, b: Store, deadB: Dead, x: int)
    requires a.storeId < b.storeId && b.storeId !in deadB && x in deadB
    ensures Rewrite(b, deadB, Joint(a, b, x)).Some?
  {
    var d := Joint(a, b, x);
    var p, q, r := d.replicas[0], d.replicas[1], d.replicas[2];
    CountThree(p, q, r, VoterOld);
    CountThree(p, q, r, Both(VoterOld, deadB));
    ProgressIsMajority(d.replicas, deadB);
    assert !Live(deadB, d.replicas[2]);
    assert Live(deadB, d.replicas[1]);
    assert LiveVoterOn(d, deadB, b.storeId);
  }

  /** Some valid range is rewritten by both stores. */
  ghost predicate BothRewrite(a: Store, b: Store, deadA: Dead, deadB: Dead) {
    exists d :: ValidDesc(d) && Rewrite(a, deadA, d).Some? && Rewrite(b, deadB, d).Some?
  }

  /** The store with the higher ID that rewrites a range is dead to any other that rewrites it too. */
  lemma SplitNeeds(a: Store, b: Store, deadA: Dead, deadB: Dead, d: Desc)
    requires a.storeId < b.storeId && ValidDesc(d) && Rewrite(a, deadA, d).Some? && Rewrite(b, deadB, d).Some?
    ensures a.storeId !in deadA && b.storeId in deadA && b.storeId !in deadB && exists x | x in deadB :: x != 0
  {
    var i :| 0 <= i < |d.replicas|
             && d.replicas[i].storeId == b.storeId && Live(deadB, d.replicas[i]) && VoterNew(d.replicas[i]);
    assert b.storeId !in deadA ==> LiveVoterOn(d, deadA, b.storeId);
    var j :| 0 <= j < |d.replicas| && !Live(deadB, d.replicas[j]);
    assert d.replicas[j].storeId in deadB && d.replicas[j].storeId != 0;
  }

  /**
  Two stores can be made to rewrite the same valid range exactly when the one with the lower ID is run with
  the other in its dead set, and neither with itself; the other's dead set need only name some store.
  */
  lemma SplitExactlyWhen(a: Store, b: Store, deadA: Dead, deadB: Dead)
    requires Identified(a) && Identified(b) && a.storeId < b.storeId
    ensures BothRewrite(a, b, deadA, deadB) <==>
            a.storeId !in deadA && b.storeId in deadA && b.storeId !in deadB && exists x | x in deadB :: x != 0
  {
    if BothRewrite(a, b, deadA, deadB) {
      var d :| ValidDesc(d) && Rewrite(a, deadA, d).Some? && Rewrite(b, deadB, d).Some?;
      SplitNeeds(a, b, deadA, deadB, d);
    }
    if a.storeId !in deadA && b.storeId in deadA && b.storeId !in deadB && exists x | x in deadB :: x != 0 {
      if a.storeId in deadB {
        PairSplits(a, b, deadA, deadB);
      } else {
        var x :| x in deadB && x != 0;
        JointFirst(a, b, deadA, x);
        JointSecond(a, b, deadB, x);
        assert ValidDesc(Joint(a, b, x));
      }
    }
  }

  /** A range on two stores that take each other for dead. */
  lemma DifferentDeadSetsSplit() returns (d: Desc, a: Store, b: Store)
    ensures ValidDesc(d) && Identified(a) && Identified(b) && a.storeId != b.storeId
    ensures Rewrite(a, {b.storeId}, d).Some? && Rewrite(b, {a.storeId}, d).Some?
  {
    a, b := Store(1, 1), Store(2, 2);
    d := Pair(a, b);
    PairSplits(a, b, {2}, {1});
  }
}
