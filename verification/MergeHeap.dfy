/**
The k-way merge of log streams: a binary heap of streams ordered by the entry each
would deliver next, driven exactly as Go's container/heap drives it.

The heap holds stream numbers (the source holds references); `rest[k]` is what stream `k`
has still to deliver, so advancing a stream changes its key while it sits in the heap.
*/
module MergeHeap {
  import opened LogEntries

  type Rest = seq<seq<Entry>>

  /** Every number in the heap names a stream. */
  ghost predicate Named(l: seq<nat>, rest: Rest) {
    forall i | 0 <= i < |l| :: l[i] < |rest|
  }

  predicate Less(rest: Rest, a: nat, b: nat)
    requires a < |rest| && b < |rest|
  {
    if rest[a] != [] && rest[b] != [] then rest[a][0].time < rest[b][0].time
    else rest[a] == [] && rest[b] != []
  }

  function Parent(j: int): int
    requires 0 < j
  {
    (j - 1) / 2
  }

  /** Position `j` of the heap does not precede position `i`. */
  ghost predicate NotBefore(rest: Rest, l: seq<nat>, i: int, j: int)
    requires Named(l, rest)
  {
    0 <= i < |l| && 0 <= j < |l| && !Less(rest, l[j], l[i])
  }

  ghost predicate Heap(rest: Rest, l: seq<nat>)
    requires Named(l, rest)
  {
    forall j | 0 < j < |l| :: NotBefore(rest, l, Parent(j), j)
  }

  lemma {:induction false} RootIsLeast(rest: Rest, l: seq<nat>, j: nat)
    requires Named(l, rest) && Heap(rest, l) && j < |l|
    ensures NotBefore(rest, l, 0, j)
  {
    if j > 0 {
      assert NotBefore(rest, l, Parent(j), j);
      RootIsLeast(rest, l, Parent(j));
    }
  }

  function Swapped(l: seq<nat>, i: nat, j: nat): (r: seq<nat>)
    requires i < |l| && j < |l|
    ensures multiset(r) == multiset(l)
  {
    l[i := l[j]][j := l[i]]
  }

  // ---- sift-down ----

  /** Heap order among the first `n`, from parent `lo` on, except that `hole` may exceed its children. */
  ghost predicate Sinking(rest: Rest, l: seq<nat>, lo: int, n: int, hole: int)
    requires Named(l, rest) && 0 <= lo && n <= |l|
  {
    && (forall j | 0 < j < n :: lo <= Parent(j) && Parent(j) != hole ==> NotBefore(rest, l, Parent(j), j))
    && (forall j | 0 < j < n ::
          Parent(j) == hole && 0 < hole && lo <= Parent(hole) ==> NotBefore(rest, l, Parent(hole), j))
  }

  /** `j` is a child of `i`, and no child of `i` precedes it. */
  ghost predicate LesserChild(rest: Rest, l: seq<nat>, n: int, i: int, j: int)
    requires Named(l, rest) && 0 <= i && n <= |l|
  {
    && (j == 2 * i + 1 || j == 2 * i + 2) && j < n
    && NotBefore(rest, l, j, 2 * i + 1)
    && (2 * i + 2 < n ==> NotBefore(rest, l, j, 2 * i + 2))
  }

  lemma SinkingDone(rest: Rest, l: seq<nat>, lo: nat, n: nat, i: nat)
    requires Named(l, rest) && n <= |l| && Sinking(rest, l, lo, n, i)
    requires 2 * i + 1 < n ==> exists j :: LesserChild(rest, l, n, i, j) && NotBefore(rest, l, i, j)
    ensures Sinking(rest, l, lo, n, -1)
  {
    forall c | 0 < c < n && lo <= Parent(c)
      ensures NotBefore(rest, l, Parent(c), c)
    {
      assert Parent(c) == i ==> c == 2 * i + 1 || c == 2 * i + 2;
    }
  }

  lemma SinkingStep(rest: Rest, l: seq<nat>, lo: nat, n: nat, i: nat, j: nat)
    requires Named(l, rest) && lo <= i < j < n <= |l| && Sinking(rest, l, lo, n, i)
    requires LesserChild(rest, l, n, i, j) && !NotBefore(rest, l, i, j)
    ensures Named(Swapped(l, i, j), rest) && Sinking(rest, Swapped(l, i, j), lo, n, j)
  {
    var m := Swapped(l, i, j);
    assert Parent(j) == i;
    forall c | 0 < c < n && lo <= Parent(c) && Parent(c) != j
      ensures NotBefore(rest, m, Parent(c), c)
    {
      assert Parent(c) == i ==> c == 2 * i + 1 || c == 2 * i + 2;
      assert Parent(c) != i ==> NotBefore(rest, l, Parent(c), c);
    }
    forall c | 0 < c < n && Parent(c) == j
      ensures NotBefore(rest, m, Parent(j), c)
    {
      assert NotBefore(rest, l, Parent(c), c);
    }
  }

  // ---- sift-up ----

  /** Heap order except that `hole` may precede its parent. */
  ghost predicate Rising(rest: Rest, l: seq<nat>, hole: int)
    requires Named(l, rest)
  {
    && (forall j | 0 < j < |l| :: j != hole ==> NotBefore(rest, l, Parent(j), j))
    && (forall j | 0 < j < |l| :: Parent(j) == hole && 0 < hole ==> NotBefore(rest, l, Parent(hole), j))
  }

  lemma RisingStep(rest: Rest, l: seq<nat>, j: nat)
    requires Named(l, rest) && 0 < j < |l| && Rising(rest, l, j) && !NotBefore(rest, l, Parent(j), j)
    ensures Named(Swapped(l, Parent(j), j), rest) && Rising(rest, Swapped(l, Parent(j), j), Parent(j))
  {
    var i := Parent(j);
    var m := Swapped(l, i, j);
    forall c | 0 < c < |m| && c != i
      ensures NotBefore(rest, m, Parent(c), c)
    {
      assert NotBefore(rest, l, Parent(c), c) || c == j;
    }
    forall c | 0 < c < |m| && Parent(c) == i && 0 < i
      ensures NotBefore(rest, m, Parent(i), c)
    {
      assert NotBefore(rest, l, Parent(i), i);
      assert NotBefore(rest, l, Parent(c), c) || c == j;
    }
  }

  // ---- which streams the heap holds ----

  /** Merging has stopped because the stream at the root failed. */
  predicate Stuck(rest: Rest, l: seq<nat>) {
    |l| > 0 && l[0] < |rest| && rest[l[0]] == []
  }

  /** Exactly the streams with something left, each once. */
  ghost predicate Holds(rest: Rest, b: multiset<nat>) {
    && (forall k | k in b :: k < |rest|)
    && (forall k: nat | k < |rest| :: b[k] == if rest[k] == [] then 0 else 1)
  }

  lemma OnlyRoot(l: seq<nat>, i: nat)
    requires 0 < i < |l| && multiset(l)[l[0]] == 1
    ensures l[i] != l[0]
  {
    assert l == [l[0]] + l[1..];
    assert l[i] in multiset(l[1..]);
  }

  /** Advancing the root stream in place disturbs the order at the root only. */
  lemma RootAdvanced(rest: Rest, l: seq<nat>, p: seq<Entry>)
    requires Named(l, rest) && Sinking(rest, l, 0, |l|, 0) && 0 < |l| && multiset(l)[l[0]] == 1
    ensures Named(l, rest[l[0] := p]) && Sinking(rest[l[0] := p], l, 0, |l|, 0)
  {
    var rest' := rest[l[0] := p];
    forall j | 0 < j < |l| && Parent(j) != 0
      ensures NotBefore(rest', l, Parent(j), j)
    {
      OnlyRoot(l, j);
      OnlyRoot(l, Parent(j));
      assert NotBefore(rest, l, Parent(j), j);
    }
  }

  lemma HoldsAdvanced(rest: Rest, b: multiset<nat>, k: nat)
    requires Holds(rest, b) && k in b
    ensures var p := rest[k][1..];
            Holds(rest[k := p], if p == [] then b - multiset{k} else b)
  {
  }

  /** heap.Pop's first half: the last element moves to the root and is allowed to sink. */
  lemma LastToRoot(rest: Rest, l: seq<nat>)
    requires Named(l, rest) && 0 < |l| && Sinking(rest, l, 0, |l|, 0)
    ensures var m := Swapped(l, 0, |l| - 1);
            Named(m, rest) && Sinking(rest, m, 0, |l| - 1, 0)
  {
    var m := Swapped(l, 0, |l| - 1);
    forall j | 0 < j < |l| - 1 && Parent(j) != 0
      ensures NotBefore(rest, m, Parent(j), j)
    {
      assert NotBefore(rest, l, Parent(j), j);
    }
  }

  lemma Shortened(rest: Rest, l: seq<nat>, n: nat)
    requires Named(l, rest) && n <= |l| && Sinking(rest, l, 0, n, -1)
    ensures Named(l[..n], rest) && Heap(rest, l[..n])
  {
    forall j | 0 < j < n
      ensures NotBefore(rest, l[..n], Parent(j), j)
    {
      assert NotBefore(rest, l, Parent(j), j);
    }
  }

  lemma Extended(rest: Rest, l: seq<nat>, x: nat)
    requires Named(l, rest) && Heap(rest, l) && x < |rest|
    ensures Named(l + [x], rest) && Rising(rest, l + [x], |l|)
  {
    forall j | 0 < j < |l|
      ensures NotBefore(rest, l + [x], Parent(j), j)
    {
      assert NotBefore(rest, l, Parent(j), j);
    }
  }

  // ---- reordering after the root stream has advanced ----

  /** `l'` is the heap once the root stream of `l` has advanced: in order again, the root gone if it has ended. */
  ghost predicate Reordered(rest: Rest, l: seq<nat>, l': seq<nat>)
    requires l != [] && Named(l, rest)
  {
    && Named(l', rest) && Heap(rest, l')
    && multiset(l') == if rest[l[0]] == [] then multiset(l) - multiset{l[0]} else multiset(l)
  }

  lemma {:induction false} RisesToHeap(rest: Rest, l: seq<nat>, hole: nat) returns (l': seq<nat>)
    requires Named(l, rest) && hole < |l| && Rising(rest, l, hole)
    ensures Named(l', rest) && Heap(rest, l') && multiset(l') == multiset(l)
    decreases hole
  {
    if hole > 0 && !NotBefore(rest, l, Parent(hole), hole) {
      RisingStep(rest, l, hole);
      l' := RisesToHeap(rest, Swapped(l, Parent(hole), hole), Parent(hole));
    } else {
      l' := l;
    }
  }

  /** Any streams can be put in heap order. */
  lemma {:induction false} HeapOrderExists(rest: Rest, l: seq<nat>) returns (l': seq<nat>)
    requires Named(l, rest)
    ensures Named(l', rest) && Heap(rest, l') && multiset(l') == multiset(l)
  {
    if l == [] {
      l' := l;
    } else {
      var init, x := l[..|l| - 1], l[|l| - 1];
      assert l == init + [x];
      var h := HeapOrderExists(rest, init);
      Extended(rest, h, x);
      l' := RisesToHeap(rest, h + [x], |h|);
    }
  }

  lemma ReorderExists(rest: Rest, l: seq<nat>) returns (l': seq<nat>)
    requires l != [] && Named(l, rest)
    ensures Reordered(rest, l, l')
  {
    if rest[l[0]] == [] {
      assert l == [l[0]] + l[1..];
      l' := HeapOrderExists(rest, l[1..]);
    } else {
      l' := HeapOrderExists(rest, l);
    }
  }

  /**
  What one stream delivers to the merge: its entries, then end-of-file or an error.  How that relates to the
  file behind the stream, when streams can be cancelled, is the subject of BufferedMerge.
  */
  datatype Input = Input(entries: seq<Entry>, fails: bool)

  function Entries(inputs: seq<Input>): (es: Rest)
    ensures |es| == |inputs| && forall k | 0 <= k < |es| :: es[k] == inputs[k].entries
  {
    seq(|inputs|, k requires 0 <= k < |inputs| => inputs[k].entries)
  }

  /** No stream has anything earlier than `t` left. */
  ghost predicate NothingBefore(rest: Rest, t: int) {
    forall k | 0 <= k < |rest| :: rest[k] != [] ==> t <= rest[k][0].time
  }

  /** A failing stream that has come to its end is the one at the root. */
  ghost predicate FailureAtRoot(inputs: seq<Input>, rest: Rest, l: seq<nat>)
    requires |rest| == |inputs|
  {
    forall k: nat | k < |inputs| && inputs[k].fails && inputs[k].entries != [] && rest[k] == [] :: l != [] && l[0] == k
  }

  /** In heap order, holding the streams with something left; or stuck on a failed stream at the root. */
  ghost predicate ValidState(inputs: seq<Input>, rest: Rest, l: seq<nat>) {
    && |rest| == |inputs| && Named(l, rest)
    && Heap(rest, l)
    && (if Stuck(rest, l) then inputs[l[0]].fails else Holds(rest, multiset(l)))
    && FailureAtRoot(inputs, rest, l)
  }

  lemma HeldRoot(rest: Rest, l: seq<nat>)
    requires Named(l, rest) && Holds(rest, multiset(l)) && l != []
    ensures multiset(l)[l[0]] == 1 && rest[l[0]] != [] && !Stuck(rest, l)
  {
    assert l[0] in multiset(l);
  }

  /** The root stream advanced and the heap was reordered. */
  lemma ValidAgain(inputs: seq<Input>, rest: Rest, l: seq<nat>, l': seq<nat>)
    requires ValidState(inputs, rest, l) && l != [] && !Stuck(rest, l)
    requires var k := l[0];
             && Reordered(rest[k := rest[k][1..]], l, l')
             && (|rest[k]| > 1 || !inputs[k].fails)
    ensures ValidState(inputs, rest[l[0] := rest[l[0]][1..]], l')
  {
    var k := l[0];
    assert k in multiset(l);
    HoldsAdvanced(rest, multiset(l), k);
    if l' != [] {
      HeldRoot(rest[k := rest[k][1..]], l');
    }
  }

  /** The root stream has come to an end that is a failure: it stays where it is. */
  lemma StuckNow(inputs: seq<Input>, rest: Rest, l: seq<nat>)
    requires ValidState(inputs, rest, l) && l != [] && !Stuck(rest, l)
    requires |rest[l[0]]| == 1 && inputs[l[0]].fails
    ensures ValidState(inputs, rest[l[0] := []], l)
  {
    HeldRoot(rest, l);
    RootAdvanced(rest, l, []);
    var rest' := rest[l[0] := []];
    forall j | 0 < j < |l|
      ensures NotBefore(rest', l, Parent(j), j)
    {
    }
  }

  class MergedStream {
    var l: seq<nat>
    var rest: Rest
    const inputs: seq<Input>

    ghost predicate Valid()
      reads this
    {
      ValidState(inputs, rest, l)
    }

    /** heap.down */
    method Down(i0: nat, n: nat)
      requires i0 <= n <= |l| && Named(l, rest)
      requires Sinking(rest, l, i0, n, i0)
      modifies this`l
      ensures multiset(l) == old(multiset(l)) && |l| == old(|l|) && l[n..] == old(l[n..])
      ensures Named(l, rest) && Sinking(rest, l, i0, n, -1)
    {
      var i := i0;
      while true
        invariant i0 <= i <= n
        invariant multiset(l) == old(multiset(l)) && |l| == old(|l|) && l[n..] == old(l[n..])
        invariant Named(l, rest) && Sinking(rest, l, i0, n, i)
        decreases n - i
      {
        var j1 := 2 * i + 1;
        if j1 >= n {
          SinkingDone(rest, l, i0, n, i);
          break;
        }
        var j := j1;
        var j2 := j1 + 1;
        if j2 < n && Less(rest, l[j2], l[j1]) {
          j := j2;
        }
        assert LesserChild(rest, l, n, i, j);
        if !Less(rest, l[j], l[i]) {
          assert NotBefore(rest, l, i, j);
          SinkingDone(rest, l, i0, n, i);
          break;
        }
        SinkingStep(rest, l, i0, n, i, j);
        l := Swapped(l, i, j);
        i := j;
      }
    }

    /** heap.up */
    method Up(j0: nat)
      requires j0 == |l| - 1 && Named(l, rest)
      requires Rising(rest, l, j0)
      modifies this`l
      ensures multiset(l) == old(multiset(l))
      ensures Named(l, rest) && Heap(rest, l)
    {
      var j := j0;
      while j != 0 && Less(rest, l[j], l[Parent(j)])
        invariant 0 <= j < |l| == old(|l|)
        invariant multiset(l) == old(multiset(l))
        invariant Named(l, rest) && Rising(rest, l, j)
      {
        var i := Parent(j);
        RisingStep(rest, l, j);
        l := Swapped(l, i, j);
        j := i;
      }
    }

    /** heap.Init */
    method Init()
      requires Named(l, rest)
      modifies this`l
      ensures multiset(l) == old(multiset(l))
      ensures Named(l, rest) && Heap(rest, l)
    {
      var n := |l|;
      var i := n / 2 - 1;
      while i >= 0
        invariant -1 <= i < n && n == |l|
        invariant multiset(l) == old(multiset(l))
        invariant Named(l, rest) && Sinking(rest, l, i + 1, n, -1)
      {
        Down(i, n);
        i := i - 1;
      }
    }

    /** heap.Push */
    method HeapPush(x: nat)
      requires Named(l, rest) && Heap(rest, l) && x < |rest|
      modifies this`l
      ensures multiset(l) == old(multiset(l)) + multiset{x}
      ensures Named(l, rest) && Heap(rest, l)
    {
      Extended(rest, l, x);
      l := l + [x];
      Up(|l| - 1);
    }

    /** heap.Pop: takes out the stream at index 0, whatever its key has become. */
    method HeapPop() returns (x: nat)
      requires 0 < |l| && Named(l, rest) && Sinking(rest, l, 0, |l|, 0)
      modifies this`l
      ensures x == old(l[0]) && multiset(l) == old(multiset(l)) - multiset{x}
      ensures Named(l, rest) && Heap(rest, l)
    {
      var n := |l| - 1;
      LastToRoot(rest, l);
      l := Swapped(l, 0, n);
      Down(0, n);
      x := l[n];
      assert l == l[..n] + [x];
      Shortened(rest, l, n);
      l := l[..n];
    }

    /** newMergedStream, after the per-file streams have been built: streams with no entry are left out. */
    constructor (inputs: seq<Input>)
      ensures Valid() && !Stuck(rest, l)
      ensures this.inputs == inputs && rest == Entries(inputs)
    {
      var live: seq<nat> := [];
      ghost var es := Entries(inputs);
      for i := 0 to |inputs|
        invariant forall j | 0 <= j < |live| :: live[j] < i
        invariant forall k: nat | k < i :: multiset(live)[k] == if es[k] == [] then 0 else 1
      {
        if inputs[i].entries != [] {
          live := live + [i];
        }
      }
      l, rest, this.inputs := live, Entries(inputs), inputs;
      new;
      Init();
      assert l != [] ==> l[0] in multiset(l);
    }

    method Peek() returns (ok: bool, t: Tagged)
      requires Valid()
      ensures ok <==> l != [] && !Stuck(rest, l)
      ensures ok ==> t.file == l[0] && t.entry == rest[l[0]][0] && NothingBefore(rest, t.entry.time)
      ensures !ok ==> if l == [] then Total(rest) == 0 else inputs[l[0]].fails
    {
      if l == [] {
        NothingLeft(rest);
        return false, Tagged(0, Entry(0, []));
      }
      if rest[l[0]] == [] {
        return false, Tagged(0, Entry(0, []));
      }
      ok, t := true, Tagged(l[0], rest[l[0]][0]);
      forall k | 0 <= k < |rest| && rest[k] != []
        ensures t.entry.time <= rest[k][0].time
      {
        assert k in multiset(l);
        var j :| 0 <= j < |l| && l[j] == k;
        RootIsLeast(rest, l, j);
      }
    }

    /** heap.Push(l, heap.Pop(l)), or heap.Pop(l) alone when the root stream has ended. */
    method Restore()
      requires l != [] && Named(l, rest) && Sinking(rest, l, 0, |l|, 0)
      modifies this`l
      ensures Reordered(rest, old(l), l)
    {
      var k := l[0];
      assert k in multiset(l);
      var x := HeapPop();
      if rest[k] != [] {
        HeapPush(x);
      }
    }

    /**
    mergedStream.pop.  The root stream advances in place, so its key changes while it sits in
    the heap; taking it out and pushing it back restores the order.
    */
    method Pop() returns (ok: bool, e: Entry)
      requires Valid()
      modifies this
      ensures Valid()
      ensures old(l == [] || Stuck(rest, l)) ==> !ok && rest == old(rest) && l == old(l)
      ensures old(l != [] && !Stuck(rest, l)) ==>
                var k, p := old(l[0]), old(rest[l[0]]);
                && rest == old(rest)[k := p[1..]]
                && (ok <==> |p| > 1 || !inputs[k].fails)
                && (ok ==> e == p[0] && Reordered(rest, old(l), l))
                && (!ok ==> l == old(l))
    {
      var ok0, t := Peek();
      if !ok0 {
        return false, Entry(0, []);
      }
      ghost var l0, rest0 := l, rest;
      var k := l[0];
      HeldRoot(rest, l);
      RootAdvanced(rest, l, rest[k][1..]);
      rest := rest[k := rest[k][1..]];
      if rest[k] == [] && inputs[k].fails {
        StuckNow(inputs, rest0, l0);
        return false, Entry(0, []);
      }
      Restore();
      ValidAgain(inputs, rest0, l0, l);
      return true, t.entry;
    }
  }

  lemma NothingLeft(rest: Rest)
    requires Holds(rest, multiset{})
    ensures forall k | 0 <= k < |rest| :: rest[k] == []
    ensures Total(rest) == 0
  {
    assert forall k: nat | k < |rest| :: multiset{}[k] == 0;
  }

  ghost predicate AllSorted(inputs: seq<Input>) {
    forall k | 0 <= k < |inputs| :: Sorted(inputs[k].entries)
  }

  /** Every file splits into what has been merged and what is left of it. */
  ghost predicate Partition(out: seq<Tagged>, left: Rest, inputs: seq<Input>) {
    && |left| == |inputs|
    && (forall i | 0 <= i < |out| :: out[i].file < |inputs|)
    && (forall k | 0 <= k < |inputs| :: From(out, k) + left[k] == inputs[k].entries)
  }

  /** Merged so far in time order, with nothing earlier left behind. */
  ghost predicate InOrder(out: seq<Tagged>, left: Rest) {
    && SortedTagged(out)
    && (forall i | 0 <= i < |out| :: NothingBefore(left, out[i].entry.time))
  }

  lemma PartitionStep(out: seq<Tagged>, left: Rest, inputs: seq<Input>, k: nat)
    requires Partition(out, left, inputs) && k < |left| && left[k] != []
    ensures Partition(out + [Tagged(k, left[k][0])], left[k := left[k][1..]], inputs)
  {
    var t := Tagged(k, left[k][0]);
    forall i | 0 <= i < |inputs|
      ensures From(out + [t], i) + left[k := left[k][1..]][i] == inputs[i].entries
    {
      FromAppend(out, t, i);
      assert left[k] == [left[k][0]] + left[k][1..];
    }
  }

  lemma InOrderStep(out: seq<Tagged>, left: Rest, inputs: seq<Input>, k: nat)
    requires Partition(out, left, inputs) && AllSorted(inputs) && InOrder(out, left)
    requires k < |left| && left[k] != [] && NothingBefore(left, left[k][0].time)
    ensures InOrder(out + [Tagged(k, left[k][0])], left[k := left[k][1..]])
  {
    var left' := left[k := left[k][1..]];
    var es, n := inputs[k].entries, |From(out, k)|;
    assert es[n] == left[k][0] && (|left[k]| > 1 ==> es[n + 1] == left[k][1]);
    assert NothingBefore(left', left[k][0].time);
  }

  lemma Complete(out: seq<Tagged>, left: Rest, inputs: seq<Input>)
    requires Partition(out, left, inputs) && Total(left) == 0
    ensures Interleaves(out, Entries(inputs))
  {
    forall k | 0 <= k < |left|
      ensures left[k] == []
    {
      TotalUpdate(left, k, []);
    }
  }

  /** Everything promised of a merge that has emitted `out` and has `left` to go. */
  ghost predicate Merging(out: seq<Tagged>, left: Rest, inputs: seq<Input>) {
    Partition(out, left, inputs) && (AllSorted(inputs) ==> InOrder(out, left))
  }

  lemma MergingStart(inputs: seq<Input>)
    ensures Merging([], Entries(inputs), inputs)
  {
  }

  lemma MergingStep(out: seq<Tagged>, left: Rest, inputs: seq<Input>, k: nat)
    requires Merging(out, left, inputs)
    requires k < |left| && left[k] != [] && NothingBefore(left, left[k][0].time)
    ensures Merging(out + [Tagged(k, left[k][0])], left[k := left[k][1..]], inputs)
    ensures Total(left[k := left[k][1..]]) < Total(left)
  {
    PartitionStep(out, left, inputs, k);
    if AllSorted(inputs) {
      InOrderStep(out, left, inputs, k);
    }
    TotalUpdate(left, k, left[k][1..]);
  }

  /** Peek, emit, pop, until nothing more is offered: the reader goroutine of writeLogStream. */
  method Drain(m: MergedStream) returns (out: seq<Tagged>)
    requires m.Valid() && m.rest == Entries(m.inputs)
    modifies m
    ensures m.Valid() && Merging(out, m.rest, m.inputs)
    ensures if m.l == [] then Total(m.rest) == 0 else Stuck(m.rest, m.l)
  {
    out := [];
    MergingStart(m.inputs);
    while true
      invariant m.Valid() && Merging(out, m.rest, m.inputs)
      decreases Total(m.rest)
    {
      var ok, t := m.Peek();
      if !ok {
        return;
      }
      MergingStep(out, m.rest, m.inputs, t.file);
      out := out + [t];
      var _, _ := m.Pop();
    }
  }

  /** When nothing more is offered: a failure is reported exactly if some stream fails, else nothing is missing. */
  lemma MergeEnds(inputs: seq<Input>, rest: Rest, l: seq<nat>, out: seq<Tagged>)
    requires ValidState(inputs, rest, l) && Partition(out, rest, inputs)
    requires forall k | 0 <= k < |inputs| :: inputs[k].fails ==> inputs[k].entries != []
    requires l == [] || Stuck(rest, l)
    ensures l != [] <==> exists k | 0 <= k < |inputs| :: inputs[k].fails
    ensures l == [] ==> Interleaves(out, Entries(inputs))
    ensures l != [] ==> inputs[l[0]].fails && From(out, l[0]) == inputs[l[0]].entries
  {
    if l == [] {
      NothingLeft(rest);
      Complete(out, rest, inputs);
    } else {
      assert From(out, l[0]) + rest[l[0]] == inputs[l[0]].entries;
    }
  }

  /**
  The whole merge of a list of streams, each delivering `entries` and then its end.  A stream that fails
  before its first entry stops it at once; `left` is what was never emitted.
  */
  method MergeAll(inputs: seq<Input>) returns (out: seq<Tagged>, failed: bool, ghost left: Rest)
    ensures Merging(out, left, inputs)
    ensures failed <==> exists k | 0 <= k < |inputs| :: inputs[k].fails
    ensures !failed ==> Interleaves(out, Entries(inputs))
    ensures failed ==> exists k | 0 <= k < |inputs| :: inputs[k].fails && From(out, k) == inputs[k].entries
  {
    MergingStart(inputs);
    for i := 0 to |inputs|
      invariant forall k | 0 <= k < i :: inputs[k].fails ==> inputs[k].entries != []
    {
      if inputs[i].entries == [] && inputs[i].fails {
        return [], true, Entries(inputs);
      }
    }
    var m := new MergedStream(inputs);
    out := Drain(m);
    left := m.rest;
    failed := m.l != [];
    MergeEnds(inputs, m.rest, m.l, out);
  }
}
