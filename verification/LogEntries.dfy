/** Log entries and the orderings every layer of the log merger speaks about. */
module LogEntries {

  import opened Common

  /** A decoded log entry: its timestamp in nanoseconds and everything else it carries. */
  datatype Entry = Entry(time: int, text: Bytes)

  ghost predicate Sorted(es: seq<Entry>) {
    forall i, j | 0 <= i < j < |es| :: es[i].time <= es[j].time
  }

  /** An entry together with the index of the file it came from. */
  datatype Tagged = Tagged(file: nat, entry: Entry)

  ghost predicate SortedTagged(es: seq<Tagged>) {
    forall i, j | 0 <= i < j < |es| :: es[i].entry.time <= es[j].entry.time
  }

  /** What file `k` contributed to a merged sequence, in the order it appears there. */
  ghost function From(es: seq<Tagged>, k: nat): seq<Entry> {
    if es == [] then []
    else From(es[..|es| - 1], k) + (if es[|es| - 1].file == k then [es[|es| - 1].entry] else [])
  }

  lemma FromAppend(es: seq<Tagged>, t: Tagged, k: nat)
    ensures From(es + [t], k) == From(es, k) + (if t.file == k then [t.entry] else [])
  {
    assert (es + [t])[..|es|] == es;
  }

  /** A merge that loses nothing, invents nothing, and keeps each file's own order. */
  ghost predicate Interleaves(es: seq<Tagged>, parts: seq<seq<Entry>>) {
    && (forall i | 0 <= i < |es| :: es[i].file < |parts|)
    && (forall k | 0 <= k < |parts| :: From(es, k) == parts[k])
  }

  ghost function Total(parts: seq<seq<Entry>>): nat {
    if parts == [] then 0 else |parts[0]| + Total(parts[1..])
  }

  lemma TotalUpdate(parts: seq<seq<Entry>>, k: nat, p: seq<Entry>)
    requires k < |parts|
    ensures Total(parts[k := p]) == Total(parts) - |parts[k]| + |p|
  {
    if k > 0 {
      assert parts[k := p][1..] == parts[1..][k - 1 := p];
      TotalUpdate(parts[1..], k - 1, p);
    }
  }
}
