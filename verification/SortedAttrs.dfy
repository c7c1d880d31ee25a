/**
Splitting and joining on a separator, the byte order of strings, and the attribute list of a store
spec, which is collected in a map and then sorted.
*/
module SortedAttrs {

  import opened Common

  // ---- strings.Split and its inverse ----

  function Split(s: string, c: char): (r: seq<string>)
    ensures r != []
  {
    if s == "" then [""]
    else
      var r := Split(s[1..], c);
      if s[0] == c then [""] + r else [[s[0]] + r[0]] + r[1..]
  }

  function Join(l: seq<string>, c: char): string
    requires l != []
  {
    if |l| == 1 then l[0] else l[0] + [c] + Join(l[1..], c)
  }

  predicate Free(l: seq<string>, c: char) { forall x | x in l :: c !in x }

  lemma {:induction false} SplitIsFree(s: string, c: char)
    ensures Free(Split(s, c), c)
  {
    if s != "" {
      SplitIsFree(s[1..], c);
      var r := Split(s[1..], c);
      assert forall x | x in r[1..] :: x in r;
    }
  }

  /** The pieces of a string hold no other characters than the string. */
  lemma {:induction false} SplitHolds(s: string, c: char, d: char)
    requires d !in s
    ensures Free(Split(s, c), d)
  {
    if s != "" {
      SplitHolds(s[1..], c, d);
      var r := Split(s[1..], c);
      assert s[0] in s;
      assert forall x | x in r[1..] :: x in r;
    }
  }

  lemma {:induction false} SplitFront(x: string, s: string, c: char)
    requires c !in x
    ensures Split(x + s, c) == [x + Split(s, c)[0]] + Split(s, c)[1..]
  {
    var r := Split(s, c);
    if x == "" {
      assert x + s == s && x + r[0] == r[0];
      assert r == [r[0]] + r[1..];
    } else {
      SplitFront(x[1..], s, c);
      assert (x + s)[1..] == x[1..] + s;
      assert x[0] in x;
      assert [x[0]] + (x[1..] + r[0]) == x + r[0];
    }
  }

  /** Splitting a joined list gives it back. */
  lemma {:induction false} SplitJoin(l: seq<string>, c: char)
    requires l != [] && Free(l, c)
    ensures Split(Join(l, c), c) == l
  {
    assert l[0] in l;
    if |l| == 1 {
      SplitFront(l[0], "", c);
      assert l[0] + "" == l[0];
    } else {
      assert forall x | x in l[1..] :: x in l;
      SplitJoin(l[1..], c);
      var t := [c] + Join(l[1..], c);
      assert t[1..] == Join(l[1..], c);
      assert Split(t, c) == [""] + l[1..];
      SplitFront(l[0], t, c);
      assert Join(l, c) == l[0] + t;
      assert l[0] + "" == l[0];
    }
  }

  lemma {:induction false} JoinHolds(l: seq<string>, c: char, d: char)
    requires l != [] && Free(l, d) && c != d
    ensures d !in Join(l, c)
  {
    assert l[0] in l;
    if |l| > 1 {
      assert forall x | x in l[1..] :: x in l;
      JoinHolds(l[1..], c, d);
    }
  }

  /** A string that is not empty is split into pieces that do not join to an empty string. */
  lemma JoinNotEmpty(l: seq<string>, c: char)
    requires l != [] && l != [""]
    ensures Join(l, c) != ""
  {
    if |l| == 1 {
      assert l == [l[0]];
    }
  }

  lemma SplitNotEmpty(s: string, c: char)
    requires s != ""
    ensures Split(s, c) != [""]
  {
    var r := Split(s[1..], c);
    if s[0] == c {
      assert |Split(s, c)| >= 2;
    } else {
      assert Split(s, c)[0] == [s[0]] + r[0];
    }
  }

  // ---- the order of strings ----

  predicate Before(a: string, b: string) {
    b != "" && (a == "" || a[0] < b[0] || (a[0] == b[0] && Before(a[1..], b[1..])))
  }

  /** A string comes before those it starts, and otherwise the first differing character decides. */
  lemma {:induction false} BeforeMeans(a: string, b: string)
    ensures Before(a, b) <==> a < b || exists k | 0 <= k < |a| && k < |b| :: a[..k] == b[..k] && a[k] < b[k]
  {
    if a != "" && b != "" {
      BeforeMeans(a[1..], b[1..]);
      if k :| 0 <= k < |a[1..]| && k < |b[1..]| && a[1..][..k] == b[1..][..k] && a[1..][k] < b[1..][k] {
        if a[0] == b[0] {
          assert a[..k + 1] == [a[0]] + a[1..][..k] && b[..k + 1] == [b[0]] + b[1..][..k];
          assert a[k + 1] < b[k + 1];
        }
      }
      if k :| 0 <= k < |a| && k < |b| && a[..k] == b[..k] && a[k] < b[k] {
        FirstDifference(a, b, k);
      }
      if a[0] < b[0] {
        assert a[..0] == b[..0];
      }
      StartsRest(a, b);
    }
  }

  lemma FirstDifference(a: string, b: string, k: nat)
    requires k < |a| && k < |b| && a[..k] == b[..k] && a[k] < b[k]
    ensures a[0] < b[0] || (a[0] == b[0] && exists j | 0 <= j < |a[1..]| && j < |b[1..]| ::
                              a[1..][..j] == b[1..][..j] && a[1..][j] < b[1..][j])
  {
    if k > 0 {
      assert a[0] == a[..k][0] && b[0] == b[..k][0];
      assert a[1..][..k - 1] == a[..k][1..] && b[1..][..k - 1] == b[..k][1..];
      assert a[1..][k - 1] < b[1..][k - 1];
    }
  }

  lemma StartsRest(a: string, b: string)
    requires a != "" && b != ""
    ensures a < b <==> a[0] == b[0] && a[1..] < b[1..]
  {
    assert a == [a[0]] + a[1..] && b == [b[0]] + b[1..];
    if a[0] == b[0] && a[1..] < b[1..] {
      assert b[..|a|] == [b[0]] + b[1..][..|a| - 1];
    }
  }

  lemma {:induction false} BeforeIsStrict(a: string)
    ensures !Before(a, a)
  {
    if a != "" {
      BeforeIsStrict(a[1..]);
    }
  }

  lemma {:induction false} BeforeTransitive(a: string, b: string, c: string)
    requires Before(a, b) && Before(b, c)
    ensures Before(a, c)
  {
    if a != "" && a[0] == b[0] == c[0] {
      BeforeTransitive(a[1..], b[1..], c[1..]);
    }
  }

  lemma {:induction false} BeforeTotal(a: string, b: string)
    ensures Before(a, b) || Before(b, a) || a == b
  {
    if a != "" && b != "" && a[0] == b[0] {
      BeforeTotal(a[1..], b[1..]);
      assert a == [a[0]] + a[1..] && b == [b[0]] + b[1..];
    }
  }

  ghost predicate Sorted(l: seq<string>) {
    l == [] || ((forall x | x in l[1..] :: Before(l[0], x)) && Sorted(l[1..]))
  }

  function Insert(x: string, l: seq<string>): (r: seq<string>)
    ensures forall y :: y in r <==> y == x || y in l
  {
    if l == [] || Before(x, l[0]) then [x] + l
    else
      assert l == [l[0]] + l[1..];
      [l[0]] + Insert(x, l[1..])
  }

  /** sort.Strings */
  function Sort(l: seq<string>): (r: seq<string>)
    ensures forall y :: y in r <==> y in l
  {
    if l == [] then []
    else
      assert l == [l[0]] + l[1..];
      Insert(l[0], Sort(l[1..]))
  }

  lemma {:induction false} InsertSorted(x: string, l: seq<string>)
    requires Sorted(l) && x !in l
    ensures Sorted(Insert(x, l))
  {
    if l == [] {
    } else if Before(x, l[0]) {
      assert ([x] + l)[1..] == l;
      forall y | y in l
        ensures Before(x, y)
      {
        if y != l[0] {
          assert y in l[1..];
          BeforeTransitive(x, l[0], y);
        }
      }
    } else {
      BeforeTotal(x, l[0]);
      InsertSorted(x, l[1..]);
      assert Insert(x, l)[1..] == Insert(x, l[1..]);
    }
  }

  predicate Distinct(l: seq<string>) {
    l == [] || (l[0] !in l[1..] && Distinct(l[1..]))
  }

  lemma {:induction false} SortSorted(l: seq<string>)
    requires Distinct(l)
    ensures Sorted(Sort(l))
  {
    if l != [] {
      SortSorted(l[1..]);
      InsertSorted(l[0], Sort(l[1..]));
    }
  }

  lemma SameHead(a: seq<string>, b: seq<string>)
    requires Sorted(a) && Sorted(b) && a != [] && b != [] && forall x :: x in a <==> x in b
    ensures a[0] == b[0]
  {
    if a[0] != b[0] {
      assert a[0] in b && b[0] in a;
      assert a[0] in b[1..] && b[0] in a[1..];
      BeforeTransitive(a[0], b[0], a[0]);
      BeforeIsStrict(a[0]);
      assert false;
    }
  }

  /** There is one sorted list of a given set of strings. */
  lemma {:induction false} SortedUnique(a: seq<string>, b: seq<string>)
    requires Sorted(a) && Sorted(b) && forall x :: x in a <==> x in b
    ensures a == b
  {
    if a == [] {
      assert forall i | 0 <= i < |b| :: b[i] in a;
    } else {
      assert a[0] in b;
      SameHead(a, b);
      BeforeIsStrict(a[0]);
      forall x
        ensures x in a[1..] <==> x in b[1..]
      {
        assert x in a <==> x == a[0] || x in a[1..];
        assert x in b <==> x == b[0] || x in b[1..];
      }
      SortedUnique(a[1..], b[1..]);
      assert a == [a[0]] + a[1..] && b == [b[0]] + b[1..];
    }
  }

  lemma {:induction false} SortedDistinct(l: seq<string>)
    requires Sorted(l)
    ensures Distinct(l)
  {
    if l != [] {
      SortedDistinct(l[1..]);
      BeforeIsStrict(l[0]);
    }
  }

  /** Sorting again changes nothing. */
  lemma SortTwice(l: seq<string>)
    requires Sorted(l)
    ensures Sort(l) == l
  {
    SortedDistinct(l);
    SortSorted(l);
    SortedUnique(Sort(l), l);
  }

  // ---- the attrs field ----

  /** The attributes of a store: distinct, in order. */
  function AttrsOf(value: string): Option<seq<string>> {
    var parts := Split(value, ':');
    if Distinct(parts) then Some(Sort(parts)) else None
  }

  ghost predicate NoneRepeated(l: seq<string>) {
    forall i, j | 0 <= i < j < |l| :: l[i] != l[j]
  }

  lemma {:induction false} DistinctMeans(l: seq<string>)
    ensures Distinct(l) <==> NoneRepeated(l)
  {
    if l != [] {
      DistinctMeans(l[1..]);
      assert forall i | 0 < i < |l| :: l[i] == l[1..][i - 1];
    }
  }

  /** Attributes are accepted exactly if none is repeated, and then are those named, in order. */
  lemma AttrsMean(value: string)
    ensures var parts := Split(value, ':');
            && (AttrsOf(value).Some? <==> NoneRepeated(parts))
            && (AttrsOf(value).Some? ==>
                  Sorted(AttrsOf(value).value) && forall x :: x in AttrsOf(value).value <==> x in parts)
  {
    DistinctMeans(Split(value, ':'));
    if AttrsOf(value).Some? {
      SortSorted(Split(value, ':'));
    }
  }

  lemma {:induction false} DistinctAppend(l: seq<string>, x: string)
    ensures Distinct(l + [x]) <==> Distinct(l) && x !in l
  {
    if l == [] {
      assert l + [x] == [x];
    } else {
      DistinctAppend(l[1..], x);
      assert (l + [x])[1..] == l[1..] + [x];
      assert l == [l[0]] + l[1..];
    }
  }

  lemma {:induction false} DistinctPrefix(l: seq<string>, k: nat)
    requires k <= |l| && Distinct(l)
    ensures Distinct(l[..k])
    decreases |l| - k
  {
    if k == |l| {
      assert l[..k] == l;
    } else {
      DistinctPrefix(l, k + 1);
      assert l[..k + 1] == l[..k] + [l[k]];
      DistinctAppend(l[..k], l[k]);
    }
  }

  /** The keys of a map in whatever order it is walked. */
  method Keys(attrMap: set<string>) returns (l: seq<string>)
    ensures Distinct(l) && forall x :: x in l <==> x in attrMap
  {
    l := [];
    var todo := attrMap;
    while todo != {}
      invariant Distinct(l) && todo <= attrMap
      invariant forall x :: x in l <==> x in attrMap && x !in todo
      decreases |todo|
    {
      ghost var some := AnElement(todo);
      var x :| x in todo;
      DistinctAppend(l, x);
      l := l + [x];
      todo := todo - {x};
    }
  }

  /** A repeated attribute is refused; otherwise the result does not depend on how the map is walked. */
  method ParseAttrs(value: string) returns (r: Option<seq<string>>)
    ensures r == AttrsOf(value)
  {
    var parts := Split(value, ':');
    var attrMap: set<string> := {};
    for i := 0 to |parts|
      invariant Distinct(parts[..i])
      invariant forall x :: x in attrMap <==> x in parts[..i]
    {
      DistinctAppend(parts[..i], parts[i]);
      assert parts[..i + 1] == parts[..i] + [parts[i]];
      if parts[i] in attrMap {
        if Distinct(parts) {
          DistinctPrefix(parts, i + 1);
        }
        return None;
      }
      attrMap := attrMap + {parts[i]};
    }
    assert parts[..|parts|] == parts;
    var keys := Keys(attrMap);
    SortSorted(keys);
    SortSorted(parts);
    SortedUnique(Sort(keys), Sort(parts));
    r := Some(Sort(keys));
  }
}
