/** Small definitions shared by the models. */
module Common {

  datatype Option<+T> = None | Some(value: T)

  type Bytes = seq<bv8>

  function Max(a: int, b: int): int { if a < b then b else a }

  lemma AnElement<T>(s: set<T>) returns (x: T)
    requires s != {}
    ensures x in s
  {
    x :| x in s;
  }
}
