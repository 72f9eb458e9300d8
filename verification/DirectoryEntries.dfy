/** Taking a directory's listing, bounded and in order (crates/kitrove-agent-skills/src/directory_entries.rs:15-54). */
module DirectoryEntries {
  import opened Outcome
  import opened Bytes
  import opened Paths
  import opened Lexicographic

  predicate Distinct<T(==)>(s: seq<T>) {
    forall i, j | 0 <= i < j < |s| :: s[i] != s[j]
  }

  function Elements<T>(s: seq<T>): set<T> {
    set x | x in s
  }

  lemma {:induction false} DistinctSize<T>(s: seq<T>)
    requires Distinct(s)
    ensures |Elements(s)| == |s|
  {
    if s != [] {
      DistinctSize(s[1..]);
      assert Elements(s) == {s[0]} + Elements(s[1..]);
    }
  }

  datatype BoundedEntries<T> = BoundedEntries(entries: seq<T>, overflowed: bool)

  /** The first entry of these that could not be read. */
  predicate FirstError<T, E(==)>(items: seq<Result<T, E>>, i: nat, error: E) {
    i < |items| && items[i].Err? && items[i].error == error && forall j | 0 <= j < i :: items[j].Ok?
  }

  /** Takes at most one entry beyond the allowance; an entry among those that cannot be read ends it. */
  method CollectBoundedEntries<T, E(==)>(items: seq<Result<T, E>>, allowance: nat)
    returns (r: Result<BoundedEntries<T>, E>)
    ensures r.Err? <==> exists i: nat | i < |items| && i <= allowance :: items[i].Err?
    ensures r.Err? ==> exists i: nat | i <= allowance :: FirstError(items, i, r.error)
    ensures r.Ok? ==>
      && (r.value.overflowed <==> |items| > allowance) && |r.value.entries| == Min(|items|, allowance + 1)
      && forall i | 0 <= i < |r.value.entries| :: items[i] == Ok(r.value.entries[i])
  {
    var entries: seq<T> := [];
    while |entries| < allowance + 1 && |entries| < |items|
      invariant |entries| <= allowance + 1 && |entries| <= |items|
      invariant forall i | 0 <= i < |entries| :: items[i] == Ok(entries[i])
      decreases |items| - |entries|
    {
      if items[|entries|].Err? {
        assert FirstError(items, |entries|, items[|entries|].error);
        return Err(items[|entries|].error);
      }
      entries := entries + [items[|entries|].value];
    }
    return Ok(BoundedEntries(entries, |entries| > allowance));
  }

  /** A listing all of whose entries can be read. */
  function Listed<T, E>(names: seq<T>): (items: seq<Result<T, E>>)
    ensures |items| == |names| && forall i | 0 <= i < |names| :: items[i] == Ok(names[i])
  {
    seq(|names|, i requires 0 <= i < |names| => Ok(names[i]))
  }

  /** The whole listing in byte order, or nothing when it exceeds the allowance, or the first error met. */
  method CollectBoundedSorted<E(==)>(items: seq<Result<Name, E>>, allowance: nat)
    returns (r: Result<Option<seq<Name>>, E>)
    requires forall i, j | 0 <= i < j < |items| && items[i].Ok? && items[j].Ok? :: items[i].value != items[j].value
    ensures r.Err? <==> exists i: nat | i < |items| && i <= allowance :: items[i].Err?
    ensures r.Err? ==> exists i: nat | i <= allowance :: FirstError(items, i, r.error)
    ensures r.Ok? && |items| > allowance ==> r.value == None
    ensures r.Ok? && |items| <= allowance ==>
              r.value == Some(Sorted(set i | 0 <= i < |items| && items[i].Ok? :: items[i].value))
  {
    var bounded :- CollectBoundedEntries(items, allowance);
    if bounded.overflowed {
      return Ok(None);
    }
    assert Elements(bounded.entries) == set i | 0 <= i < |items| && items[i].Ok? :: items[i].value;
    return Ok(Some(Sorted(Elements(bounded.entries))));
  }

  /** Collecting from a listing all of whose entries can be read. */
  method CollectNames(names: seq<Name>, allowance: nat) returns (r: Option<seq<Name>>)
    requires Distinct(names)
    ensures r == if |names| > allowance then None else Some(Sorted(Elements(names)))
  {
    var items: seq<Result<Name, ()>> := Listed(names);
    assert Elements(names) == set i | 0 <= i < |items| && items[i].Ok? :: items[i].value;
    var collected := CollectBoundedSorted(items, allowance);
    r := collected.value;
  }
}
