/** Python's `list.remove`, which deletes the first equal element or raises `ValueError`. */
module PyList {
  import opened Results

  /** The message CPython attaches to the `ValueError` of a failed `list.remove`. */
  const RemoveMissing: string := "list.remove(x): x not in list"

  /** The position of the first occurrence of `x` in `xs`. */
  function IndexOf<T(==)>(xs: seq<T>, x: T): (k: nat)
    requires x in xs
    ensures k < |xs| && xs[k] == x
    ensures forall j :: 0 <= j < k ==> xs[j] != x
  {
    if xs[0] == x then 0 else IndexOf(xs[1..], x) + 1
  }

  /**
   `xs.remove(x)` on a copy of `xs`: when `x` occurs, the copy loses its first
   occurrence and nothing else; otherwise the call raises `ValueError`.
   */
  function Remove<T(==)>(xs: seq<T>, x: T): (r: Result<seq<T>>)
    ensures r.Ok? <==> x in xs
    ensures r.Raised? ==> r.message == RemoveMissing
    ensures r.Ok? ==> r.value == xs[..IndexOf(xs, x)] + xs[IndexOf(xs, x) + 1..]
  {
    if |xs| == 0 then Raised(RemoveMissing)
    else if xs[0] == x then Ok(xs[1..])
    else match Remove(xs[1..], x)
      case Ok(rest) =>
        assert xs[..IndexOf(xs, x)] == [xs[0]] + xs[1..][..IndexOf(xs[1..], x)];
        Ok([xs[0]] + rest)
      case Raised(e) => Raised(e)
  }

  /**
   A successful removal shortens the list by one and takes away exactly one
   copy of `x`: the remaining elements, with their multiplicities, are kept.
   */
  lemma {:induction false} RemoveTakesOneCopy<T>(xs: seq<T>, x: T)
    requires x in xs
    ensures |Remove(xs, x).value| == |xs| - 1
    ensures multiset(Remove(xs, x).value) + multiset{x} == multiset(xs)
  {
    assert xs == [xs[0]] + xs[1..];
    if xs[0] != x {
      RemoveTakesOneCopy(xs[1..], x);
      assert Remove(xs, x).value == [xs[0]] + Remove(xs[1..], x).value;
    }
  }

  /** Putting the removed value back gives the same set of elements as before the removal. */
  lemma RemoveKeepsElements<T>(xs: seq<T>, x: T)
    requires x in xs
    ensures forall y :: y in Remove(xs, x).value + [x] <==> y in xs
  {
    RemoveTakesOneCopy(xs, x);
    var both := Remove(xs, x).value + [x];
    assert multiset(both) == multiset(xs);
    forall y
      ensures y in both <==> y in xs
    {
      assert y in both <==> y in multiset(both);
      assert y in xs <==> y in multiset(xs);
    }
  }
}
