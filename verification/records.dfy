/**
 The decoded tag listing of a registry repository, and the two collection
 utilities the resolver applies to it: a property-match filter (pydash's
 `filter_` with a `{key: value}` shorthand) and a property map (pydash's
 `map_` with a key name).
 */
module Records {
  import opened Results

  /** One element of the registry's tag listing. */
  datatype TagRecord = TagRecord(name: string, digest: string)

  /** The record properties a match-shorthand filter can compare on. */
  datatype Field = Name | Digest

  function Get(r: TagRecord, f: Field): string {
    match f
    case Name => r.name
    case Digest => r.digest
  }

  /**
   The records of `xs` whose property `f` equals `v`, in listing order;
   every kept record matches (`FilterCounts` gives the converse).
   */
  function Filter(xs: seq<TagRecord>, f: Field, v: string): (r: seq<TagRecord>)
    ensures |r| <= |xs|
    ensures forall i :: 0 <= i < |r| ==> Get(r[i], f) == v
  {
    if |xs| == 0 then []
    else if Get(xs[0], f) == v then [xs[0]] + Filter(xs[1..], f, v)
      else Filter(xs[1..], f, v)
  }

  /**
   Filtering keeps each matching record exactly as often as the listing
   holds it, and drops every other record.
   */
  lemma {:induction false} FilterCounts(xs: seq<TagRecord>, f: Field, v: string)
    ensures forall x :: multiset(Filter(xs, f, v))[x] == if Get(x, f) == v then multiset(xs)[x] else 0
  {
    if |xs| > 0 {
      FilterCounts(xs[1..], f, v);
      assert xs == [xs[0]] + xs[1..];
    }
  }

  /** The `name` property of every record, position by position. */
  function MapNames(xs: seq<TagRecord>): (r: seq<string>)
    ensures |r| == |xs|
    ensures forall i :: 0 <= i < |xs| ==> r[i] == xs[i].name
  {
    if |xs| == 0 then [] else [xs[0].name] + MapNames(xs[1..])
  }

  /**
   The position of the first record named `n`, if any: it is named `n`
   and no earlier record is.
   */
  function FirstNamed(xs: seq<TagRecord>, n: string): (k: Option<nat>)
    ensures k.Some? <==> exists i :: 0 <= i < |xs| && xs[i].name == n
    ensures k.Some? ==> k.value < |xs| && xs[k.value].name == n
    ensures k.Some? ==> forall j :: 0 <= j < k.value ==> xs[j].name != n
  {
    if |xs| == 0 then None
    else if xs[0].name == n then Some(0)
    else match FirstNamed(xs[1..], n)
      case None => None
      case Some(j) => Some(j + 1)
  }

  /** `a` can be obtained from `b` by deleting elements: relative order is kept. */
  ghost predicate IsSubsequence<T>(a: seq<T>, b: seq<T>)
    decreases |b|
  {
    |a| == 0 ||
    (|b| > 0 && ((a[0] == b[0] && IsSubsequence(a[1..], b[1..])) || IsSubsequence(a, b[1..])))
  }

  /** Filtering never re-orders: the result is a subsequence of the listing. */
  lemma {:induction false} FilterIsSubsequence(xs: seq<TagRecord>, f: Field, v: string)
    ensures IsSubsequence(Filter(xs, f, v), xs)
  {
    if |xs| > 0 {
      FilterIsSubsequence(xs[1..], f, v);
      var r := Filter(xs, f, v);
      if Get(xs[0], f) == v {
        assert r[0] == xs[0] && r[1..] == Filter(xs[1..], f, v);
      } else {
        assert r == Filter(xs[1..], f, v);
        SkipKeepsSubsequence(r, xs);
      }
    }
  }

  /** A subsequence of the tail is a subsequence of the whole. */
  lemma SkipKeepsSubsequence<T>(a: seq<T>, b: seq<T>)
    requires |b| > 0 && IsSubsequence(a, b[1..])
    ensures IsSubsequence(a, b)
  {
  }

  /** Projecting names keeps the subsequence relation between two record sequences. */
  lemma {:induction false} MapNamesKeepsSubsequence(a: seq<TagRecord>, b: seq<TagRecord>)
    requires IsSubsequence(a, b)
    ensures IsSubsequence(MapNames(a), MapNames(b))
    decreases |b|
  {
    if |a| > 0 {
      var na, nb := MapNames(a), MapNames(b);
      assert nb[1..] == MapNames(b[1..]);
      if a[0] == b[0] && IsSubsequence(a[1..], b[1..]) {
        MapNamesKeepsSubsequence(a[1..], b[1..]);
        assert na[1..] == MapNames(a[1..]);
      } else {
        MapNamesKeepsSubsequence(a, b[1..]);
      }
    }
  }

  /** Extending the listing by one record extends the filter by that record exactly when it matches. */
  lemma {:induction false} FilterSnoc(xs: seq<TagRecord>, y: TagRecord, f: Field, v: string)
    ensures Filter(xs + [y], f, v) == Filter(xs, f, v) + (if Get(y, f) == v then [y] else [])
  {
    var tail := if Get(y, f) == v then [y] else [];
    if |xs| == 0 {
      assert xs + [y] == [y];
      assert Filter([y], f, v) == tail + Filter([], f, v);
    } else {
      var ys := xs + [y];
      assert ys[0] == xs[0] && ys[1..] == xs[1..] + [y];
      FilterSnoc(xs[1..], y, f, v);
    }
  }

  /** The first record whose name matches is the head of the name filter, and there is one exactly when a record is named `n`. */
  lemma {:induction false} NameFilterHeadIsFirstMatch(xs: seq<TagRecord>, n: string)
    ensures |Filter(xs, Name, n)| > 0 <==> FirstNamed(xs, n).Some?
    ensures FirstNamed(xs, n).Some? ==> Filter(xs, Name, n)[0] == xs[FirstNamed(xs, n).value]
  {
    if |xs| > 0 && xs[0].name != n {
      NameFilterHeadIsFirstMatch(xs[1..], n);
    }
  }
}
