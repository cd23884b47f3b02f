/**
 The queries the server issues against a document collection, over a collection
 kept as a sequence in insertion (natural) order:
 - `find_one(query)` returns the first matching document  -> FindFirst
 - `find(query).to_list(n)` returns the first n matches     -> Limit(Select(...), n)
 */
module Collection {

  datatype Option<+T> = None | Some(value: T)

  /** The number of documents a `to_list` call fetches at most. */
  const FetchLimit: nat := 1000

  /** Index of the first element satisfying `p`, or None when no element does. */
  function FindFirst<T>(xs: seq<T>, p: T -> bool): (r: Option<nat>)
    ensures r.Some? ==> r.value < |xs| && p(xs[r.value])
    ensures r.Some? ==> forall j :: 0 <= j < r.value ==> !p(xs[j])
    ensures r.None? <==> forall j :: 0 <= j < |xs| ==> !p(xs[j])
  {
    if |xs| == 0 then None
    else if p(xs[0]) then Some(0)
    else match FindFirst(xs[1..], p)
      case None => None
      case Some(i) => Some(i + 1)
  }

  /** The elements satisfying `p`, in their original order: SelectCounts states
      how often each is selected, and SelectAppend the order, since the selection
      grows at its end exactly as the collection does. */
  function Select<T>(xs: seq<T>, p: T -> bool): (r: seq<T>)
    ensures |r| <= |xs|
    ensures forall i :: 0 <= i < |r| ==> r[i] in xs && p(r[i])
    ensures forall j :: 0 <= j < |xs| && p(xs[j]) ==> xs[j] in r
  {
    if |xs| == 0 then []
    else (if p(xs[0]) then [xs[0]] else []) + Select(xs[1..], p)
  }

  /** The first `n` elements, or all of them when there are fewer. */
  function Limit<T>(xs: seq<T>, n: nat): (r: seq<T>)
    ensures |r| == if |xs| <= n then |xs| else n
    ensures r == xs[..|r|]
    ensures multiset(r) <= multiset(xs)
  {
    if |xs| <= n then xs
    else
      assert xs == xs[..n] + xs[n..];
      xs[..n]
  }

  /** Each matching element is selected as often as it occurs, and nothing else is. */
  lemma {:induction false} SelectCounts<T>(xs: seq<T>, p: T -> bool)
    ensures forall x :: multiset(Select(xs, p))[x] == if p(x) then multiset(xs)[x] else 0
  {
    if |xs| > 0 {
      assert xs == [xs[0]] + xs[1..];
      SelectCounts(xs[1..], p);
    }
  }

  /** Replacing the first match by another matching element leaves it the first match. */
  lemma {:induction false} FindFirstAfterUpdate<T>(xs: seq<T>, i: nat, x: T, p: T -> bool)
    requires FindFirst(xs, p) == Some(i) && p(x)
    ensures FindFirst(xs[i := x], p) == Some(i)
  {
    if i > 0 {
      assert xs[i := x][1..] == xs[1..][i - 1 := x];
      FindFirstAfterUpdate(xs[1..], i - 1, x, p);
    }
  }

  /** Appending an element extends the selection by that element exactly when it matches. */
  lemma {:induction false} SelectAppend<T>(xs: seq<T>, x: T, p: T -> bool)
    ensures Select(xs + [x], p) == Select(xs, p) + (if p(x) then [x] else [])
  {
    if |xs| == 0 {
      assert xs + [x] == [x];
    } else {
      assert (xs + [x])[1..] == xs[1..] + [x];
      SelectAppend(xs[1..], x, p);
    }
  }

  /** Nothing is selected when no element matches. */
  lemma {:induction false} SelectNone<T>(xs: seq<T>, p: T -> bool)
    requires forall j :: 0 <= j < |xs| ==> !p(xs[j])
    ensures Select(xs, p) == []
  {
    if |xs| > 0 {
      SelectNone(xs[1..], p);
    }
  }

  /** Limiting a sequence that grows at its end changes the result only while it is short. */
  lemma LimitAppend<T>(xs: seq<T>, ys: seq<T>, n: nat)
    requires |xs| >= n
    ensures Limit(xs + ys, n) == Limit(xs, n)
  {
    assert (xs + ys)[..n] == xs[..n];
  }
}
