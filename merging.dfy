/** Where merge puts a new state in the open list. Each search strategy is
    an insertion position computed from the values already queued. */
module Merging {
  datatype Strategy = Depth | Breadth | Best

  /** s with x inserted before position i. */
  function InsertAt<T>(s: seq<T>, i: int, x: T): (r: seq<T>)
    requires 0 <= i <= |s|
    ensures |r| == |s| + 1 && r[i] == x
  {
    seq(|s| + 1, j requires 0 <= j <= |s| => if j < i then s[j] else if j == i then x else s[j - 1])
  }

  /** The insertion is the prefix before i, the newcomer, then the rest. */
  lemma InsertAtSlices<T>(s: seq<T>, i: int, x: T)
    requires 0 <= i <= |s|
    ensures InsertAt(s, i, x) == s[..i] + [x] + s[i..]
  {
  }

  /** The entries before position i stay where they were, the newcomer is at
      i, and the entries from i on move up by one. */
  lemma InsertAtIndex<T>(s: seq<T>, i: int, x: T)
    requires 0 <= i <= |s|
    ensures forall j :: 0 <= j < i ==> InsertAt(s, i, x)[j] == s[j]
    ensures forall j :: i < j < |s| + 1 ==> InsertAt(s, i, x)[j] == s[j - 1]
  {
  }

  /** Removing the newcomer gives back the old list: the entries already
      queued keep their relative order. */
  lemma InsertKeepsOrder<T>(s: seq<T>, i: int, x: T)
    requires 0 <= i <= |s|
    ensures InsertAt(s, i, x)[..i] + InsertAt(s, i, x)[i + 1..] == s
  {
    var r := InsertAt(s, i, x);
    InsertAtSlices(s, i, x);
    assert r[..i] == s[..i];
    assert r[i + 1..] == s[i..];
    assert s == s[..i] + s[i..];
  }

  /** The insertion adds exactly the newcomer to the list's contents. */
  lemma InsertAtMultiset<T>(s: seq<T>, i: int, x: T)
    requires 0 <= i <= |s|
    ensures multiset(InsertAt(s, i, x)) == multiset(s) + multiset{x}
  {
    InsertAtSlices(s, i, x);
    assert s == s[..i] + s[i..];
  }

  /** The insertion holds the old entries and the newcomer, and nothing else. */
  lemma InsertAtMembers<T>(s: seq<T>, i: int, x: T)
    requires 0 <= i <= |s|
    ensures forall z :: z in InsertAt(s, i, x) <==> z in s || z == x
  {
    InsertAtMultiset(s, i, x);
    assert forall z :: z in InsertAt(s, i, x) <==> z in multiset(InsertAt(s, i, x));
    assert forall z :: z in s <==> z in multiset(s);
  }

  predicate NonIncreasing(vals: seq<int>) {
    forall i, j :: 0 <= i < j < |vals| ==> vals[i] >= vals[j]
  }

  /** Taking the front off a non-increasing list leaves it non-increasing. */
  lemma NonIncreasingTail(vals: seq<int>)
    requires vals != [] && NonIncreasing(vals)
    ensures NonIncreasing(vals[1..])
  {
    forall i, j | 0 <= i < j < |vals| - 1 ensures vals[1..][i] >= vals[1..][j] {
      assert vals[1..][i] == vals[i + 1] && vals[1..][j] == vals[j + 1];
    }
  }

  /** Best-first: before the first queued value that v is at least, so a
      newcomer goes ahead of equal values; at the end when there is none. */
  function BestPosition(vals: seq<int>, v: int): (i: int)
    ensures 0 <= i <= |vals|
  {
    BestFrom(vals, v, 0)
  }

  /** The scan behind BestPosition, from index k on. */
  function BestFrom(vals: seq<int>, v: int, k: int): (i: int)
    requires 0 <= k <= |vals|
    ensures k <= i <= |vals|
    decreases |vals| - k
  {
    if k == |vals| || v >= vals[k] then k else BestFrom(vals, v, k + 1)
  }

  /** Every value before the best-first position is larger than v, and the
      value there, if any, is not. */
  lemma {:induction false} BestPositionMeaning(vals: seq<int>, v: int)
    ensures forall j :: 0 <= j < BestPosition(vals, v) ==> vals[j] > v
    ensures BestPosition(vals, v) < |vals| ==> vals[BestPosition(vals, v)] <= v
  {
    BestFromMeaning(vals, v, 0);
  }

  lemma {:induction false} BestFromMeaning(vals: seq<int>, v: int, k: int)
    requires 0 <= k <= |vals|
    ensures forall j :: k <= j < BestFrom(vals, v, k) ==> vals[j] > v
    ensures BestFrom(vals, v, k) < |vals| ==> vals[BestFrom(vals, v, k)] <= v
    decreases |vals| - k
  {
    if !(k == |vals| || v >= vals[k]) {
      BestFromMeaning(vals, v, k + 1);
    }
  }

  /** The position of merge: the front for depth-first, the back for
      breadth-first, the best-first position otherwise. */
  function Position(strategy: Strategy, vals: seq<int>, v: int): (i: int)
    ensures 0 <= i <= |vals|
    ensures strategy == Best ==> i == BestPosition(vals, v)
  {
    match strategy
    case Depth => 0
    case Breadth => |vals|
    case Best => BestPosition(vals, v)
  }

  /** Depth-first pushes on the front, breadth-first on the back. */
  lemma DepthAndBreadth<T>(s: seq<T>, vals: seq<int>, v: int, x: T)
    requires |vals| == |s|
    ensures InsertAt(s, Position(Depth, vals, v), x) == [x] + s
    ensures InsertAt(s, Position(Breadth, vals, v), x) == s + [x]
  {
    assert s[..0] == [] && s[0..] == s;
    assert s[..|s|] == s && s[|s|..] == [];
  }

  /** The best-first position is the only index where every earlier value is
      larger and the value there, if any, is not. */
  lemma BestPositionUnique(vals: seq<int>, v: int, i: int)
    requires 0 <= i <= |vals|
    requires forall j :: 0 <= j < i ==> vals[j] > v
    requires i < |vals| ==> vals[i] <= v
    ensures i == BestPosition(vals, v)
  {
    BestFromUnique(vals, v, i, 0);
  }

  lemma {:induction false} BestFromUnique(vals: seq<int>, v: int, i: int, k: int)
    requires 0 <= k <= i <= |vals|
    requires forall j :: k <= j < i ==> vals[j] > v
    requires i < |vals| ==> vals[i] <= v
    ensures i == BestFrom(vals, v, k)
    decreases |vals| - k
  {
    if k < i {
      BestFromUnique(vals, v, i, k + 1);
    }
  }

  /** Best-first insertion keeps a non-increasing list non-increasing. */
  lemma BestKeepsSorted(vals: seq<int>, v: int)
    requires NonIncreasing(vals)
    ensures NonIncreasing(InsertAt(vals, BestPosition(vals, v), v))
  {
    var i := BestPosition(vals, v);
    var r := InsertAt(vals, i, v);
    BestPositionMeaning(vals, v);
    InsertAtIndex(vals, i, v);
    forall a, b | 0 <= a < b < |r| ensures r[a] >= r[b] {
      if b == i {
        assert r[a] == vals[a] > v;
      } else if a == i {
        assert r[b] == vals[b - 1] <= vals[i];
      } else if b < i {
        assert r[a] == vals[a] && r[b] == vals[b];
      } else if a > i {
        assert r[a] == vals[a - 1] && r[b] == vals[b - 1];
      } else {
        assert r[a] == vals[a] && r[b] == vals[b - 1];
      }
    }
  }
}
