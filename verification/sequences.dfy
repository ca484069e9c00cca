/**
 * The LINQ operators the services apply to their tables: `Where`,
 * `OrderBy`/`OrderByDescending` on an integer key, `Skip`/`Take`, and the
 * index of the first element that fails a check.
 */
module Sequences {
  import opened Wrappers

  /** `Where(p)`: the elements satisfying `p`, in their original order. */
  function Filter<T(==,!new)>(s: seq<T>, p: T -> bool): (r: seq<T>)
    ensures |r| <= |s|
    ensures forall i :: 0 <= i < |r| ==> p(r[i])
    ensures forall x :: multiset(r)[x] == if p(x) then multiset(s)[x] else 0
    decreases |s|
  {
    if |s| == 0 then []
    else
      var rest := Filter(s[1..], p);
      assert s == [s[0]] + s[1..];
      if p(s[0]) then [s[0]] + rest else rest
  }

  lemma {:induction false} FilterAppend<T(!new)>(a: seq<T>, b: seq<T>, p: T -> bool)
    ensures Filter(a + b, p) == Filter(a, p) + Filter(b, p)
    decreases |a|
  {
    if |a| == 0 {
      assert a + b == b;
    } else {
      assert (a + b)[1..] == a[1..] + b;
      FilterAppend(a[1..], b, p);
    }
  }

  /** Elements that no element satisfies filter to nothing. */
  lemma FilterNone<T(!new)>(s: seq<T>, p: T -> bool)
    requires forall i :: 0 <= i < |s| ==> !p(s[i])
    ensures Filter(s, p) == []
  {
  }

  /** `x` comes no later than `y` in the requested order of `key`. */
  predicate Precedes<T>(x: T, y: T, key: T -> int, descending: bool) {
    if descending then key(x) >= key(y) else key(x) <= key(y)
  }

  predicate SortedBy<T>(s: seq<T>, key: T -> int, descending: bool) {
    forall i, j :: 0 <= i < j < |s| ==> Precedes(s[i], s[j], key, descending)
  }

  function InsertBy<T(==)>(x: T, s: seq<T>, key: T -> int, descending: bool): (r: seq<T>)
    requires SortedBy(s, key, descending)
    ensures SortedBy(r, key, descending)
    ensures multiset(r) == multiset(s) + multiset{x}
    ensures |r| == |s| + 1
    ensures |r| > 0 && (r[0] == x || (|s| > 0 && r[0] == s[0]))
    decreases |s|
  {
    if |s| == 0 then [x]
    else if Precedes(x, s[0], key, descending) then
      PrependSorted(x, s, key, descending);
      [x] + s
    else
      var rest := InsertBy(x, s[1..], key, descending);
      assert s == [s[0]] + s[1..];
      PrecedesInserted(x, s, rest, key, descending);
      PrependSorted(s[0], rest, key, descending);
      [s[0]] + rest
  }

  /** An element that precedes the head of a sorted sequence can go in front of it. */
  lemma PrependSorted<T>(x: T, s: seq<T>, key: T -> int, descending: bool)
    requires SortedBy(s, key, descending)
    requires |s| == 0 || Precedes(x, s[0], key, descending)
    ensures SortedBy([x] + s, key, descending)
  {
    var r := [x] + s;
    forall i, j | 0 <= i < j < |r| ensures Precedes(r[i], r[j], key, descending) {
      if i == 0 && j > 1 {
        assert Precedes(s[0], s[j - 1], key, descending);
      }
    }
  }

  /** The head of a sorted sequence precedes everything of its tail with `x` inserted, when `x` does not precede it. */
  lemma PrecedesInserted<T>(x: T, s: seq<T>, rest: seq<T>, key: T -> int, descending: bool)
    requires SortedBy(s, key, descending) && |s| > 0 && !Precedes(x, s[0], key, descending)
    requires multiset(rest) == multiset(s[1..]) + multiset{x} && |rest| > 0
    requires rest[0] == x || (|s| > 1 && rest[0] == s[1])
    ensures Precedes(s[0], rest[0], key, descending)
  {
    if rest[0] != x {
      assert Precedes(s[0], s[1], key, descending);
    }
  }

  /** `OrderBy(key)` (ascending) or `OrderByDescending(key)`: a sorted permutation. */
  function SortBy<T(==)>(s: seq<T>, key: T -> int, descending: bool): (r: seq<T>)
    ensures SortedBy(r, key, descending)
    ensures multiset(r) == multiset(s)
    ensures |r| == |s|
    decreases |s|
  {
    if |s| == 0 then []
    else
      assert s == [s[0]] + s[1..];
      InsertBy(s[0], SortBy(s[1..], key, descending), key, descending)
  }

  /** No element of a sorted sequence comes after its last one. */
  lemma SortedLastIsExtreme<T>(s: seq<T>, key: T -> int, descending: bool, x: T)
    requires SortedBy(s, key, descending) && |s| > 0 && x in multiset(s)
    ensures Precedes(x, s[|s| - 1], key, descending)
  {
    var i :| 0 <= i < |s| && s[i] == x;
    if i < |s| - 1 {
      assert Precedes(s[i], s[|s| - 1], key, descending);
    }
  }

  /** The head of a sorted sequence is an extreme element of the whole sequence. */
  lemma SortedHeadIsExtreme<T>(s: seq<T>, key: T -> int, descending: bool, x: T)
    requires SortedBy(s, key, descending) && |s| > 0 && x in multiset(s)
    ensures Precedes(s[0], x, key, descending)
  {
    var i :| 0 <= i < |s| && s[i] == x;
    if i > 0 {
      assert Precedes(s[0], s[i], key, descending);
    }
  }

  function Min(a: int, b: int): int {
    if a <= b then a else b
  }

  /** `Skip(skip).Take(take)`. */
  function Window<T>(s: seq<T>, skip: nat, take: nat): (r: seq<T>)
    ensures |r| == if skip >= |s| then 0 else Min(take, |s| - skip)
    ensures forall i :: 0 <= i < |r| ==> r[i] == s[skip + i]
  {
    if skip >= |s| then [] else s[skip..skip + Min(take, |s| - skip)]
  }

  /** A window of a sorted sequence is sorted and holds elements of the sequence only. */
  lemma WindowOfSorted<T>(s: seq<T>, skip: nat, take: nat, key: T -> int, descending: bool)
    requires SortedBy(s, key, descending)
    ensures SortedBy(Window(s, skip, take), key, descending)
    ensures forall i :: 0 <= i < |Window(s, skip, take)| ==> Window(s, skip, take)[i] in s
  {
    var w := Window(s, skip, take);
    forall a, b | 0 <= a < b < |w| ensures Precedes(w[a], w[b], key, descending) {
      assert w[a] == s[skip + a] && w[b] == s[skip + b];
    }
  }

  /** Two adjacent windows read the same elements as one window spanning both. */
  lemma WindowsAdjacent<T>(s: seq<T>, skip: nat, a: nat, b: nat)
    ensures Window(s, skip, a) + Window(s, skip + a, b) == Window(s, skip, a + b)
  {
    var w1, w2, w := Window(s, skip, a), Window(s, skip + a, b), Window(s, skip, a + b);
    if skip + a < |s| {
      assert |w1| == a;
    }
    assert |w1 + w2| == |w|;
    forall i | 0 <= i < |w| ensures (w1 + w2)[i] == w[i] {
      if i >= |w1| {
        assert (w1 + w2)[i] == w2[i - |w1|];
      }
    }
  }

  /**
   * The index of the first element for which `errors` reports something,
   * as a loop that stops at the first failing item.
   */
  function FirstFailing<T, E>(s: seq<T>, errors: T -> seq<E>): (r: Option<nat>)
    ensures r.None? <==> forall i :: 0 <= i < |s| ==> errors(s[i]) == []
    ensures r.Some? ==> r.value < |s| && errors(s[r.value]) != []
                        && forall j :: 0 <= j < r.value ==> errors(s[j]) == []
    decreases |s|
  {
    if |s| == 0 then None
    else if errors(s[0]) != [] then Some(0)
    else
      match FirstFailing(s[1..], errors)
      case None => None
      case Some(k) => Some(k + 1)
  }
}
