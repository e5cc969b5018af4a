/**
 * The LINQ operators the services' queries are built from, as functions on
 * sequences: `Where`, `Count`, `FirstOrDefault`, `Reverse`, and the stable
 * `OrderBy`, with the facts about them that the queries need.
 */
module Seqs {
  import opened Wrappers

  /** `r` is `s` with some elements left out and the rest kept in order. */
  predicate IsSubsequence<T(==)>(r: seq<T>, s: seq<T>)
    decreases |s|
  {
    if r == [] then true
    else if s == [] then false
    else if r[0] == s[0] then IsSubsequence(r[1..], s[1..])
    else IsSubsequence(r, s[1..])
  }

  /** `s.Where(f)`: the elements satisfying `f`, in their original order. */
  function Filter<T>(s: seq<T>, f: T -> bool): (r: seq<T>)
    ensures |r| <= |s|
    ensures forall i :: 0 <= i < |r| ==> f(r[i])
    ensures forall i :: 0 <= i < |r| ==> r[i] in s
    ensures forall i :: 0 <= i < |s| && f(s[i]) ==> s[i] in r
    ensures IsSubsequence(r, s)
  {
    if s == [] then []
    else
      assert s == [s[0]] + s[1..];
      var rest := Filter(s[1..], f);
      if f(s[0]) then [s[0]] + rest
      else
        assert rest != [] ==> rest[0] != s[0];
        rest
  }

  /** `key` strictly increases along `s`. */
  predicate StrictlyIncreasing<T>(s: seq<T>, key: T -> int) {
    forall i, j :: 0 <= i < j < |s| ==> key(s[i]) < key(s[j])
  }

  /** Leaving elements out of a strictly increasing sequence keeps it strictly increasing. */
  lemma {:induction false} SubsequenceIncreasing<T>(r: seq<T>, s: seq<T>, key: T -> int)
    requires IsSubsequence(r, s) && StrictlyIncreasing(s, key)
    ensures StrictlyIncreasing(r, key)
    decreases |s|
  {
    if r != [] {
      assert StrictlyIncreasing(s[1..], key) by {
        forall i, j | 0 <= i < j < |s| - 1
          ensures key(s[1..][i]) < key(s[1..][j])
        {
          assert s[1..][i] == s[i + 1] && s[1..][j] == s[j + 1];
        }
      }
      if r[0] == s[0] {
        SubsequenceIncreasing(r[1..], s[1..], key);
        SubsequenceMembers(r[1..], s[1..]);
        forall j | 0 < j < |r|
          ensures key(r[0]) < key(r[j])
        {
          assert r[j] == r[1..][j - 1];
          var m :| 0 <= m < |s| - 1 && s[1..][m] == r[j];
          assert s[m + 1] == r[j];
        }
      } else {
        SubsequenceIncreasing(r, s[1..], key);
      }
    }
  }

  /** Every element of a subsequence is an element of the sequence. */
  lemma {:induction false} SubsequenceMembers<T>(r: seq<T>, s: seq<T>)
    requires IsSubsequence(r, s)
    ensures forall i :: 0 <= i < |r| ==> r[i] in s
    decreases |s|
  {
    if r != [] {
      if r[0] == s[0] {
        SubsequenceMembers(r[1..], s[1..]);
        forall i | 0 < i < |r|
          ensures r[i] in s
        {
          assert r[i] == r[1..][i - 1];
          assert r[i] in s[1..];
        }
      } else {
        SubsequenceMembers(r, s[1..]);
      }
    }
  }

  /** The elements of `Filter(s, f)` are exactly the elements of `s` satisfying `f`. */
  lemma FilterMembers<T>(s: seq<T>, f: T -> bool)
    ensures forall x :: x in Filter(s, f) <==> x in s && f(x)
  {
  }

  /** Filtering distributes over appending one element. */
  lemma {:induction false} FilterAppend<T>(s: seq<T>, x: T, f: T -> bool)
    ensures Filter(s + [x], f) == Filter(s, f) + (if f(x) then [x] else [])
  {
    if s == [] {
      assert [] + [x] == [x];
    } else {
      assert (s + [x])[1..] == s[1..] + [x];
      FilterAppend(s[1..], x, f);
    }
  }

  /** `s.Count(f)`. */
  function Count<T>(s: seq<T>, f: T -> bool): nat {
    |Filter(s, f)|
  }

  /** The positions of `s` whose element satisfies `f`. */
  function Positions<T>(s: seq<T>, f: T -> bool): set<int> {
    set i | 0 <= i < |s| && f(s[i])
  }

  /** Appending `x` adds the new last position exactly when `x` satisfies `f`. */
  lemma PositionsAppend<T>(t: seq<T>, x: T, f: T -> bool)
    ensures |t| !in Positions(t, f)
    ensures Positions(t + [x], f) == Positions(t, f) + (if f(x) then {|t|} else {})
  {
    var s := t + [x];
    forall i
      ensures i in Positions(s, f) <==> i in Positions(t, f) + (if f(x) then {|t|} else {})
    {
      if 0 <= i < |t| {
        assert s[i] == t[i];
      }
    }
  }

  /** `Count` is the number of positions whose element satisfies `f`. */
  lemma {:induction false} CountPositions<T>(s: seq<T>, f: T -> bool)
    ensures Count(s, f) == |Positions(s, f)|
  {
    if s == [] {
      assert Positions(s, f) == {};
    } else {
      var t, x := s[..|s| - 1], s[|s| - 1];
      assert s == t + [x];
      FilterAppend(t, x, f);
      CountPositions(t, f);
      PositionsAppend(t, x, f);
    }
  }

  /** No element satisfying `f` leaves nothing to filter. */
  lemma FilterNone<T>(s: seq<T>, f: T -> bool)
    requires forall i :: 0 <= i < |s| ==> !f(s[i])
    ensures Filter(s, f) == []
  {
  }

  /** Counting two predicates that never hold together counts each element at most once. */
  lemma {:induction false} CountDisjoint<T>(s: seq<T>, f: T -> bool, g: T -> bool)
    requires forall x :: !(f(x) && g(x))
    ensures Count(s, f) + Count(s, g) <= |s|
  {
    if s != [] {
      CountDisjoint(s[1..], f, g);
    }
  }

  /** `s.FirstOrDefault(f)`, as the index of the first element satisfying `f`. */
  function FirstIndex<T>(s: seq<T>, f: T -> bool): (r: Option<nat>)
    ensures r.Some? ==> r.value < |s| && f(s[r.value])
    ensures r.Some? ==> forall j :: 0 <= j < r.value ==> !f(s[j])
    ensures r.None? <==> forall j :: 0 <= j < |s| ==> !f(s[j])
  {
    if s == [] then None
    else if f(s[0]) then Some(0)
    else match FirstIndex(s[1..], f)
      case None => None
      case Some(k) => Some(k + 1)
  }

  /** `s.Reverse()`. */
  function Reverse<T>(s: seq<T>): (r: seq<T>)
    ensures |r| == |s|
    ensures forall i :: 0 <= i < |s| ==> r[i] == s[|s| - 1 - i]
  {
    if s == [] then [] else Reverse(s[1..]) + [s[0]]
  }

  lemma ReverseMembers<T>(s: seq<T>)
    ensures forall x :: x in Reverse(s) <==> x in s
  {
    var r := Reverse(s);
    forall x | x in s
      ensures x in r
    {
      var k :| 0 <= k < |s| && s[k] == x;
      assert r[|s| - 1 - k] == x;
    }
  }

  /** `le` is a total preorder: the shape of key comparison `OrderBy` needs. */
  ghost predicate TotalPreorder<T(!new)>(le: (T, T) -> bool) {
    && (forall a, b :: le(a, b) || le(b, a))
    && (forall a, b, c :: le(a, b) && le(b, c) ==> le(a, c))
  }

  /** `s` is in ascending order under `le`. */
  predicate SortedBy<T>(s: seq<T>, le: (T, T) -> bool) {
    forall i, j :: 0 <= i < j < |s| ==> le(s[i], s[j])
  }

  /** Puts `x` before the first element it does not come after; ties with later elements keep `x` first. */
  function InsertBy<T>(x: T, s: seq<T>, le: (T, T) -> bool): (r: seq<T>)
    ensures multiset(r) == multiset(s) + multiset{x}
  {
    if s == [] then [x]
    else if le(x, s[0]) then [x] + s
    else
      assert s == [s[0]] + s[1..];
      [s[0]] + InsertBy(x, s[1..], le)
  }

  /** `OrderBy`: insertion sort, which (like LINQ's) keeps tied elements in their original order. */
  function SortBy<T>(s: seq<T>, le: (T, T) -> bool): (r: seq<T>)
    ensures multiset(r) == multiset(s)
  {
    if s == [] then []
    else
      assert s == [s[0]] + s[1..];
      InsertBy(s[0], SortBy(s[1..], le), le)
  }

  lemma {:induction false} InsertBySorted<T(!new)>(x: T, s: seq<T>, le: (T, T) -> bool)
    requires TotalPreorder(le) && SortedBy(s, le)
    ensures SortedBy(InsertBy(x, s, le), le)
    decreases |s|
  {
    if s != [] && !le(x, s[0]) {
      InsertBySorted(x, s[1..], le);
      var r := InsertBy(x, s[1..], le);
      forall y | y in r
        ensures le(s[0], y)
      {
        assert y in multiset(r);
        if y != x {
          assert y in multiset(s[1..]);
          var k :| 0 < k < |s| && s[k] == y by {
            assert y in s[1..];
          }
        }
      }
      var full := [s[0]] + r;
      forall i, j | 0 <= i < j < |full|
        ensures le(full[i], full[j])
      {
        if i > 0 {
          assert full[i] == r[i - 1] && full[j] == r[j - 1];
        } else {
          assert full[j] == r[j - 1] && full[j] in r;
        }
      }
    }
  }

  /** `SortBy` returns its input reordered ascending. */
  lemma {:induction false} SortBySorted<T(!new)>(s: seq<T>, le: (T, T) -> bool)
    requires TotalPreorder(le)
    ensures SortedBy(SortBy(s, le), le)
  {
    if s != [] {
      SortBySorted(s[1..], le);
      InsertBySorted(s[0], SortBy(s[1..], le), le);
    }
  }
}
