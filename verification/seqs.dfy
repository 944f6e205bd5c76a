/**
 * Sequence operations the components use: `Array.prototype.filter`, and the
 * "group into an object literal by key" reduce that both the catalog page and
 * the navigation menu perform.
 *
 * A JavaScript object built by assigning fresh string keys enumerates them in
 * insertion order, so a grouping is modelled as a sequence of `Group`s in the
 * order in which their keys were first met.
 */
module Seqs {

  import Js

  /** `s.filter(f)`: the elements satisfying `f`, in their original order. */
  function Filter<T(==,!new)>(s: seq<T>, f: T -> bool): (r: seq<T>)
    ensures |r| <= |s|
    decreases |s|
  {
    if |s| == 0 then []
    else
      var init, last := s[..|s| - 1], s[|s| - 1];
      assert s == init + [last];
      Filter(init, f) + (if f(last) then [last] else [])
  }

  /** The filter keeps exactly the elements that pass. */
  lemma {:induction false} FilterMembers<T(!new)>(s: seq<T>, f: T -> bool)
    ensures forall x :: x in Filter(s, f) <==> x in s && f(x)
    decreases |s|
  {
    if |s| > 0 {
      var init, last := s[..|s| - 1], s[|s| - 1];
      assert s == init + [last];
      FilterMembers(init, f);
    }
  }

  /** Filtering one more element at the end only looks at that element. */
  lemma FilterSnoc<T(!new)>(s: seq<T>, x: T, f: T -> bool)
    ensures Filter(s + [x], f) == Filter(s, f) + (if f(x) then [x] else [])
  {
    assert (s + [x])[..|s|] == s;
  }

  /** Filter distributes over concatenation, so it never reorders. */
  lemma {:induction false} FilterAppend<T(!new)>(a: seq<T>, b: seq<T>, f: T -> bool)
    ensures Filter(a + b, f) == Filter(a, f) + Filter(b, f)
    decreases |b|
  {
    if |b| == 0 {
      assert a + b == a;
    } else {
      var init, last := b[..|b| - 1], b[|b| - 1];
      assert b == init + [last];
      assert a + b == (a + init) + [last];
      FilterAppend(a, init, f);
      FilterSnoc(a + init, last, f);
      FilterSnoc(init, last, f);
      calc {
        Filter(a + b, f);
        Filter(a + init, f) + (if f(last) then [last] else []);
        (Filter(a, f) + Filter(init, f)) + (if f(last) then [last] else []);
        Filter(a, f) + (Filter(init, f) + (if f(last) then [last] else []));
        Filter(a, f) + Filter(b, f);
      }
    }
  }

  /** A filter that every element passes keeps the whole sequence. */
  lemma {:induction false} FilterAll<T(!new)>(s: seq<T>, f: T -> bool)
    requires forall i :: 0 <= i < |s| ==> f(s[i])
    ensures Filter(s, f) == s
    decreases |s|
  {
    if |s| > 0 {
      var init, last := s[..|s| - 1], s[|s| - 1];
      assert s == init + [last];
      FilterAll(init, f);
    }
  }

  /** A filter that no element passes yields the empty sequence. */
  lemma FilterNone<T(!new)>(s: seq<T>, f: T -> bool)
    requires forall i :: 0 <= i < |s| ==> !f(s[i])
    ensures Filter(s, f) == []
  {
    var r := Filter(s, f);
    FilterMembers(s, f);
    assert forall x :: x in s ==> !f(x);
  }

  /** A filter that exactly one position passes yields just that element. */
  lemma {:induction false} FilterSingle<T(!new)>(s: seq<T>, k: nat, f: T -> bool)
    requires k < |s| && f(s[k])
    requires forall i :: 0 <= i < |s| && i != k ==> !f(s[i])
    ensures Filter(s, f) == [s[k]]
    decreases |s|
  {
    var init, last := s[..|s| - 1], s[|s| - 1];
    assert s == init + [last];
    FilterSnoc(init, last, f);
    if k == |s| - 1 {
      assert forall i :: 0 <= i < |init| ==> init[i] == s[i];
      FilterNone(init, f);
    } else {
      assert forall i :: 0 <= i < |init| ==> init[i] == s[i];
      FilterSingle(init, k, f);
    }
  }

  /** Filter keeps each passing element with its full multiplicity and drops the rest. */
  lemma {:induction false} FilterMultiset<T(!new)>(s: seq<T>, f: T -> bool)
    ensures forall x :: multiset(Filter(s, f))[x] == if f(x) then multiset(s)[x] else 0
    decreases |s|
  {
    if |s| > 0 {
      var init, last := s[..|s| - 1], s[|s| - 1];
      assert s == init + [last];
      FilterMultiset(init, f);
      assert multiset(s) == multiset(init) + multiset{last};
    }
  }

  /** Filtering twice by the same predicate changes nothing. */
  lemma FilterIdempotent<T(!new)>(s: seq<T>, f: T -> bool)
    ensures Filter(Filter(s, f), f) == Filter(s, f)
  {
    var r := Filter(s, f);
    FilterMembers(s, f);
    forall i | 0 <= i < |r|
      ensures f(r[i])
    {
      assert r[i] in r;
    }
    FilterAll(r, f);
  }

  /** `s.map(f)`. */
  function Map<T, U>(s: seq<T>, f: T -> U): (r: seq<U>)
    ensures |r| == |s|
    ensures forall i :: 0 <= i < |s| ==> r[i] == f(s[i])
  {
    seq(|s|, i requires 0 <= i < |s| => f(s[i]))
  }

  /** Mapping distributes over concatenation. */
  lemma MapAppend<T, U>(a: seq<T>, b: seq<T>, f: T -> U)
    ensures Map(a + b, f) == Map(a, f) + Map(b, f)
  {
  }

  /** The distinct elements of `s`, each at the position of its first occurrence. */
  function Dedup<T(==,!new)>(s: seq<T>): seq<T>
    decreases |s|
  {
    if |s| == 0 then []
    else
      var prev := Dedup(s[..|s| - 1]);
      if s[|s| - 1] in prev then prev else prev + [s[|s| - 1]]
  }

  lemma {:induction false} DedupMembers<T(!new)>(s: seq<T>)
    ensures forall x :: x in Dedup(s) <==> x in s
    decreases |s|
  {
    if |s| > 0 {
      assert s == s[..|s| - 1] + [s[|s| - 1]];
      DedupMembers(s[..|s| - 1]);
    }
  }

  /** One bucket of a grouping: its key and its members in arrival order. */
  datatype Group<T> = Group(key: string, members: seq<T>)

  function Keys<T>(gs: seq<Group<T>>): (ks: seq<string>)
    ensures |ks| == |gs|
    ensures forall i :: 0 <= i < |gs| ==> ks[i] == gs[i].key
  {
    seq(|gs|, i requires 0 <= i < |gs| => gs[i].key)
  }

  predicate DistinctKeys<T>(gs: seq<Group<T>>) {
    forall i, j :: 0 <= i < j < |gs| ==> gs[i].key != gs[j].key
  }

  /** The predicate "`key` sends the element to bucket `k`". */
  function KeyIs<T>(key: T -> string, k: string): T -> bool {
    x => key(x) == k
  }

  /**
   * One step of the reduce: `if (!acc[k]) acc[k] = []; acc[k].push(x)`.
   * An existing bucket grows at its end; a new bucket goes after all others.
   */
  function AddToGroup<T>(gs: seq<Group<T>>, k: string, x: T): seq<Group<T>>
    decreases |gs|
  {
    if |gs| == 0 then [Group(k, [x])]
    else if gs[0].key == k then [Group(k, gs[0].members + [x])] + gs[1..]
    else [gs[0]] + AddToGroup(gs[1..], k, x)
  }

  /** `s.reduce(...)` into buckets keyed by `key`, starting from `{}`. */
  function GroupBy<T>(s: seq<T>, key: T -> string): seq<Group<T>>
    decreases |s|
  {
    if |s| == 0 then []
    else AddToGroup(GroupBy(s[..|s| - 1], key), key(s[|s| - 1]), s[|s| - 1])
  }

  /** The first bucket keyed `k`, if any (`acc[k]`). */
  function Lookup<T>(gs: seq<Group<T>>, k: string): (r: Js.Option<seq<T>>)
    ensures r.None? <==> k !in Keys(gs)
    ensures r.Some? ==> exists i :: 0 <= i < |gs| && gs[i].key == k && gs[i].members == r.value
    decreases |gs|
  {
    if |gs| == 0 then Js.None
    else if gs[0].key == k then Js.Some(gs[0].members)
    else
      assert Keys(gs) == [gs[0].key] + Keys(gs[1..]);
      var r := Lookup(gs[1..], k);
      assert r.Some? ==> exists i :: 1 <= i < |gs| && gs[i].key == k && gs[i].members == r.value by {
        if r.Some? {
          var j :| 0 <= j < |gs[1..]| && gs[1..][j].key == k && gs[1..][j].members == r.value;
          assert gs[j + 1] == gs[1..][j];
        }
      }
      r
  }

  lemma {:induction false} AddToGroupExisting<T>(gs: seq<Group<T>>, k: string, x: T, j: nat)
    requires DistinctKeys(gs)
    requires j < |gs| && gs[j].key == k
    ensures |AddToGroup(gs, k, x)| == |gs|
    ensures AddToGroup(gs, k, x)[j] == Group(k, gs[j].members + [x])
    ensures forall i :: 0 <= i < |gs| && i != j ==> AddToGroup(gs, k, x)[i] == gs[i]
    decreases |gs|
  {
    if j > 0 {
      AddToGroupExisting(gs[1..], k, x, j - 1);
    }
  }

  lemma {:induction false} AddToGroupFresh<T>(gs: seq<Group<T>>, k: string, x: T)
    requires k !in Keys(gs)
    ensures AddToGroup(gs, k, x) == gs + [Group(k, [x])]
    decreases |gs|
  {
    if |gs| > 0 {
      assert Keys(gs)[0] != k;
      assert k !in Keys(gs[1..]) by {
        forall i | 0 <= i < |gs| - 1
          ensures Keys(gs[1..])[i] != k
        {
          assert Keys(gs[1..])[i] == Keys(gs)[i + 1];
        }
      }
      AddToGroupFresh(gs[1..], k, x);
      assert gs == [gs[0]] + gs[1..];
    }
  }

  /** Bucket keys are distinct and come in first-occurrence order. */
  lemma {:induction false} GroupByKeys<T(!new)>(s: seq<T>, key: T -> string)
    ensures DistinctKeys(GroupBy(s, key))
    ensures Keys(GroupBy(s, key)) == Dedup(Map(s, key))
    decreases |s|
  {
    if |s| > 0 {
      var init, x := s[..|s| - 1], s[|s| - 1];
      GroupByKeys(init, key);
      var gs := GroupBy(init, key);
      var k := key(x);
      assert Map(s, key)[..|s| - 1] == Map(init, key);
      DedupMembers(Map(init, key));
      if k in Keys(gs) {
        var j :| 0 <= j < |gs| && Keys(gs)[j] == k;
        AddToGroupExisting(gs, k, x, j);
        assert Keys(GroupBy(s, key)) == Keys(gs);
      } else {
        AddToGroupFresh(gs, k, x);
        assert Keys(GroupBy(s, key)) == Keys(gs) + [k];
      }
    }
  }

  /** No element before the end of `s` has key `k` when `k` is not among the keys seen so far. */
  lemma FilterOfUnseenKey<T(!new)>(s: seq<T>, key: T -> string, k: string)
    requires k !in Dedup(Map(s, key))
    ensures Filter(s, KeyIs(key, k)) == []
  {
    DedupMembers(Map(s, key));
    forall i | 0 <= i < |s|
      ensures !KeyIs(key, k)(s[i])
    {
      assert Map(s, key)[i] == key(s[i]);
    }
    FilterNone(s, KeyIs(key, k));
  }

  /** Every bucket holds exactly the elements with its key, in arrival order. */
  lemma {:induction false} GroupByMembers<T(!new)>(s: seq<T>, key: T -> string)
    ensures forall i :: 0 <= i < |GroupBy(s, key)| ==>
              GroupBy(s, key)[i].members == Filter(s, KeyIs(key, GroupBy(s, key)[i].key))
    decreases |s|
  {
    if |s| > 0 {
      var init, x := s[..|s| - 1], s[|s| - 1];
      assert s == init + [x];
      GroupByMembers(init, key);
      GroupByKeys(init, key);
      var gs := GroupBy(init, key);
      var k := key(x);
      var r := GroupBy(s, key);
      forall i | 0 <= i < |r|
        ensures r[i].members == Filter(s, KeyIs(key, r[i].key))
      {
        FilterSnoc(init, x, KeyIs(key, r[i].key));
        if k in Keys(gs) {
          var j :| 0 <= j < |gs| && Keys(gs)[j] == k;
          AddToGroupExisting(gs, k, x, j);
        } else {
          AddToGroupFresh(gs, k, x);
          if i == |gs| {
            FilterOfUnseenKey(init, key, k);
          }
        }
      }
    }
  }

  /**
   * The grouping partitions `s` by key: every element lands in the one bucket
   * named by its key, and in no other.
   */
  lemma GroupByPartition<T(!new)>(s: seq<T>, key: T -> string, x: T)
    requires x in s
    ensures exists i :: 0 <= i < |GroupBy(s, key)| && GroupBy(s, key)[i].key == key(x)
              && x in GroupBy(s, key)[i].members
    ensures forall i :: 0 <= i < |GroupBy(s, key)| && x in GroupBy(s, key)[i].members ==>
              GroupBy(s, key)[i].key == key(x)
  {
    GroupByKeys(s, key);
    GroupByMembers(s, key);
    var gs := GroupBy(s, key);
    DedupMembers(Map(s, key));
    var n :| 0 <= n < |s| && s[n] == x;
    assert Map(s, key)[n] == key(x);
    assert key(x) in Keys(gs);
    var i :| 0 <= i < |gs| && Keys(gs)[i] == key(x);
    FilterMembers(s, KeyIs(key, gs[i].key));
    forall j | 0 <= j < |gs| && x in gs[j].members
      ensures gs[j].key == key(x)
    {
      FilterMembers(s, KeyIs(key, gs[j].key));
    }
  }

  /** No bucket is empty: each key comes from at least one element. */
  lemma GroupByNonEmpty<T(!new)>(s: seq<T>, key: T -> string)
    ensures forall i :: 0 <= i < |GroupBy(s, key)| ==> GroupBy(s, key)[i].members != []
  {
    GroupByKeys(s, key);
    GroupByMembers(s, key);
    DedupMembers(Map(s, key));
    var gs := GroupBy(s, key);
    forall i | 0 <= i < |gs|
      ensures gs[i].members != []
    {
      assert Keys(gs)[i] in Map(s, key);
      var n :| 0 <= n < |s| && Map(s, key)[n] == gs[i].key;
      FilterMembers(s, KeyIs(key, gs[i].key));
      assert s[n] in Filter(s, KeyIs(key, gs[i].key));
    }
  }

  // ---------------------------------------------------------------------------
  // Sums: `s.reduce((acc, x) => acc + f(x), 0)`

  function Sum<T>(s: seq<T>, f: T -> int): int
    decreases |s|
  {
    if |s| == 0 then 0 else Sum(s[..|s| - 1], f) + f(s[|s| - 1])
  }

  lemma {:induction false} SumSnoc<T>(s: seq<T>, x: T, f: T -> int)
    ensures Sum(s + [x], f) == Sum(s, f) + f(x)
  {
    assert (s + [x])[..|s|] == s;
  }

  lemma SumSingle<T>(x: T, f: T -> int)
    ensures Sum([x], f) == f(x)
  {
    assert [x][..0] == [];
  }

  /** A sum over a concatenation is the sum of the two sums. */
  lemma {:induction false} SumAppend<T>(a: seq<T>, b: seq<T>, f: T -> int)
    ensures Sum(a + b, f) == Sum(a, f) + Sum(b, f)
    decreases |b|
  {
    if |b| == 0 {
      assert a + b == a;
    } else {
      var init := b[..|b| - 1];
      assert (a + b)[..|a + b| - 1] == a + init;
      SumAppend(a, init, f);
    }
  }

  lemma {:induction false} SumRemoveAt<T>(s: seq<T>, j: nat, f: T -> int)
    requires j < |s|
    ensures Sum(s, f) == Sum(s[..j] + s[j + 1..], f) + f(s[j])
  {
    var p, x, q := s[..j], s[j], s[j + 1..];
    assert s == (p + [x]) + q;
    SumAppend(p + [x], q, f);
    SumSnoc(p, x, f);
    SumAppend(p, q, f);
  }

  lemma {:induction false} MultisetRemoveAt<T>(s: seq<T>, j: nat)
    requires j < |s|
    ensures multiset(s[..j] + s[j + 1..]) == multiset(s) - multiset{s[j]}
  {
    assert s == s[..j] + [s[j]] + s[j + 1..];
  }

  /** A position holding an element of the sequence's multiset. */
  lemma IndexOfMember<T>(s: seq<T>, x: T) returns (j: nat)
    requires x in multiset(s)
    ensures j < |s| && s[j] == x
  {
    assert x in s;
    j :| j < |s| && s[j] == x;
  }

  /** A sum does not depend on the order of the elements. */
  lemma {:induction false} SumPermutation<T>(a: seq<T>, b: seq<T>, f: T -> int)
    requires multiset(a) == multiset(b)
    ensures Sum(a, f) == Sum(b, f)
    decreases |a|
  {
    if |a| == 0 {
      assert |b| == |multiset(b)| == 0;
    } else {
      var init, x := a[..|a| - 1], a[|a| - 1];
      MultisetRemoveAt(a, |a| - 1);
      assert a[..|a| - 1] + a[|a|..] == init;
      var j := IndexOfMember(b, x);
      MultisetRemoveAt(b, j);
      SumPermutation(init, b[..j] + b[j + 1..], f);
      SumRemoveAt(b, j, f);
      SumRemoveAt(a, |a| - 1, f);
    }
  }
}
