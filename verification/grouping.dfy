/** Grouping into an insertion-ordered table, the pattern behind
    `groups.set(key, groups.get(key) ?? []); groups.get(key)!.push(item)` and
    `record[key] ??= …; record[key].count += 1`. A table is a sequence of
    groups with distinct keys, in order of first appearance, which is how a
    JavaScript `Map` or an object with string keys iterates. */
module Grouping {
  import opened Basics
  import opened Seqs

  datatype Group<K, V> = Group(key: K, items: seq<V>)

  ghost predicate DistinctKeys<K, V>(gs: seq<Group<K, V>>) {
    forall i, j :: 0 <= i < j < |gs| ==> gs[i].key != gs[j].key
  }

  /** `groups.get(k)`. */
  function Find<K(==), V>(gs: seq<Group<K, V>>, k: K): Option<seq<V>>
  {
    if gs == [] then None
    else if gs[0].key == k then Some(gs[0].items)
    else Find(gs[1..], k)
  }

  lemma {:induction false} FindIsMember<K, V>(gs: seq<Group<K, V>>, k: K)
    requires DistinctKeys(gs)
    ensures Find(gs, k).Some? <==> exists i :: 0 <= i < |gs| && gs[i].key == k
    ensures forall i :: 0 <= i < |gs| && gs[i].key == k ==> Find(gs, k) == Some(gs[i].items)
  {
    if gs != [] {
      FindIsMember(gs[1..], k);
      forall i | 1 <= i < |gs| && gs[i].key == k
        ensures gs[1..][i - 1].key == k
      {
      }
    }
  }

  /** Appends `v` to the group for `k`, creating it at the end when absent. */
  function Place<K(==,!new), V>(gs: seq<Group<K, V>>, k: K, v: V): (r: seq<Group<K, V>>)
    requires DistinctKeys(gs)
    ensures DistinctKeys(r)
    ensures Find(r, k) == Some(Find(gs, k).GetOr([]) + [v])
    ensures forall k' :: k' != k ==> Find(r, k') == Find(gs, k')
    ensures forall i :: 0 <= i < |r| ==> r[i].items != [] || (i < |gs| && r[i] == gs[i])
    ensures |gs| <= |r| <= |gs| + 1
    ensures forall i :: 0 <= i < |gs| ==> r[i].key == gs[i].key
  {
    if gs == [] then
      var r := [Group(k, [v])];
      assert r[1..] == [];
      assert Find(gs, k).GetOr([]) + [v] == [v];
      r
    else if gs[0].key == k then [gs[0].(items := gs[0].items + [v])] + gs[1..]
    else
      var rest := Place(gs[1..], k, v);
      assert forall i :: 1 <= i < |gs| ==> gs[i].key == gs[1..][i - 1].key;
      FindIsMember(gs[1..], gs[0].key);
      FindIsMember(rest, gs[0].key);
      [gs[0]] + rest
  }

  /** The values paired with key `k`, in input order. */
  function ItemsWith<K(==), V>(pairs: seq<(K, V)>, k: K): seq<V>
  {
    if pairs == [] then []
    else
      var last := pairs[|pairs| - 1];
      ItemsWith(pairs[..|pairs| - 1], k) + (if last.0 == k then [last.1] else [])
  }

  lemma {:induction false} ItemsWithAppend<K, V>(a: seq<(K, V)>, b: seq<(K, V)>, k: K)
    ensures ItemsWith(a + b, k) == ItemsWith(a, k) + ItemsWith(b, k)
    decreases |b|
  {
    if b == [] {
      assert a + b == a;
    } else {
      assert (a + b)[..|a + b| - 1] == a + b[..|b| - 1];
      ItemsWithAppend(a, b[..|b| - 1], k);
    }
  }

  ghost predicate KeyOccurs<K, V>(pairs: seq<(K, V)>, k: K) {
    exists i :: 0 <= i < |pairs| && pairs[i].0 == k
  }

  lemma {:induction false} ItemsWithAbsent<K, V>(pairs: seq<(K, V)>, k: K)
    requires !KeyOccurs(pairs, k)
    ensures ItemsWith(pairs, k) == []
  {
    if pairs != [] {
      var n := |pairs| - 1;
      PrefixOccurs(pairs, k);
      ItemsWithAbsent(pairs[..n], k);
    }
  }

  /** The table built by placing every pair in order. */
  function GroupBy<K(==,!new), V>(pairs: seq<(K, V)>): (r: seq<Group<K, V>>)
    ensures DistinctKeys(r)
    ensures forall i :: 0 <= i < |r| ==> r[i].items != []
  {
    if pairs == [] then []
    else
      var last := pairs[|pairs| - 1];
      Place(GroupBy(pairs[..|pairs| - 1]), last.0, last.1)
  }

  /** Each key that occurs has exactly the group of its values, in input
      order; a key that does not occur has no group. */
  lemma {:induction false} GroupByContents<K(!new), V>(pairs: seq<(K, V)>, k: K)
    ensures Find(GroupBy(pairs), k) == if KeyOccurs(pairs, k) then Some(ItemsWith(pairs, k)) else None
  {
    if pairs != [] {
      var n := |pairs| - 1;
      var prefix := pairs[..n];
      GroupByContents(prefix, k);
      PrefixOccurs(pairs, k);
      if pairs[n].0 == k {
        assert KeyOccurs(pairs, k);
        if !KeyOccurs(prefix, k) {
          ItemsWithAbsent(prefix, k);
        }
      } else {
        assert GroupBy(pairs) == Place(GroupBy(prefix), pairs[n].0, pairs[n].1);
        assert Find(GroupBy(pairs), k) == Find(GroupBy(prefix), k);
        assert ItemsWith(pairs, k) == ItemsWith(prefix, k) + [];
        assert KeyOccurs(pairs, k) == KeyOccurs(prefix, k);
        if KeyOccurs(prefix, k) {
          assert Find(GroupBy(prefix), k) == Some(ItemsWith(prefix, k));
          assert ItemsWith(pairs, k) == ItemsWith(prefix, k);
        } else {
          assert Find(GroupBy(prefix), k) == None;
        }
      }
    }
  }

  lemma PrefixOccurs<K, V>(pairs: seq<(K, V)>, k: K)
    requires pairs != []
    ensures KeyOccurs(pairs, k) <==> KeyOccurs(pairs[..|pairs| - 1], k) || pairs[|pairs| - 1].0 == k
  {
    var n := |pairs| - 1;
    assert forall i :: 0 <= i < n ==> pairs[..n][i] == pairs[i];
  }

  /** Total weight of a table: the sum of `f` over every grouped value. */
  function Weight<K(==), V>(gs: seq<Group<K, V>>, f: V -> int): int {
    if gs == [] then 0 else SumBy(gs[0].items, f) + Weight(gs[1..], f)
  }

  lemma {:induction false} PlaceWeight<K(!new), V>(gs: seq<Group<K, V>>, k: K, v: V, f: V -> int)
    requires DistinctKeys(gs)
    ensures Weight(Place(gs, k, v), f) == Weight(gs, f) + f(v)
  {
    if gs == [] {
      var r := Place(gs, k, v);
      assert r == [Group(k, [v])];
      assert SumBy([v], f) == f(v) by {
        assert [v][..0] == [];
      }
      assert Weight(r, f) == SumBy(r[0].items, f) + Weight(r[1..], f);
      assert r[1..] == [];
    } else if gs[0].key == k {
      SumByAppend(gs[0].items, [v], f);
      assert [v][..0] == [];
      assert Place(gs, k, v)[1..] == gs[1..];
    } else {
      assert forall i :: 1 <= i < |gs| ==> gs[i].key == gs[1..][i - 1].key;
      PlaceWeight(gs[1..], k, v, f);
      assert Place(gs, k, v)[1..] == Place(gs[1..], k, v);
    }
  }

  function Values<K(==), V>(pairs: seq<(K, V)>): (r: seq<V>)
    ensures |r| == |pairs|
  {
    seq(|pairs|, i requires 0 <= i < |pairs| => pairs[i].1)
  }

  /** Grouping loses and duplicates nothing: summing any weight over the
      table equals summing it over the input. */
  lemma {:induction false} GroupByWeight<K(!new), V>(pairs: seq<(K, V)>, f: V -> int)
    ensures Weight(GroupBy(pairs), f) == SumBy(Values(pairs), f)
  {
    if pairs != [] {
      var n := |pairs| - 1;
      GroupByWeight(pairs[..n], f);
      PlaceWeight(GroupBy(pairs[..n]), pairs[n].0, pairs[n].1, f);
      assert Values(pairs)[..n] == Values(pairs[..n]);
    }
  }

  function Size<K(==), V>(gs: seq<Group<K, V>>): nat {
    if gs == [] then 0 else |gs[0].items| + Size(gs[1..])
  }

  lemma {:induction false} SumOfOnes<V>(s: seq<V>)
    ensures SumBy(s, (_: V) => 1) == |s|
  {
    if s != [] {
      SumOfOnes(s[..|s| - 1]);
    }
  }

  lemma {:induction false} SizeIsWeightOfOnes<K, V>(gs: seq<Group<K, V>>)
    ensures Size(gs) == Weight(gs, (_: V) => 1)
  {
    if gs != [] {
      SumOfOnes(gs[0].items);
      SizeIsWeightOfOnes(gs[1..]);
    }
  }

  /** The group sizes add up to the number of grouped values. */
  lemma GroupBySize<K(!new), V>(pairs: seq<(K, V)>)
    ensures Size(GroupBy(pairs)) == |pairs|
  {
    SizeIsWeightOfOnes(GroupBy(pairs));
    GroupByWeight(pairs, (_: V) => 1);
    SumOfOnes(Values(pairs));
  }
}
