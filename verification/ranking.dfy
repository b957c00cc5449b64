/** Leaderboard ordering (lib/leaderboard.ts): `getActivityCount` and the
    three-level comparator of `sortEntries` — the selected key descending,
    then total points descending, then username ascending — as an insertion
    sort over a copy of the entries. */
module Ranking {
  import opened Basics
  import opened Text
  import opened Seqs
  import opened Ledger
  import Periods

  /** A leaderboard entry as the page receives it; both the total and the
      breakdown may be absent. */
  datatype Entry = Entry(
    username: string,
    name: Option<string>,
    totalPoints: Option<int>,
    breakdown: Option<seq<(string, Bucket)>>)

  datatype SortBy = Points | PrOpened | PrMerged | Issues

  /** The bucket stored under `key`: the first pair with that key. */
  function Lookup(b: seq<(string, Bucket)>, key: string): Option<Bucket>
  {
    if b == [] then None else if b[0].0 == key then Some(b[0].1) else Lookup(b[1..], key)
  }

  lemma {:induction false} LookupFinds(b: seq<(string, Bucket)>, key: string)
    requires forall i, j :: 0 <= i < j < |b| ==> b[i].0 != b[j].0
    ensures Lookup(b, key).None? <==> forall k :: 0 <= k < |b| ==> b[k].0 != key
    ensures forall k :: 0 <= k < |b| && b[k].0 == key ==> Lookup(b, key) == Some(b[k].1)
  {
    if b != [] {
      assert forall i, j :: 0 <= i < j < |b[1..]| ==> b[1..][i].0 != b[1..][j].0 by {
        assert forall i :: 0 <= i < |b[1..]| ==> b[1..][i] == b[i + 1];
      }
      LookupFinds(b[1..], key);
      assert forall k :: 1 <= k < |b| ==> b[k] == b[1..][k - 1];
    }
  }

  /** `getActivityCount`: the count of the bucket for `key`, 0 when the
      breakdown or the bucket is absent. */
  function ActivityCount(e: Entry, key: string): int {
    if e.breakdown.None? then 0
    else match Lookup(e.breakdown.value, key)
      case None => 0
      case Some(bucket) => bucket.count
  }

  function PointsOf(e: Entry): int { e.totalPoints.GetOr(0) }

  /** The selected key of the first comparison level. */
  function SortKey(e: Entry, order: SortBy): int {
    match order
    case Points => PointsOf(e)
    case PrOpened => ActivityCount(e, "PR opened")
    case PrMerged => ActivityCount(e, "PR merged")
    case Issues => ActivityCount(e, "Issue opened")
  }

  /** What the comparator looks at, level by level. */
  datatype Rank = Rank(key: int, points: int, username: string)

  function RankOf(e: Entry, order: SortBy): Rank {
    Rank(SortKey(e, order), PointsOf(e), e.username)
  }

  /** The comparator of `sortEntries` returns a value `<= 0`: larger key
      first, then larger points, then the smaller username. */
  predicate RankLe(x: Rank, y: Rank) {
    || x.key > y.key
    || (x.key == y.key && (x.points > y.points || (x.points == y.points && LexLe(x.username, y.username))))
  }

  /** `a` may come before `b`. */
  predicate Precedes(a: Entry, b: Entry, order: SortBy) {
    RankLe(RankOf(a, order), RankOf(b, order))
  }

  lemma RankLeTotal(x: Rank, y: Rank)
    ensures RankLe(x, y) || RankLe(y, x)
  {
    LexLeTotal(x.username, y.username);
  }

  lemma RankLeTransitive(x: Rank, y: Rank, z: Rank)
    requires RankLe(x, y) && RankLe(y, z)
    ensures RankLe(x, z)
  {
    if x.key == y.key == z.key && x.points == y.points == z.points {
      LexLeTransitive(x.username, y.username, z.username);
    }
  }

  lemma RankLeAntisymmetric(x: Rank, y: Rank)
    requires RankLe(x, y) && RankLe(y, x)
    ensures x == y
  {
    LexLeAntisymmetric(x.username, y.username);
  }

  lemma PrecedesTotal(a: Entry, b: Entry, order: SortBy)
    ensures Precedes(a, b, order) || Precedes(b, a, order)
  {
    RankLeTotal(RankOf(a, order), RankOf(b, order));
  }

  lemma PrecedesTransitive(a: Entry, b: Entry, c: Entry, order: SortBy)
    requires Precedes(a, b, order) && Precedes(b, c, order)
    ensures Precedes(a, c, order)
  {
    RankLeTransitive(RankOf(a, order), RankOf(b, order), RankOf(c, order));
  }

  /** Entries that precede each other agree on key, points and username. */
  lemma PrecedesAntisymmetric(a: Entry, b: Entry, order: SortBy)
    requires Precedes(a, b, order) && Precedes(b, a, order)
    ensures SortKey(a, order) == SortKey(b, order) && PointsOf(a) == PointsOf(b) && a.username == b.username
  {
    RankLeAntisymmetric(RankOf(a, order), RankOf(b, order));
  }

  ghost predicate Ordered(s: seq<Entry>, order: SortBy) {
    forall i, j :: 0 <= i < j < |s| ==> Precedes(s[i], s[j], order)
  }

  function Insert(x: Entry, s: seq<Entry>, order: SortBy): (r: seq<Entry>)
    requires Ordered(s, order)
    ensures multiset(r) == multiset(s) + multiset{x}
    ensures |r| == |s| + 1
    ensures Ordered(r, order)
  {
    if s == [] then [x]
    else if Precedes(s[0], x, order) then
      OrderedTail(s, order);
      var rest := Insert(x, s[1..], order);
      InsertHead(x, s, rest, order);
      OrderedCons(s[0], rest, order);
      assert s == [s[0]] + s[1..];
      [s[0]] + rest
    else
      PrecedesTotal(s[0], x, order);
      forall j | 0 <= j < |s| ensures Precedes(x, s[j], order) {
        if j > 0 { PrecedesTransitive(x, s[0], s[j], order); }
      }
      OrderedCons(x, s, order);
      [x] + s
  }

  lemma OrderedCons(h: Entry, t: seq<Entry>, order: SortBy)
    requires Ordered(t, order) && forall k :: 0 <= k < |t| ==> Precedes(h, t[k], order)
    ensures Ordered([h] + t, order)
  {
    var r := [h] + t;
    forall i, j | 0 <= i < j < |r|
      ensures Precedes(r[i], r[j], order)
    {
      assert r[j] == t[j - 1];
      if i > 0 {
        assert r[i] == t[i - 1];
      }
    }
  }

  lemma InsertHead(x: Entry, s: seq<Entry>, rest: seq<Entry>, order: SortBy)
    requires s != [] && Ordered(s, order) && Precedes(s[0], x, order)
    requires multiset(rest) == multiset(s[1..]) + multiset{x}
    ensures forall k :: 0 <= k < |rest| ==> Precedes(s[0], rest[k], order)
  {
    forall k | 0 <= k < |rest|
      ensures Precedes(s[0], rest[k], order)
    {
      assert rest[k] in multiset(rest);
      if rest[k] != x {
        assert rest[k] in multiset(s[1..]);
        var j :| 0 <= j < |s[1..]| && s[1..][j] == rest[k];
        assert s[j + 1] == rest[k];
      }
    }
  }

  /** `sortEntries`: a sorted copy; the argument itself is a value and is
      not changed. `Ordered` reads level by level: the selected key never
      increases; on equal keys the points never increase; on equal keys and
      points the usernames ascend. */
  function SortEntries(entries: seq<Entry>, order: SortBy): (r: seq<Entry>)
    ensures multiset(r) == multiset(entries)
    ensures |r| == |entries|
    ensures Ordered(r, order)
  {
    if entries == [] then []
    else
      var n := |entries| - 1;
      assert entries == entries[..n] + [entries[n]];
      Insert(entries[n], SortEntries(entries[..n], order), order)
  }

  /** With `Points` selected, entries with equal points are in ascending
      username order. */
  lemma PointsTiesByUsername(entries: seq<Entry>, i: nat, j: nat)
    requires i < j < |entries|
    ensures var r := SortEntries(entries, Points);
      PointsOf(r[i]) == PointsOf(r[j]) ==> LexLe(r[i].username, r[j].username)
  {
  }

  ghost predicate UniqueUsernames(m: multiset<Entry>) {
    forall a, b :: a in m && b in m && a.username == b.username ==> a == b
  }

  lemma OrderedHeadFirst(r: seq<Entry>, x: Entry, order: SortBy)
    requires Ordered(r, order) && x in multiset(r)
    ensures Precedes(r[0], x, order)
  {
    var i :| 0 <= i < |r| && r[i] == x;
    if i == 0 {
      PrecedesTotal(x, x, order);
    }
  }

  lemma OrderedTail(r: seq<Entry>, order: SortBy)
    requires Ordered(r, order) && r != []
    ensures Ordered(r[1..], order)
  {
    assert forall i :: 0 <= i < |r[1..]| ==> r[1..][i] == r[i + 1];
  }

  /** Two orderings of the same entries start with the same entry. */
  lemma SameHead(r1: seq<Entry>, r2: seq<Entry>, order: SortBy)
    requires r1 != [] && multiset(r1) == multiset(r2)
    requires UniqueUsernames(multiset(r1))
    requires Ordered(r1, order) && Ordered(r2, order)
    ensures r2 != [] && r1[0] == r2[0]
  {
    assert r1[0] in multiset(r1);
    assert r2 != [];
    assert r2[0] in multiset(r2);
    OrderedHeadFirst(r1, r2[0], order);
    OrderedHeadFirst(r2, r1[0], order);
    PrecedesAntisymmetric(r1[0], r2[0], order);
  }

  lemma TailMultiset(r1: seq<Entry>, r2: seq<Entry>)
    requires r1 != [] && r2 != [] && r1[0] == r2[0] && multiset(r1) == multiset(r2)
    ensures multiset(r1[1..]) == multiset(r2[1..])
  {
    assert r1 == [r1[0]] + r1[1..];
    assert r2 == [r2[0]] + r2[1..];
    var h := multiset{r1[0]};
    assert multiset(r1) == h + multiset(r1[1..]);
    assert multiset(r2) == h + multiset(r2[1..]);
    forall z
      ensures multiset(r1[1..])[z] == multiset(r2[1..])[z]
    {
      assert (h + multiset(r1[1..]))[z] == h[z] + multiset(r1[1..])[z];
      assert (h + multiset(r2[1..]))[z] == h[z] + multiset(r2[1..])[z];
    }
  }

  lemma UniqueTail(r: seq<Entry>)
    requires r != [] && UniqueUsernames(multiset(r))
    ensures UniqueUsernames(multiset(r[1..]))
  {
    assert r == [r[0]] + r[1..];
    assert multiset(r[1..]) <= multiset(r);
  }

  /** When usernames are unique the comparator is a strict total order on
      the entries, so any ordering permutation is this one: the result does
      not depend on the sorting algorithm. */
  lemma {:induction false} OrderedUnique(r1: seq<Entry>, r2: seq<Entry>, order: SortBy)
    requires multiset(r1) == multiset(r2)
    requires UniqueUsernames(multiset(r1))
    requires Ordered(r1, order) && Ordered(r2, order)
    ensures r1 == r2
    decreases |r1|
  {
    if r1 == [] {
      assert |r2| == |multiset(r2)| == 0;
    } else {
      SameHead(r1, r2, order);
      TailMultiset(r1, r2);
      UniqueTail(r1);
      OrderedTail(r1, order);
      OrderedTail(r2, order);
      OrderedUnique(r1[1..], r2[1..], order);
    }
  }

  lemma SortEntriesIsTheOrdering(entries: seq<Entry>, order: SortBy, other: seq<Entry>)
    requires UniqueUsernames(multiset(entries))
    requires multiset(other) == multiset(entries) && Ordered(other, order)
    ensures SortEntries(entries, order) == other
  {
    OrderedUnique(SortEntries(entries, order), other, order);
  }

  /** On an entry built from the period breakdown of `acts`, the activity
      count for a type is the number of activities of that type. */
  lemma ActivityCountOfBreakdown(acts: seq<Activity>, e: Entry, key: string)
    requires e.breakdown == Some(Periods.Breakdown(acts))
    ensures ActivityCount(e, key) == |Periods.WithKey(acts, Periods.KindOf, key)|
  {
    var b := Periods.Breakdown(acts);
    Periods.BreakdownContents(acts);
    LookupFinds(b, key);
    if Lookup(b, key).None? {
      assert forall i :: 0 <= i < |acts| ==> acts[i].kind != key by {
        forall i | 0 <= i < |acts| ensures acts[i].kind != key {
          var k :| 0 <= k < |b| && b[k].0 == acts[i].kind;
        }
      }
      Periods.WithKeyNone(acts, Periods.KindOf, key);
    } else {
      var k :| 0 <= k < |b| && b[k].0 == key;
      assert Lookup(b, key) == Some(b[k].1);
    }
  }
}
