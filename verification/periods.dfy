/** The files derived from the yearly ledger in
    scripts/generateLeaderboard.ts: the year entries, the week and month
    periods (`derivePeriod`) and the recent-activity groups
    (`generateRecentActivities`). The current time enters only as the
    `cutoff` instant; file writing is left out. */
module Periods {
  import opened Basics
  import opened Text
  import opened Seqs
  import opened Grouping
  import opened Ledger

  function Pts(a: Activity): int { a.points }

  function KindOf(a: Activity): string { a.kind }

  /** The calendar day of an activity: its timestamp up to the first `T`. */
  function DayOf(a: Activity): string { BeforeT(a.occuredAt) }

  function TotalOf(c: Contributor): int { c.totalPoints }

  /** The year entries: contributors with a positive total, largest total
      first. */
  function YearEntries(users: Users): (r: seq<Contributor>)
    ensures forall c :: c in r <==> c in users && c.totalPoints > 0
    ensures SortedDesc(r, TotalOf)
    ensures |r| == Count(users, (c: Contributor) => c.totalPoints > 0)
  {
    var kept := Filter(users, (c: Contributor) => c.totalPoints > 0);
    FilterMembers(users, (c: Contributor) => c.totalPoints > 0);
    FilterLengthIsCount(users, (c: Contributor) => c.totalPoints > 0);
    SortKeepsMembers(kept, TotalOf);
    SortDesc(kept, TotalOf)
  }

  /* ---------------- grouping activities by a key ---------------- */

  function Keyed(acts: seq<Activity>, key: Activity -> string): (r: seq<(string, Activity)>)
    ensures |r| == |acts|
  {
    seq(|acts|, i requires 0 <= i < |acts| => (key(acts[i]), acts[i]))
  }

  /** The activities whose key is `t`, in order. */
  function WithKey(acts: seq<Activity>, key: Activity -> string, t: string): seq<Activity> {
    Filter(acts, (a: Activity) => key(a) == t)
  }

  lemma WithKeyMembers(acts: seq<Activity>, key: Activity -> string, t: string)
    ensures forall x :: x in WithKey(acts, key, t) <==> x in acts && key(x) == t
  {
    FilterMembers(acts, (a: Activity) => key(a) == t);
  }

  lemma WithKeyNone(acts: seq<Activity>, key: Activity -> string, t: string)
    requires forall i :: 0 <= i < |acts| ==> key(acts[i]) != t
    ensures WithKey(acts, key, t) == []
  {
    FilterNone(acts, (a: Activity) => key(a) == t);
  }

  lemma {:induction false} ItemsWithKeyed(acts: seq<Activity>, key: Activity -> string, t: string)
    ensures ItemsWith(Keyed(acts, key), t) == WithKey(acts, key, t)
  {
    if acts != [] {
      var n := |acts| - 1;
      assert Keyed(acts, key)[..n] == Keyed(acts[..n], key);
      ItemsWithKeyed(acts[..n], key, t);
    }
  }

  lemma ValuesKeyed(acts: seq<Activity>, key: Activity -> string)
    ensures Values(Keyed(acts, key)) == acts
  {
  }

  /** Grouping by a key puts into each group exactly the activities with that
      key, and every activity's key has a group. */
  lemma GroupedByKey(acts: seq<Activity>, key: Activity -> string)
    ensures var gs := GroupBy(Keyed(acts, key));
      && (forall k :: 0 <= k < |gs| ==> gs[k].items == WithKey(acts, key, gs[k].key))
      && (forall i :: 0 <= i < |acts| ==> exists k :: 0 <= k < |gs| && gs[k].key == key(acts[i]))
  {
    var pairs := Keyed(acts, key);
    var gs := GroupBy(pairs);
    forall k | 0 <= k < |gs|
      ensures gs[k].items == WithKey(acts, key, gs[k].key)
    {
      GroupByContents(pairs, gs[k].key);
      FindIsMember(gs, gs[k].key);
      ItemsWithKeyed(acts, key, gs[k].key);
    }
    forall i | 0 <= i < |acts|
      ensures exists k :: 0 <= k < |gs| && gs[k].key == key(acts[i])
    {
      assert pairs[i].0 == key(acts[i]);
      GroupByContents(pairs, key(acts[i]));
      FindIsMember(gs, key(acts[i]));
    }
  }

  /* ---------------- per-type and per-day buckets ---------------- */

  function Summary(items: seq<Activity>): Bucket {
    Bucket(|items|, SumBy(items, Pts))
  }

  function Summaries(gs: seq<Group<string, Activity>>): (r: seq<(string, Bucket)>)
    ensures |r| == |gs|
  {
    seq(|gs|, k requires 0 <= k < |gs| => (gs[k].key, Summary(gs[k].items)))
  }

  function DaySummaries(gs: seq<Group<string, Activity>>): (r: seq<DailyBucket>)
    ensures |r| == |gs|
  {
    seq(|gs|, k requires 0 <= k < |gs| => DailyBucket(gs[k].key, |gs[k].items|, SumBy(gs[k].items, Pts)))
  }

  /** `activity_breakdown`: per activity type, in order of first appearance. */
  function Breakdown(acts: seq<Activity>): seq<(string, Bucket)> {
    Summaries(GroupBy(Keyed(acts, KindOf)))
  }

  /** `daily_activity`: per calendar day, in order of first appearance. */
  function Daily(acts: seq<Activity>): seq<DailyBucket> {
    DaySummaries(GroupBy(Keyed(acts, DayOf)))
  }

  /** Each activity type appears once, with the number of activities of that
      type and the sum of their points; every type present has its bucket. */
  lemma BreakdownContents(acts: seq<Activity>)
    ensures var b := Breakdown(acts);
      && (forall i, j :: 0 <= i < j < |b| ==> b[i].0 != b[j].0)
      && (forall k :: 0 <= k < |b| ==> b[k].1 == Summary(WithKey(acts, KindOf, b[k].0)))
      && (forall i :: 0 <= i < |acts| ==> exists k :: 0 <= k < |b| && b[k].0 == acts[i].kind)
  {
    GroupedByKey(acts, KindOf);
    var gs := GroupBy(Keyed(acts, KindOf));
    var b := Breakdown(acts);
    forall i | 0 <= i < |acts|
      ensures exists k :: 0 <= k < |b| && b[k].0 == acts[i].kind
    {
      var k :| 0 <= k < |gs| && gs[k].key == KindOf(acts[i]);
      assert b[k].0 == gs[k].key;
    }
  }

  /** Each day appears once, with the number and points of that day's
      activities; every day present has its bucket. */
  lemma DailyContents(acts: seq<Activity>)
    ensures var d := Daily(acts);
      && (forall i, j :: 0 <= i < j < |d| ==> d[i].date != d[j].date)
      && (forall k :: 0 <= k < |d| ==>
            var same := WithKey(acts, DayOf, d[k].date);
            d[k].count == |same| && d[k].points == SumBy(same, Pts))
      && (forall i :: 0 <= i < |acts| ==> exists k :: 0 <= k < |d| && d[k].date == DayOf(acts[i]))
  {
    GroupedByKey(acts, DayOf);
    var gs := GroupBy(Keyed(acts, DayOf));
    var d := Daily(acts);
    forall i | 0 <= i < |acts|
      ensures exists k :: 0 <= k < |d| && d[k].date == DayOf(acts[i])
    {
      var k :| 0 <= k < |gs| && gs[k].key == DayOf(acts[i]);
      assert d[k].date == gs[k].key;
    }
  }

  function BucketPoints(b: seq<(string, Bucket)>): int {
    if b == [] then 0 else b[0].1.points + BucketPoints(b[1..])
  }

  function BucketCount(b: seq<(string, Bucket)>): int {
    if b == [] then 0 else b[0].1.count + BucketCount(b[1..])
  }

  function DayPoints(d: seq<DailyBucket>): int {
    if d == [] then 0 else d[0].points + DayPoints(d[1..])
  }

  function DayCount(d: seq<DailyBucket>): int {
    if d == [] then 0 else d[0].count + DayCount(d[1..])
  }

  lemma {:induction false} SummariesTotals(gs: seq<Group<string, Activity>>)
    ensures BucketPoints(Summaries(gs)) == Weight(gs, Pts)
    ensures BucketCount(Summaries(gs)) == Size(gs)
    ensures DayPoints(DaySummaries(gs)) == Weight(gs, Pts)
    ensures DayCount(DaySummaries(gs)) == Size(gs)
  {
    if gs != [] {
      assert Summaries(gs)[1..] == Summaries(gs[1..]);
      assert DaySummaries(gs)[1..] == DaySummaries(gs[1..]);
      SummariesTotals(gs[1..]);
    }
  }

  /** Nothing is lost or counted twice: the per-type buckets and the per-day
      buckets each add up to the number of activities and to their total
      points. */
  lemma BucketTotals(acts: seq<Activity>)
    ensures BucketCount(Breakdown(acts)) == |acts|
    ensures BucketPoints(Breakdown(acts)) == SumBy(acts, Pts)
    ensures DayCount(Daily(acts)) == |acts|
    ensures DayPoints(Daily(acts)) == SumBy(acts, Pts)
  {
    SummariesTotals(GroupBy(Keyed(acts, KindOf)));
    SummariesTotals(GroupBy(Keyed(acts, DayOf)));
    GroupByWeight(Keyed(acts, KindOf), Pts);
    GroupByWeight(Keyed(acts, DayOf), Pts);
    GroupBySize(Keyed(acts, KindOf));
    GroupBySize(Keyed(acts, DayOf));
    ValuesKeyed(acts, KindOf);
    ValuesKeyed(acts, DayOf);
  }

  /* ---------------- week and month periods ---------------- */

  datatype PeriodEntry = PeriodEntry(
    username: string,
    name: Option<string>,
    avatarUrl: string,
    role: string,
    totalPoints: int,
    breakdown: seq<(string, Bucket)>,
    daily: seq<DailyBucket>,
    activities: seq<Activity>)

  function EntryTotal(e: PeriodEntry): int { e.totalPoints }

  predicate InWindow(a: Activity, cutoff: int, parse: string -> Time) {
    Ge(parse(a.occuredAt), cutoff)
  }

  /** The activities at or after the cutoff; an unparsable timestamp fails
      the comparison and is dropped. */
  function Recent(acts: seq<Activity>, cutoff: int, parse: string -> Time): (r: seq<Activity>)
    ensures forall a :: a in r <==> a in acts && InWindow(a, cutoff, parse)
  {
    FilterMembers(acts, (a: Activity) => InWindow(a, cutoff, parse));
    Filter(acts, (a: Activity) => InWindow(a, cutoff, parse))
  }

  /** The period entry of one contributor, or none when nothing of theirs
      falls in the window. */
  function EntryFor(c: Contributor, cutoff: int, parse: string -> Time): Option<PeriodEntry> {
    var acts := Recent(c.rawActivities, cutoff, parse);
    if acts == [] then None
    else Some(PeriodEntry(c.username, c.name, c.avatarUrl, c.role, SumBy(acts, Pts),
                          Breakdown(acts), Daily(acts), acts))
  }

  function Entries(cs: seq<Contributor>, cutoff: int, parse: string -> Time): seq<PeriodEntry> {
    FilterMap(cs, (c: Contributor) => EntryFor(c, cutoff, parse))
  }

  /** `derivePeriod`: the entries of the contributors active since the
      cutoff, largest period total first. */
  function DerivePeriod(cs: seq<Contributor>, cutoff: int, parse: string -> Time): (r: seq<PeriodEntry>)
    ensures SortedDesc(r, EntryTotal)
    ensures multiset(r) == multiset(Entries(cs, cutoff, parse))
  {
    SortDesc(Entries(cs, cutoff, parse), EntryTotal)
  }

  lemma EntriesMember(cs: seq<Contributor>, cutoff: int, parse: string -> Time, e: PeriodEntry)
    ensures e in Entries(cs, cutoff, parse) <==>
      exists k :: 0 <= k < |cs| && EntryFor(cs[k], cutoff, parse) == Some(e)
  {
    FilterMapMembers(cs, (c: Contributor) => EntryFor(c, cutoff, parse), e);
  }

  /** A contributor has a period entry exactly when one of their activities
      falls in the window. */
  lemma EntryForPresent(c: Contributor, cutoff: int, parse: string -> Time)
    ensures (exists a :: a in c.rawActivities && InWindow(a, cutoff, parse)) <==>
            EntryFor(c, cutoff, parse).Some?
  {
    var acts := Recent(c.rawActivities, cutoff, parse);
    if acts != [] {
      assert acts[0] in acts;
    }
  }

  /** Every period entry belongs to a contributor, carries that
      contributor's identity, holds exactly their activities in the window,
      none of them outside it, totals their points, and buckets them by type
      and by day so that both bucketings add up to the same count and total. */
  lemma DerivePeriodSound(cs: seq<Contributor>, cutoff: int, parse: string -> Time, e: PeriodEntry)
    requires e in DerivePeriod(cs, cutoff, parse)
    ensures e.activities != []
    ensures forall a :: a in e.activities ==> InWindow(a, cutoff, parse)
    ensures e.totalPoints == SumBy(e.activities, Pts)
    ensures exists k :: 0 <= k < |cs| && cs[k].username == e.username
              && cs[k].name == e.name && cs[k].avatarUrl == e.avatarUrl && cs[k].role == e.role
              && e.activities == Recent(cs[k].rawActivities, cutoff, parse)
    ensures e.breakdown == Breakdown(e.activities) && e.daily == Daily(e.activities)
    ensures BucketCount(e.breakdown) == DayCount(e.daily) == |e.activities|
    ensures BucketPoints(e.breakdown) == DayPoints(e.daily) == e.totalPoints
  {
    SortKeepsMembers(Entries(cs, cutoff, parse), EntryTotal);
    EntriesMember(cs, cutoff, parse, e);
    BucketTotals(e.activities);
  }

  /** Every contributor with an activity in the window has their entry in
      the period. */
  lemma DerivePeriodComplete(cs: seq<Contributor>, cutoff: int, parse: string -> Time, k: nat)
    requires k < |cs|
    requires exists a :: a in cs[k].rawActivities && InWindow(a, cutoff, parse)
    ensures EntryFor(cs[k], cutoff, parse).Some?
    ensures EntryFor(cs[k], cutoff, parse).value in DerivePeriod(cs, cutoff, parse)
  {
    EntryForPresent(cs[k], cutoff, parse);
    EntriesMember(cs, cutoff, parse, EntryFor(cs[k], cutoff, parse).value);
    SortKeepsMembers(Entries(cs, cutoff, parse), EntryTotal);
  }

  /* ---------------- recent activities ---------------- */

  datatype RecentItem = RecentItem(
    username: string,
    name: Option<string>,
    title: Option<string>,
    link: Option<string>,
    avatarUrl: string,
    points: int)

  /** The day key and item of every activity whose day does not parse to an
      instant before the cutoff, entry by entry. */
  function ActPairs(c: Contributor, acts: seq<Activity>, cutoff: int, parse: string -> Time): seq<(string, RecentItem)>
  {
    if acts == [] then []
    else
      var n := |acts| - 1;
      var a := acts[n];
      var day := DayOf(a);
      ActPairs(c, acts[..n], cutoff, parse)
        + (if Lt(parse(day), cutoff) then []
           else [(day, RecentItem(c.username, c.name, a.title, a.link, c.avatarUrl, a.points))])
  }

  function RecentPairs(cs: seq<Contributor>, cutoff: int, parse: string -> Time): seq<(string, RecentItem)>
  {
    if cs == [] then []
    else
      var n := |cs| - 1;
      RecentPairs(cs[..n], cutoff, parse) + ActPairs(cs[n], cs[n].rawActivities, cutoff, parse)
  }

  /** `generateRecentActivities`: the items grouped by day, days in order of
      first appearance. */
  function RecentActivities(cs: seq<Contributor>, cutoff: int, parse: string -> Time): seq<Group<string, RecentItem>> {
    GroupBy(RecentPairs(cs, cutoff, parse))
  }

  predicate KeptDay(a: Activity, cutoff: int, parse: string -> Time) {
    !Lt(parse(DayOf(a)), cutoff)
  }

  /** The number of activities a recent-activities run keeps. */
  function KeptCount(cs: seq<Contributor>, cutoff: int, parse: string -> Time): nat {
    if cs == [] then 0
    else
      var n := |cs| - 1;
      KeptCount(cs[..n], cutoff, parse) + Count(cs[n].rawActivities, (a: Activity) => KeptDay(a, cutoff, parse))
  }

  /** The item `c` shows for activity `a`. */
  function ItemOf(c: Contributor, a: Activity): RecentItem {
    RecentItem(c.username, c.name, a.title, a.link, c.avatarUrl, a.points)
  }

  /** The day key and item of an activity whose day is kept, nothing for
      any other. */
  function KeptPair(c: Contributor, cutoff: int, parse: string -> Time): Activity -> Option<(string, RecentItem)> {
    (a: Activity) => if KeptDay(a, cutoff, parse) then Some((DayOf(a), ItemOf(c, a))) else None
  }

  /** The item of an activity kept for day `d`, nothing for any other. */
  function DayItem(c: Contributor, d: string, cutoff: int, parse: string -> Time): Activity -> Option<RecentItem> {
    (a: Activity) => if KeptDay(a, cutoff, parse) && DayOf(a) == d then Some(ItemOf(c, a)) else None
  }

  /** The items for day `d`: contributor after contributor, and within a
      contributor activity after activity. */
  function DayItems(cs: seq<Contributor>, d: string, cutoff: int, parse: string -> Time): seq<RecentItem> {
    if cs == [] then []
    else
      var n := |cs| - 1;
      DayItems(cs[..n], d, cutoff, parse) + FilterMap(cs[n].rawActivities, DayItem(cs[n], d, cutoff, parse))
  }

  lemma {:induction false} ActPairsSpec(c: Contributor, acts: seq<Activity>, cutoff: int, parse: string -> Time)
    ensures var ps := ActPairs(c, acts, cutoff, parse);
      && |ps| == Count(acts, (a: Activity) => KeptDay(a, cutoff, parse))
      && (forall k :: 0 <= k < |ps| ==> !Lt(parse(ps[k].0), cutoff) && ps[k].1.username == c.username)
    ensures ActPairs(c, acts, cutoff, parse) == FilterMap(acts, KeptPair(c, cutoff, parse))
  {
    if acts != [] {
      var n := |acts| - 1;
      var f := KeptPair(c, cutoff, parse);
      ActPairsSpec(c, acts[..n], cutoff, parse);
      assert FilterMap(acts, f) == FilterMap(acts[..n], f) + (if f(acts[n]).Some? then [f(acts[n]).value] else []);
    }
  }

  /** A contributor's items for day `d` are the items of its activities kept
      for that day, in order. */
  lemma {:induction false} ActPairsOfDay(c: Contributor, acts: seq<Activity>, d: string, cutoff: int, parse: string -> Time)
    ensures ItemsWith(ActPairs(c, acts, cutoff, parse), d) == FilterMap(acts, DayItem(c, d, cutoff, parse))
  {
    if acts != [] {
      var n := |acts| - 1;
      var f := DayItem(c, d, cutoff, parse);
      var pre := ActPairs(c, acts[..n], cutoff, parse);
      var last := if KeptDay(acts[n], cutoff, parse) then [(DayOf(acts[n]), ItemOf(c, acts[n]))] else [];
      ActPairsOfDay(c, acts[..n], d, cutoff, parse);
      assert ActPairs(c, acts, cutoff, parse) == pre + last;
      ItemsWithAppend(pre, last, d);
      if last != [] {
        assert last[..0] == [];
      }
      assert FilterMap(acts, f) == FilterMap(acts[..n], f) + (if f(acts[n]).Some? then [f(acts[n]).value] else []);
    }
  }

  /** The pairs keyed `d` carry exactly the day's items in contributor-then-
      activity order. */
  lemma {:induction false} RecentPairsOfDay(cs: seq<Contributor>, d: string, cutoff: int, parse: string -> Time)
    ensures ItemsWith(RecentPairs(cs, cutoff, parse), d) == DayItems(cs, d, cutoff, parse)
  {
    if cs != [] {
      var n := |cs| - 1;
      RecentPairsOfDay(cs[..n], d, cutoff, parse);
      ActPairsOfDay(cs[n], cs[n].rawActivities, d, cutoff, parse);
      ItemsWithAppend(RecentPairs(cs[..n], cutoff, parse), ActPairs(cs[n], cs[n].rawActivities, cutoff, parse), d);
    }
  }

  lemma {:induction false} RecentPairsSpec(cs: seq<Contributor>, cutoff: int, parse: string -> Time)
    ensures var ps := RecentPairs(cs, cutoff, parse);
      && |ps| == KeptCount(cs, cutoff, parse)
      && (forall k :: 0 <= k < |ps| ==> !Lt(parse(ps[k].0), cutoff))
  {
    if cs != [] {
      var n := |cs| - 1;
      RecentPairsSpec(cs[..n], cutoff, parse);
      ActPairsSpec(cs[n], cs[n].rawActivities, cutoff, parse);
      var a := RecentPairs(cs[..n], cutoff, parse);
      var b := ActPairs(cs[n], cs[n].rawActivities, cutoff, parse);
      assert forall k :: |a| <= k < |a + b| ==> (a + b)[k] == b[k - |a|];
    }
  }

  /** Every kept activity lands in exactly one group, the one for its day;
      each day's group lists that day's items in input order; no group is
      for a day before the cutoff. */
  lemma RecentActivitiesSpec(cs: seq<Contributor>, cutoff: int, parse: string -> Time)
    ensures var gs := RecentActivities(cs, cutoff, parse);
      && DistinctKeys(gs)
      && Size(gs) == KeptCount(cs, cutoff, parse)
      && (forall k :: 0 <= k < |gs| ==> !Lt(parse(gs[k].key), cutoff) && gs[k].items != [])
      && (forall d :: Find(gs, d).Some? ==> Find(gs, d).value == ItemsWith(RecentPairs(cs, cutoff, parse), d))
    ensures var gs := RecentActivities(cs, cutoff, parse);
      forall d :: (Find(gs, d).Some? ==> Find(gs, d).value == DayItems(cs, d, cutoff, parse))
        && (Find(gs, d).None? ==> DayItems(cs, d, cutoff, parse) == [])
  {
    var ps := RecentPairs(cs, cutoff, parse);
    var gs := GroupBy(ps);
    RecentPairsSpec(cs, cutoff, parse);
    GroupBySize(ps);
    forall k | 0 <= k < |gs|
      ensures !Lt(parse(gs[k].key), cutoff)
    {
      GroupByContents(ps, gs[k].key);
      FindIsMember(gs, gs[k].key);
    }
    forall d
      ensures Find(gs, d).Some? ==> Find(gs, d).value == ItemsWith(ps, d) == DayItems(cs, d, cutoff, parse)
      ensures Find(gs, d).None? ==> DayItems(cs, d, cutoff, parse) == []
    {
      GroupByContents(ps, d);
      RecentPairsOfDay(cs, d, cutoff, parse);
      if !KeyOccurs(ps, d) {
        ItemsWithAbsent(ps, d);
      }
    }
  }
}
