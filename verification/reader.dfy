/** The read side of lib/db.ts: activities of a period file grouped by type
    with per-item slugs and repository names, newest first; the weekly
    buckets of the last month; the count of the month before; and the
    latest `updatedAt` over the generated files.

    Reading and parsing files is left out: a file arrives already parsed,
    or as absent. `new Date(text)` is the `parse` parameter and date-fns'
    `differenceInDays(now, date)` the `age` parameter (None for NaN). */
module Reader {
  import opened Basics
  import opened Text
  import opened Seqs
  import opened Grouping

  /* ---------------- repository names in links ---------------- */

  const Host: string := "github.com/"

  /** The end of the run of non-slash characters starting at `j`. */
  function RunEnd(s: string, j: nat): (k: nat)
    requires j <= |s|
    ensures j <= k <= |s|
    ensures forall m :: j <= m < k ==> s[m] != '/'
    ensures k < |s| ==> s[k] == '/'
    decreases |s| - j
  {
    if j == |s| || s[j] == '/' then j else RunEnd(s, j + 1)
  }

  /** The regular expression `github\.com\/[^/]+\/([^/]+)` tried at position
      `i`: the captured repository name, if it matches there. */
  function MatchAt(s: string, i: nat): Option<string>
    requires i <= |s|
  {
    if !(i + |Host| <= |s| && s[i..i + |Host|] == Host) then None
    else
      var k := RunEnd(s, i + |Host|);
      if k == i + |Host| || k == |s| then None
      else
        var m := RunEnd(s, k + 1);
        if m == k + 1 then None else Some(s[k + 1..m])
  }

  /** The leftmost match at or after position `i`. */
  function FirstMatch(s: string, i: nat): Option<string>
    requires i <= |s|
    decreases |s| - i
  {
    if MatchAt(s, i).Some? then MatchAt(s, i)
    else if i == |s| then None
    else FirstMatch(s, i + 1)
  }

  /** `extractRepoFromUrl`. */
  function ExtractRepo(url: Option<string>): Option<string> {
    if url.None? || url.value == "" then None else FirstMatch(url.value, 0)
  }

  predicate NoSlash(t: string) {
    forall m :: 0 <= m < |t| ==> t[m] != '/'
  }

  /** At position `i` of `s` stands `github.com/<owner>/<repo>` with
      non-empty, slash-free owner and repository, the repository ending at
      the end of `s` or at a slash. */
  ghost predicate LinkAt(s: string, i: nat, owner: string, repo: string) {
    var end := i + |Host| + |owner| + 1 + |repo|;
    && end <= |s|
    && s[i..end] == Host + owner + "/" + repo
    && owner != [] && NoSlash(owner)
    && repo != [] && NoSlash(repo)
    && (end == |s| || s[end] == '/')
  }

  lemma RunEndOfSlashFree(s: string, j: nat, t: string)
    requires j + |t| <= |s| && s[j..j + |t|] == t && NoSlash(t)
    requires j + |t| == |s| || s[j + |t|] == '/'
    ensures RunEnd(s, j) == j + |t|
    decreases |t|
  {
    if t != [] {
      assert s[j] == t[0];
      assert s[j + 1..j + |t|] == t[1..];
      RunEndOfSlashFree(s, j + 1, t[1..]);
    }
  }

  /** A match at `i` is a link at `i`, the owner running up to the next
      slash. */
  lemma MatchAtIsLink(s: string, i: nat)
    requires i <= |s| && MatchAt(s, i).Some?
    ensures LinkAt(s, i, s[i + |Host|..RunEnd(s, i + |Host|)], MatchAt(s, i).value)
  {
    var k := RunEnd(s, i + |Host|);
    var m := RunEnd(s, k + 1);
    var owner, repo := s[i + |Host|..k], s[k + 1..m];
    assert s[i..m] == s[i..i + |Host|] + owner + "/" + repo;
  }

  /** A piece of a slice is the slice of the piece. */
  lemma SliceOfSlice(s: string, i: nat, w: string, lo: nat, hi: nat)
    requires i + |w| <= |s| && s[i..i + |w|] == w && lo <= hi <= |w|
    ensures s[i + lo..i + hi] == w[lo..hi]
  {
    forall m | 0 <= m < hi - lo
      ensures s[i + lo..i + hi][m] == w[lo..hi][m]
    {
      assert s[i + lo + m] == s[i..i + |w|][lo + m];
    }
  }

  lemma LinkParts(owner: string, repo: string)
    ensures var w := Host + owner + "/" + repo;
      && w[..|Host|] == Host
      && w[|Host|..|Host| + |owner|] == owner
      && w[|Host| + |owner|..|Host| + |owner| + 1] == "/"
      && w[|Host| + |owner| + 1..] == repo
  {
  }

  /** A link at `i` is a match at `i`, capturing its repository. */
  lemma LinkIsMatchAt(s: string, i: nat, owner: string, repo: string)
    requires i <= |s| && LinkAt(s, i, owner, repo)
    ensures MatchAt(s, i) == Some(repo)
  {
    var j := i + |Host|;
    var k := j + |owner|;
    var w := Host + owner + "/" + repo;
    LinkParts(owner, repo);
    SliceOfSlice(s, i, w, 0, |Host|);
    SliceOfSlice(s, i, w, |Host|, |Host| + |owner|);
    SliceOfSlice(s, i, w, |Host| + |owner|, |Host| + |owner| + 1);
    SliceOfSlice(s, i, w, |Host| + |owner| + 1, |w|);
    assert s[k] == s[k..k + 1][0];
    RunEndOfSlashFree(s, j, owner);
    RunEndOfSlashFree(s, k + 1, repo);
  }

  lemma NoLinkAt(s: string, i: nat)
    requires i <= |s| && MatchAt(s, i).None?
    ensures forall owner, repo :: !LinkAt(s, i, owner, repo)
  {
    forall owner, repo | LinkAt(s, i, owner, repo)
      ensures false
    {
      LinkIsMatchAt(s, i, owner, repo);
    }
  }

  /** The extracted name is the repository of the leftmost link in the URL,
      and there is none exactly when the URL is absent, empty or holds no
      link. */
  lemma {:induction false} FirstMatchSpec(s: string, i: nat)
    requires i <= |s|
    ensures var r := FirstMatch(s, i);
      && (r.Some? ==> exists p, owner :: i <= p <= |s| && LinkAt(s, p, owner, r.value)
                        && forall q, o, t :: i <= q < p ==> !LinkAt(s, q, o, t))
      && (r.None? ==> forall p, owner, repo :: i <= p <= |s| ==> !LinkAt(s, p, owner, repo))
    decreases |s| - i
  {
    if MatchAt(s, i).Some? {
      MatchAtIsLink(s, i);
    } else {
      NoLinkAt(s, i);
    }
    if MatchAt(s, i).None? && i < |s| {
      FirstMatchSpec(s, i + 1);
      var r := FirstMatch(s, i + 1);
      if r.Some? {
        var p, owner :| i + 1 <= p <= |s| && LinkAt(s, p, owner, r.value)
                        && forall q, o, t :: i + 1 <= q < p ==> !LinkAt(s, q, o, t);
        assert forall q, o, t :: i <= q < p ==> !LinkAt(s, q, o, t);
      }
    }
  }

  lemma ExtractRepoSpec(url: Option<string>)
    ensures var r := ExtractRepo(url);
      && (r.Some? ==> url.Some? && r.value != [] && NoSlash(r.value)
                      && exists p: nat, owner :: p <= |url.value| && LinkAt(url.value, p, owner, r.value)
                           && forall q: nat, o, t :: q < p ==> !LinkAt(url.value, q, o, t))
      && (r.None? <==> url.None? || url.value == "" ||
                       forall p: nat, owner, repo :: p <= |url.value| ==> !LinkAt(url.value, p, owner, repo))
  {
    if url.Some? && url.value != "" {
      FirstMatchSpec(url.value, 0);
      var r := ExtractRepo(url);
      if r.Some? {
        var p: nat, owner :| p <= |url.value| && LinkAt(url.value, p, owner, r.value);
      }
    }
  }

  /* ---------------- activities grouped by type ---------------- */

  /** A stored activity as a period file holds it. */
  datatype StoredAct = StoredAct(
    kind: string,
    occuredAt: string,
    title: Option<string>,
    link: Option<string>,
    points: Option<int>)

  /** An entry of a period file: `activities` in week and month files,
      `raw_activities` in the year file. */
  datatype UserData = UserData(
    username: string,
    name: Option<string>,
    avatarUrl: Option<string>,
    role: Option<string>,
    activities: Option<seq<StoredAct>>,
    rawActivities: Option<seq<StoredAct>>)

  datatype ActivityItem = ActivityItem(
    slug: string,
    contributor: string,
    contributorName: Option<string>,
    contributorAvatarUrl: Option<string>,
    contributorRole: Option<string>,
    occuredAt: string,
    title: Option<string>,
    link: Option<string>,
    repo: Option<string>,
    points: int)

  datatype ActivityGroup = ActivityGroup(definition: string, items: seq<ActivityItem>)

  /** `user.activities || user.raw_activities`: a present array wins, even
      an empty one. */
  function ActsOf(u: UserData): seq<StoredAct> {
    if u.activities.Some? then u.activities.value else u.rawActivities.GetOr([])
  }

  function UserPairs(u: UserData): seq<(string, (UserData, StoredAct))> {
    var acts := ActsOf(u);
    seq(|acts|, j requires 0 <= j < |acts| => (acts[j].kind, (u, acts[j])))
  }

  /** Every activity of every entry, keyed by type, in file order. */
  function TypePairs(users: seq<UserData>): seq<(string, (UserData, StoredAct))> {
    if users == [] then []
    else
      var n := |users| - 1;
      TypePairs(users[..n]) + UserPairs(users[n])
  }

  /** The slug `${username}-${type}-${occured_at}-${index}`. */
  function Slug(u: UserData, a: StoredAct, index: nat): string {
    u.username + "-" + a.kind + "-" + a.occuredAt + "-" + NatToString(index)
  }

  function MakeItem(u: UserData, a: StoredAct, index: nat): ActivityItem {
    ActivityItem(Slug(u, a, index), u.username, u.name, u.avatarUrl, u.role, a.occuredAt,
      a.title, a.link, ExtractRepo(a.link), a.points.GetOr(0))
  }

  /** The items of one group in push order; the index in the slug is the
      group's length at the push. */
  function ItemsOf(vals: seq<(UserData, StoredAct)>): (r: seq<ActivityItem>)
    ensures |r| == |vals|
  {
    seq(|vals|, k requires 0 <= k < |vals| => MakeItem(vals[k].0, vals[k].1, k))
  }

  /** The sort key of the newest-first sort; an unparsable timestamp sorts
      as the epoch. */
  function TimeKey(t: Time): int {
    if t.At? then t.ms else 0
  }

  /** `getRecentActivitiesGroupedByType` on a parsed file (None when the
      file does not exist). */
  function GroupedByType(file: Option<seq<UserData>>, parse: string -> Time): (r: seq<ActivityGroup>)
    ensures file.None? || file.value == [] ==> r == []
  {
    if file.None? || file.value == [] then []
    else
      var gs := GroupBy(TypePairs(file.value));
      seq(|gs|, k requires 0 <= k < |gs| =>
        ActivityGroup(gs[k].key, SortDesc(ItemsOf(gs[k].items), (it: ActivityItem) => TimeKey(parse(it.occuredAt)))))
  }

  /** The part of `s` after its last dash (all of `s` when it has none). */
  function AfterLastDash(s: string): string {
    if s == [] || s[|s| - 1] == '-' then [] else AfterLastDash(s[..|s| - 1]) + [s[|s| - 1]]
  }

  /** The suffix after the last dash is recovered from `p + "-" + d` when
      `d` has no dash, so a slug determines its index. */
  lemma {:induction false} AfterLastDashOf(p: string, d: string)
    requires '-' !in d
    ensures AfterLastDash(p + "-" + d) == d
  {
    var s := p + "-" + d;
    if d == [] {
      assert s[|s| - 1] == '-';
    } else {
      var n := |d| - 1;
      assert s[..|s| - 1] == p + "-" + d[..n];
      assert d[n] in d;
      AfterLastDashOf(p, d[..n]);
      assert d == d[..n] + [d[n]];
    }
  }

  function SlugOf(it: ActivityItem): string { it.slug }

  /** Within a group, slugs are pairwise distinct: they end in distinct
      indices. */
  lemma ItemsOfDistinctSlugs(vals: seq<(UserData, StoredAct)>)
    ensures DistinctBy(ItemsOf(vals), SlugOf)
  {
    var items := ItemsOf(vals);
    forall i, j | 0 <= i < j < |items|
      ensures SlugOf(items[i]) != SlugOf(items[j])
    {
      if items[i].slug == items[j].slug {
        var u1, a1 := vals[i].0, vals[i].1;
        var u2, a2 := vals[j].0, vals[j].1;
        assert '-' !in NatToString(i) && '-' !in NatToString(j);
        assert Slug(u1, a1, i) == (u1.username + "-" + a1.kind + "-" + a1.occuredAt) + "-" + NatToString(i);
        assert Slug(u2, a2, j) == (u2.username + "-" + a2.kind + "-" + a2.occuredAt) + "-" + NatToString(j);
        AfterLastDashOf(u1.username + "-" + a1.kind + "-" + a1.occuredAt, NatToString(i));
        AfterLastDashOf(u2.username + "-" + a2.kind + "-" + a2.occuredAt, NatToString(j));
        NatToStringInjective(i, j);
      }
    }
  }

  /** Each activity type has one group, holding one item per activity of
      that type in file order (then sorted newest first), with distinct
      slugs. */
  lemma GroupedByTypeSpec(users: seq<UserData>, parse: string -> Time)
    requires users != []
    ensures var r := GroupedByType(Some(users), parse);
      var pairs := TypePairs(users);
      && (forall i, j :: 0 <= i < j < |r| ==> r[i].definition != r[j].definition)
      && (forall k :: 0 <= k < |r| ==>
            && multiset(r[k].items) == multiset(ItemsOf(ItemsWith(pairs, r[k].definition)))
            && SortedDesc(r[k].items, (it: ActivityItem) => TimeKey(parse(it.occuredAt)))
            && DistinctBy(r[k].items, SlugOf))
      && (forall i :: 0 <= i < |pairs| ==> exists k :: 0 <= k < |r| && r[k].definition == pairs[i].0)
  {
    var pairs := TypePairs(users);
    var gs := GroupBy(pairs);
    var r := GroupedByType(Some(users), parse);
    forall k | 0 <= k < |r|
      ensures multiset(r[k].items) == multiset(ItemsOf(ItemsWith(pairs, r[k].definition)))
      ensures DistinctBy(r[k].items, SlugOf)
    {
      GroupByContents(pairs, gs[k].key);
      FindIsMember(gs, gs[k].key);
      ItemsOfDistinctSlugs(gs[k].items);
      DistinctByPermuted(ItemsOf(gs[k].items), r[k].items, SlugOf);
    }
    forall i | 0 <= i < |pairs|
      ensures exists k :: 0 <= k < |r| && r[k].definition == pairs[i].0
    {
      GroupByContents(pairs, pairs[i].0);
      FindIsMember(gs, pairs[i].0);
      var k :| 0 <= k < |gs| && gs[k].key == pairs[i].0;
      assert r[k].definition == gs[k].key;
    }
  }

  /** All items of all groups: `month.flatMap(g => g.activities)`. */
  function AllItems(groups: seq<ActivityGroup>): seq<ActivityItem> {
    if groups == [] then [] else groups[0].items + AllItems(groups[1..])
  }

  lemma {:induction false} AllItemsSize(r: seq<ActivityGroup>, gs: seq<Group<string, (UserData, StoredAct)>>)
    requires |r| == |gs| && forall k :: 0 <= k < |r| ==> |r[k].items| == |gs[k].items|
    ensures |AllItems(r)| == Size(gs)
  {
    if r != [] {
      AllItemsSize(r[1..], gs[1..]);
    }
  }

  function ActCount(u: UserData): int { |ActsOf(u)| }

  /** Every activity of every entry becomes one pair, keyed by its type. */
  lemma {:induction false} TypePairsSpec(users: seq<UserData>)
    ensures |TypePairs(users)| == SumBy(users, ActCount)
    ensures forall i :: 0 <= i < |TypePairs(users)| ==>
      && TypePairs(users)[i].0 == TypePairs(users)[i].1.1.kind
      && TypePairs(users)[i].1.0 in users
      && TypePairs(users)[i].1.1 in ActsOf(TypePairs(users)[i].1.0)
    ensures TypePairs(users) == Flatten(seq(|users|, i requires 0 <= i < |users| =>
      seq(|ActsOf(users[i])|, j requires 0 <= j < |ActsOf(users[i])| =>
        (ActsOf(users[i])[j].kind, (users[i], ActsOf(users[i])[j])))))
  {
    if users != [] {
      var n := |users| - 1;
      TypePairsSpec(users[..n]);
      var pre, last := TypePairs(users[..n]), UserPairs(users[n]);
      var all := TypePairs(users);
      assert all == pre + last;
      var per := seq(|users|, i requires 0 <= i < |users| =>
        seq(|ActsOf(users[i])|, j requires 0 <= j < |ActsOf(users[i])| =>
          (ActsOf(users[i])[j].kind, (users[i], ActsOf(users[i])[j]))));
      var prePer := seq(n, i requires 0 <= i < n =>
        seq(|ActsOf(users[..n][i])|, j requires 0 <= j < |ActsOf(users[..n][i])| =>
          (ActsOf(users[..n][i])[j].kind, (users[..n][i], ActsOf(users[..n][i])[j]))));
      assert per[..n] == prePer;
      assert per[n] == last;
      assert per == per[..n] + [per[n]];
      forall i | 0 <= i < |all|
        ensures all[i].1.0 in users
      {
        if i < |pre| {
          assert all[i] == pre[i];
          assert pre[i].1.0 in users[..n];
        }
      }
    }
  }

  /** Grouping loses and duplicates nothing: the groups hold as many items
      as the entries hold activities. */
  lemma GroupedByTypeCount(users: seq<UserData>, parse: string -> Time)
    requires users != []
    ensures |AllItems(GroupedByType(Some(users), parse))| == SumBy(users, ActCount)
  {
    var gs := GroupBy(TypePairs(users));
    AllItemsSize(GroupedByType(Some(users), parse), gs);
    GroupBySize(TypePairs(users));
    TypePairsSpec(users);
  }

  /* ---------------- monthly buckets ---------------- */

  datatype MonthBuckets = MonthBuckets(w1: nat, w2: nat, w3: nat, w4: nat)

  /** The age in days lies in `[lo, hi)`; a NaN age lies nowhere. */
  predicate AgeIn(d: Option<int>, lo: int, hi: int) {
    d.Some? && lo <= d.value < hi
  }

  /** The item's age lies in `[lo, hi)`. */
  function AgedIn(age: string -> Option<int>, lo: int, hi: int): ActivityItem -> bool {
    (it: ActivityItem) => AgeIn(age(it.occuredAt), lo, hi)
  }

  /** `getMonthlyActivityBuckets` on the flattened month items. */
  method MonthlyBuckets(items: seq<ActivityItem>, age: string -> Option<int>) returns (b: MonthBuckets)
    ensures b.w1 == Count(items, AgedIn(age, 0, 7))
    ensures b.w2 == Count(items, AgedIn(age, 7, 14))
    ensures b.w3 == Count(items, AgedIn(age, 14, 21))
    ensures b.w4 == Count(items, AgedIn(age, 21, 30))
  {
    b := MonthBuckets(0, 0, 0, 0);
    var i := 0;
    while i < |items|
      invariant i <= |items|
      invariant b.w1 == Count(items[..i], AgedIn(age, 0, 7))
      invariant b.w2 == Count(items[..i], AgedIn(age, 7, 14))
      invariant b.w3 == Count(items[..i], AgedIn(age, 14, 21))
      invariant b.w4 == Count(items[..i], AgedIn(age, 21, 30))
    {
      assert items[..i + 1][..i] == items[..i];
      var daysAgo := age(items[i].occuredAt);
      if daysAgo.Some? && daysAgo.value >= 0 {
        if daysAgo.value < 7 {
          b := b.(w1 := b.w1 + 1);
        } else if daysAgo.value < 14 {
          b := b.(w2 := b.w2 + 1);
        } else if daysAgo.value < 21 {
          b := b.(w3 := b.w3 + 1);
        } else if daysAgo.value < 30 {
          b := b.(w4 := b.w4 + 1);
        }
      }
      i := i + 1;
    }
    assert items[..i] == items;
  }

  /** The four buckets split the last thirty days: together they count
      every item aged 0 to 29 days, each once. */
  lemma {:induction false} BucketsPartitionMonth(items: seq<ActivityItem>, age: string -> Option<int>)
    ensures Count(items, AgedIn(age, 0, 7))
          + Count(items, AgedIn(age, 7, 14))
          + Count(items, AgedIn(age, 14, 21))
          + Count(items, AgedIn(age, 21, 30))
         == Count(items, AgedIn(age, 0, 30))
  {
    if items != [] {
      var n := |items| - 1;
      BucketsPartitionMonth(items[..n], age);
      var d := age(items[n].occuredAt);
      assert AgedIn(age, 0, 30)(items[n]) == AgeIn(d, 0, 30);
      assert AgedIn(age, 0, 7)(items[n]) == AgeIn(d, 0, 7);
      assert AgedIn(age, 7, 14)(items[n]) == AgeIn(d, 7, 14);
      assert AgedIn(age, 14, 21)(items[n]) == AgeIn(d, 14, 21);
      assert AgedIn(age, 21, 30)(items[n]) == AgeIn(d, 21, 30);
    }
  }

  /** `getPreviousMonthActivityCount` on the flattened two-month items. */
  method PreviousMonthCount(items: seq<ActivityItem>, age: string -> Option<int>) returns (count: nat)
    ensures count == Count(items, AgedIn(age, 30, 60))
  {
    count := 0;
    var i := 0;
    while i < |items|
      invariant i <= |items|
      invariant count == Count(items[..i], AgedIn(age, 30, 60))
    {
      assert items[..i + 1][..i] == items[..i];
      var daysAgo := age(items[i].occuredAt);
      if daysAgo.Some? && daysAgo.value >= 30 && daysAgo.value < 60 {
        count := count + 1;
      }
      i := i + 1;
    }
    assert items[..i] == items;
  }

  /* ---------------- latest update time ---------------- */

  /** A file of the leaderboard directory: `stamp` is None when the file
      cannot be parsed, Some(None) when it has no `updatedAt`. */
  datatype DataFile = DataFile(name: string, stamp: Option<Option<int>>)

  /** The files a reader looks at: every `.json` file except the recent
      activities file. */
  predicate ListedName(name: string) {
    EndsWith(name, ".json") && name != "recent-activities.json"
  }

  predicate Considered(f: DataFile) {
    ListedName(f.name)
  }

  /** The `updatedAt` a file contributes, when it contributes one. */
  predicate StampOf(f: DataFile, t: int) {
    Considered(f) && f.stamp == Some(Some(t))
  }

  /** The fold of `getUpdatedTime`: the largest positive `updatedAt`, or 0
      when there is none. */
  method LatestStamp(files: seq<DataFile>) returns (latest: int)
    ensures latest >= 0
    ensures forall k, t :: 0 <= k < |files| && StampOf(files[k], t) ==> t <= latest
    ensures latest == 0 || exists k :: 0 <= k < |files| && StampOf(files[k], latest)
  {
    latest := 0;
    var i := 0;
    while i < |files|
      invariant i <= |files| && latest >= 0
      invariant forall k, t :: 0 <= k < i && StampOf(files[k], t) ==> t <= latest
      invariant latest == 0 || exists k :: 0 <= k < i && StampOf(files[k], latest)
    {
      var f := files[i];
      if Considered(f) && f.stamp.Some? && f.stamp.value.Some? {
        var t := f.stamp.value.value;
        if t != 0 && t > latest {
          latest := t;
        }
      }
      i := i + 1;
    }
  }

  /** `getUpdatedTime`: None when the directory is missing or no file has a
      positive `updatedAt`, otherwise the latest one. */
  method UpdatedTime(dir: Option<seq<DataFile>>) returns (r: Option<int>)
    ensures dir.None? ==> r.None?
    ensures r.Some? ==> r.value > 0 && exists k :: 0 <= k < |dir.value| && StampOf(dir.value[k], r.value)
    ensures r.Some? ==> forall k, t :: 0 <= k < |dir.value| && StampOf(dir.value[k], t) ==> t <= r.value
    ensures dir.Some? && r.None? ==> forall k, t :: 0 <= k < |dir.value| && StampOf(dir.value[k], t) ==> t <= 0
  {
    if dir.None? {
      return None;
    }
    var latest := LatestStamp(dir.value);
    r := if latest > 0 then Some(latest) else None;
  }
}
