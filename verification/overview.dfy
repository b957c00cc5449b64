/** The repository overview of scripts/generateLeaderboard.ts
    (`generateRepoOverview`): per repository, issues created and pull
    requests opened in the last 30 days, pull requests merged in the last 30
    days and in the 30 before, and the growth between the two. */
module Overview {
  import opened Basics
  import opened Seqs
  import opened Ledger
  import opened Ingest

  /** An item of the repository issues listing; pull requests appear in it
      too, marked by `pull_request`. */
  datatype IssueItem = IssueItem(isPull: bool, createdAt: string, user: Option<Identity>)

  /** A pull request of a pulls listing; `mergedAt` is "" when unmerged. */
  datatype PullItem = PullItem(createdAt: string, mergedAt: string, user: Option<Identity>)

  /** One page of the paged pulls listing: its items, or a non-OK response. */
  datatype Page = Fetched(prs: seq<PullItem>) | NotOk

  const PerPage: nat := 100

  /** The issues created since `start` by non-bots; an unparsable date is not
      counted, since comparisons with an invalid date are false. */
  predicate CreatedIssue(i: IssueItem, start: int, parse: string -> Time) {
    !i.isPull && Ge(parse(i.createdAt), start) && !IsBotUser(i.user)
  }

  function IssuesCreated(items: seq<IssueItem>, start: int, parse: string -> Time): nat {
    Count(items, (i: IssueItem) => CreatedIssue(i, start, parse))
  }

  /** The pull requests `fetchPRsOpened` reads, page after page: it stops at a
      non-OK response, an empty page or a page shorter than 100 items. The
      end of `pages` stands for the empty page the service returns past the
      last one. */
  function Scanned(pages: seq<Page>): seq<PullItem>
  {
    if pages == [] then []
    else match pages[0]
      case NotOk => []
      case Fetched(prs) =>
        if prs == [] then []
        else if |prs| < PerPage then prs
        else prs + Scanned(pages[1..])
  }

  /** Reference count of the opened-PR loop: non-bot pull requests up to the
      first one created before `start`. */
  function CountUntilOld(prs: seq<PullItem>, start: int, parse: string -> Time): nat
  {
    if prs == [] then 0
    else if Lt(parse(prs[0].createdAt), start) then 0
    else (if IsBotUser(prs[0].user) then 0 else 1) + CountUntilOld(prs[1..], start, parse)
  }

  /** `fetchPRsOpened`: the paging loop with its early exit. */
  method PrsOpened(pages: seq<Page>, start: int, parse: string -> Time) returns (count: nat)
    ensures count == CountUntilOld(Scanned(pages), start, parse)
  {
    count := 0;
    var p := 0;
    while p < |pages|
      invariant p <= |pages|
      invariant CountUntilOld(Scanned(pages), start, parse) == count + CountUntilOld(Scanned(pages[p..]), start, parse)
      decreases |pages| - p
    {
      assert pages[p..][1..] == pages[p + 1..];
      match pages[p]
      case NotOk =>
        return;
      case Fetched(prs) =>
        if prs == [] {
          return;
        }
        ghost var tail: seq<PullItem> := if |prs| < PerPage then [] else Scanned(pages[p + 1..]);
        assert Scanned(pages[p..]) == prs + tail;
        var j := 0;
        while j < |prs|
          invariant j <= |prs|
          invariant CountUntilOld(Scanned(pages), start, parse) == count + CountUntilOld(prs[j..] + tail, start, parse)
        {
          assert (prs[j..] + tail)[0] == prs[j];
          assert (prs[j..] + tail)[1..] == prs[j + 1..] + tail;
          var pr := prs[j];
          if Lt(parse(pr.createdAt), start) {
            return;
          }
          if !IsBotUser(pr.user) {
            count := count + 1;
          }
          j := j + 1;
        }
        assert prs[j..] + tail == tail;
        if |prs| < PerPage {
          return;
        }
        p := p + 1;
    }
    assert Scanned(pages[p..]) == [];
  }

  /** The pull requests created since `start` by non-bots. */
  predicate OpenedSince(pr: PullItem, start: int, parse: string -> Time) {
    Ge(parse(pr.createdAt), start) && !IsBotUser(pr.user)
  }

  ghost predicate NewestFirst(prs: seq<PullItem>, parse: string -> Time) {
    && (forall k :: 0 <= k < |prs| ==> parse(prs[k].createdAt).At?)
    && (forall i, j :: 0 <= i < j < |prs| ==> parse(prs[i].createdAt).ms >= parse(prs[j].createdAt).ms)
  }

  lemma {:induction false} CountOfOld(prs: seq<PullItem>, start: int, parse: string -> Time)
    requires NewestFirst(prs, parse)
    requires prs != [] && Lt(parse(prs[0].createdAt), start)
    ensures Count(prs, (pr: PullItem) => OpenedSince(pr, start, parse)) == 0
  {
    var n := |prs| - 1;
    if n > 0 {
      CountOfOld(prs[..n], start, parse);
    }
  }

  /** With the listing sorted newest first and every date valid, the early
      exit loses nothing: the loop counts exactly the non-bot pull requests
      created since `start`. */
  lemma {:induction false} EarlyExitIsSound(prs: seq<PullItem>, start: int, parse: string -> Time)
    requires NewestFirst(prs, parse)
    ensures CountUntilOld(prs, start, parse) == Count(prs, (pr: PullItem) => OpenedSince(pr, start, parse))
  {
    if prs != [] {
      var p := (pr: PullItem) => OpenedSince(pr, start, parse);
      CountAppend([prs[0]], prs[1..], p);
      assert [prs[0]] + prs[1..] == prs;
      assert Count([prs[0]], p) == if p(prs[0]) then 1 else 0 by {
        assert [prs[0]][..0] == [];
      }
      if Lt(parse(prs[0].createdAt), start) {
        CountOfOld(prs, start, parse);
      } else {
        EarlyExitIsSound(prs[1..], start, parse);
      }
    }
  }

  /** Merged in the current window `[currentStart, now]`. */
  predicate MergedCurrent(pr: PullItem, currentStart: int, now: int, parse: string -> Time) {
    pr.mergedAt != "" && !IsBotUser(pr.user) && Ge(parse(pr.mergedAt), currentStart) && Le(parse(pr.mergedAt), now)
  }

  /** Merged in the previous window `[previousStart, currentStart)`. */
  predicate MergedPrevious(pr: PullItem, previousStart: int, currentStart: int, parse: string -> Time) {
    pr.mergedAt != "" && !IsBotUser(pr.user) && Ge(parse(pr.mergedAt), previousStart) && Lt(parse(pr.mergedAt), currentStart)
  }

  /** `fetchPRsMerge`. */
  method PrsMerged(prs: seq<PullItem>, currentStart: int, previousStart: int, now: int, parse: string -> Time)
    returns (current: nat, previous: nat)
    ensures current == Count(prs, (pr: PullItem) => MergedCurrent(pr, currentStart, now, parse))
    ensures previous == Count(prs, (pr: PullItem) => MergedPrevious(pr, previousStart, currentStart, parse))
  {
    current, previous := 0, 0;
    var i := 0;
    while i < |prs|
      invariant i <= |prs|
      invariant current == Count(prs[..i], (pr: PullItem) => MergedCurrent(pr, currentStart, now, parse))
      invariant previous == Count(prs[..i], (pr: PullItem) => MergedPrevious(pr, previousStart, currentStart, parse))
    {
      assert prs[..i + 1][..i] == prs[..i];
      var pr := prs[i];
      if pr.mergedAt != "" && !IsBotUser(pr.user) {
        var mergedAt := parse(pr.mergedAt);
        if Ge(mergedAt, currentStart) && Le(mergedAt, now) {
          current := current + 1;
        }
        if Ge(mergedAt, previousStart) && Lt(mergedAt, currentStart) {
          previous := previous + 1;
        }
      }
      i := i + 1;
    }
    assert prs[..i] == prs;
  }

  /** Merged anywhere in `[previousStart, now]`. */
  predicate MergedEither(pr: PullItem, previousStart: int, now: int, parse: string -> Time) {
    pr.mergedAt != "" && !IsBotUser(pr.user) && Ge(parse(pr.mergedAt), previousStart) && Le(parse(pr.mergedAt), now)
  }

  /** The two windows split the sixty days without overlap: no pull request
      is counted twice, and together they count every merge since
      `previousStart`. */
  lemma {:induction false} WindowsPartition(prs: seq<PullItem>, currentStart: int, previousStart: int, now: int,
                                            parse: string -> Time)
    requires previousStart <= currentStart <= now
    ensures Count(prs, (pr: PullItem) => MergedCurrent(pr, currentStart, now, parse))
          + Count(prs, (pr: PullItem) => MergedPrevious(pr, previousStart, currentStart, parse))
         == Count(prs, (pr: PullItem) => MergedEither(pr, previousStart, now, parse))
  {
    if prs != [] {
      WindowsPartition(prs[..|prs| - 1], currentStart, previousStart, now, parse);
    }
  }

  datatype RepoMeta = RepoMeta(
    description: Option<string>,
    language: Option<string>,
    ownerAvatar: Option<string>,
    htmlUrl: string,
    stars: nat,
    forks: nat)

  /** What the three fetchers and the metadata request return for one
      repository. `meta` is None when the metadata response is not OK; a
      listing is None when its request throws. */
  datatype RepoFetch = RepoFetch(
    name: string,
    meta: Option<RepoMeta>,
    issues: Option<seq<IssueItem>>,
    pulls: Option<seq<Page>>,
    closed: Option<seq<PullItem>>)

  datatype RepoStats = RepoStats(
    name: string,
    description: Option<string>,
    language: Option<string>,
    avatarUrl: string,
    htmlUrl: string,
    stars: nat,
    forks: nat,
    prOpened: nat,
    prMerged: nat,
    issueCreated: nat,
    currentTotal: nat,
    previousMerged: nat,
    growthMerged: int)

  predicate Succeeds(f: RepoFetch) {
    f.meta.Some? && f.issues.Some? && f.pulls.Some? && f.closed.Some?
  }

  datatype Window = Window(currentStart: int, previousStart: int, now: int)

  function Stats(f: RepoFetch, w: Window, parse: string -> Time): RepoStats
    requires Succeeds(f)
  {
    var m := f.meta.value;
    var issues := IssuesCreated(f.issues.value, w.currentStart, parse);
    var openedPrs := CountUntilOld(Scanned(f.pulls.value), w.currentStart, parse);
    var merged := Count(f.closed.value, (pr: PullItem) => MergedCurrent(pr, w.currentStart, w.now, parse));
    var prev := Count(f.closed.value, (pr: PullItem) => MergedPrevious(pr, w.previousStart, w.currentStart, parse));
    RepoStats(f.name, m.description, m.language, m.ownerAvatar.GetOr(""), m.htmlUrl, m.stars, m.forks,
      openedPrs, merged, issues, issues + openedPrs + merged, prev, merged - prev)
  }

  /** The `res` array of `generateRepoOverview`: one entry per repository in
      listing order, skipping those whose metadata failed or whose fetches
      threw. */
  function RepoOverview(fs: seq<RepoFetch>, w: Window, parse: string -> Time): seq<RepoStats>
  {
    if fs == [] then []
    else
      var n := |fs| - 1;
      RepoOverview(fs[..n], w, parse) + (if Succeeds(fs[n]) then [Stats(fs[n], w, parse)] else [])
  }

  lemma {:induction false} RepoOverviewAppend(a: seq<RepoFetch>, b: seq<RepoFetch>, w: Window, parse: string -> Time)
    ensures RepoOverview(a + b, w, parse) == RepoOverview(a, w, parse) + RepoOverview(b, w, parse)
    decreases |b|
  {
    if b == [] {
      assert a + b == a;
    } else {
      assert (a + b)[..|a + b| - 1] == a + b[..|b| - 1];
      RepoOverviewAppend(a, b[..|b| - 1], w, parse);
    }
  }

  /** A repository that fails is skipped and changes nothing else. */
  lemma SkipsFailedRepo(a: seq<RepoFetch>, f: RepoFetch, b: seq<RepoFetch>, w: Window, parse: string -> Time)
    requires !Succeeds(f)
    ensures RepoOverview(a + [f] + b, w, parse) == RepoOverview(a, w, parse) + RepoOverview(b, w, parse)
  {
    RepoOverviewAppend(a + [f], b, w, parse);
    RepoOverviewAppend(a, [f], w, parse);
    FailedRepoAlone(f, w, parse);
  }

  lemma FailedRepoAlone(f: RepoFetch, w: Window, parse: string -> Time)
    requires !Succeeds(f)
    ensures RepoOverview([f], w, parse) == []
  {
    assert [f][..0] == [];
  }

  /** Every overview entry belongs to a repository whose fetches succeeded,
      in listing order, and satisfies the overview's arithmetic: the current
      total is the sum of the three current counts and the growth is the
      change in merges between the windows. */
  lemma {:induction false} RepoOverviewEntries(fs: seq<RepoFetch>, w: Window, parse: string -> Time)
    ensures var r := RepoOverview(fs, w, parse);
      && |r| == Count(fs, Succeeds)
      && (forall k :: 0 <= k < |r| ==>
            && r[k].currentTotal == r[k].prOpened + r[k].prMerged + r[k].issueCreated
            && r[k].growthMerged == r[k].prMerged - r[k].previousMerged
            && exists f :: f in fs && Succeeds(f) && f.name == r[k].name)
    ensures var r, kept := RepoOverview(fs, w, parse), Filter(fs, Succeeds);
      && |r| == |kept|
      && forall k :: 0 <= k < |r| ==> Succeeds(kept[k]) && r[k] == Stats(kept[k], w, parse)
  {
    if fs != [] {
      var n := |fs| - 1;
      RepoOverviewEntries(fs[..n], w, parse);
      var r := RepoOverview(fs, w, parse);
      var r0 := RepoOverview(fs[..n], w, parse);
      var kept, kept0 := Filter(fs, Succeeds), Filter(fs[..n], Succeeds);
      assert kept == kept0 + (if Succeeds(fs[n]) then [fs[n]] else []);
      forall k | 0 <= k < |r|
        ensures Succeeds(kept[k]) && r[k] == Stats(kept[k], w, parse)
      {
        if k < |r0| {
          assert r[k] == r0[k] && kept[k] == kept0[k];
        }
      }
      forall k | 0 <= k < |r|
        ensures exists f :: f in fs && Succeeds(f) && f.name == r[k].name
      {
        if k < |r0| {
          assert r[k] == r0[k];
          var f :| f in fs[..n] && Succeeds(f) && f.name == r0[k].name;
          assert f in fs;
        } else {
          assert fs[n] in fs;
        }
      }
    }
  }

  /** `fetchPRsOpened` followed by the overview arithmetic agree with the
      method: the stats of a repository use the loop's count. */
  method RepoStatsOf(f: RepoFetch, w: Window, parse: string -> Time) returns (r: Option<RepoStats>)
    ensures Succeeds(f) <==> r.Some?
    ensures r.Some? ==> r.value == Stats(f, w, parse)
  {
    if f.meta.None? || f.issues.None? || f.pulls.None? || f.closed.None? {
      return None;
    }
    var issues := IssuesCreated(f.issues.value, w.currentStart, parse);
    var openedPrs := PrsOpened(f.pulls.value, w.currentStart, parse);
    var merged, prev := PrsMerged(f.closed.value, w.currentStart, w.previousStart, w.now, parse);
    var m := f.meta.value;
    r := Some(RepoStats(f.name, m.description, m.language, m.ownerAvatar.GetOr(""), m.htmlUrl, m.stars, m.forks,
      openedPrs, merged, issues, issues + openedPrs + merged, prev, merged as int - prev));
  }
}
