/** Ingestion of remote events into the ledger (scripts/generateLeaderboard.ts):
    bot detection, batching, the review admission loop with its
    per-reviewer-per-pull-request de-duplication, the issue-triage gates,
    and the three search-based stages of the yearly run.

    Fetched payloads are parameters: the HTTP client, its paging, its rate
    limiting and the concurrency of `Promise.all` are outside the model. */
module Ingest {
  import opened Basics
  import opened Text
  import opened Seqs
  import opened Ledger

  const Org: string := "CircuitVerse"

  /** Point values per activity type; the table itself lives in the scoring
      engine, which is not part of this model. */
  datatype PointTable = PointTable(
    prOpened: int,
    prMerged: int,
    issueOpened: int,
    reviewSubmitted: int,
    issueLabeled: int,
    issueAssigned: int,
    issueClosed: int)

  /** `isBotUser`: a missing user or login, a `type` other than "User", or a
      login ending in "[bot]". */
  predicate IsBotUser(user: Option<Identity>) {
    || user.None?
    || user.value.login == ""
    || (user.value.kind != "" && user.value.kind != "User")
    || EndsWith(user.value.login, "[bot]")
  }

  /** `chunk(arr, size)`: consecutive slices of `size` elements, the last one
      possibly shorter. Flattening undoes it, and with the two length facts
      this determines the result. A size of 0 would make the source loop
      forever; its callers pass 5 and 10. */
  method Chunk<T>(arr: seq<T>, size: nat) returns (chunks: seq<seq<T>>)
    requires size > 0
    ensures Flatten(chunks) == arr
    ensures forall k :: 0 <= k < |chunks| ==> 0 < |chunks[k]| <= size
    ensures forall k :: 0 <= k < |chunks| - 1 ==> |chunks[k]| == size
  {
    chunks := [];
    var i := 0;
    while i < |arr|
      invariant i <= |arr|
      invariant Flatten(chunks) == arr[..i]
      invariant forall k :: 0 <= k < |chunks| ==> 0 < |chunks[k]| <= size
      invariant forall k :: 0 <= k < |chunks| ==> |chunks[k]| == size
      decreases |arr| - i
    {
      var end := if i + size <= |arr| then i + size else |arr|;
      var next := arr[i..end];
      assert (chunks + [next])[..|chunks|] == chunks;
      assert arr[..i] + next == arr[..end];
      if end < i + size {
        assert end == |arr|;
        chunks := chunks + [next];
        assert Flatten(chunks) == arr;
        return;
      }
      chunks := chunks + [next];
      i := end;
    }
    assert arr[..i] == arr;
  }

  /* ---------------- search-based stages ---------------- */

  /** A pull request or issue from the search API. */
  datatype SearchItem = SearchItem(
    user: Option<Identity>,
    createdAt: string,
    closedAt: string,
    title: string,
    htmlUrl: string)

  datatype SearchStage = PrOpened | PrMerged | IssueOpened

  function StageLabel(stage: SearchStage): string {
    match stage
    case PrOpened => "PR opened"
    case PrMerged => "PR merged"
    case IssueOpened => "Issue opened"
  }

  function StagePoints(stage: SearchStage, pts: PointTable): int {
    match stage
    case PrOpened => pts.prOpened
    case PrMerged => pts.prMerged
    case IssueOpened => pts.issueOpened
  }

  /** The activity a search item earns; merged pull requests are dated by
      `closed_at`, the others by `created_at`. */
  function SearchActivity(item: SearchItem, stage: SearchStage, pts: PointTable): Activity {
    Activity(
      StageLabel(stage),
      if stage == PrMerged then item.closedAt else item.createdAt,
      Some(item.title),
      Some(item.htmlUrl),
      StagePoints(stage, pts))
  }

  /** The item's author is a real user, so the item earns a credit. */
  predicate ByHuman(i: SearchItem) {
    !IsBotUser(i.user)
  }

  /** One of the three search loops of `generateYear`: every item whose
      author is not a bot credits its author once. */
  function SearchCredits(items: seq<SearchItem>, stage: SearchStage, pts: PointTable): (r: seq<Credit>)
    ensures |r| == Count(items, ByHuman)
    ensures forall k :: 0 <= k < |r| ==> !IsBotUser(Some(r[k].who)) && r[k].act.Some?
  {
    var kept := Filter(items, ByHuman);
    FilterLengthIsCount(items, ByHuman);
    FilterMembers(items, ByHuman);
    assert forall k :: 0 <= k < |kept| ==> ByHuman(kept[k]) by {
      forall k | 0 <= k < |kept| ensures ByHuman(kept[k]) {
        assert kept[k] in kept;
      }
    }
    seq(|kept|, k requires 0 <= k < |kept| =>
      Credit(kept[k].user.value, Some(SearchActivity(kept[k], stage, pts))))
  }

  /** The activity a search item earns login `u`: its own activity when `u`
      is its non-bot author, nothing otherwise. */
  function SearchActFor(stage: SearchStage, pts: PointTable, u: string): SearchItem -> Option<Activity> {
    (i: SearchItem) => if ByHuman(i) && i.user.value.login == u then Some(SearchActivity(i, stage, pts)) else None
  }

  lemma SearchCreditsSnoc(items: seq<SearchItem>, stage: SearchStage, pts: PointTable)
    requires items != []
    ensures var n := |items| - 1;
      SearchCredits(items, stage, pts) == SearchCredits(items[..n], stage, pts)
        + (if ByHuman(items[n]) then [Credit(items[n].user.value, Some(SearchActivity(items[n], stage, pts)))] else [])
  {
    var n := |items| - 1;
    var kept, kept0 := Filter(items, ByHuman), Filter(items[..n], ByHuman);
    assert kept == kept0 + (if ByHuman(items[n]) then [items[n]] else []);
  }

  /** A search stage gives every login, in item order, the activity of
      exactly the non-bot items it authored. */
  lemma {:induction false} SearchCreditsActs(items: seq<SearchItem>, stage: SearchStage, pts: PointTable, u: string)
    ensures CreditedActs(SearchCredits(items, stage, pts), u) == FilterMap(items, SearchActFor(stage, pts, u))
  {
    if items != [] {
      var n := |items| - 1;
      SearchCreditsActs(items[..n], stage, pts, u);
      SearchCreditsSnoc(items, stage, pts);
      var pre, r := SearchCredits(items[..n], stage, pts), SearchCredits(items, stage, pts);
      var f := SearchActFor(stage, pts, u);
      assert FilterMap(items, f) == FilterMap(items[..n], f) + (if f(items[n]).Some? then [f(items[n]).value] else []);
      if ByHuman(items[n]) {
        CreditedActsSnoc(pre, Credit(items[n].user.value, Some(SearchActivity(items[n], stage, pts))), u);
      } else {
        assert r == pre;
      }
    }
  }

  /** A search stage touches exactly the logins of the non-bot authors. */
  lemma {:induction false} SearchCreditsLogins(items: seq<SearchItem>, stage: SearchStage, pts: PointTable, u: string)
    ensures u in Logins(SearchCredits(items, stage, pts))
      <==> exists k :: 0 <= k < |items| && ByHuman(items[k]) && items[k].user.value.login == u
  {
    if items != [] {
      var n := |items| - 1;
      SearchCreditsLogins(items[..n], stage, pts, u);
      SearchCreditsSnoc(items, stage, pts);
      var pre, r := SearchCredits(items[..n], stage, pts), SearchCredits(items, stage, pts);
      if ByHuman(items[n]) {
        CreditedActsSnoc(pre, Credit(items[n].user.value, Some(SearchActivity(items[n], stage, pts))), u);
      } else {
        assert r == pre;
      }
      if exists k :: 0 <= k < n && ByHuman(items[..n][k]) && items[..n][k].user.value.login == u {
        var k :| 0 <= k < n && ByHuman(items[..n][k]) && items[..n][k].user.value.login == u;
        assert items[k] == items[..n][k];
      }
      if exists k :: 0 <= k < |items| && ByHuman(items[k]) && items[k].user.value.login == u {
        var k :| 0 <= k < |items| && ByHuman(items[k]) && items[k].user.value.login == u;
        if k < n {
          assert items[k] == items[..n][k];
        }
      }
    }
  }

  /** The effect of a search stage on the ledger, per login. */
  lemma SearchStageEffect(users: Users, items: seq<SearchItem>, stage: SearchStage, pts: PointTable, u: string)
    ensures ActivitiesOf(ApplyCredits(users, SearchCredits(items, stage, pts)), u)
      == ActivitiesOf(users, u) + FilterMap(items, SearchActFor(stage, pts, u))
    ensures Has(ApplyCredits(users, SearchCredits(items, stage, pts)), u)
      <==> Has(users, u) || exists k :: 0 <= k < |items| && ByHuman(items[k]) && items[k].user.value.login == u
  {
    SearchCreditsActs(items, stage, pts, u);
    SearchCreditsLogins(items, stage, pts, u);
    ApplyCreditsActivities(users, SearchCredits(items, stage, pts), u);
    ApplyCreditsHas(users, SearchCredits(items, stage, pts), u);
  }

  /* ---------------- reviews ---------------- */

  datatype Review = Review(user: Option<Identity>, state: string, submittedAt: string)

  /** A pull request with its reviews, as fetched. */
  datatype PullReviews = PullReviews(number: nat, author: string, reviews: seq<Review>)

  datatype RepoReviews = RepoReviews(repo: string, pulls: seq<PullReviews>)

  /** One review in the order the loop meets it. */
  datatype Candidate = Candidate(repo: string, number: nat, author: string, review: Review)

  function PullCandidates(repo: string, p: PullReviews): seq<Candidate> {
    seq(|p.reviews|, k requires 0 <= k < |p.reviews| => Candidate(repo, p.number, p.author, p.reviews[k]))
  }

  function RepoCandidates(r: RepoReviews): seq<Candidate> {
    Flatten(seq(|r.pulls|, k requires 0 <= k < |r.pulls| => PullCandidates(r.repo, r.pulls[k])))
  }

  /** Every review in loop order: repositories, then pull requests, then
      reviews. Batching the review fetches five at a time does not change
      this order, because `Promise.all` keeps its input order. */
  function Candidates(repos: seq<RepoReviews>): seq<Candidate> {
    Flatten(seq(|repos|, k requires 0 <= k < |repos| => RepoCandidates(repos[k])))
  }

  /** The skip tests of the review loop, in the source's own form. */
  predicate Eligible(c: Candidate, since: int, now: int, parse: string -> Time) {
    var u := c.review.user;
    && u.Some? && u.value.login != ""
    && !EndsWith(u.value.login, "[bot]")
    && !(u.value.kind != "" && u.value.kind != "User")
    && u.value.login != c.author
    && (c.review.state == "APPROVED" || c.review.state == "CHANGES_REQUESTED")
    && NotOutside(parse(c.review.submittedAt), since, now)
  }

  /** The loop's skip tests are the bot test, the self-review test, the state
      test and the window test. */
  lemma EligibleMeaning(c: Candidate, since: int, now: int, parse: string -> Time)
    ensures Eligible(c, since, now, parse) <==>
      && !IsBotUser(c.review.user)
      && c.review.user.value.login != c.author
      && c.review.state in {"APPROVED", "CHANGES_REQUESTED"}
      && (parse(c.review.submittedAt).Invalid? || since <= parse(c.review.submittedAt).ms <= now)
  {
  }

  /** The de-duplication key `${login}:${repo}:${number}`. */
  function ReviewKey(c: Candidate): string
    requires c.review.user.Some?
  {
    c.review.user.value.login + ":" + c.repo + ":" + NatToString(c.number)
  }

  function KeysOf(s: seq<Candidate>): set<string>
    requires forall k :: 0 <= k < |s| ==> s[k].review.user.Some?
  {
    set k | 0 <= k < |s| :: ReviewKey(s[k])
  }

  predicate HasUsers(s: seq<Candidate>) {
    forall k :: 0 <= k < |s| ==> s[k].review.user.Some?
  }

  /** Reference definition of the admitted reviews: from the eligible ones in
      loop order, keep each one whose key was not kept before. */
  function FirstPerKey(s: seq<Candidate>): (r: seq<Candidate>)
    requires HasUsers(s)
    ensures HasUsers(r)
    ensures forall k :: 0 <= k < |r| ==> r[k] in s
  {
    if s == [] then []
    else
      var n := |s| - 1;
      var r := FirstPerKey(s[..n]);
      if ReviewKey(s[n]) in KeysOf(r) then r else r + [s[n]]
  }

  function EligibleOnes(cands: seq<Candidate>, since: int, now: int, parse: string -> Time): (r: seq<Candidate>)
    ensures HasUsers(r)
  {
    var r := Filter(cands, (c: Candidate) => Eligible(c, since, now, parse));
    FilterMembers(cands, (c: Candidate) => Eligible(c, since, now, parse));
    assert forall k :: 0 <= k < |r| ==> Eligible(r[k], since, now, parse) by {
      forall k | 0 <= k < |r| ensures Eligible(r[k], since, now, parse) {
        assert r[k] in r;
      }
    }
    r
  }

  lemma EligibleOnesMembers(cands: seq<Candidate>, since: int, now: int, parse: string -> Time)
    ensures forall c :: c in EligibleOnes(cands, since, now, parse) <==> c in cands && Eligible(c, since, now, parse)
  {
    FilterMembers(cands, (c: Candidate) => Eligible(c, since, now, parse));
  }

  lemma EligibleOnesSnoc(s: seq<Candidate>, c: Candidate, since: int, now: int, parse: string -> Time)
    ensures EligibleOnes(s + [c], since, now, parse) ==
      EligibleOnes(s, since, now, parse) + (if Eligible(c, since, now, parse) then [c] else [])
  {
    FilterAppend(s, [c], (c: Candidate) => Eligible(c, since, now, parse));
    assert [c][..0] == [];
  }

  lemma FirstPerKeySnoc(e: seq<Candidate>, c: Candidate)
    requires HasUsers(e) && c.review.user.Some?
    ensures HasUsers(e + [c])
    ensures FirstPerKey(e + [c]) ==
      if ReviewKey(c) in KeysOf(FirstPerKey(e)) then FirstPerKey(e) else FirstPerKey(e) + [c]
  {
    assert (e + [c])[..|e|] == e;
  }

  lemma KeysOfSnoc(r: seq<Candidate>, c: Candidate)
    requires HasUsers(r) && c.review.user.Some?
    ensures HasUsers(r + [c])
    ensures KeysOf(r + [c]) == KeysOf(r) + {ReviewKey(c)}
  {
    var r' := r + [c];
    assert forall k :: 0 <= k < |r| ==> r'[k] == r[k];
    assert r'[|r|] == c;
  }

  /** The review loop of `fetchAllReviews`, with its `reviewSeen` set. */
  method AdmitReviews(cands: seq<Candidate>, since: int, now: int, parse: string -> Time)
    returns (admitted: seq<Candidate>)
    ensures admitted == FirstPerKey(EligibleOnes(cands, since, now, parse))
  {
    var seen: set<string> := {};
    admitted := [];
    ghost var eligible: seq<Candidate> := [];
    var i := 0;
    while i < |cands|
      invariant i <= |cands|
      invariant eligible == EligibleOnes(cands[..i], since, now, parse)
      invariant admitted == FirstPerKey(eligible)
      invariant seen == KeysOf(admitted)
    {
      var c := cands[i];
      EligibleOnesSnoc(cands[..i], c, since, now, parse);
      assert cands[..i + 1] == cands[..i] + [c];
      if Eligible(c, since, now, parse) {
        var key := c.review.user.value.login + ":" + c.repo + ":" + NatToString(c.number);
        FirstPerKeySnoc(eligible, c);
        KeysOfSnoc(admitted, c);
        if key !in seen {
          seen := seen + {key};
          admitted := admitted + [c];
        }
        eligible := eligible + [c];
      }
      i := i + 1;
    }
    assert cands[..i] == cands;
  }

  predicate KeysDistinct(r: seq<Candidate>)
    requires HasUsers(r)
  {
    forall i, j :: 0 <= i < j < |r| ==> ReviewKey(r[i]) != ReviewKey(r[j])
  }

  /** No two admitted reviews share a key. */
  lemma {:induction false} FirstPerKeyDistinct(s: seq<Candidate>)
    requires HasUsers(s)
    ensures KeysDistinct(FirstPerKey(s))
  {
    if s != [] {
      var n := |s| - 1;
      FirstPerKeyDistinct(s[..n]);
      var r := FirstPerKey(s[..n]);
      if ReviewKey(s[n]) !in KeysOf(r) {
        var r' := r + [s[n]];
        assert FirstPerKey(s) == r';
        forall i, j | 0 <= i < j < |r'| ensures ReviewKey(r'[i]) != ReviewKey(r'[j]) {
          assert r'[i] == r[i];
          if j == |r| {
            assert r'[j] == s[n];
            assert ReviewKey(r[i]) in KeysOf(r);
          } else {
            assert r'[j] == r[j];
          }
        }
      } else {
        assert FirstPerKey(s) == r;
      }
    }
  }

  /** Every candidate's key is the key of an admitted review: the first
      candidate with that key is never lost. */
  lemma {:induction false} FirstPerKeyCovers(s: seq<Candidate>)
    requires HasUsers(s)
    ensures forall k :: 0 <= k < |s| ==> ReviewKey(s[k]) in KeysOf(FirstPerKey(s))
  {
    if s != [] {
      var n := |s| - 1;
      FirstPerKeyCovers(s[..n]);
      var r := FirstPerKey(s[..n]);
      assert KeysOf(r) <= KeysOf(FirstPerKey(s)) by {
        forall x | x in KeysOf(r) ensures x in KeysOf(FirstPerKey(s)) {
          var k :| 0 <= k < |r| && ReviewKey(r[k]) == x;
          assert FirstPerKey(s)[k] == r[k];
        }
      }
      forall k | 0 <= k < |s|
        ensures ReviewKey(s[k]) in KeysOf(FirstPerKey(s))
      {
        if k < n {
          assert s[k] == s[..n][k];
        } else if ReviewKey(s[n]) !in KeysOf(r) {
          assert FirstPerKey(s)[|r|] == s[n];
        }
      }
    }
  }

  /** Keys identify the reviewer, the repository and the pull request, given
      that logins and repository names carry no colon (true of every name the
      remote service accepts). */
  lemma ReviewKeyInjective(c: Candidate, d: Candidate)
    requires c.review.user.Some? && d.review.user.Some?
    requires ':' !in c.review.user.value.login && ':' !in d.review.user.value.login
    requires ':' !in c.repo && ':' !in d.repo
    requires ReviewKey(c) == ReviewKey(d)
    ensures c.review.user.value.login == d.review.user.value.login
    ensures c.repo == d.repo && c.number == d.number
  {
    var lc, ld := c.review.user.value.login, d.review.user.value.login;
    var tc, td := c.repo + ":" + NatToString(c.number), d.repo + ":" + NatToString(d.number);
    assert ReviewKey(c) == lc + ":" + tc;
    assert ReviewKey(d) == ld + ":" + td;
    ColonSplitUnique(lc, tc, ld, td);
    ColonSplitUnique(c.repo, NatToString(c.number), d.repo, NatToString(d.number));
    NatToStringInjective(c.number, d.number);
  }

  /** What `fetchAllReviews` credits: only eligible reviews, at most one per
      reviewer per pull request, and one for every reviewer with at least one
      eligible review on a pull request. */
  lemma AdmittedReviews(cands: seq<Candidate>, since: int, now: int, parse: string -> Time)
    ensures var r := FirstPerKey(EligibleOnes(cands, since, now, parse));
      && (forall k :: 0 <= k < |r| ==> r[k] in cands && Eligible(r[k], since, now, parse))
      && KeysDistinct(r)
      && (forall i, j :: 0 <= i < j < |r| ==>
            !(r[i].review.user.value.login == r[j].review.user.value.login
              && r[i].repo == r[j].repo && r[i].number == r[j].number))
      && (forall c :: c in cands && Eligible(c, since, now, parse) ==>
            exists k :: 0 <= k < |r| && ReviewKey(r[k]) == ReviewKey(c))
  {
    var e := EligibleOnes(cands, since, now, parse);
    EligibleOnesMembers(cands, since, now, parse);
    FirstPerKeyDistinct(e);
    FirstPerKeyCovers(e);
    var r := FirstPerKey(e);
    forall c | c in cands && Eligible(c, since, now, parse)
      ensures exists k :: 0 <= k < |r| && ReviewKey(r[k]) == ReviewKey(c)
    {
      var k :| 0 <= k < |e| && e[k] == c;
      assert ReviewKey(e[k]) in KeysOf(r);
    }
  }

  /** The activity an admitted review earns. */
  function ReviewActivity(c: Candidate, pts: PointTable): Activity {
    var n := NatToString(c.number);
    Activity(
      "Review submitted",
      c.review.submittedAt,
      Some("Review on PR #" + n),
      Some("https://github.com/" + Org + "/" + c.repo + "/pull/" + n),
      pts.reviewSubmitted)
  }

  function ReviewCredits(admitted: seq<Candidate>, pts: PointTable): seq<Credit>
    requires HasUsers(admitted)
  {
    seq(|admitted|, k requires 0 <= k < |admitted| =>
      Credit(admitted[k].review.user.value, Some(ReviewActivity(admitted[k], pts))))
  }

  /* ---------------- issue triage ---------------- */

  datatype Issue = Issue(htmlUrl: string, pathname: string, author: string, title: string)

  datatype IssueEvent = IssueEvent(
    event: string,
    actor: Option<Identity>,
    createdAt: string,
    labelName: Option<string>,
    assignee: Option<string>)

  const AutomatedLabels: seq<string> :=
    ["stale", "wontfix", "duplicate", "invalid", "dependencies", "security", "github_actions"]

  /** `isAutomatedLabel`: the lower-cased name contains one of the automated
      keywords. */
  predicate IsAutomatedLabel(name: string) {
    exists k | 0 <= k < |AutomatedLabels| :: Contains(Lower(name), Lower(AutomatedLabels[k]))
  }

  /** `[org, repo, "issues", number]` with a numeric fourth segment. */
  predicate IssuePathOk(parts: seq<string>) {
    |parts| >= 4 && parts[2] == "issues" && parts[1] != "" && parts[3] != "" && IsDigits(parts[3])
  }

  /** The per-kind gate of the triage `switch`. */
  predicate TriageGate(issue: Issue, e: IssueEvent) {
    match e.event
    case "labeled" => e.labelName.Some? && e.labelName.value != "" && !IsAutomatedLabel(e.labelName.value)
    case "assigned" => e.assignee.Some? && e.actor.Some? && e.actor.value.login != e.assignee.value
    case "closed" => e.actor.Some? && e.actor.value.login != issue.author
    case _ => false
  }

  function TriageActivity(issue: Issue, number: string, e: IssueEvent, pts: PointTable,
                          sanitize: string -> string): Activity
  {
    match e.event
    case "labeled" =>
      Activity("Issue labeled", e.createdAt,
        Some("Labeled issue #" + number + ": " + e.labelName.GetOr("")), Some(issue.htmlUrl), pts.issueLabeled)
    case "assigned" =>
      Activity("Issue assigned", e.createdAt,
        Some("Assigned issue #" + number + " to " + e.assignee.GetOr("")), Some(issue.htmlUrl), pts.issueAssigned)
    case _ =>
      Activity("Issue closed", e.createdAt,
        Some("Closed issue #" + number + ": " + sanitize(issue.title)), Some(issue.htmlUrl), pts.issueClosed)
  }

  /** One event of `processIssueTriagingEvents`: nothing for a bot or an event
      outside the window; otherwise `ensureUser` for the actor, and an
      activity only when the kind's gate passes. */
  function TriageStep(issue: Issue, number: string, e: IssueEvent, since: int, now: int,
                      parse: string -> Time, pts: PointTable, sanitize: string -> string): Option<Credit>
  {
    if IsBotUser(e.actor) then None
    else if Lt(parse(e.createdAt), since) || Gt(parse(e.createdAt), now) then None
    else if TriageGate(issue, e) then Some(Credit(e.actor.value, Some(TriageActivity(issue, number, e, pts, sanitize))))
    else Some(Credit(e.actor.value, None))
  }

  function TriageSteps(issue: Issue, number: string, events: seq<IssueEvent>, since: int, now: int,
                       parse: string -> Time, pts: PointTable, sanitize: string -> string): seq<Credit>
  {
    if events == [] then []
    else
      var n := |events| - 1;
      var step := TriageStep(issue, number, events[n], since, now, parse, pts, sanitize);
      TriageSteps(issue, number, events[..n], since, now, parse, pts, sanitize)
        + (if step.Some? then [step.value] else [])
  }

  /** `processIssueTriagingEvents` for one issue and its fetched events. */
  function IssueCredits(issue: Issue, events: seq<IssueEvent>, since: int, now: int,
                        parse: string -> Time, pts: PointTable, sanitize: string -> string): seq<Credit>
  {
    var parts := Segments(issue.pathname);
    if !IssuePathOk(parts) then []
    else TriageSteps(issue, parts[3], events, since, now, parse, pts, sanitize)
  }

  /** The events of an issue that earn an activity. */
  predicate Qualifies(issue: Issue, e: IssueEvent, since: int, now: int, parse: string -> Time) {
    !IsBotUser(e.actor) && NotOutside(parse(e.createdAt), since, now) && TriageGate(issue, e)
  }

  /** Every triage credit names a non-bot actor of an in-window event, and
      the credits carrying an activity are exactly the qualifying events. */
  lemma {:induction false} TriageStepsSpec(issue: Issue, number: string, events: seq<IssueEvent>,
                                           since: int, now: int, parse: string -> Time,
                                           pts: PointTable, sanitize: string -> string)
    ensures var r := TriageSteps(issue, number, events, since, now, parse, pts, sanitize);
      && (forall k :: 0 <= k < |r| ==> !IsBotUser(Some(r[k].who)))
      && Count(r, (c: Credit) => c.act.Some?) == Count(events, (e: IssueEvent) => Qualifies(issue, e, since, now, parse))
      && |r| == Count(events, (e: IssueEvent) => !IsBotUser(e.actor) && NotOutside(parse(e.createdAt), since, now))
  {
    if events != [] {
      var n := |events| - 1;
      var prev := TriageSteps(issue, number, events[..n], since, now, parse, pts, sanitize);
      var step := TriageStep(issue, number, events[n], since, now, parse, pts, sanitize);
      TriageStepsSpec(issue, number, events[..n], since, now, parse, pts, sanitize);
      CountAppend(prev, if step.Some? then [step.value] else [], (c: Credit) => c.act.Some?);
      if step.Some? {
        assert [step.value][..0] == [];
      }
    }
  }

  predicate HasActivity(c: Credit) {
    c.act.Some?
  }

  /** The credit a qualifying event earns, and nothing for any other event. */
  function TriageEarned(issue: Issue, number: string, since: int, now: int, parse: string -> Time,
                        pts: PointTable, sanitize: string -> string): IssueEvent -> Option<Credit>
  {
    (e: IssueEvent) =>
      if Qualifies(issue, e, since, now, parse)
      then Some(Credit(e.actor.value, Some(TriageActivity(issue, number, e, pts, sanitize))))
      else None
  }

  /** The credits carrying an activity are, in event order, the actor and
      triage activity of exactly the qualifying events. */
  lemma {:induction false} TriageActivitiesInOrder(issue: Issue, number: string, events: seq<IssueEvent>,
                                                   since: int, now: int, parse: string -> Time,
                                                   pts: PointTable, sanitize: string -> string)
    ensures Filter(TriageSteps(issue, number, events, since, now, parse, pts, sanitize), HasActivity)
      == FilterMap(events, TriageEarned(issue, number, since, now, parse, pts, sanitize))
  {
    if events != [] {
      var n := |events| - 1;
      var prev := TriageSteps(issue, number, events[..n], since, now, parse, pts, sanitize);
      var step := TriageStep(issue, number, events[n], since, now, parse, pts, sanitize);
      var f := TriageEarned(issue, number, since, now, parse, pts, sanitize);
      TriageActivitiesInOrder(issue, number, events[..n], since, now, parse, pts, sanitize);
      FilterAppend(prev, if step.Some? then [step.value] else [], HasActivity);
      assert FilterMap(events, f) == FilterMap(events[..n], f) + (if f(events[n]).Some? then [f(events[n]).value] else []);
      if step.Some? {
        assert [step.value][..0] == [];
      }
    }
  }

  /** Nothing is credited for an issue whose URL path is not
      `/<org>/<repo>/issues/<number>`. */
  lemma TriageNeedsIssuePath(issue: Issue, events: seq<IssueEvent>, since: int, now: int,
                             parse: string -> Time, pts: PointTable, sanitize: string -> string)
    ensures var parts := Segments(issue.pathname);
      !(|parts| >= 4 && parts[2] == "issues" && IsDigits(parts[3])) ==>
        IssueCredits(issue, events, since, now, parse, pts, sanitize) == []
  {
  }

  /** Issues with their fetched events, processed in order. Within one batch
      the source runs them concurrently; the model fixes one completion
      order. */
  function AllIssueCredits(issues: seq<(Issue, seq<IssueEvent>)>, since: int, now: int,
                           parse: string -> Time, pts: PointTable, sanitize: string -> string): seq<Credit>
  {
    if issues == [] then []
    else
      var n := |issues| - 1;
      AllIssueCredits(issues[..n], since, now, parse, pts, sanitize)
        + IssueCredits(issues[n].0, issues[n].1, since, now, parse, pts, sanitize)
  }

  /* ---------------- the yearly run ---------------- */

  /** The fetched inputs of one run of `generateYear`. */
  datatype RunInputs = RunInputs(
    prsOpened: seq<SearchItem>,
    prsMerged: seq<SearchItem>,
    issuesOpened: seq<SearchItem>,
    reviews: seq<RepoReviews>,
    triage: seq<(Issue, seq<IssueEvent>)>)

  /** Every credit of a run, in the order of the stages. */
  function RunCredits(inp: RunInputs, since: int, now: int, parse: string -> Time,
                      pts: PointTable, sanitize: string -> string): seq<Credit>
  {
    var admitted := FirstPerKey(EligibleOnes(Candidates(inp.reviews), since, now, parse));
    SearchCredits(inp.prsOpened, PrOpened, pts)
      + SearchCredits(inp.prsMerged, PrMerged, pts)
      + SearchCredits(inp.issuesOpened, IssueOpened, pts)
      + ReviewCredits(admitted, pts)
      + AllIssueCredits(inp.triage, since, now, parse, pts, sanitize)
  }

  /** A previously written year file, as far as the run reads it. */
  datatype YearFile = YearFile(lastFetchedAt: Option<int>, entries: seq<StoredEntry>)

  /** The ledger of a run before the scoring engine's final recalculation:
      the run's credits, then, when the previous year file carries a
      `lastFetchedAt`, its stored activities. */
  function RunLedger(inp: RunInputs, existing: Option<YearFile>, since: int, now: int,
                     parse: string -> Time, pts: PointTable, sanitize: string -> string): Users
  {
    var users := ApplyCredits([], RunCredits(inp, since, now, parse, pts, sanitize));
    var incremental := existing.Some? && existing.value.lastFetchedAt.Some?;
    MergeExisting(users, if incremental then Some(existing.value.entries) else None)
  }

  /** The start of the fetch window: `lastFetchedAt` when it is set and
      non-zero, otherwise 365 days back (`yearAgo`). */
  function FetchStart(existing: Option<YearFile>, yearAgo: int): (since: int)
    ensures existing.Some? && existing.value.lastFetchedAt.Some? && existing.value.lastFetchedAt.value != 0
      ==> since == existing.value.lastFetchedAt.value
    ensures existing.None? ==> since == yearAgo
    ensures !(existing.Some? && existing.value.lastFetchedAt.Some? && existing.value.lastFetchedAt.value != 0)
      ==> since == yearAgo
  {
    if existing.Some? && existing.value.lastFetchedAt.Some? && existing.value.lastFetchedAt.value != 0
    then existing.value.lastFetchedAt.value
    else yearAgo
  }

  /** No credit of `cs` names a bot. */
  predicate NoBots(cs: seq<Credit>) {
    forall k :: 0 <= k < |cs| ==> !IsBotUser(Some(cs[k].who))
  }

  lemma NoBotsAppend(a: seq<Credit>, b: seq<Credit>)
    requires NoBots(a) && NoBots(b)
    ensures NoBots(a + b)
  {
    assert forall k :: 0 <= k < |a| ==> (a + b)[k] == a[k];
    assert forall k :: |a| <= k < |a + b| ==> (a + b)[k] == b[k - |a|];
  }

  lemma {:induction false} IssueCreditsNoBot(issues: seq<(Issue, seq<IssueEvent>)>, since: int, now: int,
                                             parse: string -> Time, pts: PointTable, sanitize: string -> string)
    ensures NoBots(AllIssueCredits(issues, since, now, parse, pts, sanitize))
  {
    if issues != [] {
      var n := |issues| - 1;
      IssueCreditsNoBot(issues[..n], since, now, parse, pts, sanitize);
      var parts := Segments(issues[n].0.pathname);
      if IssuePathOk(parts) {
        TriageStepsSpec(issues[n].0, parts[3], issues[n].1, since, now, parse, pts, sanitize);
      }
      NoBotsAppend(AllIssueCredits(issues[..n], since, now, parse, pts, sanitize),
                   IssueCredits(issues[n].0, issues[n].1, since, now, parse, pts, sanitize));
    }
  }

  lemma {:induction false} NoBotCreditedActs(cs: seq<Credit>, u: string)
    requires NoBots(cs)
    requires EndsWith(u, "[bot]")
    ensures CreditedActs(cs, u) == []
  {
    if cs != [] {
      assert NoBots(cs[..|cs| - 1]) by {
        assert forall k :: 0 <= k < |cs| - 1 ==> cs[..|cs| - 1][k] == cs[k];
      }
      NoBotCreditedActs(cs[..|cs| - 1], u);
      assert !IsBotUser(Some(cs[|cs| - 1].who));
    }
  }

  /** Every credit of a run names a non-bot. */
  lemma RunCreditsNoBot(inp: RunInputs, since: int, now: int,
                        parse: string -> Time, pts: PointTable, sanitize: string -> string)
    ensures NoBots(RunCredits(inp, since, now, parse, pts, sanitize))
  {
    var cands := Candidates(inp.reviews);
    var admitted := FirstPerKey(EligibleOnes(cands, since, now, parse));
    var rc := ReviewCredits(admitted, pts);
    EligibleOnesMembers(cands, since, now, parse);
    forall k | 0 <= k < |rc| ensures !IsBotUser(Some(rc[k].who)) {
      assert admitted[k] in EligibleOnes(cands, since, now, parse);
    }
    IssueCreditsNoBot(inp.triage, since, now, parse, pts, sanitize);
    var a := SearchCredits(inp.prsOpened, PrOpened, pts);
    var b := SearchCredits(inp.prsMerged, PrMerged, pts);
    var c := SearchCredits(inp.issuesOpened, IssueOpened, pts);
    NoBotsAppend(a, b);
    NoBotsAppend(a + b, c);
    NoBotsAppend(a + b + c, rc);
    NoBotsAppend(a + b + c + rc, AllIssueCredits(inp.triage, since, now, parse, pts, sanitize));
  }

  /** A login ending in "[bot]" earns nothing from a run, however many
      qualifying events it produced: its list holds only what the previous
      year file stored for it. */
  lemma BotsEarnNothing(inp: RunInputs, existing: Option<YearFile>, since: int, now: int,
                        parse: string -> Time, pts: PointTable, sanitize: string -> string, u: string)
    requires EndsWith(u, "[bot]")
    ensures ActivitiesOf(RunLedger(inp, existing, since, now, parse, pts, sanitize), u) ==
      if existing.Some? && existing.value.lastFetchedAt.Some? then Persisted(existing.value.entries, u) else []
  {
    var cs := RunCredits(inp, since, now, parse, pts, sanitize);
    RunCreditsNoBot(inp, since, now, parse, pts, sanitize);
    NoBotCreditedActs(cs, u);
    ApplyCreditsActivities([], cs, u);
    var users := ApplyCredits([], cs);
    assert ActivitiesOf(users, u) == [];
    if existing.Some? && existing.value.lastFetchedAt.Some? {
      MergeEntriesActivities(users, existing.value.entries, u);
    }
  }
}
