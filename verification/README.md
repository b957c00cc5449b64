# Community dashboard leaderboard — a Dafny model

This project models the deterministic core of a community dashboard that
ranks an organisation's GitHub contributors. It covers five parts:

- **The batch job** (`scripts/generateLeaderboard.ts`) turns fetched pull
  requests, issues, reviews and issue events into a per-login ledger of
  scored activities. It merges the activities persisted by the previous
  run and writes the year entries. From the year entries it derives the
  week and month periods and the recent-activities-by-day file, and it
  computes a per-repository overview.
- **Leaderboard ordering** (`lib/leaderboard.ts`): `sortEntries` with its
  three-level comparator.
- **The read side** (`lib/db.ts`):
  - grouping a period file's activities by type, newest first;
  - extracting a repository name from a link;
  - the four weekly buckets of the last month and the previous-month count;
  - the latest `updatedAt` across the data files.
- **The people endpoint** (`app/api/people/route.ts`): a case-insensitive
  bot test and a per-username max-by-points merge across leaderboard
  files, plus the latest timestamp and a descending sort.
- **The pagination of an activity group**
  (`components/PaginatedActivitySection.tsx`): a state machine over
  (current page, window start) with a window of three page buttons and a
  trailing last-page/ellipsis rule.

Everything is pure. Three things become parameters:

- the fetched payloads are sequences;
- `new Date(text)` becomes `parse: string -> Time`, with
  `Time = Invalid | At(ms)`;
- `differenceInDays(now, ·)` becomes `age: string -> Option<int>`, with
  `None` for NaN.

JavaScript `Map`s and JSON objects become association lists in insertion
order. Modules follow the source:

| module | file | contents |
|---|---|---|
| `Basics` | `basics.dfy` | `Option`, `Time`, and JavaScript's date comparisons, which are false on an invalid date |
| `Text` | `text.dfy` | prefix/suffix/substring tests, ASCII lower-casing, path segments, decimal digits, lexicographic order |
| `Seqs` | `seqs.dfy` | count, filter, sums, flatten, a stable descending sort, distinctness by key |
| `Grouping` | `grouping.dfy` | group-by-key in first-appearance order; this is how the source fills a `Map` or object |
| `Ledger` | `ledger.dfy` | the contributor ledger, `ensureUser`/`addActivity` as used by the job, `mergeExistingActivities` |
| `Ingest` | `ingest.dfy` | `isBotUser`, `chunk`, the search stages, review admission, triage admission, one yearly run |
| `Overview` | `overview.dfy` | `fetchIssuesCreated`, `fetchPRsOpened`, `fetchPRsMerge`, the repository overview |
| `Periods` | `periods.dfy` | the year entries, `derivePeriod`, `generateRecentActivities` |
| `Ranking` | `ranking.dfy` | `getActivityCount`, `sortEntries` |
| `Reader` | `reader.dfy` | `lib/db.ts` |
| `People` | `people.dfy` | `app/api/people/route.ts` |
| `Pagination` | `pagination.dfy` | `components/PaginatedActivitySection.tsx` |

Where the written description of the system and the code disagree, the
model follows the code:

- **Unparsable review and triage timestamps are kept.** The window test in
  `fetchAllReviews` and `processIssueTriagingEvents` is written as "skip if
  before `since` or after `now`". Both comparisons are false for an invalid
  date, so such an event is kept, not discarded (`Basics.NotOutside`).
- **Unparsable timestamps are dropped elsewhere.** `derivePeriod` keeps an
  activity only if `date >= cutoff`, so one with an unparsable timestamp is
  dropped. `generateRecentActivities` skips an activity only if
  `day < cutoff`, so one with an unparsable day is kept.

## Model

| member | source | states |
|---|---|---|
| Basics.NotOutsideMeaning | scripts/generateLeaderboard.ts:123-124 | The "skip if before since or after now" test lets an event through exactly when its timestamp is invalid or lies in [since, now]. |
| Ingest.Chunk | scripts/generateLeaderboard.ts:52-58 | Concatenating the chunks gives back the array. Every chunk is non-empty and holds at most `size` elements. Every chunk but the last holds exactly `size`. |
| Ingest.SearchCredits | scripts/generateLeaderboard.ts:514-557 | A search stage yields one credit per non-bot item and nothing for bot items (`isBotUser`: missing or empty login, a type other than "User", or a login ending in "[bot]"); every credit carries an activity. |
| Ingest.SearchCreditsActs | scripts/generateLeaderboard.ts:514-557 | The activities a search stage credits to a login are, in item order, the stage's activity for exactly the non-bot items that login authored: label and points of the stage, `closed_at` as the date for merged pull requests and `created_at` otherwise, the item's title and URL. |
| Ingest.SearchCreditsLogins | scripts/generateLeaderboard.ts:514-557 | A search stage touches a login exactly when some non-bot item was authored by it. |
| Ingest.SearchStageEffect | scripts/generateLeaderboard.ts:514-557 | After a search stage each login's activities are its earlier ones followed by those of its non-bot items in order, and a login has a record exactly when it had one or authored a non-bot item. |
| Ingest.EligibleMeaning | scripts/generateLeaderboard.ts:109-124 | A review is eligible exactly when four things hold: the reviewer is not a bot; the reviewer is not the PR author; the state is APPROVED or CHANGES_REQUESTED; the submission time is invalid or in [since, now]. |
| Ingest.AdmitReviews | scripts/generateLeaderboard.ts:109-137 | The review loop admits exactly the first eligible review for each reviewer:repo:PR key, in fetch order. |
| Ingest.FirstPerKeyDistinct | scripts/generateLeaderboard.ts:126-129 | No two admitted reviews share a key. |
| Ingest.FirstPerKeyCovers | scripts/generateLeaderboard.ts:126-129 | Every key among the eligible reviews is represented among the admitted ones. |
| Ingest.ReviewKeyInjective | scripts/generateLeaderboard.ts:127 | For colon-free logins and repository names, equal keys mean the same reviewer, repository and PR number. |
| Ingest.AdmittedReviews | scripts/generateLeaderboard.ts:112-129 | Every admitted review is an eligible input review. No two admitted reviews share a reviewer, repository and PR. Every eligible review's key is admitted, so a reviewer who submits many rounds on one PR is credited once. |
| Ingest.TriageStepsSpec | scripts/generateLeaderboard.ts:359-415 | Every triage credit names a non-bot actor. There is one credit (an `ensureUser`) per non-bot event not outside the window, and the number carrying an activity equals the number of qualifying events: non-bot, in the window, and past the per-kind gate. The gates are: labeled with a non-automated label; assigned to someone other than the actor; closed by someone other than the issue author. |
| Ingest.TriageActivitiesInOrder | scripts/generateLeaderboard.ts:359-415 | The credits carrying an activity are, in event order, exactly the qualifying events, each credited to its actor with the labeled, assigned or closed activity built from the issue number, label, assignee or sanitised title, the issue URL and the kind's points. |
| Ingest.TriageNeedsIssuePath | scripts/generateLeaderboard.ts:345-353 | An issue whose URL path is not `/<org>/<repo>/issues/<number>` with a numeric number yields no credit at all. |
| Ingest.FetchStart | scripts/generateLeaderboard.ts:499-511 | The fetch starts at `lastFetchedAt` when the previous year file carries a non-zero one, and 365 days back in every other case: no previous file, no `lastFetchedAt`, or a stored 0 (a stored 0 still counts as incremental for the merge, since `isIncremental` only tests for presence). |
| Ingest.IssueCreditsNoBot | scripts/generateLeaderboard.ts:359-365 | No triage credit of any issue names a bot. |
| Ingest.RunCreditsNoBot | scripts/generateLeaderboard.ts:513-563 | No credit of a whole run (searches, reviews, triage) names a bot. |
| Ingest.BotsEarnNothing | scripts/generateLeaderboard.ts:45-49 | A login ending in "[bot]" gains no activity from a run. Its list in the ledger is exactly what the previous year file stored for it, and empty on a full fetch. |
| Ledger.EnsureRecord | scripts/generateLeaderboard.ts:463-476 | Creating a record adds a zero-state contributor only for an unseen login. It keeps logins unique and changes no one's activities. |
| Ledger.EnsureUser | scripts/generateLeaderboard.ts:132 | After `ensureUser` the login is present. Other logins' presence and every activity list are unchanged, and logins stay unique. |
| Ledger.AddActivity | scripts/generateLeaderboard.ts:131-137 | `addActivity` appends the activity to that user's list and changes no other user's list. |
| Ledger.ApplyCreditsActivities | scripts/generateLeaderboard.ts:513-563 | After a run's credits, each user's list is their prior list followed by the activities credited to them, in order. |
| Ledger.ApplyCreditsHas | scripts/generateLeaderboard.ts:365 | A login is in the ledger after the run exactly when it was before or some credit names it, including credits without an activity. |
| Ledger.ApplyCreditsUnique | scripts/generateLeaderboard.ts:495 | Logins stay unique in the ledger. |
| Ledger.MergeEntriesActivities | scripts/generateLeaderboard.ts:461-483 | After the merge, each username's list is its in-run list followed by all its persisted activities, in file order. |
| Ledger.MergeEntriesHas | scripts/generateLeaderboard.ts:461-476 | A username is in the ledger after the merge exactly when it was in the run or in the stored file. |
| Ledger.MergeEntriesShape | scripts/generateLeaderboard.ts:461-483 | Existing records keep every field except their list. Created records come after them, with zero totals and empty buckets, for stored usernames. |
| Ledger.MergeExistingEffect | scripts/generateLeaderboard.ts:455-485 | Without a previous file the merge is a no-op. Otherwise it appends each username's stored activities to their list, and no other user's list changes. |
| Overview.PrsOpened | scripts/generateLeaderboard.ts:175-201 | The paging loop counts the PRs created since the start. It stops at the first older PR and after a short page. |
| Overview.CountOfOld | scripts/generateLeaderboard.ts:192 | On a newest-first listing that starts with an old PR, nothing in the listing counts. |
| Overview.EarlyExitIsSound | scripts/generateLeaderboard.ts:191-194 | On a newest-first listing, counting up to the first old PR equals counting every PR opened since the start. |
| Overview.PrsMerged | scripts/generateLeaderboard.ts:204-221 | The loop's two counters are the numbers of non-bot merged PRs in [currentStart, now] and in [previousStart, currentStart). |
| Overview.WindowsPartition | scripts/generateLeaderboard.ts:212-218 | The two windows never count a PR twice. Together they count every merge in [previousStart, now]. |
| Overview.RepoOverviewEntries | scripts/generateLeaderboard.ts:257-282 | The overview is, in listing order, the stats of exactly the repositories whose four fetches succeeded; a repository with a failed fetch contributes nothing. Each entry's current total is issues plus PRs opened plus PRs merged. Its growth is current merges minus previous merges. |
| Overview.RepoOverviewAppend | scripts/generateLeaderboard.ts:249-289 | Repositories are processed independently, in listing order. |
| Overview.SkipsFailedRepo | scripts/generateLeaderboard.ts:252-255 | A repository whose metadata request fails or whose fetch throws is skipped without affecting the others. |
| Overview.RepoStatsOf | scripts/generateLeaderboard.ts:257-282 | A repository has a record exactly when all its requests succeed. The record uses the counts of the three fetchers. |
| Periods.YearEntries | scripts/generateLeaderboard.ts:575-577 | The year entries are exactly the contributors with positive total points, ordered by total points non-increasing. |
| Periods.Recent | scripts/generateLeaderboard.ts:619-621 | The activities kept for a period are exactly those whose timestamp parses to an instant at or after the cutoff. |
| Periods.EntryForPresent | scripts/generateLeaderboard.ts:619-622 | A contributor has a period entry exactly when one of their activities falls in the window. |
| Periods.DerivePeriod | scripts/generateLeaderboard.ts:657-658 | The period's entries are a permutation of the per-contributor entries, ordered by total points non-increasing. |
| Periods.DerivePeriodSound | scripts/generateLeaderboard.ts:617-656 | Every period entry comes from an input contributor and carries that contributor's username, name, avatar and role. It holds exactly that contributor's activities in the window, at least one, none outside it. Its total is the sum of their points. Its breakdown and daily buckets are those activities bucketed by type and by day, and each bucketing adds up to the activity count and to the total. |
| Periods.DerivePeriodComplete | scripts/generateLeaderboard.ts:617-657 | Every contributor with an in-window activity has an entry in the period. |
| Periods.BreakdownContents | scripts/generateLeaderboard.ts:633-639 | The breakdown has one bucket per activity type present, and every type present has one. Each bucket holds the count and point sum of that type's activities. |
| Periods.DailyContents | scripts/generateLeaderboard.ts:628-643 | There is exactly one daily bucket per distinct date prefix (text before "T"). Each holds the count and point sum of that day's activities. |
| Periods.BucketTotals | scripts/generateLeaderboard.ts:628-644 | Breakdown counts and daily counts each sum to the number of activities bucketed. Breakdown points and daily points each sum to those activities' points. |
| Periods.SummariesTotals | scripts/generateLeaderboard.ts:638-643 | The bucket totals equal the groups' total size and weight. |
| Periods.GroupedByKey | scripts/generateLeaderboard.ts:633-643 | Grouping by a key gives each key's activities in input order, and every activity's key has a group. |
| Periods.RecentActivitiesSpec | scripts/generateLeaderboard.ts:686-711 | Recent activities have one group per day, no group for a day before the cutoff, and as many items as kept activities. The group for a day holds, contributor after contributor and activity after activity, the item of every activity kept for that day; a day without such an activity has no group. |
| Periods.RecentPairsOfDay | scripts/generateLeaderboard.ts:688-703 | The items keyed by a day are, in contributor-then-activity order, the items of exactly the activities whose day is that day and not before the cutoff. |
| Periods.RecentPairsSpec | scripts/generateLeaderboard.ts:688-703 | One keyed item per activity whose day is not before the cutoff, and none for the others; no key is before the cutoff. |
| Periods.ActPairsSpec | scripts/generateLeaderboard.ts:689-702 | A contributor's pairs are, in order, the day and item of exactly its activities whose day is not before the cutoff. The item carries the contributor's username, name and avatar with the activity's title, link and points. |
| Periods.ActPairsOfDay | scripts/generateLeaderboard.ts:689-702 | A contributor's items for one day are, in order, those of its activities kept for that day. |
| Ranking.LookupFinds | lib/leaderboard.ts:6 | The bucket lookup finds the bucket stored under a key, and finds nothing when no bucket has it. |
| Ranking.ActivityCountOfBreakdown | lib/leaderboard.ts:5-7 | For a breakdown built by `derivePeriod`, `getActivityCount` is the number of activities of that type, 0 when none. |
| Ranking.PrecedesTotal | lib/leaderboard.ts:10-28 | The comparator relates every two entries. |
| Ranking.PrecedesTransitive | lib/leaderboard.ts:10-28 | The comparator is transitive. |
| Ranking.PrecedesAntisymmetric | lib/leaderboard.ts:22-26 | Two entries that each precede the other agree on the key, the points and the username. |
| Ranking.SortEntries | lib/leaderboard.ts:9-30 | The result is a permutation of the input. It is ordered by the selected key descending, then total points descending, then username ascending. |
| Ranking.PointsTiesByUsername | lib/leaderboard.ts:12-26 | Sorting by points, entries with equal points appear in ascending username order. |
| Ranking.OrderedUnique | lib/leaderboard.ts:22-26 | With distinct usernames there is only one ordering of a set of entries by this comparator. |
| Ranking.SortEntriesIsTheOrdering | lib/leaderboard.ts:9-30 | With distinct usernames, `sortEntries` returns the one permutation ordered by the comparator, whatever sorting algorithm is used. |
| Reader.RunEnd | lib/db.ts:41 | `[^/]+` extends to the next slash or the end of the text. |
| Reader.FirstMatchSpec | lib/db.ts:41 | The scan finds the leftmost `github.com/<owner>/<repo>` occurrence, or reports that there is none. |
| Reader.ExtractRepoSpec | lib/db.ts:38-43 | For a missing or empty link the result is null. Otherwise it is the non-empty, slash-free `<repo>` of the leftmost `github.com/<owner>/<repo>` match. It is null exactly when no such match exists. |
| Reader.GroupedByType | lib/db.ts:56-61 | A missing file or a file without entries gives no groups. |
| Reader.TypePairsSpec | lib/db.ts:65-69 | The keyed activities are, user after user in file order and activity after activity within a user, each activity paired with its type and its user, so every activity is visited exactly once. A user's `activities` are read when present, otherwise `raw_activities`. |
| Reader.ItemsOfDistinctSlugs | lib/db.ts:82 | Within a group, slugs are distinct, because each ends in the item's index. |
| Reader.GroupedByTypeSpec | lib/db.ts:63-106 | Each activity type has one group, and every type present has one. A group holds exactly one item per activity of its type, as a permutation. The items are sorted newest first and carry distinct slugs. |
| Reader.GroupedByTypeCount | lib/db.ts:65-94 | The groups together hold exactly as many items as there are activities. |
| Reader.MonthlyBuckets | lib/db.ts:148-163 | The four buckets count the activities aged [0,7), [7,14), [14,21) and [21,30) days. |
| Reader.BucketsPartitionMonth | lib/db.ts:152-162 | The four buckets together count exactly the activities aged [0,30) days. Negative, NaN and older ages count nowhere. |
| Reader.PreviousMonthCount | lib/db.ts:173-183 | The count is the number of activities aged [30,60) days. |
| Reader.LatestStamp | lib/db.ts:120-132 | The fold gives a non-negative upper bound of every considered file's positive `updatedAt`. That bound is 0 or attained by some file. |
| Reader.UpdatedTime | lib/db.ts:113-134 | There is no result without the directory. A result is the maximum positive `updatedAt` over `.json` files other than the recent-activities file. There is no result when none is positive. |
| People.BotTestIgnoresCase | app/api/people/route.ts:42-50 | The bot test gives the same answer for a username and its lower-cased form. |
| People.OfferEffect | app/api/people/route.ts:56-59 | Offering an entry replaces the kept one only when it has strictly more points, adds it when its username is new, and keeps usernames distinct. |
| People.MergeEntriesShape | app/api/people/route.ts:28-59 | The merged list has one entry per username. Every entry comes from a file and is not a bot. |
| People.MergeEntriesAbsent | app/api/people/route.ts:52-59 | A username is missing from the merge exactly when it is a bot or appears in no file. |
| People.MergeEntriesLookup | app/api/people/route.ts:56-59 | The kept entry for a username has the maximum points among all its entries. It is the first such entry seen, because the comparison is strict. |
| People.Get | app/api/people/route.ts:22-82 | The response is a server error exactly when the directory cannot be read. `updatedAt` is the latest positive `updatedAt` over the files, or 0. `people` is a permutation of the merged entries, ordered by points non-increasing. |
| People.PeopleSpec | app/api/people/route.ts:40-67 | `people` holds at most one entry per username and no bot. Each entry is the first maximum-points entry for its username. Every non-bot username of a listed file is present. |
| Pagination.TotalPages | components/PaginatedActivitySection.tsx:86 | `totalPages` is the ceiling of the item count over the page size. |
| Pagination.Slice | components/PaginatedActivitySection.tsx:87-89 | The slice is the contiguous range from the start index up to the end index, cut off at the end of the list. |
| Pagination.PageItems | components/PaginatedActivitySection.tsx:87-89 | A page holds at most `itemsPerPage` activities. |
| Pagination.PagesPartition | components/PaginatedActivitySection.tsx:86-89 | Pages 1 to `totalPages` read one after another give back the whole list, each activity once and in order. |
| Pagination.GoToNext | components/PaginatedActivitySection.tsx:98-108 | `goToNext` never moves past `totalPages`. Below the last page it advances by one. It preserves the window invariant. |
| Pagination.GoToPrevious | components/PaginatedActivitySection.tsx:111-121 | `goToPrevious` never moves below 1. Above page 1 it steps back by one. It preserves the window invariant. |
| Pagination.GoToPage | components/PaginatedActivitySection.tsx:124-134 | `goToPage` moves to the target. It leaves the window alone when the target is already inside it. For a target in [1, totalPages] it preserves the window invariant. |
| Pagination.PageNumbers | components/PaginatedActivitySection.tsx:137-145 | The page buttons are consecutive pages from `windowStart`: at most three, none above `totalPages`. A page has a button exactly when it lies in the window. |
| Pagination.TrailingRule | components/PaginatedActivitySection.tsx:283-310 | Under the invariant the current page has a button. The trailing part is empty exactly when the last page is in the window. It shows the ellipsis exactly when some page lies between the window and the last page. |
| Pagination.SessionKeepsInv | components/PaginatedActivitySection.tsx:98-145 | Any sequence of clicks on offered buttons keeps the window on real pages and around the current page. |
| Pagination.SessionFromStart | components/PaginatedActivitySection.tsx:64-95 | From the initial state (page 1, window at 1), every session of offered clicks keeps the invariant. |

## Left out

- Network access is left out: the GitHub HTTP client, its paging, rate-limit sleeps and `Promise.all` batching. Fetched lists are inputs. Within a triage batch the events of concurrently processed issues are taken in one fixed order.
- File system access and JSON parsing are left out. A missing or unreadable file is an `Option` input; the catch that falls back to a full fetch is not modelled.
- Clocks are left out. `now`, the cutoffs and `daysAgo` are integer inputs, `new Date(text)` is the `parse` parameter, and `differenceInDays` is the `age` parameter.
- `new URL(...)` parsing is left out. The issue URL's pathname is an input, split on "/" with empty segments dropped, as `split("/").filter(Boolean)` does.
- The scoring engine's file is not part of this model. `ensureUser` creates a zero-state record and `addActivity` appends one activity. Point values are a `PointTable` parameter and `sanitizeTitle` is a parameter. `deduplicateAndRecalculate` and the cached totals it recomputes are not modelled, and nothing is claimed about them.
- `isNaN(Number(s))` is modelled as "not all decimal digits". Hexadecimal, exponent and whitespace forms that `Number` accepts are not modelled.
- `toLowerCase` is ASCII-only. `localeCompare` is plain lexicographic order of code units.
- Reader.GroupedByTypeSpec: the newest-first sort compares `getTime()` values. An unparsable date gives NaN, which makes the JavaScript comparator inconsistent, so the model sorts it as instant 0.
- JavaScript objects list integer-like keys first. The breakdown and daily objects are modelled in first-appearance order, which differs only for keys that are integers.
- Ingest.Chunk requires a positive size. With size 0 the source loops forever; it is only ever called with a positive constant.
- Pagination.TotalPages requires a positive `itemsPerPage`. With 0 the source divides by zero; the component's default is positive.
- Pagination.Offered: the buttons are rendered only when `totalPages > 1`, and the previous/next buttons are disabled at the ends. A session may still click them; the handlers then stay within range.
- Changing the activity group does not reset the page window. This is not modelled.
- People.Get: a file entry without a username makes the source throw partway through that file, and the file's remaining entries are lost. Usernames are always present in the model.
- React rendering, styling, scrolling, percentages and the static team roster are left out.
- The derived periods carry no tie-break among equal totals. The model keeps the stable order of the input without claiming it.
- Ranking.SortEntries: the source sorts a copy, so the caller's array is left unchanged. Sequences are values here, so this holds by construction and no lemma states it.
