/** The in-memory ledger of the batch job: one `Contributor` per login, in
    insertion order (the iteration order of the JavaScript `Map` that holds
    them), each with its append-only list of raw activities.

    The scoring engine's own file is not part of this model. Of it, the model
    keeps only what the job relies on: `ensureUser` adds a zero-state record
    for an unseen login, and `addActivity` appends one activity to that user's
    list. Incremental updates of the cached totals and the final
    de-duplication pass are not modelled. */
module Ledger {
  import opened Basics

  /** One scored event. `kind` is the activity label ("PR opened",
      "Review submitted", ...), `occuredAt` the ISO-8601 text. */
  datatype Activity = Activity(
    kind: string,
    occuredAt: string,
    title: Option<string>,
    link: Option<string>,
    points: int)

  datatype Bucket = Bucket(count: int, points: int)

  datatype DailyBucket = DailyBucket(date: string, count: int, points: int)

  datatype Contributor = Contributor(
    username: string,
    name: Option<string>,
    avatarUrl: string,
    role: string,
    totalPoints: int,
    breakdown: seq<(string, Bucket)>,
    daily: seq<DailyBucket>,
    rawActivities: seq<Activity>)

  /** A remote account as the API reports it. An absent `login` or `type` is
      the empty string: the code tests both with JavaScript truthiness, for
      which `""` and `undefined` agree. */
  datatype Identity = Identity(login: string, kind: string, avatarUrl: string)

  type Users = seq<Contributor>

  ghost predicate UniqueNames(users: Users) {
    forall i, j :: 0 <= i < j < |users| ==> users[i].username != users[j].username
  }

  /** `users.get(u)`: the position of the record for `u`. */
  function IndexOf(users: Users, u: string): (r: Option<nat>)
    ensures r.Some? ==> r.value < |users| && users[r.value].username == u
    ensures r.None? <==> forall i :: 0 <= i < |users| ==> users[i].username != u
  {
    if users == [] then None
    else if users[0].username == u then Some(0)
    else
      var rest := IndexOf(users[1..], u);
      assert forall i :: 1 <= i < |users| ==> users[i] == users[1..][i - 1];
      if rest.Some? then Some(rest.value + 1) else None
  }

  predicate Has(users: Users, u: string) {
    IndexOf(users, u).Some?
  }

  lemma IndexOfUnique(users: Users, i: nat)
    requires UniqueNames(users) && i < |users|
    ensures IndexOf(users, users[i].username) == Some(i)
  {
    IndexOfFirst(users, users[i].username, i);
  }

  /** The raw activities recorded for `u` (none when `u` is absent). */
  function ActivitiesOf(users: Users, u: string): seq<Activity> {
    match IndexOf(users, u)
    case Some(i) => users[i].rawActivities
    case None => []
  }

  /** A zero-state record: no points, no buckets, no activities. */
  predicate ZeroState(c: Contributor) {
    c.totalPoints == 0 && c.breakdown == [] && c.daily == [] && c.rawActivities == []
  }

  /** Adds `c` at the end unless its username is already present. */
  function EnsureRecord(users: Users, c: Contributor): (r: Users)
    requires c.rawActivities == []
    ensures UniqueNames(users) ==> UniqueNames(r)
    ensures forall u :: Has(r, u) <==> Has(users, u) || u == c.username
    ensures forall u :: ActivitiesOf(r, u) == ActivitiesOf(users, u)
    ensures |users| <= |r| <= |users| + 1 && r[..|users|] == users
    ensures forall i :: |users| <= i < |r| ==> r[i] == c
  {
    if Has(users, c.username) then users
    else
      var r := users + [c];
      forall u
        ensures IndexOf(r, u) == if Has(users, u) then IndexOf(users, u) else if u == c.username then Some(|users|) else None
      {
        IndexOfAppend(users, c, u);
      }
      r
  }

  lemma {:induction false} IndexOfAppend(users: Users, c: Contributor, u: string)
    ensures IndexOf(users + [c], u) ==
      if Has(users, u) then IndexOf(users, u) else if u == c.username then Some(|users|) else None
  {
    if users != [] {
      assert (users + [c])[1..] == users[1..] + [c];
      IndexOfAppend(users[1..], c, u);
    }
  }

  lemma {:induction false} IndexOfFirst(users: Users, u: string, i: nat)
    requires i < |users| && users[i].username == u
    ensures IndexOf(users, u).Some? && IndexOf(users, u).value <= i
    ensures forall j :: 0 <= j < IndexOf(users, u).value ==> users[j].username != u
  {
    if users[0].username != u {
      IndexOfFirst(users[1..], u, i - 1);
    }
  }

  /** `ScoringEngine.ensureUser`: the record for `id.login`, created with zero
      state when absent. */
  function EnsureUser(users: Users, id: Identity): (r: Users)
    ensures UniqueNames(users) ==> UniqueNames(r)
    ensures Has(r, id.login)
    ensures forall u :: u != id.login ==> (Has(r, u) <==> Has(users, u))
    ensures forall u :: ActivitiesOf(r, u) == ActivitiesOf(users, u)
  {
    EnsureRecord(users, Contributor(id.login, None, id.avatarUrl, "Contributor", 0, [], [], []))
  }

  /** Appends `acts` to the list of `u`; every other record is unchanged. */
  function AppendTo(users: Users, u: string, acts: seq<Activity>): (r: Users)
    requires Has(users, u)
    ensures |r| == |users|
    ensures forall i :: 0 <= i < |r| ==> r[i] == users[i].(rawActivities := r[i].rawActivities)
    ensures UniqueNames(users) ==> UniqueNames(r)
    ensures forall w :: Has(r, w) <==> Has(users, w)
    ensures forall w :: ActivitiesOf(r, w) == ActivitiesOf(users, w) + (if w == u then acts else [])
  {
    var i := IndexOf(users, u).value;
    var r := users[i := users[i].(rawActivities := users[i].rawActivities + acts)];
    assert forall j :: 0 <= j < |r| ==> r[j].username == users[j].username;
    SameNamesSameIndex(users, r);
    r
  }

  lemma {:induction false} SameNamesSameIndex(a: Users, b: Users)
    requires |a| == |b|
    requires forall j :: 0 <= j < |a| ==> a[j].username == b[j].username
    ensures forall w :: IndexOf(a, w) == IndexOf(b, w)
  {
    if a != [] {
      SameNamesSameIndex(a[1..], b[1..]);
    }
  }

  /** `ScoringEngine.addActivity`, reduced to its effect on the ledger:
      append one activity to the list of `u`. */
  function AddActivity(users: Users, u: string, act: Activity): (r: Users)
    requires Has(users, u)
    ensures forall w :: ActivitiesOf(r, w) == ActivitiesOf(users, w) + (if w == u then [act] else [])
    ensures UniqueNames(users) ==> UniqueNames(r)
  {
    AppendTo(users, u, [act])
  }

  /** What one ingested event does to the ledger: `ensureUser` for `who`,
      then, when `act` is present, `addActivity`. */
  datatype Credit = Credit(who: Identity, act: Option<Activity>)

  function ApplyCredit(users: Users, c: Credit): (r: Users)
    ensures UniqueNames(users) ==> UniqueNames(r)
    ensures forall u :: Has(r, u) <==> Has(users, u) || u == c.who.login
    ensures forall u :: ActivitiesOf(r, u) == ActivitiesOf(users, u) + (if c.who.login == u && c.act.Some? then [c.act.value] else [])
  {
    var e := EnsureUser(users, c.who);
    if c.act.Some? then AddActivity(e, c.who.login, c.act.value) else e
  }

  /** Credits applied in order. */
  function ApplyCredits(users: Users, cs: seq<Credit>): Users {
    if cs == [] then users else ApplyCredit(ApplyCredits(users, cs[..|cs| - 1]), cs[|cs| - 1])
  }

  /** The activities `cs` credits to login `u`, in order. */
  function CreditedActs(cs: seq<Credit>, u: string): seq<Activity> {
    if cs == [] then []
    else
      var c := cs[|cs| - 1];
      CreditedActs(cs[..|cs| - 1], u) + (if c.who.login == u && c.act.Some? then [c.act.value] else [])
  }

  /** The logins `cs` touches. */
  function Logins(cs: seq<Credit>): set<string> {
    if cs == [] then {} else Logins(cs[..|cs| - 1]) + {cs[|cs| - 1].who.login}
  }

  lemma CreditedActsSnoc(cs: seq<Credit>, c: Credit, u: string)
    ensures CreditedActs(cs + [c], u) == CreditedActs(cs, u) + (if c.who.login == u && c.act.Some? then [c.act.value] else [])
    ensures Logins(cs + [c]) == Logins(cs) + {c.who.login}
  {
    assert (cs + [c])[..|cs|] == cs;
  }

  lemma {:induction false} ApplyCreditsUnique(users: Users, cs: seq<Credit>)
    requires UniqueNames(users)
    ensures UniqueNames(ApplyCredits(users, cs))
  {
    if cs != [] {
      ApplyCreditsUnique(users, cs[..|cs| - 1]);
    }
  }

  /** Applying credits appends to each login exactly the activities credited
      to it, in order. */
  lemma {:induction false} ApplyCreditsActivities(users: Users, cs: seq<Credit>, u: string)
    ensures ActivitiesOf(ApplyCredits(users, cs), u) == ActivitiesOf(users, u) + CreditedActs(cs, u)
  {
    if cs != [] {
      var n := |cs| - 1;
      ApplyCreditsActivities(users, cs[..n], u);
      var pre := ApplyCredits(users, cs[..n]);
      var last := if cs[n].who.login == u && cs[n].act.Some? then [cs[n].act.value] else [];
      assert ActivitiesOf(ApplyCredits(users, cs), u) == ActivitiesOf(pre, u) + last;
      assert CreditedActs(cs, u) == CreditedActs(cs[..n], u) + last;
    }
  }

  /** A record exists afterwards exactly for the logins that had one or that
      some credit touches. */
  lemma {:induction false} ApplyCreditsHas(users: Users, cs: seq<Credit>, u: string)
    ensures Has(ApplyCredits(users, cs), u) <==> Has(users, u) || u in Logins(cs)
  {
    if cs != [] {
      ApplyCreditsHas(users, cs[..|cs| - 1], u);
    }
  }

  /** One entry of a previously written year file. */
  datatype StoredEntry = StoredEntry(
    username: string,
    name: Option<string>,
    avatarUrl: string,
    role: string,
    rawActivities: Option<seq<Activity>>)

  function MergeEntry(users: Users, e: StoredEntry): (r: Users)
    ensures UniqueNames(users) ==> UniqueNames(r)
  {
    var blank := Contributor(e.username, e.name, e.avatarUrl, e.role, 0, [], [], []);
    AppendTo(EnsureRecord(users, blank), e.username, e.rawActivities.GetOr([]))
  }

  function MergeEntries(users: Users, es: seq<StoredEntry>): Users {
    if es == [] then users else MergeEntry(MergeEntries(users, es[..|es| - 1]), es[|es| - 1])
  }

  /** `mergeExistingActivities`: with no previous year file the ledger is
      untouched; otherwise every stored entry's activities are appended to
      the record of its username, created first when absent. */
  function MergeExisting(users: Users, existing: Option<seq<StoredEntry>>): Users {
    match existing
    case None => users
    case Some(es) => MergeEntries(users, es)
  }

  /** The stored activities of every entry for `u`, in file order. */
  function Persisted(es: seq<StoredEntry>, u: string): seq<Activity> {
    if es == [] then []
    else
      var e := es[|es| - 1];
      Persisted(es[..|es| - 1], u) + (if e.username == u then e.rawActivities.GetOr([]) else [])
  }

  /** The usernames of `es`. */
  function Usernames(es: seq<StoredEntry>): set<string> {
    if es == [] then {} else Usernames(es[..|es| - 1]) + {es[|es| - 1].username}
  }

  lemma {:induction false} MergeEntriesUnique(users: Users, es: seq<StoredEntry>)
    requires UniqueNames(users)
    ensures UniqueNames(MergeEntries(users, es))
  {
    if es != [] {
      MergeEntriesUnique(users, es[..|es| - 1]);
    }
  }

  /** Every username's list becomes its in-run list followed by all of its
      stored activities in file order; in particular a username no stored
      entry mentions keeps its list. */
  lemma {:induction false} MergeEntriesActivities(users: Users, es: seq<StoredEntry>, u: string)
    ensures ActivitiesOf(MergeEntries(users, es), u) == ActivitiesOf(users, u) + Persisted(es, u)
  {
    if es != [] {
      var n := |es| - 1;
      MergeEntriesActivities(users, es[..n], u);
    }
  }

  /** A record exists afterwards exactly for the usernames that had one or
      that a stored entry names. */
  lemma {:induction false} MergeEntriesHas(users: Users, es: seq<StoredEntry>, u: string)
    ensures Has(MergeEntries(users, es), u) <==> Has(users, u) || u in Usernames(es)
  {
    if es != [] {
      MergeEntriesHas(users, es[..|es| - 1], u);
    }
  }

  /** Records that existed keep every field but their list; records the merge
      creates come after them, start with zero totals and empty buckets, and
      belong to stored usernames. */
  lemma {:induction false} MergeEntriesShape(users: Users, es: seq<StoredEntry>)
    ensures var r := MergeEntries(users, es);
      && |users| <= |r|
      && (forall i :: 0 <= i < |users| ==> r[i] == users[i].(rawActivities := r[i].rawActivities))
      && (forall i :: |users| <= i < |r| ==>
            r[i].totalPoints == 0 && r[i].breakdown == [] && r[i].daily == [] && r[i].username in Usernames(es))
  {
    if es != [] {
      var n := |es| - 1;
      MergeEntriesShape(users, es[..n]);
    }
  }

  /** `mergeExistingActivities` as a whole: a no-op without a previous year
      file, otherwise an append of each username's stored activities. */
  lemma MergeExistingEffect(users: Users, existing: Option<seq<StoredEntry>>, u: string)
    ensures existing.None? ==> MergeExisting(users, existing) == users
    ensures existing.Some? ==>
      ActivitiesOf(MergeExisting(users, existing), u) == ActivitiesOf(users, u) + Persisted(existing.value, u)
    ensures UniqueNames(users) ==> UniqueNames(MergeExisting(users, existing))
  {
    if existing.Some? {
      MergeEntriesActivities(users, existing.value, u);
      if UniqueNames(users) {
        MergeEntriesUnique(users, existing.value);
      }
    }
  }
}
