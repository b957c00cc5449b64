/** The people endpoint of app/api/people/route.ts: every leaderboard file
    is read, bot accounts are dropped, each username keeps its entry with
    the most points, and the people are listed by points, highest first,
    with the latest `updatedAt` seen.

    Reading the directory and parsing each file are left out: the directory
    arrives as a list of named files, each already parsed or marked as
    unreadable. */
module People {
  import opened Basics
  import opened Text
  import opened Seqs
  import opened Ledger
  import Reader

  /** A contributor entry of a leaderboard file, carried through unchanged. */
  datatype Person = Person(
    username: string,
    name: Option<string>,
    avatarUrl: string,
    role: string,
    totalPoints: int,
    breakdown: seq<(string, Bucket)>,
    daily: seq<DailyBucket>)

  datatype FileData = FileData(updatedAt: Option<int>, entries: Option<seq<Person>>)

  /** A file of the leaderboard directory; `data` is None when reading or
      parsing it fails. */
  datatype PeopleFile = PeopleFile(name: string, data: Option<FileData>)

  datatype Response =
    | Ok(updatedAt: int, people: seq<Person>)
    | ServerError

  /* ---------------- the bot test ---------------- */

  /** The route's own bot test, on the lower-cased username. */
  predicate IsBotName(username: string) {
    var u := Lower(username);
    || EndsWith(u, "[bot]") || EndsWith(u, "-bot") || EndsWith(u, "_bot")
    || u == "dependabot" || u == "renovate" || u == "github-actions"
    || StartsWith(u, "renovate[") || StartsWith(u, "dependabot[")
  }

  lemma LowerIdempotent(s: string)
    ensures Lower(Lower(s)) == Lower(s)
  {
    var l := Lower(s);
    forall i | 0 <= i < |s|
      ensures Lower(l)[i] == l[i]
    {
      assert LowerChar(LowerChar(s[i])) == LowerChar(s[i]);
    }
  }

  /** The test ignores ASCII case: a name and its lower-cased form are
      treated alike. */
  lemma BotTestIgnoresCase(username: string)
    ensures IsBotName(Lower(username)) == IsBotName(username)
  {
    LowerIdempotent(username);
  }

  /* ---------------- the per-username merge ---------------- */

  /** The entries of the files that are read, in directory and file order;
      `data.entries || []`. */
  function ScannedEntries(files: seq<PeopleFile>): seq<Person> {
    if files == [] then []
    else
      var n := |files| - 1;
      var f := files[n];
      ScannedEntries(files[..n]) +
        (if Reader.ListedName(f.name) && f.data.Some? then f.data.value.entries.GetOr([]) else [])
  }

  function Username(p: Person): string { p.username }

  /** The kept entry for `u`, if any. */
  function KeptFor(kept: seq<Person>, u: string): Option<Person> {
    if kept == [] then None
    else if kept[0].username == u then Some(kept[0])
    else KeptFor(kept[1..], u)
  }

  /** `allContributors.set(entry.username, entry)` when no entry is kept
      for the username yet or the new one has strictly more points; a
      replaced entry keeps its place, a new one goes last. */
  function Offer(kept: seq<Person>, e: Person): (r: seq<Person>)
    ensures |r| == |kept| || |r| == |kept| + 1
  {
    if kept == [] then [e]
    else if kept[0].username == e.username then
      (if e.totalPoints > kept[0].totalPoints then [e] + kept[1..] else kept)
    else [kept[0]] + Offer(kept[1..], e)
  }

  /** The map after every entry of the scan, entries whose username
      `skip` holds of left out (the route skips bots). */
  function MergeEntries(es: seq<Person>, skip: string -> bool): seq<Person> {
    if es == [] then []
    else
      var n := |es| - 1;
      if skip(es[n].username) then MergeEntries(es[..n], skip) else Offer(MergeEntries(es[..n], skip), es[n])
  }

  lemma {:induction false} OfferEffect(kept: seq<Person>, e: Person, u: string)
    requires DistinctBy(kept, Username)
    ensures DistinctBy(Offer(kept, e), Username)
    ensures KeptFor(Offer(kept, e), u) ==
      if u != e.username then KeptFor(kept, u)
      else if KeptFor(kept, u).None? || e.totalPoints > KeptFor(kept, u).value.totalPoints then Some(e)
      else KeptFor(kept, u)
    ensures forall x :: x in Offer(kept, e) ==> x in kept || x == e
  {
    if kept != [] {
      assert DistinctBy(kept[1..], Username);
      if kept[0].username == e.username {
        var r := Offer(kept, e);
        if e.totalPoints > kept[0].totalPoints {
          assert r[1..] == kept[1..];
        }
        NotKeptAfterHead(kept);
      } else {
        OfferEffect(kept[1..], e, u);
        OfferEffect(kept[1..], e, kept[0].username);
        NotKeptAfterHead(kept);
        var r := Offer(kept, e);
        assert r[1..] == Offer(kept[1..], e);
        forall i, j | 0 <= i < j < |r|
          ensures Username(r[i]) != Username(r[j])
        {
          if i == 0 {
            KeptForFinds(r[1..], j - 1);
          }
        }
      }
    }
  }

  lemma {:induction false} KeptForFinds(kept: seq<Person>, j: nat)
    requires j < |kept|
    ensures KeptFor(kept, kept[j].username).Some?
  {
    if j > 0 && kept[0].username != kept[j].username {
      KeptForFinds(kept[1..], j - 1);
    }
  }

  lemma NotKeptAfterHead(kept: seq<Person>)
    requires kept != [] && DistinctBy(kept, Username)
    ensures KeptFor(kept[1..], kept[0].username).None?
  {
    KeptForIsMember(kept[1..], kept[0].username);
  }

  lemma {:induction false} KeptForIsMember(kept: seq<Person>, u: string)
    ensures KeptFor(kept, u).Some? ==> KeptFor(kept, u).value in kept && KeptFor(kept, u).value.username == u
    ensures KeptFor(kept, u).None? ==> forall x :: x in kept ==> x.username != u
  {
    if kept != [] {
      KeptForIsMember(kept[1..], u);
      assert kept == [kept[0]] + kept[1..];
    }
  }

  /** `x` is the entry kept for its username among `es`: it occurs in `es`
      with the most points of its username, and every earlier entry of the
      username has strictly fewer (the first maximum wins). */
  ghost predicate FirstMax(es: seq<Person>, x: Person) {
    && (forall i :: 0 <= i < |es| && es[i].username == x.username ==> es[i].totalPoints <= x.totalPoints)
    && exists j :: 0 <= j < |es| && es[j] == x &&
         forall i :: 0 <= i < j && es[i].username == x.username ==> es[i].totalPoints < x.totalPoints
  }

  /** The merged map holds each username once, and only entries of the
      scan that are not skipped. */
  lemma {:induction false} MergeEntriesShape(es: seq<Person>, skip: string -> bool)
    ensures DistinctBy(MergeEntries(es, skip), Username)
    ensures forall x :: x in MergeEntries(es, skip) ==> x in es && !skip(x.username)
  {
    if es != [] {
      var n := |es| - 1;
      var pre := es[..n];
      MergeEntriesShape(pre, skip);
      assert es == pre + [es[n]];
      if !skip(es[n].username) {
        OfferEffect(MergeEntries(pre, skip), es[n], "");
      }
    }
  }

  /** One more entry `e` for `x`'s username that does not beat it keeps
      `x` the first maximum. */
  lemma FirstMaxKept(pre: seq<Person>, e: Person, x: Person)
    requires FirstMax(pre, x)
    requires e.username == x.username ==> e.totalPoints <= x.totalPoints
    ensures FirstMax(pre + [e], x)
  {
    var es := pre + [e];
    var j :| 0 <= j < |pre| && pre[j] == x &&
      forall i :: 0 <= i < j && pre[i].username == x.username ==> pre[i].totalPoints < x.totalPoints;
    assert es[j] == x;
    assert forall i :: 0 <= i < |pre| ==> es[i] == pre[i];
  }

  /** An entry `e` that beats every earlier entry of its username becomes
      the first maximum. */
  lemma FirstMaxNew(pre: seq<Person>, e: Person)
    requires forall i :: 0 <= i < |pre| && pre[i].username == e.username ==> pre[i].totalPoints < e.totalPoints
    ensures FirstMax(pre + [e], e)
  {
    var es := pre + [e];
    assert es[|pre|] == e;
    assert forall i :: 0 <= i < |pre| ==> es[i] == pre[i];
  }

  /** The effect of one more scanned entry on what is kept for `u`. */
  lemma MergeStep(pre: seq<Person>, e: Person, skip: string -> bool, u: string)
    ensures var prev := KeptFor(MergeEntries(pre, skip), u);
      KeptFor(MergeEntries(pre + [e], skip), u) ==
        if skip(e.username) || e.username != u then prev
        else if prev.None? || e.totalPoints > prev.value.totalPoints then Some(e)
        else prev
  {
    assert (pre + [e])[..|pre|] == pre;
    MergeEntriesShape(pre, skip);
    if !skip(e.username) {
      OfferEffect(MergeEntries(pre, skip), e, u);
    }
  }

  predicate Absent(es: seq<Person>, u: string) {
    forall i :: 0 <= i < |es| ==> es[i].username != u
  }

  lemma AbsentSnoc(pre: seq<Person>, e: Person, u: string)
    ensures Absent(pre + [e], u) <==> Absent(pre, u) && e.username != u
  {
    var es := pre + [e];
    assert es[|pre|] == e;
    assert forall i :: 0 <= i < |pre| ==> es[i] == pre[i];
  }

  /** For every username, the merged map keeps nothing exactly when the
      name is skipped or never occurs in the scan. */
  lemma {:induction false} MergeEntriesAbsent(es: seq<Person>, skip: string -> bool, u: string)
    ensures KeptFor(MergeEntries(es, skip), u).None? <==> skip(u) || Absent(es, u)
  {
    if es != [] {
      var n := |es| - 1;
      var pre := es[..n];
      var e := es[n];
      assert es == pre + [e];
      MergeEntriesAbsent(pre, skip, u);
      MergeStep(pre, e, skip, u);
      AbsentSnoc(pre, e, u);
    }
  }

  /** What the merged map keeps for a username is its first entry with
      the most points. */
  lemma {:induction false} MergeEntriesLookup(es: seq<Person>, skip: string -> bool, u: string)
    ensures KeptFor(MergeEntries(es, skip), u).Some? ==> FirstMax(es, KeptFor(MergeEntries(es, skip), u).value)
  {
    if es != [] {
      var n := |es| - 1;
      var pre := es[..n];
      var e := es[n];
      assert es == pre + [e];
      MergeEntriesLookup(pre, skip, u);
      MergeStep(pre, e, skip, u);
      var prev := KeptFor(MergeEntries(pre, skip), u);
      KeptForIsMember(MergeEntries(pre, skip), u);
      MergeEntriesAbsent(pre, skip, u);
      if skip(e.username) || e.username != u {
        if prev.Some? {
          FirstMaxKept(pre, e, prev.value);
        }
      } else if prev.None? || e.totalPoints > prev.value.totalPoints {
        FirstMaxNew(pre, e);
      } else {
        FirstMaxKept(pre, e, prev.value);
      }
    }
  }

  /* ---------------- the latest update time ---------------- */

  /** What `getUpdatedTime`'s fold sees of a people file: unread files, and
      files outside the listed names, contribute nothing. */
  function Stamped(f: PeopleFile): Reader.DataFile {
    Reader.DataFile(f.name, if f.data.Some? then Some(f.data.value.updatedAt) else None)
  }

  /* ---------------- the response ---------------- */

  function Points(p: Person): int { p.totalPoints }

  /** `GET` of the people route: None for the directory means it could not
      be listed, which is answered with a server error. */
  method Get(dir: Option<seq<PeopleFile>>) returns (resp: Response)
    ensures dir.None? <==> resp.ServerError?
    ensures resp.Ok? ==>
      var files := dir.value;
      && resp.updatedAt >= 0
      && (forall k, t :: 0 <= k < |files| && Reader.StampOf(Stamped(files[k]), t) ==> t <= resp.updatedAt)
      && (resp.updatedAt == 0 || exists k :: 0 <= k < |files| && Reader.StampOf(Stamped(files[k]), resp.updatedAt))
      && multiset(resp.people) == multiset(MergeEntries(ScannedEntries(files), IsBotName))
      && SortedDesc(resp.people, Points)
  {
    if dir.None? {
      return ServerError;
    }
    var files := dir.value;
    var stamps := seq(|files|, k requires 0 <= k < |files| => Stamped(files[k]));
    assert forall k :: 0 <= k < |files| ==> stamps[k] == Stamped(files[k]);
    var latest := Reader.LatestStamp(stamps);
    var people := SortDesc(MergeEntries(ScannedEntries(files), IsBotName), Points);
    resp := Ok(latest, people);
  }

  /** The people list holds each non-bot username of the read files once,
      with its first entry of most points; no bot and nothing else. */
  lemma PeopleSpec(files: seq<PeopleFile>, people: seq<Person>)
    requires multiset(people) == multiset(MergeEntries(ScannedEntries(files), IsBotName))
    ensures DistinctBy(people, Username)
    ensures forall x :: x in people ==> !IsBotName(x.username) && FirstMax(ScannedEntries(files), x)
    ensures forall e :: e in ScannedEntries(files) && !IsBotName(e.username) ==>
      exists x :: x in people && x.username == e.username
  {
    var es := ScannedEntries(files);
    var m := MergeEntries(es, IsBotName);
    MergeEntriesShape(es, IsBotName);
    DistinctByPermuted(m, people, Username);
    forall x | x in people
      ensures !IsBotName(x.username) && FirstMax(es, x)
    {
      assert x in multiset(m);
      MergeEntriesLookup(es, IsBotName, x.username);
      KeptForIsMember(m, x.username);
      var y := KeptFor(m, x.username).value;
      var i :| 0 <= i < |m| && m[i] == x;
      var j :| 0 <= j < |m| && m[j] == y;
      assert x == y;
    }
    forall e | e in es && !IsBotName(e.username)
      ensures exists x :: x in people && x.username == e.username
    {
      MergeEntriesAbsent(es, IsBotName, e.username);
      KeptForIsMember(m, e.username);
      var x := KeptFor(m, e.username).value;
      assert x in multiset(people);
    }
  }
}
