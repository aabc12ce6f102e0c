/**
 SyncUser, SyncAll and the live consumer (internal/ingest/ingest.go, internal/ingest/live.go) over the real
 store. Relay answers and store failures are parameters. The methods are proved against what they make of
 the catalogue value, and that is proved to be a run of the protocol: what the Safety, NoGap, Confluence and
 Moderation modules prove of runs is about this code.
 */
module Ingest {
  import opened Wrappers
  import opened Catalog
  import opened Protocol
  import opened Database
  import opened Effects

  /** What the outside world does to one SyncUser call. */
  datatype Weather = Weather(
    torrents: seq<Torrent>,            // the relays' answer, deduplicated and parsed
    profiles: seq<Profile>,            // the relays' profile events
    faults: nat -> Option<nat>,        // the statement at which the i-th upsert fails, if it does
    cursorFault: bool,                 // the cursor update fails
    profileFault: bool)                // the profile update fails

  /** The answer holds published events of the author that match the filter. */
  predicate Matches(published: set<Torrent>, author: string, since: int, w: Weather) {
    && (forall t | t in w.torrents :: t in published && t.pubkey == author && (since > 0 ==> t.publishedAt >= since))
    && (forall p | p in w.profiles :: p.pubkey == author)
  }

  // ---------------------------------------------------------------------------------------------
  // One account
  // ---------------------------------------------------------------------------------------------

  datatype Outcome = Outcome(db: Db, maxTs: int, failed: bool)

  predicate Fails(t: Torrent, fault: Option<nat>) {
    fault.Some? && fault.value < |t.files| + 4
  }

  /** The events from the i-th on, written in order until one fails. */
  function Upserts(db: Db, w: Weather, i: nat, maxTs: int): Outcome
    requires i <= |w.torrents|
    decreases |w.torrents| - i
  {
    if i == |w.torrents| then Outcome(db, maxTs, false)
    else if Fails(w.torrents[i], w.faults(i)) then Outcome(db, maxTs, true)
    else Upserts(PutTorrent(db, w.torrents[i]), w, i + 1, Max(maxTs, w.torrents[i].publishedAt))
  }

  /** The cursor moves only after every event is written. */
  function Moved(author: string, since: int, w: Weather, o: Outcome): Outcome {
    if o.failed || o.maxTs <= since then o
    else if w.cursorFault then o.(failed := true)
    else o.(db := RaiseCursor(o.db, author, o.maxTs))
  }

  function Profiled(db: Db, w: Weather): Db {
    if Newest(w.profiles) == [] || w.profileFault then db else PutProfile(db, Newest(w.profiles)[0])
  }

  function Synced(db: Db, author: string, since: int, w: Weather): Outcome {
    var o := Moved(author, since, w, Upserts(db, w, 0, since));
    if o.failed then o else o.(db := Profiled(o.db, w))
  }

  method SyncUser(st: Store, relays: nat, author: string, since: int, w: Weather, now: int) returns (n: nat, failed: bool)
    requires st.Valid()
    modifies st, st.fts
    ensures st.Valid()
    ensures relays == 0 ==> failed && n == 0 && st.View() == old(st.View())
    ensures relays > 0 ==>
        var o := Synced(old(st.View()), author, since, w);
        && st.View() == o.db && failed == o.failed
        && n == if Upserts(old(st.View()), w, 0, since).failed then 0 else |w.torrents|
    ensures relays > 0 ==> exists k :: StopsAt(w, k) && SyncLeaves(old(st.View()), st.View(), author, since, w, k, n, failed)
    ensures relays > 0 && (forall i: nat | i < |w.torrents| :: w.faults(i).None?) && !w.cursorFault ==>
              !failed && n == |w.torrents|
  {
    ghost var db := st.View();
    ghost var stop := SyncedMeans(db, author, since, w);
    n, failed := 0, true;
    if relays > 0 {
      var maxTs;
      maxTs, failed := WriteTorrents(st, since, w, now);
      if !failed {
        n := |w.torrents|;
        failed := MoveCursor(st, author, since, maxTs, w);
      }
      if !failed {
        WriteProfiles(st, w);
      }
    }
  }

  method MoveCursor(st: Store, author: string, since: int, maxTs: int, w: Weather) returns (failed: bool)
    requires st.Valid()
    modifies st
    ensures st.Valid()
    ensures Outcome(st.View(), maxTs, failed) == Moved(author, since, w, Outcome(old(st.View()), maxTs, false))
  {
    failed := maxTs > since && w.cursorFault;
    if maxTs > since && !failed {
      st.UpdateLastSynced(author, maxTs);
    }
  }

  method WriteTorrents(st: Store, since: int, w: Weather, now: int) returns (maxTs: int, failed: bool)
    requires st.Valid()
    modifies st, st.fts
    ensures st.Valid()
    ensures Outcome(st.View(), maxTs, failed) == Upserts(old(st.View()), w, 0, since)
  {
    maxTs := since;
    for i := 0 to |w.torrents|
      invariant st.Valid()
      invariant Upserts(st.View(), w, i, maxTs) == Upserts(old(st.View()), w, 0, since)
    {
      var ok := st.UpsertTorrent(w.torrents[i], now, w.faults(i));
      if !ok {
        return maxTs, true;
      }
      if w.torrents[i].publishedAt > maxTs {
        maxTs := w.torrents[i].publishedAt;
      }
    }
    failed := false;
  }

  /** FetchProfiles keeps the newest one of the author; a failed update is only logged. */
  method WriteProfiles(st: Store, w: Weather)
    requires st.Valid()
    modifies st
    ensures st.Valid() && st.View() == Profiled(old(st.View()), w)
  {
    var profiles := Newest(w.profiles);
    NewestIsNewest(w.profiles);
    for i := 0 to |profiles|
      invariant st.Valid()
      invariant st.View() == if i == 0 then old(st.View()) else Profiled(old(st.View()), w)
    {
      if !w.profileFault {
        st.UpsertProfile(profiles[i]);
      }
    }
  }

  // ---------------------------------------------------------------------------------------------
  // What a call leaves behind
  // ---------------------------------------------------------------------------------------------

  /** The upserts go through up to the n-th event, and fail there if there is one. An upsert has four statements and one for each file. */
  ghost predicate StopsAt(w: Weather, n: nat) {
    && n <= |w.torrents|
    && (forall i: nat | i < n :: w.faults(i).Some? ==> w.faults(i).value >= |w.torrents[i].files| + 4)
    && (n < |w.torrents| ==> w.faults(n).Some? && w.faults(n).value < |w.torrents[n].files| + 4)
  }

  function Dates(ts: seq<Torrent>): set<int> {
    set t | t in ts :: t.publishedAt
  }

  /** The account has seen these dates, the others are as they were, and none is created. */
  ghost predicate CursorReaches(author: string, dates: set<int>, before: map<string, Account>, after: map<string, Account>) {
    AllReach(before, after, a => if a == author then dates else {})
  }

  /**
   After a call whose upserts stop at the n-th event: the events before it are in the catalogue; only if there
   is none the cursor moves, given an event later than it, and only if that works, too, a profile is stored.
   */
  ghost predicate SyncLeaves(before: Db, after: Db, author: string, since: int, w: Weather, n: nat, count: nat, failed: bool)
    requires n <= |w.torrents|
  {
    var moves := n == |w.torrents| && exists t :: t in w.torrents && t.publishedAt > since;
    && LastWins(w.torrents[..n], before.torrents, after.torrents) && after.stats == before.stats
    && count == (if n == |w.torrents| then n else 0)
    && (failed <==> n < |w.torrents| || (moves && w.cursorFault))
    && (if moves && !w.cursorFault then CursorReaches(author, Dates(w.torrents), before.followed, after.followed)
        else after.followed == before.followed)
    && (if failed || w.profileFault then after.profiles == before.profiles
        else NewestKept(w.profiles, before.profiles, after.profiles))
  }

  /** Dates of the first i events and `since`, of which maxTs is the latest. */
  predicate Highest(ts: seq<Torrent>, i: nat, since: int, maxTs: int)
    requires i <= |ts|
  {
    && since <= maxTs && (forall k | 0 <= k < i :: ts[k].publishedAt <= maxTs)
    && (maxTs == since || exists k | 0 <= k < i :: ts[k].publishedAt == maxTs)
  }

  lemma {:induction false} UpsertsMean(before: Db, w: Weather, since: int, maxTs: int, i: nat, n: nat)
    requires StopsAt(w, n) && i <= n && Highest(w.torrents, i, since, maxTs)
    ensures var o := Upserts(WithAll(before, w, i), w, i, maxTs);
            o.db == WithAll(before, w, n) && Highest(w.torrents, n, since, o.maxTs) && (o.failed <==> n < |w.torrents|)
    decreases n - i
  {
    if i < n {
      WithOneMore(before, w, i);
      LatestStep(w.torrents, i, since, maxTs);
      UpsertsMean(before, w, since, Max(maxTs, w.torrents[i].publishedAt), i + 1, n);
    }
  }

  /** With the first n events written. */
  function WithAll(db: Db, w: Weather, n: nat): Db
    requires n <= |w.torrents|
  {
    db.(torrents := PutEach(db.torrents, w.torrents[..n]))
  }

  lemma WithOneMore(db: Db, w: Weather, i: nat)
    requires i < |w.torrents|
    ensures PutTorrent(WithAll(db, w, i), w.torrents[i]) == WithAll(db, w, i + 1)
  {
    assert w.torrents[..i + 1][..i] == w.torrents[..i];
  }

  lemma LatestStep(ts: seq<Torrent>, i: nat, since: int, maxTs: int)
    requires i < |ts| && Highest(ts, i, since, maxTs)
    ensures Highest(ts, i + 1, since, Max(maxTs, ts[i].publishedAt))
  {
  }

  /** The cursor ends at the maximum of itself and the dates, if one of these is later than where the sync began. */
  lemma MovedMeans(db: Db, author: string, since: int, w: Weather, maxTs: int)
    requires Highest(w.torrents, |w.torrents|, since, maxTs)
    ensures var o := Moved(author, since, w, Outcome(db, maxTs, false));
            var moves := exists t :: t in w.torrents && t.publishedAt > since;
            && o.db == db.(followed := o.db.followed)
            && (o.failed <==> moves && w.cursorFault)
            && if moves && !w.cursorFault then CursorReaches(author, Dates(w.torrents), db.followed, o.db.followed)
               else o.db.followed == db.followed
  {
    if maxTs > since {
      var k :| 0 <= k < |w.torrents| && w.torrents[k].publishedAt == maxTs;
      assert w.torrents[k] in w.torrents;
    }
  }

  lemma {:induction false} NewestAt(ps: seq<Profile>) returns (k: nat)
    requires ps != []
    ensures FirstNewest(ps, k) && Newest(ps) == [ps[k]]
  {
    var init, n := ps[..|ps| - 1], |ps| - 1;
    k := n;
    if init != [] {
      var j := NewestAt(init);
      if ps[n].updatedAt <= ps[j].updatedAt {
        k := j;
      }
    }
  }

  lemma ProfiledMeans(db: Db, w: Weather)
    ensures var after := Profiled(db, w);
            && after == db.(profiles := after.profiles)
            && if w.profileFault then after == db else NewestKept(w.profiles, db.profiles, after.profiles)
  {
    if w.profiles != [] && !w.profileFault {
      var k := NewestAt(w.profiles);
      ProfileExactly(db, w.profiles[k]);
      assert Replaces(w.profiles[k], db.profiles, Profiled(db, w).profiles);
    }
  }

  lemma SyncedMeans(db: Db, author: string, since: int, w: Weather) returns (n: nat)
    ensures StopsAt(w, n)
    ensures var o := Synced(db, author, since, w);
            var count := if Upserts(db, w, 0, since).failed then 0 else |w.torrents|;
            SyncLeaves(db, o.db, author, since, w, n, count, o.failed)
  {
    n := Stop(w, 0);
    assert WithAll(db, w, 0) == db;
    UpsertsMean(db, w, since, since, 0, n);
    EachLastWins(db.torrents, w.torrents[..n]);
    var u := Upserts(db, w, 0, since);
    if !u.failed {
      MovedMeans(u.db, author, since, w, u.maxTs);
      ProfiledMeans(Moved(author, since, w, u).db, w);
    }
  }

  lemma {:induction false} Stop(w: Weather, i: nat) returns (n: nat)
    requires i <= |w.torrents| && forall k: nat | k < i :: w.faults(k).Some? ==> w.faults(k).value >= |w.torrents[k].files| + 4
    ensures StopsAt(w, n)
    decreases |w.torrents| - i
  {
    n := i;
    if i < |w.torrents| && (w.faults(i).Some? ==> w.faults(i).value >= |w.torrents[i].files| + 4) {
      n := Stop(w, i + 1);
    }
  }

  // ---------------------------------------------------------------------------------------------
  // The same as a run of the protocol
  // ---------------------------------------------------------------------------------------------

  /** Whose steps a run is made of. */
  datatype Actor =
    | Asking | Syncing | SyncOf(b: Pid, w: Weather) | LiveOf(l: Pid, events: seq<LiveEvent>, trouble: Trouble)
    | Scraping(told: set<(string, Stats)>)

  /** A write-back of the scraper brings what it was told. */
  predicate Reported(told: set<(string, Stats)>, step: Step) {
    step.Scrape? ==> (step.id, step.stats) in told
  }

  /** A store call of a batch succeeds unless the weather says otherwise; the events left say which one it is. */
  predicate Suffers(s: State, b: Pid, w: Weather, step: Step) {
    b in s.batches &&
    var x := s.batches[b];
    match step
    case BatchUpsert(_, ok) =>
      && x.Writing? && 0 < |x.todo| <= |w.torrents|
      && var i := |w.torrents| - |x.todo|; (ok <==> !Fails(w.torrents[i], w.faults(i)))
    case Advance(_, ok) => x.Writing? && (ok <==> !(x.maxTs > x.since && w.cursorFault))
    case BatchProfile(_, ok) => ok <==> !w.profileFault
    case _ => true
  }

  /** The same of the consumer: the event it holds is one of those it was sent, and fares as that one does. */
  predicate Endures(s: State, l: Pid, events: seq<LiveEvent>, trouble: Trouble, step: Step) {
    l in s.subs && s.subs[l].Open? &&
    var held := s.subs[l].held;
    match step
    case Arrive(_, t) => TorrentEvent(t) in events
    case ArriveProfile(_, p) => ProfileEvent(p) in events
    case LiveUpsert(_, ok) =>
      held.GotTorrent? && exists i | 0 <= i < |events| ::
        events[i] == TorrentEvent(held.t) && (ok <==> !Fails(held.t, trouble.upsert(i)))
    case LiveAdvance(_, ok) =>
      held.Upserted? && exists i | 0 <= i < |events| :: events[i] == TorrentEvent(held.t) && (ok <==> !trouble.cursor(i))
    case LiveProfile(_, ok) =>
      held.GotProfile? && exists i | 0 <= i < |events| :: events[i] == ProfileEvent(held.p) && (ok <==> !trouble.profile(i))
    case _ => false
  }

  predicate Acts(a: Actor, s: State, step: Step) {
    match a
    case Asking => step.Ask?
    case Syncing =>
      || step.Answer? || step.BatchUpsert? || step.Advance? || step.AskProfiles? || step.BatchProfile? || step.EndBatch?
      || step.Publish?
    case SyncOf(b, w) =>
      Suffers(s, b, w, step) &&
      (match step
       case Answer(c, events) => c == b && events == w.torrents
       case BatchUpsert(c, _) => c == b
       case Advance(c, _) => c == b
       case AskProfiles(c, answer) => c == b && answer == w.profiles
       case BatchProfile(c, _) => c == b
       case EndBatch(c) => c == b
       case _ => false)
    case LiveOf(l, events, trouble) =>
      Endures(s, l, events, trouble, step) &&
      (match step
       case Arrive(m, _) => m == l
       case ArriveProfile(m, _) => m == l
       case LiveUpsert(m, _) => m == l
       case LiveAdvance(m, _) => m == l
       case LiveProfile(m, _) => m == l
       case _ => false)
    case Scraping(told) => step.Scrape? && Reported(told, step)
  }

  /** The steps, all of them the actor's, lead from `s` to `e`. */
  ghost predicate Runs(a: Actor, s: State, steps: seq<Step>, e: State)
    decreases |steps|
  {
    if steps == [] then e == s
    else Enabled(s, steps[0]) && Acts(a, s, steps[0]) && Runs(a, Next(s, steps[0]), steps[1..], e)
  }

  ghost predicate Leads(a: Actor, s: State, e: State) {
    exists steps :: Runs(a, s, steps, e)
  }

  lemma LeadsNowhere(a: Actor, s: State)
    ensures Leads(a, s, s)
  {
    assert Runs(a, s, [], s);
  }

  lemma LeadsStep(a: Actor, s: State, step: Step, e: State)
    requires Enabled(s, step) && Acts(a, s, step) && Leads(a, Next(s, step), e)
    ensures Leads(a, s, e)
  {
    var rest :| Runs(a, Next(s, step), rest, e);
    assert ([step] + rest)[1..] == rest;
    assert Runs(a, s, [step] + rest, e);
  }

  lemma {:induction false} RunsThen(a: Actor, s: State, steps: seq<Step>, m: State, e: State)
    requires Runs(a, s, steps, m) && Leads(a, m, e)
    ensures Leads(a, s, e)
    decreases |steps|
  {
    if steps != [] {
      RunsThen(a, Next(s, steps[0]), steps[1..], m, e);
      LeadsStep(a, s, steps[0], e);
    }
  }

  lemma LeadsThen(a: Actor, s: State, m: State, e: State)
    requires Leads(a, s, m) && Leads(a, m, e)
    ensures Leads(a, s, e)
  {
    var steps :| Runs(a, s, steps, m);
    RunsThen(a, s, steps, m, e);
  }

  lemma {:induction false} RunsAsSyncing(b: Pid, w: Weather, s: State, steps: seq<Step>, e: State)
    requires Runs(SyncOf(b, w), s, steps, e)
    ensures Runs(Syncing, s, steps, e)
    decreases |steps|
  {
    if steps != [] {
      RunsAsSyncing(b, w, Next(s, steps[0]), steps[1..], e);
    }
  }

  /** An actor's run is a run of the protocol. */
  lemma {:induction false} RunsIsLegal(a: Actor, s: State, steps: seq<Step>, e: State)
    requires Runs(a, s, steps, e)
    ensures Legal(s, steps) && Run(s, steps) == e
    decreases |steps|
  {
    if steps != [] {
      RunsIsLegal(a, Next(s, steps[0]), steps[1..], e);
    }
  }

  /** The batch's own steps, with the answers it got, lead to this database, and the batch is gone. */
  ghost predicate Performs(s: State, b: Pid, w: Weather, db: Db) {
    exists e :: Leads(SyncOf(b, w), s, e) && Ends(e, s, b, db)
  }

  predicate Ends(e: State, s: State, b: Pid, db: Db) {
    e.db == db && e.batches == s.batches - {b} && e.subs == s.subs && e.published == s.published && e.now == s.now
  }

  lemma PerformsStep(s: State, step: Step, b: Pid, w: Weather, db: Db)
    requires Enabled(s, step) && Acts(SyncOf(b, w), s, step) && Performs(Next(s, step), b, w, db)
    ensures Performs(s, b, w, db)
  {
    var e :| Leads(SyncOf(b, w), Next(s, step), e) && Ends(e, Next(s, step), b, db);
    OwnMovesOne(s, step, b, w);
    LeadsStep(SyncOf(b, w), s, step, e);
  }

  lemma OwnMovesOne(s: State, step: Step, b: Pid, w: Weather)
    requires Enabled(s, step) && Acts(SyncOf(b, w), s, step)
    ensures var s' := Next(s, step);
            s'.batches - {b} == s.batches - {b} && s'.subs == s.subs && s'.published == s.published && s'.now == s.now
  {
  }

  lemma PerformsLast(s: State, step: Step, b: Pid, w: Weather)
    requires Enabled(s, step) && Acts(SyncOf(b, w), s, step) && BatchesAfter(s, step) == s.batches - {b}
    ensures Performs(s, b, w, Next(s, step).db)
  {
    OwnMovesOne(s, step, b, w);
    LeadsNowhere(SyncOf(b, w), Next(s, step));
    LeadsStep(SyncOf(b, w), s, step, Next(s, step));
  }

  lemma EndPerforms(s: State, b: Pid, w: Weather)
    requires b in s.batches && s.batches[b].Profiling? && s.batches[b].profiles == []
    ensures Performs(s, b, w, s.db)
  {
    PerformsLast(s, EndBatch(b), b, w);
  }

  lemma ProfilesPerform(s: State, b: Pid, author: string, w: Weather)
    requires b in s.batches && s.batches[b] == Advanced(author) && forall p | p in w.profiles :: p.pubkey == author
    ensures Performs(s, b, w, Profiled(s.db, w))
  {
    var ask := AskProfiles(b, w.profiles);
    var s1 := Next(s, ask);
    NewestIsNewest(w.profiles);
    if Newest(w.profiles) == [] {
      EndPerforms(s1, b, w);
    } else {
      var write := BatchProfile(b, !w.profileFault);
      EndPerforms(Next(s1, write), b, w);
      PerformsStep(s1, write, b, w, Profiled(s.db, w));
    }
    PerformsStep(s, ask, b, w, Profiled(s.db, w));
  }

  /** What is left once every event is written. */
  function Finished(author: string, since: int, w: Weather, o: Outcome): Outcome {
    var o' := Moved(author, since, w, o);
    if o'.failed then o' else o'.(db := Profiled(o'.db, w))
  }

  lemma AdvancePerforms(s: State, b: Pid, author: string, since: int, w: Weather, maxTs: int, known: set<Torrent>)
    requires b in s.batches && s.batches[b] == Writing(author, since, maxTs, [], known)
    requires forall p | p in w.profiles :: p.pubkey == author
    ensures Performs(s, b, w, Finished(author, since, w, Outcome(s.db, maxTs, false)).db)
  {
    var o := Moved(author, since, w, Outcome(s.db, maxTs, false));
    var step := Advance(b, !o.failed);
    if o.failed {
      PerformsLast(s, step, b, w);
    } else {
      ProfilesPerform(Next(s, step), b, author, w);
      PerformsStep(s, step, b, w, Profiled(o.db, w));
    }
  }

  lemma {:induction false} UpsertsPerform(s: State, b: Pid, author: string, since: int, w: Weather, i: nat, maxTs: int, known: set<Torrent>)
    requires i <= |w.torrents| && b in s.batches && s.batches[b] == Writing(author, since, maxTs, w.torrents[i..], known)
    requires forall p | p in w.profiles :: p.pubkey == author
    ensures Performs(s, b, w, Finished(author, since, w, Upserts(s.db, w, i, maxTs)).db)
    decreases |w.torrents| - i
  {
    if i == |w.torrents| {
      AdvancePerforms(s, b, author, since, w, maxTs, known);
    } else {
      var failed := Fails(w.torrents[i], w.faults(i));
      var step := BatchUpsert(b, !failed);
      if failed {
        PerformsLast(s, step, b, w);
      } else {
        var s', maxTs' := Next(s, step), Max(maxTs, w.torrents[i].publishedAt);
        UpsertsPerform(s', b, author, since, w, i + 1, maxTs', known);
        PerformsStep(s, step, b, w, Finished(author, since, w, Upserts(s'.db, w, i + 1, maxTs')).db);
      }
    }
  }

  /** SyncUser, from the cursor it was given, is a run of the protocol: no store call is skipped, added or moved. */
  lemma SyncUserIsRun(s: State, b: Pid, author: string, since: int, w: Weather)
    requires b in s.batches && s.batches[b] == Snapshot(author, since) && Matches(s.published, author, since, w)
    ensures Performs(s, b, w, Synced(s.db, author, since, w).db)
  {
    var step := Answer(b, w.torrents);
    UpsertsPerform(Next(s, step), b, author, since, w, 0, since, PublishedBy(s, author));
    PerformsStep(s, step, b, w, Synced(s.db, author, since, w).db);
  }

  /** The next step of a batch and whether it succeeds are determined. */
  lemma OnlyStep(s: State, b: Pid, w: Weather, x: Step, y: Step)
    requires Enabled(s, x) && Acts(SyncOf(b, w), s, x) && Enabled(s, y) && Acts(SyncOf(b, w), s, y)
    ensures x == y
  {
  }

  /** And so is where it ends. */
  lemma {:induction false} OnlyEnd(s: State, b: Pid, w: Weather, xs: seq<Step>, e: State, ys: seq<Step>, f: State)
    requires Runs(SyncOf(b, w), s, xs, e) && Runs(SyncOf(b, w), s, ys, f) && b !in e.batches && b !in f.batches
    ensures e == f
    decreases |xs|
  {
    if xs != [] && ys != [] {
      OnlyStep(s, b, w, xs[0], ys[0]);
      OnlyEnd(Next(s, xs[0]), b, w, xs[1..], e, ys[1..], f);
    }
  }

  /** Every run of the batch's own steps to its end leaves what SyncUser leaves: not one among others. */
  lemma SyncUserIsTheRun(s: State, b: Pid, author: string, since: int, w: Weather, steps: seq<Step>, e: State)
    requires b in s.batches && s.batches[b] == Snapshot(author, since) && Matches(s.published, author, since, w)
    requires Runs(SyncOf(b, w), s, steps, e) && b !in e.batches
    ensures e.db == Synced(s.db, author, since, w).db
  {
    SyncUserIsRun(s, b, author, since, w);
    var f :| Leads(SyncOf(b, w), s, f) && Ends(f, s, b, Synced(s.db, author, since, w).db);
    var ys :| Runs(SyncOf(b, w), s, ys, f);
    assert b !in f.batches;
    OnlyEnd(s, b, w, steps, e, ys, f);
  }

  // ---------------------------------------------------------------------------------------------
  // All accounts
  // ---------------------------------------------------------------------------------------------

  /** The accounts from the i-th on, each from the cursor it was listed with; a failed one does not stop the others. */
  function SyncedFrom(db: Db, list: seq<FollowedRow>, i: nat, weather: string -> Weather): Db
    requires i <= |list|
    decreases |list| - i
  {
    if i == |list| then db
    else if !list[i].account.enabled then SyncedFrom(db, list, i + 1, weather)
    else SyncedFrom(Synced(db, list[i].pubkey, list[i].account.cursor, weather(list[i].pubkey)).db, list, i + 1, weather)
  }

  /** What the call reports: the events of the accounts whose sync succeeded. */
  function Total(db: Db, list: seq<FollowedRow>, i: nat, weather: string -> Weather): nat
    requires i <= |list|
    decreases |list| - i
  {
    if i == |list| then 0
    else if !list[i].account.enabled then Total(db, list, i + 1, weather)
    else
      var w := weather(list[i].pubkey);
      var o := Synced(db, list[i].pubkey, list[i].account.cursor, w);
      (if o.failed then 0 else |w.torrents|) + Total(o.db, list, i + 1, weather)
  }

  /** The account's turn: skipped if it is disabled, else synchronised from the cursor it was listed with. */
  ghost predicate Turn(before: Db, after: Db, f: FollowedRow, w: Weather, added: nat) {
    if f.account.enabled
    then exists k: nat, n: nat, failed :: StopsAt(w, k) && SyncLeaves(before, after, f.pubkey, f.account.cursor, w, k, n, failed)
                                && added == if failed then 0 else n
    else after == before && added == 0
  }

  /** The databases between the turns, from the first to the last, and what each turn adds to the count. */
  ghost predicate Turns(dbs: seq<Db>, list: seq<FollowedRow>, weather: string -> Weather, added: seq<nat>) {
    && |dbs| == |list| + 1 && |added| == |list|
    && forall i: nat | i < |list| :: TurnAt(dbs, list, weather, added, i)
  }

  ghost predicate TurnAt(dbs: seq<Db>, list: seq<FollowedRow>, weather: string -> Weather, added: seq<nat>, i: nat)
    requires i < |list| < |dbs| && i < |added|
  {
    Turn(dbs[i], dbs[i + 1], list[i], weather(list[i].pubkey), added[i])
  }

  function Sum(ns: seq<nat>): nat {
    if ns == [] then 0 else ns[0] + Sum(ns[1..])
  }

  lemma SyncedTurn(db: Db, f: FollowedRow, w: Weather)
    ensures f.account.enabled ==>
              var o := Synced(db, f.pubkey, f.account.cursor, w);
              Turn(db, o.db, f, w, if o.failed then 0 else |w.torrents|)
    ensures !f.account.enabled ==> Turn(db, db, f, w, 0)
  {
    if f.account.enabled {
      var k := SyncedMeans(db, f.pubkey, f.account.cursor, w);
    }
  }

  /** The turns from the i-th account on, starting here. */
  ghost predicate Chain(dbs: seq<Db>, added: seq<nat>, db: Db, list: seq<FollowedRow>, i: nat, weather: string -> Weather)
    requires i <= |list|
  {
    && Turns(dbs, list[i..], weather, added) && dbs[0] == db
    && dbs[|list| - i] == SyncedFrom(db, list, i, weather) && Sum(added) == Total(db, list, i, weather)
  }

  /** Every account has its turn, in the order of the list, whatever becomes of the others. */
  lemma {:induction false} SyncedInTurn(db: Db, list: seq<FollowedRow>, i: nat, weather: string -> Weather) returns (dbs: seq<Db>, added: seq<nat>)
    requires i <= |list|
    ensures Chain(dbs, added, db, list, i, weather)
    decreases |list| - i
  {
    if i == |list| {
      dbs, added := [db], [];
      NoTurns(db, list, weather);
    } else {
      var next, n := TakeTurn(db, list, i, weather);
      var rest, more := SyncedInTurn(next, list, i + 1, weather);
      dbs, added := [db] + rest, [n] + more;
      ChainCons(db, next, n, rest, more, list, i, weather);
    }
  }

  lemma ChainCons(db: Db, next: Db, n: nat, rest: seq<Db>, more: seq<nat>, list: seq<FollowedRow>, i: nat, weather: string -> Weather)
    requires i < |list| && Chain(rest, more, next, list, i + 1, weather)
    requires Turn(db, next, list[i], weather(list[i].pubkey), n)
    requires SyncedFrom(db, list, i, weather) == SyncedFrom(next, list, i + 1, weather)
    requires Total(db, list, i, weather) == n + Total(next, list, i + 1, weather)
    ensures Chain([db] + rest, [n] + more, db, list, i, weather)
  {
    TurnsCons(db, rest, list, i, weather, n, more);
    SumCons(n, more);
  }

  lemma TakeTurn(db: Db, list: seq<FollowedRow>, i: nat, weather: string -> Weather) returns (next: Db, n: nat)
    requires i < |list|
    ensures Turn(db, next, list[i], weather(list[i].pubkey), n)
    ensures SyncedFrom(db, list, i, weather) == SyncedFrom(next, list, i + 1, weather)
    ensures Total(db, list, i, weather) == n + Total(next, list, i + 1, weather)
  {
    var f, w := list[i], weather(list[i].pubkey);
    SyncedTurn(db, f, w);
    next, n := db, 0;
    if f.account.enabled {
      var o := Synced(db, f.pubkey, f.account.cursor, w);
      next, n := o.db, if o.failed then 0 else |w.torrents|;
    }
  }

  lemma NoTurns(db: Db, list: seq<FollowedRow>, weather: string -> Weather)
    ensures Chain([db], [], db, list, |list|, weather)
  {
  }

  lemma SumCons(n: nat, more: seq<nat>)
    ensures Sum([n] + more) == n + Sum(more)
  {
    assert ([n] + more)[1..] == more;
  }

  lemma TurnsCons(db: Db, rest: seq<Db>, list: seq<FollowedRow>, i: nat, weather: string -> Weather, n: nat, more: seq<nat>)
    requires i < |list| && Turns(rest, list[i + 1..], weather, more)
    requires Turn(db, rest[0], list[i], weather(list[i].pubkey), n)
    ensures Turns([db] + rest, list[i..], weather, [n] + more)
    ensures ([db] + rest)[0] == db && ([db] + rest)[|list| - i] == rest[|list| - (i + 1)]
  {
    var dbs, added := [db] + rest, [n] + more;
    forall k: nat | k < |list[i..]|
      ensures TurnAt(dbs, list[i..], weather, added, k)
    {
      if k > 0 {
        assert TurnAt(rest, list[i + 1..], weather, more, k - 1);
        assert list[i..][k] == list[i + 1..][k - 1];
      }
    }
  }

  /** The two lists read at the start are the enabled relays, of which only the number matters here, and the accounts. */
  datatype Reads = Reads(relays: Option<nat>, accountsFail: bool)

  method SyncAll(st: Store, read: Reads, weather: string -> Weather, now: int)
    returns (total: nat, failed: bool, ghost list: seq<FollowedRow>)
    requires st.Valid()
    modifies st, st.fts
    ensures st.Valid() && (failed <==> read.relays.None? || read.relays.value == 0 || read.accountsFail)
    ensures failed ==> total == 0 && st.View() == old(st.View())
    ensures !failed ==> Lists(list, old(st.View()).followed)
    ensures !failed ==> st.View() == SyncedFrom(old(st.View()), list, 0, weather)
    ensures !failed ==> total == Total(old(st.View()), list, 0, weather)
    ensures !failed ==> exists dbs, added :: Turns(dbs, list, weather, added) && dbs[0] == old(st.View())
                                             && dbs[|list|] == st.View() && total == Sum(added)
  {
    ghost var db := st.View();
    total, failed, list := 0, true, [];
    if read.relays.None? || read.relays.value == 0 || read.accountsFail {
      return;
    }
    var rows := st.ListFollowed();
    list, failed := rows, false;
    total := SyncEach(st, rows, read.relays.value, weather, now);
    ghost var dbs, added := SyncedInTurn(db, rows, 0, weather);
    assert rows[0..] == rows;
  }

  method SyncEach(st: Store, list: seq<FollowedRow>, relays: nat, weather: string -> Weather, now: int) returns (total: nat)
    requires st.Valid() && relays > 0
    modifies st, st.fts
    ensures st.Valid()
    ensures st.View() == SyncedFrom(old(st.View()), list, 0, weather)
    ensures total == Total(old(st.View()), list, 0, weather)
  {
    total := 0;
    for i := 0 to |list|
      invariant st.Valid()
      invariant SyncedFrom(st.View(), list, i, weather) == SyncedFrom(old(st.View()), list, 0, weather)
      invariant total + Total(st.View(), list, i, weather) == Total(old(st.View()), list, 0, weather)
    {
      if !list[i].account.enabled {
        continue;
      }
      var n, failed := SyncUser(st, relays, list[i].pubkey, list[i].account.cursor, weather(list[i].pubkey), now);
      if failed {
        continue;
      }
      total := total + n;
    }
  }

  /** The snapshots taken for the accounts lo..hi of the list: account k is synchronised as Pid(k). */
  ghost predicate Snapshots(s: State, list: seq<FollowedRow>, lo: nat, hi: nat)
    requires hi <= |list|
  {
    forall k | lo <= k < hi && list[k].account.enabled ::
      Pid(k) in s.batches && s.batches[Pid(k)] == Snapshot(list[k].pubkey, list[k].account.cursor)
  }

  function SetOf(ts: seq<Torrent>): set<Torrent> {
    set t | t in ts
  }

  /** These events can have been published: one content per id, sizes as parsed. */
  ghost predicate Publishable(events: set<Torrent>) {
    && (forall t | t in events :: WellSized(t))
    && (forall t, u | t in events && u in events && t.id == u.id :: t == u)
  }

  /** From the i-th account on, what has been published by then answers; `news` appears while the pass is at work. */
  ghost predicate Timely(published: set<Torrent>, list: seq<FollowedRow>, i: nat, weather: string -> Weather, news: nat -> seq<Torrent>)
    requires i <= |list|
    decreases |list| - i
  {
    i == |list| ||
    var now := published + SetOf(news(i));
    && Publishable(now)
    && (list[i].account.enabled ==> Matches(now, list[i].pubkey, list[i].account.cursor, weather(list[i].pubkey)))
    && Timely(now, list, i + 1, weather, news)
  }

  /** The processes of the accounts from the i-th on. */
  function PidsFrom(list: seq<FollowedRow>, i: nat): set<Pid> {
    set k | i <= k < |list| && list[k].account.enabled :: Pid(k)
  }

  function NewsFrom(news: nat -> seq<Torrent>, i: nat, n: nat): set<Torrent>
    requires i <= n
    decreases n - i
  {
    if i == n then {} else SetOf(news(i)) + NewsFrom(news, i + 1, n)
  }

  /** The pass is over from the i-th account on: its processes are gone and its news are published. */
  predicate Over(e: State, s: State, list: seq<FollowedRow>, i: nat, news: nat -> seq<Torrent>, db: Db)
    requires i <= |list|
  {
    && e.db == db && e.batches == s.batches - PidsFrom(list, i)
    && e.published == s.published + NewsFrom(news, i, |list|) && e.subs == s.subs && e.now == s.now
  }

  /** Steps of batch synchronisation without a new snapshot, and publication, lead there. */
  ghost predicate Concludes(s: State, list: seq<FollowedRow>, i: nat, news: nat -> seq<Torrent>, db: Db)
    requires i <= |list|
  {
    exists e :: Leads(Syncing, s, e) && Over(e, s, list, i, news, db)
  }

  /** The i-th account is done in `m`; the others follow. */
  lemma PerformedConcludes(s: State, m: State, list: seq<FollowedRow>, i: nat, w: Weather, news: nat -> seq<Torrent>, final: Db)
    requires i < |list| && list[i].account.enabled && Leads(SyncOf(Pid(i), w), s, m) && Ends(m, s, Pid(i), m.db)
    requires Concludes(m, list, i + 1, news, final)
    ensures exists e :: Leads(Syncing, s, e) && OverAfter(e, s, list, i, news, final)
  {
    var steps :| Runs(SyncOf(Pid(i), w), s, steps, m);
    RunsAsSyncing(Pid(i), w, s, steps, m);
    var e :| Leads(Syncing, m, e) && Over(e, m, list, i + 1, news, final);
    RunsThen(Syncing, s, steps, m, e);
    PidsStep(list, i);
    assert s.batches - {Pid(i)} - PidsFrom(list, i + 1) == s.batches - PidsFrom(list, i);
    assert OverAfter(e, s, list, i, news, final);
  }

  /** The same once the news of the i-th account are published. */
  predicate OverAfter(e: State, s: State, list: seq<FollowedRow>, i: nat, news: nat -> seq<Torrent>, db: Db)
    requires i < |list|
  {
    && e.db == db && e.batches == s.batches - PidsFrom(list, i)
    && e.published == s.published + NewsFrom(news, i + 1, |list|) && e.subs == s.subs && e.now == s.now
  }

  lemma PidsStep(list: seq<FollowedRow>, i: nat)
    requires i < |list|
    ensures PidsFrom(list, i) == PidsFrom(list, i + 1) + if list[i].account.enabled then {Pid(i)} else {}
  {
  }

  lemma {:induction false} PublishRun(s: State, news: seq<Torrent>)
    requires Publishable(s.published + SetOf(news))
    ensures Leads(Syncing, s, s.(published := s.published + SetOf(news)))
    decreases |news|
  {
    if news == [] {
      assert s.published + SetOf(news) == s.published;
      LeadsNowhere(Syncing, s);
    } else {
      var t, e := news[0], s.(published := s.published + SetOf(news));
      SetOfCons(news);
      if t in s.published {
        assert s.published + SetOf(news) == s.published + SetOf(news[1..]);
        PublishRun(s, news[1..]);
      } else {
        var s' := Next(s, Publish(t));
        assert s'.published + SetOf(news[1..]) == s.published + SetOf(news);
        PublishRun(s', news[1..]);
        LeadsStep(Syncing, s, Publish(t), e);
      }
    }
  }

  lemma SetOfCons(news: seq<Torrent>)
    requires news != []
    ensures SetOf(news) == SetOf(news[1..]) + {news[0]}
  {
    assert news == [news[0]] + news[1..];
  }

  lemma {:induction false} SnapshotsRun(s: State, list: seq<FollowedRow>, i: nat, weather: string -> Weather, news: nat -> seq<Torrent>)
    requires i <= |list| && Snapshots(s, list, i, |list|) && Timely(s.published, list, i, weather, news)
    ensures Concludes(s, list, i, news, SyncedFrom(s.db, list, i, weather))
    decreases |list| - i, 1
  {
    var final := SyncedFrom(s.db, list, i, weather);
    if i == |list| {
      LeadsNowhere(Syncing, s);
      assert PidsFrom(list, i) == {} && s.batches - {} == s.batches;
      assert Over(s, s, list, i, news, final);
    } else {
      var s' := s.(published := s.published + SetOf(news(i)));
      PublishRun(s, news(i));
      OneOfAll(s', list, i, weather, news);
      var e :| Leads(Syncing, s', e) && OverAfter(e, s', list, i, news, final);
      LeadsThen(Syncing, s, s', e);
      assert Over(e, s, list, i, news, final);
    }
  }

  /** The i-th account, its news published, and the rest of the list. */
  lemma {:induction false} OneOfAll(s: State, list: seq<FollowedRow>, i: nat, weather: string -> Weather, news: nat -> seq<Torrent>)
    requires i < |list| && Snapshots(s, list, i, |list|) && Timely(s.published, list, i + 1, weather, news)
    requires list[i].account.enabled ==> Matches(s.published, list[i].pubkey, list[i].account.cursor, weather(list[i].pubkey))
    ensures exists e :: Leads(Syncing, s, e) && OverAfter(e, s, list, i, news, SyncedFrom(s.db, list, i, weather))
    decreases |list| - i, 0
  {
    var final := SyncedFrom(s.db, list, i, weather);
    if !list[i].account.enabled {
      SnapshotsRun(s, list, i + 1, weather, news);
      SkippedConcludes(s, list, i, news, final);
    } else {
      var f := list[i];
      var db := Synced(s.db, f.pubkey, f.account.cursor, weather(f.pubkey)).db;
      SyncUserIsRun(s, Pid(i), f.pubkey, f.account.cursor, weather(f.pubkey));
      var m :| Leads(SyncOf(Pid(i), weather(f.pubkey)), s, m) && Ends(m, s, Pid(i), db);
      SnapshotsRun(m, list, i + 1, weather, news);
      PerformedConcludes(s, m, list, i, weather(f.pubkey), news, final);
    }
  }

  lemma SkippedConcludes(s: State, list: seq<FollowedRow>, i: nat, news: nat -> seq<Torrent>, final: Db)
    requires i < |list| && !list[i].account.enabled && Concludes(s, list, i + 1, news, final)
    ensures exists e :: Leads(Syncing, s, e) && OverAfter(e, s, list, i, news, final)
  {
    PidsStep(list, i);
    var e :| Leads(Syncing, s, e) && Over(e, s, list, i + 1, news, final);
    assert OverAfter(e, s, list, i, news, final);
  }

  /** The state in which all snapshots of the list have been taken. */
  predicate Asked(m: State, s: State, list: seq<FollowedRow>, i: nat)
    requires i <= |list|
  {
    m == s.(batches := m.batches) && m.batches - PidsFrom(list, i) == s.batches - PidsFrom(list, i)
  }

  lemma {:induction false} AskAll(s: State, list: seq<FollowedRow>, i: nat) returns (m: State)
    requires i <= |list| && Snapshots(s, list, 0, i) && Lists(list, s.db.followed)
    requires forall k | i <= k < |list| :: Pid(k) !in s.batches
    ensures Leads(Asking, s, m) && Asked(m, s, list, i) && Snapshots(m, list, 0, |list|)
    decreases |list| - i
  {
    if i == |list| {
      m := s;
      LeadsNowhere(Asking, s);
    } else if !list[i].account.enabled {
      m := AskAll(s, list, i + 1);
      AskedStep(m, s, s, list, i);
    } else {
      var step := Ask(Pid(i), list[i].pubkey);
      AskOne(s, list, i);
      m := AskAll(Next(s, step), list, i + 1);
      LeadsStep(Asking, s, step, m);
      AskedStep(m, Next(s, step), s, list, i);
    }
  }

  lemma AskOne(s: State, list: seq<FollowedRow>, i: nat)
    requires i < |list| && Snapshots(s, list, 0, i) && Lists(list, s.db.followed) && Pid(i) !in s.batches
    ensures var step := Ask(Pid(i), list[i].pubkey);
            && Enabled(s, step) && Snapshots(Next(s, step), list, 0, i + 1)
            && Next(s, step) == s.(batches := s.batches[Pid(i) := Snapshot(list[i].pubkey, list[i].account.cursor)])
  {
    assert list[i] in list;
  }

  lemma AskedStep(m: State, s': State, s: State, list: seq<FollowedRow>, i: nat)
    requires i < |list| && Asked(m, s', list, i + 1) && s' == s.(batches := s'.batches)
    requires s'.batches == s.batches || (list[i].account.enabled && s'.batches - {Pid(i)} == s.batches - {Pid(i)})
    ensures Asked(m, s, list, i)
  {
    var own, rest := PidsFrom(list, i), PidsFrom(list, i + 1);
    PidsStep(list, i);
    MinusMore(m.batches, s'.batches, rest, own);
    if s'.batches != s.batches {
      MinusMore(s'.batches, s.batches, {Pid(i)}, own);
    }
  }

  lemma MinusMore(a: map<Pid, Batch>, b: map<Pid, Batch>, some: set<Pid>, more: set<Pid>)
    requires a - some == b - some && some <= more
    ensures a - more == b - more
  {
    assert a - more == (a - some) - more && b - more == (b - some) - more;
  }

  /**
   SyncAll is a run of the protocol: all snapshots first, and nothing else; then the accounts one after the
   other while events go on being published; in the end no batch is left open.
   */
  lemma SyncAllIsRun(s: State, list: seq<FollowedRow>, weather: string -> Weather, news: nat -> seq<Torrent>) returns (m: State, e: State)
    requires Lists(list, s.db.followed) && Timely(s.published, list, 0, weather, news)
    requires forall k | 0 <= k < |list| :: Pid(k) !in s.batches
    ensures Leads(Asking, s, m) && m == s.(batches := m.batches) && Snapshots(m, list, 0, |list|)
    ensures Leads(Syncing, m, e)
    ensures e.db == SyncedFrom(s.db, list, 0, weather) && e.published == s.published + NewsFrom(news, 0, |list|)
    ensures e.batches == s.batches && e.subs == s.subs && e.now == s.now
  {
    m := AskAll(s, list, 0);
    SnapshotsRun(m, list, 0, weather, news);
    e :| Leads(Syncing, m, e) && Over(e, m, list, 0, news, SyncedFrom(s.db, list, 0, weather));
    assert s.batches - PidsFrom(list, 0) == s.batches;
  }

  // ---------------------------------------------------------------------------------------------
  // The live consumer
  // ---------------------------------------------------------------------------------------------

  datatype LiveEvent = TorrentEvent(t: Torrent) | ProfileEvent(p: Profile)

  /** Store failures while the i-th event is handled. */
  datatype Trouble = Trouble(upsert: nat -> Option<nat>, cursor: nat -> bool, profile: nat -> bool)

  /** One event: the cursor is only touched when the torrent was written. */
  function Handled(db: Db, ev: LiveEvent, i: nat, trouble: Trouble): Db {
    match ev
    case TorrentEvent(t) =>
      if Fails(t, trouble.upsert(i)) then db
      else if trouble.cursor(i) then PutTorrent(db, t)
      else RaiseCursor(PutTorrent(db, t), t.pubkey, t.publishedAt)
    case ProfileEvent(p) => if trouble.profile(i) then db else PutProfile(db, p)
  }

  function Consumed(db: Db, events: seq<LiveEvent>, i: nat, trouble: Trouble): Db
    requires i <= |events|
    decreases |events| - i
  {
    if i == |events| then db else Consumed(Handled(db, events[i], i, trouble), events, i + 1, trouble)
  }

  method ConsumeLive(st: Store, events: seq<LiveEvent>, trouble: Trouble, now: int)
    requires st.Valid()
    modifies st, st.fts
    ensures st.Valid() && st.View() == Consumed(old(st.View()), events, 0, trouble)
    ensures Lands(old(st.View()), st.View(), events, |events|, trouble)
  {
    ConsumedMeans(st.View(), events, trouble);
    for i := 0 to |events|
      invariant st.Valid()
      invariant Consumed(st.View(), events, i, trouble) == Consumed(old(st.View()), events, 0, trouble)
    {
      Handle(st, events[i], i, trouble, now);
    }
  }

  method Handle(st: Store, ev: LiveEvent, i: nat, trouble: Trouble, now: int)
    requires st.Valid()
    modifies st, st.fts
    ensures st.Valid() && st.View() == Handled(old(st.View()), ev, i, trouble)
  {
    match ev {
      case TorrentEvent(t) =>
        var ok := st.UpsertTorrent(t, now, trouble.upsert(i));
        if ok && !trouble.cursor(i) {
          st.UpdateLastSynced(t.pubkey, t.publishedAt);
        }
      case ProfileEvent(p) =>
        if !trouble.profile(i) {
          st.UpsertProfile(p);
        }
    }
  }

  /** The torrents among the first n events whose upsert goes through. */
  function Entered(events: seq<LiveEvent>, n: nat, trouble: Trouble): seq<Torrent>
    requires n <= |events|
  {
    if n == 0 then []
    else
      var init, last := Entered(events, n - 1, trouble), events[n - 1];
      if last.TorrentEvent? && (trouble.upsert(n - 1).Some? ==> trouble.upsert(n - 1).value >= |last.t.files| + 4)
      then init + [last.t] else init
  }

  /** The profiles among the first n events whose update goes through. */
  function Renamed(events: seq<LiveEvent>, n: nat, trouble: Trouble): seq<Profile>
    requires n <= |events|
  {
    if n == 0 then []
    else
      var init, last := Renamed(events, n - 1, trouble), events[n - 1];
      if last.ProfileEvent? && !trouble.profile(n - 1) then init + [last.p] else init
  }

  /** The dates of the account's own torrents among them, of which both the upsert and the cursor update go through. */
  function Marks(events: seq<LiveEvent>, n: nat, trouble: Trouble, author: string): set<int>
    requires n <= |events|
  {
    set i: nat | i < n && events[i].TorrentEvent? && events[i].t.pubkey == author && !trouble.cursor(i)
                 && (trouble.upsert(i).Some? ==> trouble.upsert(i).value >= |events[i].t.files| + 4) :: events[i].t.publishedAt
  }

  /** After the first n events: the rows of the torrents inserted, the cursors at their dates, the latest profiles. */
  ghost predicate Lands(before: Db, after: Db, events: seq<LiveEvent>, n: nat, trouble: Trouble)
    requires n <= |events|
  {
    && LastWins(Entered(events, n, trouble), before.torrents, after.torrents) && after.stats == before.stats
    && AllReach(before.followed, after.followed, a requires n <= |events| => Marks(events, n, trouble, a))
    && Latest(Renamed(events, n, trouble), before.profiles, after.profiles)
  }

  /** The date the i-th event takes the account's cursor to. */
  function NewMarks(ev: LiveEvent, i: nat, trouble: Trouble, author: string): set<int> {
    if ev.TorrentEvent? && ev.t.pubkey == author && !trouble.cursor(i) && !Fails(ev.t, trouble.upsert(i)) then {ev.t.publishedAt} else {}
  }

  lemma MarksStep(events: seq<LiveEvent>, i: nat, trouble: Trouble, author: string)
    requires i < |events|
    ensures Marks(events, i + 1, trouble, author)
            == Marks(events, i, trouble, author) + NewMarks(events[i], i, trouble, author)
  {
  }

  lemma HandledReaches(db: Db, ev: LiveEvent, i: nat, trouble: Trouble, author: string)
    requires author in db.followed
    ensures var after := Handled(db, ev, i, trouble).followed;
            author in after && Reaches(db.followed[author], after[author], NewMarks(ev, i, trouble, author))
  {
  }

  lemma HandledAccounts(db: Db, ev: LiveEvent, i: nat, trouble: Trouble)
    ensures Handled(db, ev, i, trouble).followed.Keys == db.followed.Keys
  {
  }

  /** The cursors of the database have reached their marks. */
  predicate Marked(before: map<string, Account>, after: map<string, Account>, events: seq<LiveEvent>, n: nat, trouble: Trouble)
    requires n <= |events|
  {
    && before.Keys == after.Keys
    && forall a | a in before :: Reaches(before[a], after[a], Marks(events, n, trouble, a))
  }

  lemma MarkedStep(before: map<string, Account>, db: Db, events: seq<LiveEvent>, i: nat, trouble: Trouble)
    requires i < |events| && Marked(before, db.followed, events, i, trouble)
    ensures Marked(before, Handled(db, events[i], i, trouble).followed, events, i + 1, trouble)
  {
    var after := Handled(db, events[i], i, trouble).followed;
    HandledAccounts(db, events[i], i, trouble);
    forall a | a in before
      ensures Reaches(before[a], after[a], Marks(events, i + 1, trouble, a))
    {
      HandledReaches(db, events[i], i, trouble, a);
      MarksStep(events, i, trouble, a);
      ReachesMore(before[a], db.followed[a], after[a], Marks(events, i, trouble, a), NewMarks(events[i], i, trouble, a));
    }
  }

  lemma ReachesMore(before: Account, mid: Account, after: Account, dates: set<int>, more: set<int>)
    requires Reaches(before, mid, dates) && Reaches(mid, after, more)
    ensures Reaches(before, after, dates + more)
  {
  }

  /** The torrent written for the i-th event, if it is one and goes through. */
  function NewTorrent(ev: LiveEvent, i: nat, trouble: Trouble): seq<Torrent> {
    if ev.TorrentEvent? && !Fails(ev.t, trouble.upsert(i)) then [ev.t] else []
  }

  function NewProfile(ev: LiveEvent, i: nat, trouble: Trouble): seq<Profile> {
    if ev.ProfileEvent? && !trouble.profile(i) then [ev.p] else []
  }

  lemma InsertedStep(events: seq<LiveEvent>, i: nat, trouble: Trouble)
    requires i < |events|
    ensures Entered(events, i + 1, trouble) == Entered(events, i, trouble) + NewTorrent(events[i], i, trouble)
    ensures Renamed(events, i + 1, trouble) == Renamed(events, i, trouble) + NewProfile(events[i], i, trouble)
  {
  }

  /** The database is that of before with these torrents and profiles written. */
  predicate Holding(before: Db, db: Db, ts: seq<Torrent>, ps: seq<Profile>) {
    && db.torrents == PutEach(before.torrents, ts) && db.stats == before.stats
    && db.profiles == KeepEach(before.profiles, ps)
  }

  lemma HoldingStep(before: Db, db: Db, ts: seq<Torrent>, ps: seq<Profile>, ev: LiveEvent, i: nat, trouble: Trouble)
    requires Holding(before, db, ts, ps)
    ensures Holding(before, Handled(db, ev, i, trouble), ts + NewTorrent(ev, i, trouble), ps + NewProfile(ev, i, trouble))
  {
    HandledRows(db, ev, i, trouble);
    PutEachMore(before.torrents, ts, NewTorrent(ev, i, trouble));
    KeepEachMore(before.profiles, ps, NewProfile(ev, i, trouble));
  }

  lemma HandledRows(db: Db, ev: LiveEvent, i: nat, trouble: Trouble)
    ensures var after := Handled(db, ev, i, trouble);
            && after.torrents == PutEach(db.torrents, NewTorrent(ev, i, trouble)) && after.stats == db.stats
            && after.profiles == KeepEach(db.profiles, NewProfile(ev, i, trouble))
  {
    assert PutEach(db.torrents, []) == db.torrents && KeepEach(db.profiles, []) == db.profiles;
    match ev
    case TorrentEvent(t) => PutEachOne(db.torrents, t);
    case ProfileEvent(p) => KeepEachOne(db.profiles, p);
  }

  lemma {:induction false} ConsumedLands(before: Db, db: Db, events: seq<LiveEvent>, i: nat, trouble: Trouble)
    requires i <= |events| && Marked(before.followed, db.followed, events, i, trouble)
    requires Holding(before, db, Entered(events, i, trouble), Renamed(events, i, trouble))
    ensures var after, n := Consumed(db, events, i, trouble), |events|;
            && Marked(before.followed, after.followed, events, n, trouble)
            && Holding(before, after, Entered(events, n, trouble), Renamed(events, n, trouble))
    decreases |events| - i
  {
    if i < |events| {
      HoldingStep(before, db, Entered(events, i, trouble), Renamed(events, i, trouble), events[i], i, trouble);
      InsertedStep(events, i, trouble);
      MarkedStep(before.followed, db, events, i, trouble);
      ConsumedLands(before, Handled(db, events[i], i, trouble), events, i + 1, trouble);
    }
  }

  /** Whatever fails on the way, the consumer leaves what the events that went through say, table by table. */
  lemma ConsumedMeans(db: Db, events: seq<LiveEvent>, trouble: Trouble)
    ensures Lands(db, Consumed(db, events, 0, trouble), events, |events|, trouble)
  {
    ConsumedLands(db, db, events, 0, trouble);
    EachLastWins(db.torrents, Entered(events, |events|, trouble));
    EachLatest(db.profiles, Renamed(events, |events|, trouble));
  }

  /** The event is one the subscription may push. */
  predicate Pushable(published: set<Torrent>, authors: set<string>, since: int, ev: LiveEvent) {
    match ev
    case TorrentEvent(t) => t in published && t.pubkey in authors && t.publishedAt >= since
    case ProfileEvent(p) => p.pubkey in authors && p.updatedAt >= since
  }

  /** The consumer's own steps, each succeeding or failing as its trouble has it, lead to this database. */
  ghost predicate Absorbs(s: State, a: Actor, db: Db)
    requires a.LiveOf?
  {
    exists e :: Leads(a, s, e) && Settles(e, s, a.l, db)
  }

  /** Only the database has changed, and what the consumer has taken. */
  predicate Settles(e: State, s: State, l: Pid, db: Db) {
    && e.db == db && e.batches == s.batches && e.published == s.published
    && l in s.subs && s.subs[l].Open? && l in e.subs && e.subs[l].Open?
    && e.subs == s.subs[l := s.subs[l].(taken := e.subs[l].taken)]
  }

  /** The consumer has finished what it held. */
  predicate Idles(e: State, s: State, l: Pid, db: Db) {
    && e.db == db && e.batches == s.batches && e.published == s.published
    && l in s.subs && s.subs[l].Open? && e.subs == s.subs[l := s.subs[l].(held := Idle)]
  }

  /** The consumer finishes what it holds: it is idle again. */
  ghost predicate Finishes(s: State, a: Actor, db: Db)
    requires a.LiveOf?
  {
    exists e :: Leads(a, s, e) && Idles(e, s, a.l, db)
  }

  /** The subscription holds the i-th event. */
  predicate Holds(s: State, a: Actor, i: nat, held: Held)
    requires a.LiveOf?
  {
    i < |a.events| && a.l in s.subs && s.subs[a.l].Open? && s.subs[a.l].held == held
  }

  lemma StepFinishes(s: State, a: Actor, step: Step)
    requires a.LiveOf? && Enabled(s, step) && Acts(a, s, step) && Idles(Next(s, step), s, a.l, Next(s, step).db)
    ensures Finishes(s, a, Next(s, step).db)
  {
    LeadsNowhere(a, Next(s, step));
    LeadsStep(a, s, step, Next(s, step));
  }

  lemma CursorFinishes(s: State, a: Actor, t: Torrent, i: nat)
    requires a.LiveOf? && Holds(s, a, i, Upserted(t)) && a.events[i] == TorrentEvent(t)
    ensures Finishes(s, a, if a.trouble.cursor(i) then s.db else RaiseCursor(s.db, t.pubkey, t.publishedAt))
  {
    StepFinishes(s, a, LiveAdvance(a.l, !a.trouble.cursor(i)));
  }

  lemma TorrentFinishes(s: State, a: Actor, t: Torrent, i: nat)
    requires a.LiveOf? && Holds(s, a, i, GotTorrent(t)) && a.events[i] == TorrentEvent(t)
    ensures Finishes(s, a, Handled(s.db, TorrentEvent(t), i, a.trouble))
  {
    var failed := Fails(t, a.trouble.upsert(i));
    var step := LiveUpsert(a.l, !failed);
    if failed {
      StepFinishes(s, a, step);
    } else {
      CursorFinishes(Next(s, step), a, t, i);
      StepThenFinishes(s, a, step, Handled(s.db, TorrentEvent(t), i, a.trouble));
    }
  }

  lemma StepThenFinishes(s: State, a: Actor, step: Step, db: Db)
    requires a.LiveOf? && Enabled(s, step) && Acts(a, s, step) && step.LiveUpsert? && Finishes(Next(s, step), a, db)
    ensures Finishes(s, a, db)
  {
    var e :| Leads(a, Next(s, step), e) && Idles(e, Next(s, step), a.l, db);
    LeadsStep(a, s, step, e);
    ConsumerMoves(s, a, step);
    IdlesAfter(e, Next(s, step), s, a.l, db);
  }

  /** A step of the consumer moves nothing but the database and its own subscription. */
  lemma ConsumerMoves(s: State, a: Actor, step: Step)
    requires a.LiveOf? && Enabled(s, step) && Acts(a, s, step)
    ensures MovesOnly(Next(s, step), s, a.l)
    ensures step.LiveUpsert? ==> Next(s, step).subs[a.l].taken == s.subs[a.l].taken
  {
  }

  predicate MovesOnly(m: State, s: State, l: Pid) {
    && m.batches == s.batches && m.published == s.published && l in s.subs && s.subs[l].Open? && l in m.subs && m.subs[l].Open?
    && m.subs == s.subs[l := s.subs[l].(held := m.subs[l].held, taken := m.subs[l].taken)]
  }

  lemma IdlesAfter(e: State, m: State, s: State, l: Pid, db: Db)
    requires MovesOnly(m, s, l) && m.subs[l].taken == s.subs[l].taken && Idles(e, m, l, db)
    ensures Idles(e, s, l, db)
  {
  }

  lemma SettlesAfter(e: State, m: State, s: State, l: Pid, db: Db)
    requires MovesOnly(m, s, l) && s.subs[l].held.Idle? && Idles(e, m, l, db)
    ensures Settles(e, s, l, db)
  {
    assert e.subs == s.subs[l := s.subs[l].(taken := e.subs[l].taken)];
  }

  lemma ProfileFinishes(s: State, a: Actor, p: Profile, i: nat)
    requires a.LiveOf? && Holds(s, a, i, GotProfile(p)) && a.events[i] == ProfileEvent(p)
    ensures Finishes(s, a, Handled(s.db, ProfileEvent(p), i, a.trouble))
  {
    StepFinishes(s, a, LiveProfile(a.l, !a.trouble.profile(i)));
  }

  /** Taking an event from the channel. */
  predicate Takes(s: State, a: Actor, step: Step)
    requires a.LiveOf?
  {
    && a.l in s.subs && s.subs[a.l].Open? && s.subs[a.l].held.Idle? && (step.Arrive? || step.ArriveProfile?)
    && Enabled(s, step) && Acts(a, s, step)
  }

  lemma TakenAbsorbs(s: State, a: Actor, step: Step, db: Db)
    requires a.LiveOf? && Takes(s, a, step) && Finishes(Next(s, step), a, db)
    ensures Absorbs(s, a, db)
  {
    var s', l := Next(s, step), a.l;
    var e :| Leads(a, s', e) && Idles(e, s', l, db);
    LeadsStep(a, s, step, e);
    ConsumerMoves(s, a, step);
    SettlesAfter(e, s', s, l, db);
  }

  /** Taking the event from the channel, then finishing it. */
  lemma EventIsRun(s: State, a: Actor, i: nat)
    requires a.LiveOf? && Holds(s, a, i, Idle) && Pushable(s.published, s.subs[a.l].authors, s.subs[a.l].since, a.events[i])
    ensures Absorbs(s, a, Handled(s.db, a.events[i], i, a.trouble))
  {
    assert a.events[i] in a.events;
    match a.events[i]
    case TorrentEvent(t) =>
      var step := Arrive(a.l, t);
      TorrentFinishes(Next(s, step), a, t, i);
      TakenAbsorbs(s, a, step, Handled(s.db, a.events[i], i, a.trouble));
    case ProfileEvent(p) =>
      var step := ArriveProfile(a.l, p);
      ProfileFinishes(Next(s, step), a, p, i);
      TakenAbsorbs(s, a, step, Handled(s.db, a.events[i], i, a.trouble));
  }

  lemma SettlesThen(e: State, m: State, s: State, l: Pid, mid: Db, db: Db)
    requires Settles(m, s, l, mid) && Settles(e, m, l, db)
    ensures Settles(e, s, l, db)
  {
    assert e.subs == s.subs[l := s.subs[l].(taken := e.subs[l].taken)];
  }

  /** The live consumer is a run of the protocol. */
  lemma {:induction false} ConsumeIsRun(s: State, l: Pid, events: seq<LiveEvent>, i: nat, trouble: Trouble)
    requires i <= |events| && l in s.subs && s.subs[l].Open? && s.subs[l].held.Idle?
    requires forall k | 0 <= k < |events| :: Pushable(s.published, s.subs[l].authors, s.subs[l].since, events[k])
    ensures Absorbs(s, LiveOf(l, events, trouble), Consumed(s.db, events, i, trouble))
    decreases |events| - i
  {
    var a := LiveOf(l, events, trouble);
    if i == |events| {
      LeadsNowhere(a, s);
      assert Settles(s, s, l, s.db);
    } else {
      EventIsRun(s, a, i);
      var db := Handled(s.db, events[i], i, trouble);
      var m :| Leads(a, s, m) && Settles(m, s, l, db);
      ConsumeIsRun(m, l, events, i + 1, trouble);
      AbsorbsThen(s, m, a, db, Consumed(db, events, i + 1, trouble));
    }
  }

  lemma AbsorbsThen(s: State, m: State, a: Actor, mid: Db, db: Db)
    requires a.LiveOf? && Leads(a, s, m) && Settles(m, s, a.l, mid) && Absorbs(m, a, db)
    ensures Absorbs(s, a, db)
  {
    var e :| Leads(a, m, e) && Settles(e, m, a.l, db);
    LeadsThen(a, s, m, e);
    SettlesThen(e, m, s, a.l, mid, db);
  }
}
