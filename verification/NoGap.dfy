/**
 Incremental synchronisation leaves no gap: in runs without deletions, unfollows or store errors, over
 complete relay answers, a finished SyncUser has catalogued everything the account had published when the
 relays answered. A live consumer beside it keeps the guarantee as long as its subscription reaches back to
 the account's cursor, and loses it otherwise.
 */
module NoGap {
  import opened Catalog
  import opened Protocol
  import Safety

  /** Every event the author published before `ts` is among `ids`; zero stands for no bound and promises nothing. */
  ghost predicate Covers(published: set<Torrent>, ids: set<string>, author: string, ts: int) {
    ts > 0 ==> forall e | e in published && e.pubkey == author && e.publishedAt < ts :: e.id in ids
  }

  /** What is known of a sync in flight. */
  ghost predicate Tracks(published: set<Torrent>, ids: set<string>, x: Batch) {
    match x
    case Snapshot(author, since) => Covers(published, ids, author, since)
    case Writing(author, since, maxTs, todo, known) =>
      && Covers(published, ids, author, since)
      && (forall e | e in known :: e.id in ids || e in todo)
      && (maxTs == since || exists e | e in known :: e.publishedAt == maxTs)
      && (forall e | e in todo :: e in known)
      && (forall e, k | e in published && e.pubkey == author && e !in known && k in known :: k.publishedAt <= e.publishedAt)
    case _ => true
  }

  ghost predicate Covered(s: State, author: string, ts: int) {
    Covers(s.published, s.db.torrents.Keys, author, ts)
  }

  ghost predicate Tracked(s: State, x: Batch) {
    Tracks(s.published, s.db.torrents.Keys, x)
  }

  /** The event a live consumer has taken and whose date it may still move the cursor to. */
  predicate Bears(x: Sub, t: Torrent) {
    x.Open? && (x.held == GotTorrent(t) || x.held == Upserted(t))
  }

  /** What is known of a live consumer: before the event it holds it has taken everything from `since` on. */
  ghost predicate Took(published: set<Torrent>, ids: set<string>, x: Sub) {
    x.Open? ==>
      && (forall e | e in x.taken :: e in published && (e.id in ids || x.held == GotTorrent(e)))
      && (forall t | Bears(x, t) :: t in x.taken && x.since <= t.publishedAt && TakenBefore(published, x, t))
  }

  ghost predicate TakenBefore(published: set<Torrent>, x: Sub, t: Torrent)
    requires x.Open?
  {
    forall e | e in published && e.pubkey == t.pubkey && x.since <= e.publishedAt < t.publishedAt :: e in x.taken
  }

  ghost predicate Caught(s: State, x: Sub) {
    Took(s.published, s.db.torrents.Keys, x)
  }

  ghost predicate Gapless(s: State) {
    && (forall p | p in s.db.followed :: Covered(s, p, s.db.followed[p].cursor))
    && (forall b | b in s.batches :: Tracked(s, s.batches[b]))
    && (forall l | l in s.subs :: Caught(s, s.subs[l]))
  }

  /** The guard: the subscription reaches back to the account's cursor, which is not zero. */
  predicate ReachesBack(db: Db, p: string, since: int) {
    p in db.followed && 0 < db.followed[p].cursor && since <= db.followed[p].cursor
  }

  /**
   The assumptions: nothing deleted or unfollowed, no write fails, an answer holds everything its filter asks
   for, a new event is not dated before the author's earlier ones, and a subscription delivers an author's
   events in the order of their dates.
   */
  ghost predicate Orderly(s: State, step: Step) {
    match step
    case Publish(t) => forall e | e in s.published && e.pubkey == t.pubkey :: e.publishedAt <= t.publishedAt
    case Answer(b, events) =>
      b in s.batches && s.batches[b].Snapshot? &&
      forall e | e in PublishedBy(s, s.batches[b].author) && (s.batches[b].since > 0 ==> e.publishedAt >= s.batches[b].since) :: e in events
    case BatchUpsert(_, ok) => ok
    case Advance(_, ok) => ok
    case BatchProfile(_, ok) => ok
    case Arrive(l, t) => l in s.subs && s.subs[l].Open? && TakenBefore(s.published, s.subs[l], t)
    case LiveUpsert(_, ok) => ok
    case LiveAdvance(_, ok) => ok
    case LiveProfile(_, ok) => ok
    case RemoveCmd(_) => false
    case PurgeCmd(_) => false
    case UnfollowCmd(_) => false
    case _ => true
  }

  /** A live consumer moves a cursor only if its subscription reaches back to it. */
  ghost predicate MovesSafely(s: State, step: Step) {
    step.LiveAdvance? ==>
      && step.l in s.subs && s.subs[step.l].Open? && s.subs[step.l].held.Upserted?
      && (s.subs[step.l].held.t.pubkey in s.db.followed ==> ReachesBack(s.db, s.subs[step.l].held.t.pubkey, s.subs[step.l].since))
  }

  ghost predicate OrderlyRun(s: State, steps: seq<Step>)
    decreases |steps|
  {
    steps == [] || (Enabled(s, steps[0]) && Orderly(s, steps[0]) && MovesSafely(s, steps[0]) && OrderlyRun(Next(s, steps[0]), steps[1..]))
  }

  /** A new event is not dated before a cursor, which is the date of an earlier event. */
  lemma CoveredAfterPublish(s: State, t: Torrent, author: string, ts: int)
    requires Safety.Inv(s) && Enabled(s, Publish(t)) && Orderly(s, Publish(t))
    requires Covered(s, author, ts) && Safety.Dated(s.written, author, ts)
    ensures Covered(Next(s, Publish(t)), author, ts)
  {
  }

  /** Once written, always covered: entries are only added. */
  lemma CoveredKept(s: State, step: Step, author: string, ts: int)
    requires Safety.Inv(s) && Enabled(s, step) && Orderly(s, step)
    requires Covered(s, author, ts) && Safety.Dated(s.written, author, ts)
    ensures Covered(Next(s, step), author, ts)
  {
    if step.Publish? {
      CoveredAfterPublish(s, step.t, author, ts);
    } else {
      Safety.AdditiveStep(s, step);
    }
  }

  /** When nothing is left to write, everything before the newest event written is covered. */
  lemma FinishedIsCovered(s: State, x: Batch)
    requires x.Writing? && x.todo == [] && Tracked(s, x)
    ensures Covered(s, x.author, x.maxTs)
  {
  }

  /** Only the end of a sync and a live event move a cursor; a new row starts at zero. */
  lemma CursorMoves(s: State, step: Step, p: string)
    requires Enabled(s, step) && Orderly(s, step) && p in Next(s, step).db.followed
    requires p !in s.db.followed || Next(s, step).db.followed[p].cursor != s.db.followed[p].cursor
    ensures var c := Next(s, step).db.followed[p].cursor;
            || c == 0
            || (step.Advance? && s.batches[step.b].author == p && s.batches[step.b].maxTs == c)
            || (step.LiveAdvance? && s.subs[step.l].held.t.pubkey == p && s.subs[step.l].held.t.publishedAt == c)
  {
  }

  lemma AdvanceCovers(s: State, b: Pid)
    requires Safety.Inv(s) && Gapless(s) && Enabled(s, Advance(b, true))
    ensures Covered(Next(s, Advance(b, true)), s.batches[b].author, s.batches[b].maxTs)
  {
    var x := s.batches[b];
    assert Tracked(s, x) && Safety.BatchOk(x, s.published, s.written);
    FinishedIsCovered(s, x);
    CoveredKept(s, Advance(b, true), x.author, x.maxTs);
  }

  /** Before a live event whose subscription reaches back to the cursor, nothing is missing. */
  lemma LiveAdvanceCovers(s: State, l: Pid)
    requires Safety.Inv(s) && Gapless(s) && Enabled(s, LiveAdvance(l, true))
    requires ReachesBack(s.db, s.subs[l].held.t.pubkey, s.subs[l].since)
    ensures var t := s.subs[l].held.t; Covered(Next(s, LiveAdvance(l, true)), t.pubkey, t.publishedAt)
  {
    var x := s.subs[l];
    var t := x.held.t;
    assert Caught(s, x) && Bears(x, t);
    assert Covered(s, t.pubkey, s.db.followed[t.pubkey].cursor);
  }

  lemma CursorsCovered(s: State, step: Step)
    requires Safety.Inv(s) && Gapless(s) && Enabled(s, step) && Orderly(s, step) && MovesSafely(s, step)
    ensures var s' := Next(s, step); forall p | p in s'.db.followed :: Covered(s', p, s'.db.followed[p].cursor)
  {
    var s' := Next(s, step);
    forall p | p in s'.db.followed
      ensures Covered(s', p, s'.db.followed[p].cursor)
    {
      if p in s.db.followed && s'.db.followed[p].cursor == s.db.followed[p].cursor {
        CoveredKept(s, step, p, s.db.followed[p].cursor);
      } else {
        CursorMoves(s, step, p);
        if step.Advance? {
          AdvanceCovers(s, step.b);
        } else if step.LiveAdvance? {
          LiveAdvanceCovers(s, step.l);
        }
      }
    }
  }

  lemma BatchKept(s: State, step: Step, b: Pid)
    requires Safety.Inv(s) && Gapless(s) && Enabled(s, step) && Orderly(s, step)
    requires b in s.batches && b in BatchesAfter(s, step) && BatchesAfter(s, step)[b] == s.batches[b]
    ensures Tracked(Next(s, step), s.batches[b])
  {
    if step.Publish? {
      BatchKeptByNews(s, step.t, b);
    } else {
      assert Tracked(s, s.batches[b]);
      TrackedMore(s, step, s.batches[b]);
    }
  }

  lemma TrackedMore(s: State, step: Step, x: Batch)
    requires Enabled(s, step) && Orderly(s, step) && !step.Publish? && Tracked(s, x)
    ensures Tracked(Next(s, step), x)
  {
    Safety.AdditiveStep(s, step);
    TracksMore(s.published, s.db.torrents.Keys, Next(s, step).db.torrents.Keys, x);
  }

  lemma BatchKeptByNews(s: State, t: Torrent, b: Pid)
    requires Safety.Inv(s) && Gapless(s) && Enabled(s, Publish(t)) && Orderly(s, Publish(t)) && b in s.batches
    ensures Tracked(Next(s, Publish(t)), s.batches[b])
  {
    var x := s.batches[b];
    assert Tracked(s, x) && Safety.BatchOk(x, s.published, s.written);
    TracksNews(s.published, s.db.torrents.Keys, x, t, s.written);
  }

  lemma TracksMore(published: set<Torrent>, ids: set<string>, ids': set<string>, x: Batch)
    requires Tracks(published, ids, x) && ids <= ids'
    ensures Tracks(published, ids', x)
  {
  }

  /** A new event, dated no earlier than the author's others, breaks nothing. */
  lemma TracksNews(published: set<Torrent>, ids: set<string>, x: Batch, t: Torrent, written: set<Torrent>)
    requires Tracks(published, ids, x) && Safety.BatchOk(x, published, written) && written <= published
    requires forall e | e in published && e.pubkey == t.pubkey :: e.publishedAt <= t.publishedAt
    ensures Tracks(published + {t}, ids, x)
  {
  }

  lemma BatchMoved(s: State, step: Step, b: Pid)
    requires Safety.Inv(s) && Gapless(s) && Enabled(s, step) && Orderly(s, step)
    requires b in BatchesAfter(s, step) && (b !in s.batches || BatchesAfter(s, step)[b] != s.batches[b])
    ensures Tracked(Next(s, step), BatchesAfter(s, step)[b])
  {
    var s' := Next(s, step);
    match step
    case Ask(_, author) =>
      assert Covered(s, author, s.db.followed[author].cursor);
    case Answer(_, events) =>
      AnswerTracked(s, b, events);
    case BatchUpsert(_, _) =>
      UpsertTracked(s, b);
    case _ =>
  }

  lemma AnswerTracked(s: State, b: Pid, events: seq<Torrent>)
    requires Safety.Inv(s) && Gapless(s) && Enabled(s, Answer(b, events)) && Orderly(s, Answer(b, events))
    ensures Tracked(Next(s, Answer(b, events)), BatchesAfter(s, Answer(b, events))[b])
  {
    var x := s.batches[b];
    assert Tracked(s, x);
    forall e | e in PublishedBy(s, x.author)
      ensures e.id in s.db.torrents || e in events
    {
      if x.since > 0 && e.publishedAt < x.since {
        assert Covered(s, x.author, x.since);
      }
    }
  }

  lemma UpsertTracked(s: State, b: Pid)
    requires Safety.Inv(s) && Gapless(s) && Enabled(s, BatchUpsert(b, true))
    ensures Tracked(Next(s, BatchUpsert(b, true)), BatchesAfter(s, BatchUpsert(b, true))[b])
  {
    var x, s' := s.batches[b], Next(s, BatchUpsert(b, true));
    assert Tracked(s, x) && Safety.BatchOk(x, s.published, s.written);
    var head := x.todo[0];
    assert head in x.todo && head in x.known;
    assert s'.db.torrents.Keys == s.db.torrents.Keys + {head.id};
    CoveredKept(s, BatchUpsert(b, true), x.author, x.since);
  }

  /** A consumer that does not move, while others do. */
  lemma SubKept(s: State, step: Step, l: Pid)
    requires Safety.Inv(s) && Gapless(s) && Enabled(s, step) && Orderly(s, step)
    requires l in s.subs && l in SubsAfter(s, step) && SubsAfter(s, step)[l] == s.subs[l]
    ensures Caught(Next(s, step), s.subs[l])
  {
    var x, ids := s.subs[l], s.db.torrents.Keys;
    assert Caught(s, x);
    if step.Publish? {
      TookNews(s.published, ids, x, step.t);
    } else {
      Safety.AdditiveStep(s, step);
      TookMore(s.published, ids, Next(s, step).db.torrents.Keys, x);
    }
  }

  lemma TookMore(published: set<Torrent>, ids: set<string>, ids': set<string>, x: Sub)
    requires Took(published, ids, x) && ids <= ids'
    ensures Took(published, ids', x)
  {
  }

  lemma TookNews(published: set<Torrent>, ids: set<string>, x: Sub, t: Torrent)
    requires Took(published, ids, x)
    requires forall e | e in published && e.pubkey == t.pubkey :: e.publishedAt <= t.publishedAt
    ensures Took(published + {t}, ids, x)
  {
  }

  lemma SubMoved(s: State, step: Step, l: Pid)
    requires Safety.Inv(s) && Gapless(s) && Enabled(s, step) && Orderly(s, step)
    requires l in SubsAfter(s, step) && (l !in s.subs || SubsAfter(s, step)[l] != s.subs[l])
    ensures Caught(Next(s, step), SubsAfter(s, step)[l])
  {
    match step
    case Arrive(_, t) =>
      ArriveCaught(s, l, t);
    case LiveUpsert(_, _) =>
      UpsertCaught(s, l);
    case LiveAdvance(_, _) =>
      IdleCaught(s, step, l);
    case ArriveProfile(_, _) =>
      IdleCaught(s, step, l);
    case LiveProfile(_, _) =>
      IdleCaught(s, step, l);
    case _ =>
  }

  lemma ArriveCaught(s: State, l: Pid, t: Torrent)
    requires Gapless(s) && Enabled(s, Arrive(l, t)) && Orderly(s, Arrive(l, t))
    ensures Caught(Next(s, Arrive(l, t)), SubsAfter(s, Arrive(l, t))[l])
  {
    assert Caught(s, s.subs[l]);
  }

  /** A consumer that lets go of its event, or has none. */
  lemma IdleCaught(s: State, step: Step, l: Pid)
    requires Gapless(s) && Enabled(s, step) && Orderly(s, step) && l in s.subs
    requires step == LiveAdvance(l, true) || step == LiveProfile(l, true) || (step.ArriveProfile? && step.l == l)
    ensures Caught(Next(s, step), SubsAfter(s, step)[l])
  {
    assert Caught(s, s.subs[l]);
    assert s.subs[l].held.Upserted? ==> Bears(s.subs[l], s.subs[l].held.t);
    assert Next(s, step).db.torrents == s.db.torrents && Next(s, step).published == s.published;
  }

  lemma UpsertCaught(s: State, l: Pid)
    requires Gapless(s) && Enabled(s, LiveUpsert(l, true))
    ensures Caught(Next(s, LiveUpsert(l, true)), SubsAfter(s, LiveUpsert(l, true))[l])
  {
    var x := s.subs[l];
    assert Caught(s, x) && Bears(x, x.held.t);
    assert Next(s, LiveUpsert(l, true)).db.torrents.Keys == s.db.torrents.Keys + {x.held.t.id};
  }

  lemma SubsCaught(s: State, step: Step)
    requires Safety.Inv(s) && Gapless(s) && Enabled(s, step) && Orderly(s, step)
    ensures var s' := Next(s, step); forall l | l in s'.subs :: Caught(s', s'.subs[l])
  {
    var s' := Next(s, step);
    forall l | l in s'.subs
      ensures Caught(s', s'.subs[l])
    {
      if l in s.subs && s'.subs[l] == s.subs[l] {
        SubKept(s, step, l);
      } else {
        SubMoved(s, step, l);
      }
    }
  }

  lemma GaplessStep(s: State, step: Step)
    requires Safety.Inv(s) && Gapless(s) && Enabled(s, step) && Orderly(s, step) && MovesSafely(s, step)
    ensures Gapless(Next(s, step))
  {
    var s' := Next(s, step);
    CursorsCovered(s, step);
    SubsCaught(s, step);
    forall b | b in s'.batches
      ensures Tracked(s', s'.batches[b])
    {
      if b in s.batches && s'.batches[b] == s.batches[b] {
        BatchKept(s, step, b);
      } else {
        BatchMoved(s, step, b);
      }
    }
  }

  lemma {:induction false} GaplessRun(s: State, steps: seq<Step>)
    requires Safety.Inv(s) && Gapless(s) && OrderlyRun(s, steps)
    ensures Legal(s, steps) && Gapless(Run(s, steps)) && Safety.Inv(Run(s, steps))
    ensures s.db.torrents.Keys <= Run(s, steps).db.torrents.Keys
    decreases |steps|
  {
    if steps != [] {
      Safety.InvStep(s, steps[0]);
      Safety.AdditiveStep(s, steps[0]);
      GaplessStep(s, steps[0]);
      GaplessRun(Next(s, steps[0]), steps[1..]);
    }
  }

  /** Before the cursor of any account nothing published is missing. */
  lemma NoGap(now: int, steps: seq<Step>)
    requires OrderlyRun(Start(now), steps)
    ensures Legal(Start(now), steps)
    ensures var s := Run(Start(now), steps);
            forall p, e | p in s.db.followed && s.db.followed[p].cursor > 0 && e in s.published && e.pubkey == p
                          && e.publishedAt < s.db.followed[p].cursor :: e.id in s.db.torrents
  {
    Safety.StartInv(now);
    GaplessRun(Start(now), steps);
    var s := Run(Start(now), steps);
    forall p | p in s.db.followed
      ensures Covered(s, p, s.db.followed[p].cursor)
    {
    }
  }

  /**
   Once a SyncUser has written its last event, everything its account had published when the relays answered
   is catalogued, then and for the rest of the run.
   */
  lemma CataloguedAfterSync(now: int, steps: seq<Step>, b: Pid, more: seq<Step>)
    requires OrderlyRun(Start(now), steps) && Legal(Start(now), steps)
    requires var s := Run(Start(now), steps);
             b in s.batches && s.batches[b].Writing? && s.batches[b].todo == [] && OrderlyRun(s, more)
    ensures var s := Run(Start(now), steps);
            Legal(s, more) && forall e | e in s.batches[b].known :: e.id in Run(s, more).db.torrents
  {
    Safety.StartInv(now);
    GaplessRun(Start(now), steps);
    var s := Run(Start(now), steps);
    GaplessRun(s, more);
    assert Tracked(s, s.batches[b]);
  }
}
