/** What every step of the ingestion protocol keeps, in every interleaving and under any store failures. */
module Safety {
  import opened Catalog
  import opened Protocol

  /** A cursor is zero or the date of an event of the account that has been written. */
  ghost predicate Dated(written: set<Torrent>, author: string, ts: int) {
    ts == 0 || (ts > 0 && exists t | t in written :: t.pubkey == author && t.publishedAt == ts)
  }

  ghost predicate BatchOk(x: Batch, published: set<Torrent>, written: set<Torrent>) {
    match x
    case Snapshot(author, since) => Dated(written, author, since)
    case Writing(author, since, maxTs, todo, known) =>
      && Dated(written, author, since) && Dated(written, author, maxTs) && since <= maxTs
      && (forall t | t in todo :: t in published && t.pubkey == author)
      && (forall t | t in known :: t in published && t.pubkey == author)
    case _ => true
  }

  predicate SubOk(x: Sub, published: set<Torrent>, written: set<Torrent>) {
    x.Open? ==> (x.held.GotTorrent? ==> x.held.t in published) && (x.held.Upserted? ==> x.held.t in written)
  }

  /** Rows under their own id, with a size that is the sum of their files, and statistics of rows that exist. */
  ghost predicate Sound(db: Db) {
    && (forall id | id in db.torrents :: db.torrents[id].id == id && WellSized(db.torrents[id]))
    && db.stats.Keys <= db.torrents.Keys
  }

  ghost predicate Authentic(s: State) {
    && s.written <= s.published
    && (forall t | t in s.published :: WellSized(t))
    && (forall t, u | t in s.published && u in s.published && t.id == u.id :: t == u)
  }

  ghost predicate Cursors(db: Db, written: set<Torrent>) {
    forall p | p in db.followed :: Dated(written, p, db.followed[p].cursor)
  }

  ghost predicate Inv(s: State) {
    && Authentic(s)
    && (forall b | b in s.batches :: BatchOk(s.batches[b], s.published, s.written))
    && (forall l | l in s.subs :: SubOk(s.subs[l], s.published, s.written))
    && Cursors(s.db, s.written)
    && Sound(s.db)
  }

  lemma StartInv(now: int)
    ensures Inv(Start(now))
  {
  }

  /** Where a write comes from. */
  lemma WriteSource(s: State, step: Step)
    requires Inv(s) && Enabled(s, step)
    ensures WriteOf(s, step).Put? ==> WriteOf(s, step).t in s.published
    ensures WriteOf(s, step).Raise? && WriteOf(s, step).ts > 0 ==> Dated(s.written, WriteOf(s, step).author, WriteOf(s, step).ts)
  {
    match step
    case BatchUpsert(b, ok) => assert BatchOk(s.batches[b], s.published, s.written);
    case Advance(b, ok) => assert BatchOk(s.batches[b], s.published, s.written);
    case LiveUpsert(l, ok) => assert SubOk(s.subs[l], s.published, s.written);
    case LiveAdvance(l, ok) =>
      assert SubOk(s.subs[l], s.published, s.written);
    case _ =>
  }

  lemma DatedGrows(w: set<Torrent>, w': set<Torrent>, author: string, ts: int)
    requires Dated(w, author, ts) && w <= w'
    ensures Dated(w', author, ts)
  {
  }

  lemma BatchOkGrows(x: Batch, published: set<Torrent>, written: set<Torrent>, published': set<Torrent>, written': set<Torrent>)
    requires BatchOk(x, published, written) && published <= published' && written <= written'
    ensures BatchOk(x, published', written')
  {
    match x
    case Snapshot(author, since) => DatedGrows(written, written', author, since);
    case Writing(author, since, maxTs, _, _) =>
      DatedGrows(written, written', author, since);
      DatedGrows(written, written', author, maxTs);
    case _ =>
  }

  lemma BatchesKept(s: State, step: Step)
    requires Inv(s) && Enabled(s, step)
    ensures var s' := Next(s, step); forall b | b in s'.batches :: BatchOk(s'.batches[b], s'.published, s'.written)
  {
    var s' := Next(s, step);
    forall b | b in s'.batches
      ensures BatchOk(s'.batches[b], s'.published, s'.written)
    {
      if b in s.batches && s'.batches[b] == s.batches[b] {
        BatchOkGrows(s.batches[b], s.published, s.written, s'.published, s'.written);
      } else {
        BatchStep(s, step, b);
      }
    }
  }

  lemma BatchStep(s: State, step: Step, b: Pid)
    requires Inv(s) && Enabled(s, step)
    requires b in BatchesAfter(s, step) && (b !in s.batches || BatchesAfter(s, step)[b] != s.batches[b])
    ensures BatchOk(BatchesAfter(s, step)[b], s.published, Next(s, step).written)
  {
    match step
    case BatchUpsert(_, ok) =>
      UpsertedBatchOk(s.batches[b], s.published, s.written);
    case Answer(_, events) =>
      assert BatchOk(s.batches[b], s.published, s.written);
    case _ =>
  }

  lemma UpsertedBatchOk(x: Batch, published: set<Torrent>, written: set<Torrent>)
    requires x.Writing? && x.todo != [] && BatchOk(x, published, written)
    ensures BatchOk(x.(todo := x.todo[1..], maxTs := Max(x.maxTs, x.todo[0].publishedAt)), published, written + {x.todo[0]})
  {
    DatedGrows(written, written + {x.todo[0]}, x.author, x.since);
    DatedGrows(written, written + {x.todo[0]}, x.author, x.maxTs);
    assert x.todo[0] in written + {x.todo[0]};
  }

  lemma SubsKept(s: State, step: Step)
    requires Inv(s) && Enabled(s, step)
    ensures var s' := Next(s, step); forall l | l in s'.subs :: SubOk(s'.subs[l], s'.published, s'.written)
  {
  }

  lemma CursorsKept(s: State, step: Step)
    requires Inv(s) && Enabled(s, step)
    ensures Cursors(Next(s, step).db, Next(s, step).written)
  {
    var w, written' := WriteOf(s, step), Next(s, step).written;
    WriteSource(s, step);
    CursorsApply(s.db, w, s.written, written');
  }

  lemma CursorsApply(db: Db, w: Write, written: set<Torrent>, written': set<Torrent>)
    requires Cursors(db, written) && written <= written'
    requires w.Raise? && w.ts > 0 ==> Dated(written, w.author, w.ts)
    ensures Cursors(Apply(db, w), written')
  {
    var db' := Apply(db, w);
    forall p | p in db'.followed
      ensures Dated(written', p, db'.followed[p].cursor)
    {
      if p in db.followed {
        DatedGrows(written, written', p, db.followed[p].cursor);
      }
      if w.Raise? && w.ts > 0 {
        DatedGrows(written, written', w.author, w.ts);
      }
    }
  }

  lemma SoundApply(db: Db, w: Write)
    requires Sound(db) && (w.Put? ==> WellSized(w.t))
    ensures Sound(Apply(db, w))
  {
  }

  /** The invariant is kept by every step. */
  lemma InvStep(s: State, step: Step)
    requires Inv(s) && Enabled(s, step)
    ensures Inv(Next(s, step))
  {
    WriteSource(s, step);
    BatchesKept(s, step);
    SubsKept(s, step);
    CursorsKept(s, step);
    SoundApply(s.db, WriteOf(s, step));
    AuthenticKept(s, step);
  }

  lemma AuthenticKept(s: State, step: Step)
    requires Inv(s) && Enabled(s, step)
    ensures Authentic(Next(s, step))
  {
    WriteSource(s, step);
  }

  lemma {:induction false} InvRun(s: State, steps: seq<Step>)
    requires Inv(s) && Legal(s, steps)
    ensures Inv(Run(s, steps))
    decreases |steps|
  {
    if steps != [] {
      InvStep(s, steps[0]);
      InvRun(Next(s, steps[0]), steps[1..]);
    }
  }

  // ---------------------------------------------------------------------------------------------
  // Cursor safety
  // ---------------------------------------------------------------------------------------------

  /** In every reachable state a positive cursor is the date of an event of that account written in the run. */
  lemma CursorIsAnEvent(now: int, steps: seq<Step>, author: string)
    requires Legal(Start(now), steps) && author in Run(Start(now), steps).db.followed
    ensures var s := Run(Start(now), steps);
            Dated(s.written, author, s.db.followed[author].cursor)
  {
    StartInv(now);
    InvRun(Start(now), steps);
  }

  /** No step lowers the cursor of a row that stays. */
  lemma CursorStep(s: State, step: Step, author: string)
    requires Enabled(s, step) && author in s.db.followed && author in Next(s, step).db.followed
    ensures s.db.followed[author].cursor <= Next(s, step).db.followed[author].cursor
  {
  }

  /** The account's row is there all along. */
  ghost predicate Stays(s: State, steps: seq<Step>, author: string)
    requires Legal(s, steps)
    decreases |steps|
  {
    author in s.db.followed && (steps == [] || Stays(Next(s, steps[0]), steps[1..], author))
  }

  lemma {:induction false} CursorNeverDecreases(s: State, steps: seq<Step>, author: string)
    requires Legal(s, steps) && Stays(s, steps, author)
    ensures author in Run(s, steps).db.followed
    ensures s.db.followed[author].cursor <= Run(s, steps).db.followed[author].cursor
    decreases |steps|
  {
    if steps != [] {
      CursorStep(s, steps[0], author);
      CursorNeverDecreases(Next(s, steps[0]), steps[1..], author);
    }
  }

  // ---------------------------------------------------------------------------------------------
  // The catalogue loses nothing by itself
  // ---------------------------------------------------------------------------------------------

  predicate Deletes(step: Step) {
    step.RemoveCmd? || step.PurgeCmd?
  }

  /** Without an explicit deletion, no run of any length removes an entry. */
  lemma {:induction false} AdditiveOnly(s: State, steps: seq<Step>)
    requires Legal(s, steps) && forall k | 0 <= k < |steps| :: !Deletes(steps[k])
    ensures s.db.torrents.Keys <= Run(s, steps).db.torrents.Keys
    decreases |steps|
  {
    if steps != [] {
      AdditiveStep(s, steps[0]);
      AdditiveOnly(Next(s, steps[0]), steps[1..]);
    }
  }

  lemma AdditiveStep(s: State, step: Step)
    requires Enabled(s, step) && !Deletes(step)
    ensures s.db.torrents.Keys <= Next(s, step).db.torrents.Keys
  {
  }

  // ---------------------------------------------------------------------------------------------
  // Catalogue integrity
  // ---------------------------------------------------------------------------------------------

  /**
   In every reachable state statistics belong to catalogued torrents, and a torrent's size is the sum of its
   files exactly when that sum fits a 64-bit integer.
   */
  lemma Integrity(now: int, steps: seq<Step>)
    requires Legal(Start(now), steps)
    ensures var db := Run(Start(now), steps).db;
            && db.stats.Keys <= db.torrents.Keys
            && forall id | id in db.torrents ::
                 db.torrents[id].size == TotalSize(db.torrents[id].files)
                 <==> -MAX_INT64 - 1 <= TotalSize(db.torrents[id].files) <= MAX_INT64
  {
    StartInv(now);
    InvRun(Start(now), steps);
    var db := Run(Start(now), steps).db;
    forall id | id in db.torrents
      ensures db.torrents[id].size == TotalSize(db.torrents[id].files)
              <==> -MAX_INT64 - 1 <= TotalSize(db.torrents[id].files) <= MAX_INT64
    {
      WrapIsIdentity(TotalSize(db.torrents[id].files));
    }
  }

  lemma WrapIsIdentity(n: int)
    ensures Wrap64(n) == n <==> -MAX_INT64 - 1 <= n <= MAX_INT64
  {
  }
}
