/**
 Convergence of ingestion: without moderation, changes of the followed accounts and store failures, once
 nothing is in flight the catalogue is determined by the set of events received: order, duplication and the
 split between batch and live deliveries leave no trace.
 */
module Confluence {
  import opened Catalog
  import opened Protocol

  /** The state from which a run is observed: nothing received, nothing in flight. */
  ghost predicate Fresh(s: State) {
    && s.batches == map[] && s.subs == map[] && s.written == {} && s.heard == {} && s.heardProfiles == {}
    && UniqueIds(s.published)
    && (forall p | p in s.db.profiles :: s.db.profiles[p].pubkey == p)
  }

  ghost predicate UniqueIds(events: set<Torrent>) {
    forall t, u | t in events && u in events && t.id == u.id :: t == u
  }

  /** Nothing is waiting to be written. */
  predicate Settled(s: State) {
    && s.batches == map[]
    && forall l | l in s.subs :: s.subs[l].Open? ==> s.subs[l].held.Idle?
  }

  predicate Quiet(step: Step) {
    match step
    case EditCmd(_, _, _) => false
    case RemoveCmd(_) => false
    case PurgeCmd(_) => false
    case FollowCmd(_, _) => false
    case UnfollowCmd(_) => false
    case BatchUpsert(_, ok) => ok
    case Advance(_, ok) => ok
    case BatchProfile(_, ok) => ok
    case LiveUpsert(_, ok) => ok
    case LiveAdvance(_, ok) => ok
    case LiveProfile(_, ok) => ok
    case _ => true
  }

  ghost predicate QuietRun(s: State, steps: seq<Step>)
    decreases |steps|
  {
    steps == [] || (Enabled(s, steps[0]) && Quiet(steps[0]) && QuietRun(Next(s, steps[0]), steps[1..]))
  }

  // ---------------------------------------------------------------------------------------------
  // Reference: what a set of received events means for a database
  // ---------------------------------------------------------------------------------------------

  /** The received events over the base, each under its id. */
  ghost predicate Merged(base: Db, events: set<Torrent>, torrents: map<string, Torrent>) {
    && (forall t | t in events :: t.id in torrents && torrents[t.id] == Stored(base, t))
    && (forall id | id in torrents ::
          (exists t | t in events :: t.id == id) || (id in base.torrents && torrents[id] == base.torrents[id]))
    && base.torrents.Keys <= torrents.Keys
  }

  /** The same accounts, each cursor at the newest received date of the account (or where it was). */
  ghost predicate Raised(base: Db, events: set<Torrent>, followed: map<string, Account>) {
    && followed.Keys == base.followed.Keys
    && forall p | p in followed ::
         && followed[p] == base.followed[p].(cursor := followed[p].cursor)
         && base.followed[p].cursor <= followed[p].cursor
         && (forall t | t in events && t.pubkey == p :: t.publishedAt <= followed[p].cursor)
         && (followed[p].cursor == base.followed[p].cursor
             || exists t | t in events :: t.pubkey == p && t.publishedAt == followed[p].cursor)
  }

  /** For every account the newest of the received profiles and the one it had. */
  ghost predicate Renewed(base: Db, received: set<Profile>, profiles: map<string, Profile>) {
    && (forall p | p in profiles :: profiles[p].pubkey == p &&
          (profiles[p] in received || (p in base.profiles && profiles[p] == base.profiles[p])))
    && (forall q | q in received :: q.pubkey in profiles && q.updatedAt <= profiles[q.pubkey].updatedAt)
    && (forall p | p in base.profiles :: p in profiles && base.profiles[p].updatedAt <= profiles[p].updatedAt)
  }

  ghost predicate Means(base: Db, events: set<Torrent>, received: set<Profile>, db: Db) {
    && Merged(base, events, db.torrents)
    && Raised(base, events, db.followed)
    && Renewed(base, received, db.profiles)
  }

  /** Two profiles of one account are never dated the same, counting the ones already stored. */
  ghost predicate DistinctDates(base: Db, received: set<Profile>) {
    && (forall q, r | q in received && r in received && q.pubkey == r.pubkey && q.updatedAt == r.updatedAt :: q == r)
    && (forall q | q in received && q.pubkey in base.profiles && q.updatedAt == base.profiles[q.pubkey].updatedAt ::
          q == base.profiles[q.pubkey])
  }

  /** The reference meaning leaves one database. */
  lemma MeaningIsUnique(base: Db, events: set<Torrent>, received: set<Profile>, a: Db, b: Db)
    requires DistinctDates(base, received)
    requires Means(base, events, received, a) && Means(base, events, received, b)
    ensures a.torrents == b.torrents && a.followed == b.followed && a.profiles == b.profiles
  {
    MergedUnique(base, events, a.torrents, b.torrents);
    RaisedUnique(base, events, a.followed, b.followed);
    RenewedUnique(base, received, a.profiles, b.profiles);
  }

  lemma MergedUnique(base: Db, events: set<Torrent>, a: map<string, Torrent>, b: map<string, Torrent>)
    requires Merged(base, events, a) && Merged(base, events, b)
    ensures a == b
  {
    MergedWithin(base, events, a, b);
    MergedWithin(base, events, b, a);
  }

  lemma MergedWithin(base: Db, events: set<Torrent>, a: map<string, Torrent>, b: map<string, Torrent>)
    requires Merged(base, events, a) && Merged(base, events, b)
    ensures forall id | id in a :: id in b && a[id] == b[id]
  {
    forall id | id in a
      ensures id in b && a[id] == b[id]
    {
      if t :| t in events && t.id == id {
        assert t.id in b;
      } else {
        assert id in base.torrents;
      }
    }
  }

  lemma RaisedUnique(base: Db, events: set<Torrent>, a: map<string, Account>, b: map<string, Account>)
    requires Raised(base, events, a) && Raised(base, events, b)
    ensures a == b
  {
    forall p | p in a
      ensures a[p] == b[p]
    {
      CursorWithin(base, events, a, b, p);
      CursorWithin(base, events, b, a, p);
      assert a[p] == base.followed[p].(cursor := a[p].cursor);
    }
  }

  lemma CursorWithin(base: Db, events: set<Torrent>, a: map<string, Account>, b: map<string, Account>, p: string)
    requires Raised(base, events, a) && Raised(base, events, b) && p in a
    ensures a[p].cursor <= b[p].cursor
  {
  }

  lemma RenewedUnique(base: Db, received: set<Profile>, a: map<string, Profile>, b: map<string, Profile>)
    requires DistinctDates(base, received)
    requires Renewed(base, received, a) && Renewed(base, received, b)
    ensures a == b
  {
    RenewedWithin(base, received, a, b);
    RenewedWithin(base, received, b, a);
    forall p | p in a
      ensures a[p] == b[p]
    {
      assert a[p].updatedAt == b[p].updatedAt;
    }
  }

  lemma RenewedWithin(base: Db, received: set<Profile>, a: map<string, Profile>, b: map<string, Profile>)
    requires Renewed(base, received, a) && Renewed(base, received, b)
    ensures forall p | p in a :: p in b && a[p].updatedAt <= b[p].updatedAt
  {
  }

  // ---------------------------------------------------------------------------------------------
  // Torrents: everything received is written or on its way
  // ---------------------------------------------------------------------------------------------

  predicate Carries(x: Batch, t: Torrent) {
    x.Writing? && t in x.todo
  }

  predicate Holds(x: Sub, h: Held) {
    x.Open? && x.held == h
  }

  ghost predicate OnItsWay(s: State, t: Torrent) {
    (exists b | b in s.batches :: Carries(s.batches[b], t)) || (exists l | l in s.subs :: Holds(s.subs[l], GotTorrent(t)))
  }

  ghost predicate TorrentsInv(base: Db, s: State) {
    && s.heard <= s.published && UniqueIds(s.published) && s.written <= s.heard
    && Merged(base, s.written, s.db.torrents)
    && (forall t | t in s.heard :: t in s.written || OnItsWay(s, t))
    && (forall b | b in s.batches :: BatchHeard(s.batches[b], s.heard))
    && (forall l | l in s.subs :: SubHeard(s.subs[l], s.heard, s.written))
  }

  predicate BatchHeard(x: Batch, heard: set<Torrent>) {
    x.Writing? ==> forall t | t in x.todo :: t in heard && t.pubkey == x.author
  }

  predicate SubHeard(x: Sub, heard: set<Torrent>, written: set<Torrent>) {
    x.Open? ==> (x.held.GotTorrent? ==> x.held.t in heard) && (x.held.Upserted? ==> x.held.t in written)
  }

  lemma OnItsWayStep(s: State, step: Step, t: Torrent)
    requires Enabled(s, step) && Quiet(step) && OnItsWay(s, t)
    ensures OnItsWay(Next(s, step), t) || WriteOf(s, step) == Put(t)
  {
    var s' := Next(s, step);
    if b :| b in s.batches && Carries(s.batches[b], t) {
      if !(b in s'.batches && s'.batches[b] == s.batches[b]) && WriteOf(s, step) != Put(t) {
        assert step == BatchUpsert(b, true) && Carries(s'.batches[b], t);
      } else if WriteOf(s, step) != Put(t) {
        assert Carries(s'.batches[b], t);
      }
    } else {
      var l :| l in s.subs && Holds(s.subs[l], GotTorrent(t));
      assert WriteOf(s, step) == Put(t) || Holds(s'.subs[l], GotTorrent(t));
    }
  }

  lemma NewlyHeard(s: State, step: Step, t: Torrent)
    requires Enabled(s, step) && t in Next(s, step).heard && t !in s.heard
    ensures t in s.published && OnItsWay(Next(s, step), t)
  {
    var s' := Next(s, step);
    if step.Answer? {
      assert Carries(s'.batches[step.b], t);
    } else {
      assert Holds(s'.subs[step.l], GotTorrent(t));
    }
  }

  /** A row keeps its author through any number of upserts, so the base decides it. */
  lemma StoredSame(base: Db, written: set<Torrent>, db: Db, t: Torrent)
    requires Merged(base, written, db.torrents) && UniqueIds(written + {t})
    ensures Stored(db, t) == Stored(base, t)
  {
    if t.id in db.torrents {
      if u :| u in written && u.id == t.id {
        assert u in written + {t} && t in written + {t};
        assert db.torrents[t.id] == Stored(base, t);
      }
    }
  }

  lemma MergedPut(base: Db, written: set<Torrent>, db: Db, t: Torrent)
    requires Merged(base, written, db.torrents) && UniqueIds(written + {t})
    ensures Merged(base, written + {t}, PutTorrent(db, t).torrents)
  {
    var torrents := PutTorrent(db, t).torrents;
    StoredSame(base, written, db, t);
    forall u | u in written + {t}
      ensures u.id in torrents && torrents[u.id] == Stored(base, u)
    {
      assert t in written + {t};
      assert u.id == t.id ==> u == t;
    }
    forall id | id in torrents
      ensures (exists u | u in written + {t} :: u.id == id) || (id in base.torrents && torrents[id] == base.torrents[id])
    {
      PutSource(base, written, db, t, id);
    }
  }

  lemma PutSource(base: Db, written: set<Torrent>, db: Db, t: Torrent, id: string)
    requires Merged(base, written, db.torrents) && id in PutTorrent(db, t).torrents
    ensures (exists u | u in written + {t} :: u.id == id)
            || (id in base.torrents && PutTorrent(db, t).torrents[id] == base.torrents[id])
  {
    if id == t.id {
      assert t in written + {t};
    } else if u :| u in written && u.id == id {
      assert u in written + {t};
    }
  }

  lemma TorrentsStart(s: State)
    requires Fresh(s)
    ensures TorrentsInv(s.db, s)
  {
  }

  lemma MergedWrite(base: Db, written: set<Torrent>, heard: set<Torrent>, db: Db, w: Write)
    requires Merged(base, written, db.torrents) && UniqueIds(heard) && written <= heard
    requires (w.Put? ==> w.t in heard) && !w.Change? && !w.Drop?
    ensures Merged(base, if w.Put? then written + {w.t} else written, Apply(db, w).torrents)
  {
    if w.Put? {
      MergedPut(base, written, db, w.t);
    }
  }

  /** Where a quiet write comes from. */
  lemma QuietPut(s: State, step: Step)
    requires Enabled(s, step) && Quiet(step)
    requires forall b | b in s.batches :: BatchHeard(s.batches[b], s.heard)
    requires forall l | l in s.subs :: SubHeard(s.subs[l], s.heard, s.written)
    ensures var w := WriteOf(s, step);
            (w.Put? ==> w.t in s.heard) && !w.Change? && !w.Drop? && !w.Add? && !w.Remove?
  {
    match step
    case BatchUpsert(b, _) => assert BatchHeard(s.batches[b], s.heard);
    case LiveUpsert(l, _) => assert SubHeard(s.subs[l], s.heard, s.written);
    case _ =>
  }

  lemma HeardStep(base: Db, s: State, step: Step)
    requires s.heard <= s.published && (forall t | t in s.heard :: t in s.written || OnItsWay(s, t))
    requires Enabled(s, step) && Quiet(step)
    ensures var s' := Next(s, step);
            s'.heard <= s'.published && forall t | t in s'.heard :: t in s'.written || OnItsWay(s', t)
  {
    var s' := Next(s, step);
    forall t | t in s'.heard
      ensures t in s'.published && (t in s'.written || OnItsWay(s', t))
    {
      if t !in s.heard {
        NewlyHeard(s, step, t);
      } else if t !in s.written {
        OnItsWayStep(s, step, t);
      }
    }
  }

  lemma CarriedStep(s: State, step: Step)
    requires forall b | b in s.batches :: BatchHeard(s.batches[b], s.heard)
    requires Enabled(s, step) && Quiet(step)
    ensures forall b | b in BatchesAfter(s, step) :: BatchHeard(BatchesAfter(s, step)[b], Next(s, step).heard)
  {
    var after := BatchesAfter(s, step);
    forall b | b in after
      ensures BatchHeard(after[b], Next(s, step).heard)
    {
      assert b in s.batches ==> BatchHeard(s.batches[b], s.heard);
    }
  }

  lemma HeldStep(s: State, step: Step)
    requires forall l | l in s.subs :: SubHeard(s.subs[l], s.heard, s.written)
    requires Enabled(s, step) && Quiet(step)
    ensures forall l | l in SubsAfter(s, step) :: SubHeard(SubsAfter(s, step)[l], Next(s, step).heard, Next(s, step).written)
  {
    var after := SubsAfter(s, step);
    forall l | l in after
      ensures SubHeard(after[l], Next(s, step).heard, Next(s, step).written)
    {
      assert l in s.subs ==> SubHeard(s.subs[l], s.heard, s.written);
    }
  }

  lemma WrittenIsHeard(s: State, step: Step)
    requires Enabled(s, step) && s.written <= s.heard && (WriteOf(s, step).Put? ==> WriteOf(s, step).t in s.heard)
    ensures Next(s, step).written <= Next(s, step).heard
  {
  }

  lemma MergedStep(base: Db, s: State, step: Step)
    requires TorrentsInv(base, s) && Enabled(s, step) && Quiet(step)
    ensures Next(s, step).written <= Next(s, step).heard
    ensures Merged(base, Next(s, step).written, Next(s, step).db.torrents)
  {
    QuietPut(s, step);
    WrittenIsHeard(s, step);
    SubsetUnique(s.heard, s.published);
    MergedWrite(base, s.written, s.heard, s.db, WriteOf(s, step));
  }

  lemma SubsetUnique(heard: set<Torrent>, published: set<Torrent>)
    requires heard <= published && UniqueIds(published)
    ensures UniqueIds(heard)
  {
  }

  lemma IdsStayUnique(s: State, step: Step)
    requires UniqueIds(s.published) && Enabled(s, step)
    ensures UniqueIds(Next(s, step).published)
  {
  }

  lemma TorrentsStep(base: Db, s: State, step: Step)
    requires TorrentsInv(base, s) && Enabled(s, step) && Quiet(step)
    ensures TorrentsInv(base, Next(s, step))
  {
    MergedStep(base, s, step);
    HeardStep(base, s, step);
    CarriedStep(s, step);
    HeldStep(s, step);
    IdsStayUnique(s, step);
  }

  // ---------------------------------------------------------------------------------------------
  // Cursors: everything written is below the cursor, or its cursor update is on its way
  // ---------------------------------------------------------------------------------------------

  predicate WillRaise(x: Batch, t: Torrent) {
    x.Writing? && x.author == t.pubkey && t.publishedAt <= x.maxTs
  }

  ghost predicate CursorOnItsWay(s: State, t: Torrent) {
    (exists b | b in s.batches :: WillRaise(s.batches[b], t)) || (exists l | l in s.subs :: Holds(s.subs[l], Upserted(t)))
  }

  predicate Reached(db: Db, p: string, ts: int) {
    p in db.followed ==> ts <= db.followed[p].cursor
  }

  /** As Raised, without the lower bound by every written event. */
  ghost predicate RaisedSoFar(base: Db, written: set<Torrent>, followed: map<string, Account>) {
    && followed.Keys == base.followed.Keys
    && forall p | p in followed ::
         && followed[p] == base.followed[p].(cursor := followed[p].cursor)
         && base.followed[p].cursor <= followed[p].cursor
         && (followed[p].cursor == base.followed[p].cursor || Written(written, p, followed[p].cursor))
  }

  ghost predicate Written(written: set<Torrent>, p: string, ts: int) {
    exists t | t in written :: t.pubkey == p && t.publishedAt == ts
  }

  ghost predicate BatchRaises(x: Batch, db: Db, written: set<Torrent>) {
    match x
    case Snapshot(author, since) => Reached(db, author, since)
    case Writing(author, since, maxTs, todo, _) =>
      && Reached(db, author, since)
      && (maxTs == since || (since < maxTs && Written(written, author, maxTs)))
      && (forall t | t in todo :: t.pubkey == author)
    case _ => true
  }

  ghost predicate CursorsInv(base: Db, s: State) {
    && RaisedSoFar(base, s.written, s.db.followed)
    && (forall t | t in s.written :: Reached(s.db, t.pubkey, t.publishedAt) || CursorOnItsWay(s, t))
    && (forall b | b in s.batches :: BatchRaises(s.batches[b], s.db, s.written))
    && (forall l | l in s.subs :: s.subs[l].Open? && s.subs[l].held.Upserted? ==> s.subs[l].held.t in s.written)
  }

  lemma CursorsStart(s: State)
    requires Fresh(s)
    ensures CursorsInv(s.db, s)
  {
  }

  lemma RaiseSource(base: Db, s: State, step: Step)
    requires CursorsInv(base, s) && Enabled(s, step) && Quiet(step)
    ensures var w := WriteOf(s, step);
            (w.Raise? ==> Written(s.written, w.author, w.ts)) && !w.Add? && !w.Remove?
  {
    match step
    case Advance(b, _) =>
      if WriteOf(s, step).Raise? {
        RaisedByBatch(base, s, b);
      }
    case LiveAdvance(l, _) => RaisedByEvent(base, s, l);
    case _ =>
  }

  lemma RaisedByBatch(base: Db, s: State, b: Pid)
    requires CursorsInv(base, s) && Enabled(s, Advance(b, true)) && s.batches[b].maxTs > s.batches[b].since
    ensures Written(s.written, s.batches[b].author, s.batches[b].maxTs)
  {
    assert BatchRaises(s.batches[b], s.db, s.written);
  }

  lemma RaisedByEvent(base: Db, s: State, l: Pid)
    requires CursorsInv(base, s) && Enabled(s, LiveAdvance(l, true))
    ensures Written(s.written, s.subs[l].held.t.pubkey, s.subs[l].held.t.publishedAt)
  {
    assert s.subs[l].held.t in s.written;
  }

  lemma RaisedApply(base: Db, written: set<Torrent>, written': set<Torrent>, db: Db, w: Write)
    requires RaisedSoFar(base, written, db.followed) && written <= written'
    requires (w.Raise? ==> Written(written, w.author, w.ts)) && !w.Add? && !w.Remove?
    ensures RaisedSoFar(base, written', Apply(db, w).followed)
    ensures forall p, ts | Reached(db, p, ts) :: Reached(Apply(db, w), p, ts)
  {
  }

  lemma BatchWillRaise(s: State, step: Step, b: Pid, t: Torrent)
    requires b in s.batches && WillRaise(s.batches[b], t) && BatchRaises(s.batches[b], s.db, s.written)
    requires Enabled(s, step) && Quiet(step)
    ensures if step == Advance(b, true) then Reached(Next(s, step).db, t.pubkey, t.publishedAt)
            else b in BatchesAfter(s, step) && WillRaise(BatchesAfter(s, step)[b], t)
  {
    if step == Advance(b, true) {
      BatchDoesRaise(s, b, t);
    }
  }

  lemma BatchDoesRaise(s: State, b: Pid, t: Torrent)
    requires b in s.batches && WillRaise(s.batches[b], t) && BatchRaises(s.batches[b], s.db, s.written)
    requires Enabled(s, Advance(b, true))
    ensures Reached(Next(s, Advance(b, true)).db, t.pubkey, t.publishedAt)
  {
  }

  lemma SubWillRaise(s: State, step: Step, l: Pid, t: Torrent)
    requires l in s.subs && Holds(s.subs[l], Upserted(t))
    requires Enabled(s, step) && Quiet(step)
    ensures if step == LiveAdvance(l, true) then Reached(Next(s, step).db, t.pubkey, t.publishedAt)
            else l in SubsAfter(s, step) && Holds(SubsAfter(s, step)[l], Upserted(t))
  {
  }

  lemma CursorOnItsWayStep(base: Db, s: State, step: Step, t: Torrent)
    requires CursorsInv(base, s) && Enabled(s, step) && Quiet(step)
    requires CursorOnItsWay(s, t)
    ensures CursorOnItsWay(Next(s, step), t) || Reached(Next(s, step).db, t.pubkey, t.publishedAt)
  {
    if b :| b in s.batches && WillRaise(s.batches[b], t) {
      BatchWillRaise(s, step, b, t);
    } else {
      var l :| l in s.subs && Holds(s.subs[l], Upserted(t));
      SubWillRaise(s, step, l, t);
    }
  }

  lemma NewlyWritten(base: Db, s: State, step: Step, t: Torrent)
    requires CursorsInv(base, s) && Enabled(s, step) && Quiet(step) && WriteOf(s, step) == Put(t)
    ensures CursorOnItsWay(Next(s, step), t)
  {
    var s' := Next(s, step);
    match step
    case BatchUpsert(b, _) =>
      assert BatchRaises(s.batches[b], s.db, s.written);
      assert WillRaise(s'.batches[b], t);
    case LiveUpsert(l, _) =>
      assert Holds(s'.subs[l], Upserted(t));
    case _ =>
  }

  lemma WrittenReached(base: Db, s: State, step: Step)
    requires CursorsInv(base, s) && Enabled(s, step) && Quiet(step)
    ensures var s' := Next(s, step);
            forall t | t in s'.written :: Reached(s'.db, t.pubkey, t.publishedAt) || CursorOnItsWay(s', t)
  {
    var s' := Next(s, step);
    RaiseSource(base, s, step);
    RaisedApply(base, s.written, s'.written, s.db, WriteOf(s, step));
    forall t | t in s'.written
      ensures Reached(s'.db, t.pubkey, t.publishedAt) || CursorOnItsWay(s', t)
    {
      if t !in s.written {
        NewlyWritten(base, s, step, t);
      } else if !Reached(s.db, t.pubkey, t.publishedAt) {
        CursorOnItsWayStep(base, s, step, t);
      }
    }
  }

  lemma BatchRaisesStep(base: Db, s: State, step: Step, b: Pid)
    requires CursorsInv(base, s) && Enabled(s, step) && Quiet(step) && b in BatchesAfter(s, step)
    ensures BatchRaises(BatchesAfter(s, step)[b], Next(s, step).db, Next(s, step).written)
  {
    var s' := Next(s, step);
    RaiseSource(base, s, step);
    RaisedApply(base, s.written, s'.written, s.db, WriteOf(s, step));
    if b in s.batches {
      BatchRaisesMore(s.batches[b], s.db, s.written, s'.db, s'.written);
    }
    match step
    case BatchUpsert(c, _) =>
      if b == c {
        assert s.batches[b].todo[0] in s'.written;
      }
    case _ =>
  }

  lemma BatchRaisesMore(x: Batch, db: Db, written: set<Torrent>, db': Db, written': set<Torrent>)
    requires BatchRaises(x, db, written) && written <= written'
    requires forall p, ts | Reached(db, p, ts) :: Reached(db', p, ts)
    ensures BatchRaises(x, db', written')
  {
  }

  lemma CursorsStep(base: Db, s: State, step: Step)
    requires CursorsInv(base, s) && Enabled(s, step) && Quiet(step)
    ensures CursorsInv(base, Next(s, step))
  {
    var s' := Next(s, step);
    RaiseSource(base, s, step);
    RaisedApply(base, s.written, s'.written, s.db, WriteOf(s, step));
    WrittenReached(base, s, step);
    forall b | b in s'.batches
      ensures BatchRaises(s'.batches[b], s'.db, s'.written)
    {
      BatchRaisesStep(base, s, step, b);
    }
    UpsertedIsWritten(s, step);
  }

  lemma UpsertedIsWritten(s: State, step: Step)
    requires forall l | l in s.subs :: s.subs[l].Open? && s.subs[l].held.Upserted? ==> s.subs[l].held.t in s.written
    requires Enabled(s, step) && Quiet(step)
    ensures var subs' := SubsAfter(s, step);
            forall l | l in subs' :: subs'[l].Open? && subs'[l].held.Upserted? ==> subs'[l].held.t in Next(s, step).written
  {
  }

  // ---------------------------------------------------------------------------------------------
  // Profiles: everything received is no newer than the stored profile, or a newer one is on its way
  // ---------------------------------------------------------------------------------------------

  predicate Beats(r: Profile, q: Profile) {
    r.pubkey == q.pubkey && q.updatedAt <= r.updatedAt
  }

  predicate CarriesBetter(x: Batch, q: Profile) {
    x.Profiling? && x.profiles != [] && Beats(x.profiles[0], q)
  }

  ghost predicate ProfileOnItsWay(s: State, q: Profile) {
    (exists b | b in s.batches :: CarriesBetter(s.batches[b], q)) || (exists l | l in s.subs :: Holds(s.subs[l], GotProfile(q)))
  }

  predicate StoredBeats(db: Db, q: Profile) {
    q.pubkey in db.profiles && q.updatedAt <= db.profiles[q.pubkey].updatedAt
  }

  predicate ProfilesFrom(base: Db, received: set<Profile>, profiles: map<string, Profile>) {
    && (forall p | p in profiles :: profiles[p].pubkey == p &&
          (profiles[p] in received || (p in base.profiles && profiles[p] == base.profiles[p])))
    && (forall p | p in base.profiles :: p in profiles && base.profiles[p].updatedAt <= profiles[p].updatedAt)
  }

  ghost predicate ProfilesInv(base: Db, s: State) {
    && ProfilesFrom(base, s.heardProfiles, s.db.profiles)
    && (forall q | q in s.heardProfiles :: StoredBeats(s.db, q) || ProfileOnItsWay(s, q))
    && (forall b | b in s.batches :: BatchProfilesHeard(s.batches[b], s.heardProfiles))
    && (forall l | l in s.subs :: SubProfileHeard(s.subs[l], s.heardProfiles))
  }

  lemma ProfilesStart(s: State)
    requires Fresh(s)
    ensures ProfilesInv(s.db, s)
  {
  }

  lemma ProfileSource(base: Db, s: State, step: Step)
    requires ProfilesInv(base, s) && Enabled(s, step)
    ensures WriteOf(s, step).PutP? ==> WriteOf(s, step).p in s.heardProfiles
  {
  }

  lemma ProfilesApply(base: Db, received: set<Profile>, received': set<Profile>, db: Db, w: Write)
    requires ProfilesFrom(base, received, db.profiles) && received <= received'
    requires w.PutP? ==> w.p in received
    ensures ProfilesFrom(base, received', Apply(db, w).profiles)
  {
  }

  lemma StoredGrows(db: Db, w: Write)
    ensures forall q | StoredBeats(db, q) :: StoredBeats(Apply(db, w), q)
    ensures w.PutP? ==> forall q | Beats(w.p, q) :: StoredBeats(Apply(db, w), q)
  {
  }

  lemma BatchCarriesBetter(s: State, step: Step, b: Pid, q: Profile)
    requires b in s.batches && CarriesBetter(s.batches[b], q) && Enabled(s, step) && Quiet(step)
    ensures if step == BatchProfile(b, true) then WriteOf(s, step).PutP? && Beats(WriteOf(s, step).p, q)
            else b in BatchesAfter(s, step) && CarriesBetter(BatchesAfter(s, step)[b], q)
  {
  }

  lemma SubHoldsProfile(s: State, step: Step, l: Pid, q: Profile)
    requires l in s.subs && Holds(s.subs[l], GotProfile(q)) && Enabled(s, step) && Quiet(step)
    ensures if step == LiveProfile(l, true) then WriteOf(s, step) == PutP(q)
            else l in SubsAfter(s, step) && Holds(SubsAfter(s, step)[l], GotProfile(q))
  {
  }

  lemma ProfileOnItsWayStep(s: State, step: Step, q: Profile)
    requires Enabled(s, step) && Quiet(step) && ProfileOnItsWay(s, q)
    ensures ProfileOnItsWay(Next(s, step), q) || (WriteOf(s, step).PutP? && Beats(WriteOf(s, step).p, q))
  {
    if b :| b in s.batches && CarriesBetter(s.batches[b], q) {
      BatchCarriesBetter(s, step, b, q);
    } else {
      var l :| l in s.subs && Holds(s.subs[l], GotProfile(q));
      SubHoldsProfile(s, step, l, q);
    }
  }

  lemma NewlyReceived(s: State, step: Step, q: Profile)
    requires Enabled(s, step) && q in Next(s, step).heardProfiles && q !in s.heardProfiles
    ensures ProfileOnItsWay(Next(s, step), q)
  {
    var s' := Next(s, step);
    match step
    case AskProfiles(b, answer) =>
      NewestIsNewest(answer);
      assert Newest(answer)[0] in Newest(answer);
      assert CarriesBetter(s'.batches[b], q);
    case ArriveProfile(l, _) =>
      assert Holds(s'.subs[l], GotProfile(q));
    case _ =>
  }

  predicate BatchProfilesHeard(x: Batch, heard: set<Profile>) {
    x.Profiling? ==> |x.profiles| <= 1 && forall q | q in x.profiles :: q in heard
  }

  predicate SubProfileHeard(x: Sub, heard: set<Profile>) {
    x.Open? && x.held.GotProfile? ==> x.held.p in heard
  }

  lemma CarriedByBatches(s: State, step: Step, b: Pid)
    requires forall c | c in s.batches :: BatchProfilesHeard(s.batches[c], s.heardProfiles)
    requires Enabled(s, step) && b in BatchesAfter(s, step)
    ensures BatchProfilesHeard(BatchesAfter(s, step)[b], Next(s, step).heardProfiles)
  {
    if step.AskProfiles? {
      NewestIsNewest(step.answer);
    }
  }

  lemma CarriedBySubs(s: State, step: Step, l: Pid)
    requires forall m | m in s.subs :: SubProfileHeard(s.subs[m], s.heardProfiles)
    requires Enabled(s, step) && l in SubsAfter(s, step)
    ensures SubProfileHeard(SubsAfter(s, step)[l], Next(s, step).heardProfiles)
  {
  }

  lemma ProfilesStep(base: Db, s: State, step: Step)
    requires ProfilesInv(base, s) && Enabled(s, step) && Quiet(step)
    ensures ProfilesInv(base, Next(s, step))
  {
    var s' := Next(s, step);
    ProfileSource(base, s, step);
    ProfilesApply(base, s.heardProfiles, s'.heardProfiles, s.db, WriteOf(s, step));
    StoredGrows(s.db, WriteOf(s, step));
    forall q | q in s'.heardProfiles
      ensures StoredBeats(s'.db, q) || ProfileOnItsWay(s', q)
    {
      if q !in s.heardProfiles {
        NewlyReceived(s, step, q);
      } else if !StoredBeats(s.db, q) {
        ProfileOnItsWayStep(s, step, q);
      }
    }
    forall b | b in s'.batches
      ensures BatchProfilesHeard(s'.batches[b], s'.heardProfiles)
    {
      CarriedByBatches(s, step, b);
    }
    forall l | l in s'.subs
      ensures SubProfileHeard(s'.subs[l], s'.heardProfiles)
    {
      CarriedBySubs(s, step, l);
    }
  }

  // ---------------------------------------------------------------------------------------------
  // Convergence
  // ---------------------------------------------------------------------------------------------

  lemma {:induction false} InvariantsRun(base: Db, s: State, steps: seq<Step>)
    requires TorrentsInv(base, s) && CursorsInv(base, s) && ProfilesInv(base, s) && QuietRun(s, steps)
    ensures Legal(s, steps)
    ensures var e := Run(s, steps); TorrentsInv(base, e) && CursorsInv(base, e) && ProfilesInv(base, e)
    decreases |steps|
  {
    if steps != [] {
      TorrentsStep(base, s, steps[0]);
      CursorsStep(base, s, steps[0]);
      ProfilesStep(base, s, steps[0]);
      InvariantsRun(base, Next(s, steps[0]), steps[1..]);
    }
  }

  lemma SettledMeans(base: Db, s: State)
    requires TorrentsInv(base, s) && CursorsInv(base, s) && ProfilesInv(base, s) && Settled(s)
    ensures Means(base, s.heard, s.heardProfiles, s.db)
  {
    forall t | t in s.heard
      ensures t in s.written && Reached(s.db, t.pubkey, t.publishedAt)
    {
      assert t in s.written || OnItsWay(s, t);
      assert t in s.written ==> Reached(s.db, t.pubkey, t.publishedAt) || CursorOnItsWay(s, t);
    }
    assert s.heard == s.written;
    forall q | q in s.heardProfiles
      ensures StoredBeats(s.db, q)
    {
    }
  }

  /** A settled run leaves the meaning of what it received, whatever the interleaving. */
  lemma RunMeans(s: State, steps: seq<Step>)
    requires Fresh(s) && QuietRun(s, steps)
    ensures Legal(s, steps)
    ensures var e := Run(s, steps); Settled(e) ==> Means(s.db, e.heard, e.heardProfiles, e.db)
  {
    TorrentsStart(s);
    CursorsStart(s);
    ProfilesStart(s);
    InvariantsRun(s.db, s, steps);
    if Settled(Run(s, steps)) {
      SettledMeans(s.db, Run(s, steps));
    }
  }

  /** Two settled runs over the same database that received the same events end with the same catalogue. */
  lemma Confluent(s: State, steps: seq<Step>, s': State, steps': seq<Step>)
    requires Fresh(s) && Fresh(s') && s.db == s'.db
    requires QuietRun(s, steps) && QuietRun(s', steps')
    ensures Legal(s, steps) && Legal(s', steps')
    ensures var e, e' := Run(s, steps), Run(s', steps');
            Settled(e) && Settled(e') && e.heard == e'.heard && e.heardProfiles == e'.heardProfiles
            && DistinctDates(s.db, e.heardProfiles) ==>
              e.db.torrents == e'.db.torrents && e.db.followed == e'.db.followed && e.db.profiles == e'.db.profiles
  {
    RunMeans(s, steps);
    RunMeans(s', steps');
    var e, e' := Run(s, steps), Run(s', steps');
    if Settled(e) && Settled(e') && e.heard == e'.heard && e.heardProfiles == e'.heardProfiles
       && DistinctDates(s.db, e.heardProfiles) {
      MeaningIsUnique(s.db, e.heard, e.heardProfiles, e.db, e'.db);
    }
  }
}
