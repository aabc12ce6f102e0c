/**
 Moderation against synchronisation: when does an edit or a deletion of one catalogued event survive
 whatever the batch synchronisers, the live consumers and the scraper do later?
 */
module Moderation {
  import opened Catalog
  import opened Protocol
  import Safety

  /** The batch can no longer deliver the event. */
  predicate BatchPast(x: Batch, e: Torrent) {
    match x
    case Snapshot(author, since) => author == e.pubkey ==> since > 0 && e.publishedAt < since
    case Writing(_, _, _, todo, _) => e !in todo
    case _ => true
  }

  /** The live subscription can no longer deliver the event. */
  predicate SubPast(x: Sub, e: Torrent, now: int) {
    match x
    case Opening(authors) => e.pubkey in authors ==> e.publishedAt < now - OVERLAP
    case Open(authors, since, held, _) => (e.pubkey in authors ==> e.publishedAt < since) && held != GotTorrent(e)
  }

  /**
   The event is dated strictly before everything a relay could still be asked for: the account's cursor (which
   must be positive, zero meaning no bound), what a subscription opened now would ask for, every running sync
   and every live subscription.
   */
  predicate Guarded(s: State, e: Torrent) {
    && (e.pubkey in s.db.followed ==>
          0 < s.db.followed[e.pubkey].cursor && e.publishedAt < s.db.followed[e.pubkey].cursor
          && e.publishedAt < s.now - OVERLAP)
    && (forall b | b in s.batches :: BatchPast(s.batches[b], e))
    && (forall l | l in s.subs :: SubPast(s.subs[l], e, s.now))
  }

  /** The step is not itself a moderation of the event, and does not follow its author anew. */
  predicate Spares(s: State, step: Step, e: Torrent) {
    match step
    case EditCmd(id, _, _) => id != e.id
    case RemoveCmd(id) => id != e.id
    case PurgeCmd(author) => e.id !in IdsBy(s.db, author)
    case FollowCmd(author, _) => author == e.pubkey ==> author in s.db.followed
    case _ => true
  }

  ghost predicate Sparing(s: State, steps: seq<Step>, e: Torrent)
    decreases |steps|
  {
    steps == [] || (Enabled(s, steps[0]) && Spares(s, steps[0], e) && Sparing(Next(s, steps[0]), steps[1..], e))
  }

  /** Somewhere in the run the event is written again. */
  ghost predicate Rewrites(s: State, steps: seq<Step>, e: Torrent)
    requires Sparing(s, steps, e)
    decreases |steps|
  {
    steps != [] && (WriteOf(s, steps[0]) == Put(e) || Rewrites(Next(s, steps[0]), steps[1..], e))
  }

  /** Some later run brings the event back as published. */
  ghost predicate Undoable(s: State, e: Torrent) {
    exists steps :: Sparing(s, steps, e) && Rewrites(s, steps, e)
  }

  predicate SameEntry(a: Db, b: Db, id: string) {
    (id in a.torrents <==> id in b.torrents) && (id in a.torrents ==> a.torrents[id] == b.torrents[id])
  }

  // ---------------------------------------------------------------------------------------------
  // Guarded: nothing brings it back
  // ---------------------------------------------------------------------------------------------

  lemma GuardedWrite(s: State, step: Step, e: Torrent)
    requires Safety.Inv(s) && e in s.published && Guarded(s, e) && Enabled(s, step)
    ensures WriteOf(s, step).Put? ==> WriteOf(s, step).t.id != e.id
  {
    Safety.WriteSource(s, step);
    match step
    case BatchUpsert(b, _) => assert BatchPast(s.batches[b], e);
    case LiveUpsert(l, _) => assert SubPast(s.subs[l], e, s.now);
    case _ =>
  }

  lemma GuardedEntry(s: State, step: Step, e: Torrent)
    requires Safety.Inv(s) && e in s.published && Guarded(s, e) && Enabled(s, step) && Spares(s, step, e)
    ensures SameEntry(s.db, Next(s, step).db, e.id)
  {
    GuardedWrite(s, step, e);
    EntryKept(s.db, WriteOf(s, step), e.id);
  }

  lemma EntryKept(db: Db, w: Write, id: string)
    requires w.Put? ==> w.t.id != id
    requires w.Change? ==> w.id != id
    requires w.Drop? ==> id !in w.ids || id !in db.torrents
    ensures SameEntry(db, Apply(db, w), id)
  {
  }

  lemma GuardedBatches(s: State, step: Step, e: Torrent)
    requires Guarded(s, e) && Enabled(s, step)
    ensures forall b | b in BatchesAfter(s, step) :: BatchPast(BatchesAfter(s, step)[b], e)
  {
    var after := BatchesAfter(s, step);
    forall b | b in after
      ensures BatchPast(after[b], e)
    {
      assert b in s.batches ==> BatchPast(s.batches[b], e);
    }
  }

  lemma GuardedSubs(s: State, step: Step, e: Torrent)
    requires Guarded(s, e) && Enabled(s, step)
    ensures forall l | l in SubsAfter(s, step) :: SubPast(SubsAfter(s, step)[l], e, Next(s, step).now)
  {
    var after := SubsAfter(s, step);
    forall l | l in after
      ensures SubPast(after[l], e, Next(s, step).now)
    {
      assert l in s.subs ==> SubPast(s.subs[l], e, s.now);
    }
  }

  lemma GuardedCursor(s: State, step: Step, e: Torrent)
    requires Guarded(s, e) && Enabled(s, step) && Spares(s, step, e)
    ensures var s' := Next(s, step);
            e.pubkey in s'.db.followed ==>
              0 < s'.db.followed[e.pubkey].cursor && e.publishedAt < s'.db.followed[e.pubkey].cursor
              && e.publishedAt < s'.now - OVERLAP
  {
  }

  lemma {:induction false} GuardedRun(s: State, steps: seq<Step>, e: Torrent)
    requires Safety.Inv(s) && e in s.published && Guarded(s, e) && Sparing(s, steps, e)
    ensures !Rewrites(s, steps, e)
    ensures Legal(s, steps) && SameEntry(s.db, Run(s, steps).db, e.id)
    decreases |steps|
  {
    if steps != [] {
      GuardedWrite(s, steps[0], e);
      GuardedEntry(s, steps[0], e);
      GuardedBatches(s, steps[0], e);
      GuardedSubs(s, steps[0], e);
      GuardedCursor(s, steps[0], e);
      Safety.InvStep(s, steps[0]);
      GuardedRun(Next(s, steps[0]), steps[1..], e);
    }
  }

  /** An edit or deletion made while the event is guarded is what every later state shows. */
  lemma ModerationSurvives(s: State, steps: seq<Step>, e: Torrent)
    requires Safety.Inv(s) && e in s.published && Guarded(s, e) && Sparing(s, steps, e)
    ensures Legal(s, steps) && SameEntry(s.db, Run(s, steps).db, e.id)
  {
    GuardedRun(s, steps, e);
  }

  // ---------------------------------------------------------------------------------------------
  // Not guarded: some run brings it back
  // ---------------------------------------------------------------------------------------------

  lemma UndoneNow(s: State, step: Step, e: Torrent)
    requires Enabled(s, step) && Spares(s, step, e) && WriteOf(s, step) == Put(e)
    ensures Undoable(s, e)
  {
    assert Sparing(s, [step], e) && Rewrites(s, [step], e);
  }

  lemma UndoneAfter(s: State, step: Step, e: Torrent)
    requires Enabled(s, step) && Spares(s, step, e) && Undoable(Next(s, step), e)
    ensures Undoable(s, e)
  {
    var rest :| Sparing(Next(s, step), rest, e) && Rewrites(Next(s, step), rest, e);
    var steps := [step] + rest;
    assert steps[1..] == rest;
    assert Sparing(s, steps, e) && Rewrites(s, steps, e);
  }

  lemma {:induction false} UndoneByWriting(s: State, b: Pid, e: Torrent)
    requires b in s.batches && s.batches[b].Writing? && e in s.batches[b].todo
    ensures Undoable(s, e)
    decreases if b in s.batches && s.batches[b].Writing? then |s.batches[b].todo| else 0
  {
    var step := BatchUpsert(b, true);
    if s.batches[b].todo[0] == e {
      UndoneNow(s, step, e);
    } else {
      UndoneByWriting(Next(s, step), b, e);
      UndoneAfter(s, step, e);
    }
  }

  lemma UndoneBySnapshot(s: State, b: Pid, e: Torrent)
    requires e in s.published && b in s.batches && s.batches[b].Snapshot? && s.batches[b].author == e.pubkey
    requires s.batches[b].since > 0 ==> e.publishedAt >= s.batches[b].since
    ensures Undoable(s, e)
  {
    var step := Answer(b, [e]);
    UndoneByWriting(Next(s, step), b, e);
    UndoneAfter(s, step, e);
  }

  lemma UndoneByIdle(s: State, l: Pid, e: Torrent)
    requires e in s.published && l in s.subs && s.subs[l].Open? && s.subs[l].held.Idle?
    requires e.pubkey in s.subs[l].authors && e.publishedAt >= s.subs[l].since
    ensures Undoable(s, e)
  {
    UndoneNow(Next(s, Arrive(l, e)), LiveUpsert(l, true), e);
    UndoneAfter(s, Arrive(l, e), e);
  }

  lemma UndoneByOpen(s: State, l: Pid, e: Torrent)
    requires e in s.published && l in s.subs && s.subs[l].Open?
    requires e.pubkey in s.subs[l].authors && e.publishedAt >= s.subs[l].since
    ensures Undoable(s, e)
  {
    if s.subs[l].held.Idle? {
      UndoneByIdle(s, l, e);
    } else {
      var finish :=
        if s.subs[l].held.GotTorrent? then LiveUpsert(l, false)
        else if s.subs[l].held.Upserted? then LiveAdvance(l, false)
        else LiveProfile(l, false);
      UndoneByIdle(Next(s, finish), l, e);
      UndoneAfter(s, finish, e);
    }
  }

  lemma UndoneByOpening(s: State, l: Pid, e: Torrent)
    requires e in s.published && l in s.subs && s.subs[l].Opening?
    requires e.pubkey in s.subs[l].authors && e.publishedAt >= s.now - OVERLAP
    ensures Undoable(s, e)
  {
    UndoneByIdle(Next(s, Connect(l)), l, e);
    UndoneAfter(s, Connect(l), e);
  }

  ghost function Above(pids: set<Pid>): (n: nat)
    ensures forall pid | pid in pids :: pid.n < n
  {
    if pids == {} then 0
    else
      var pid :| pid in pids;
      Max(pid.n + 1, Above(pids - {pid}))
  }

  lemma UndoneByAccount(s: State, e: Torrent)
    requires e in s.published && e.pubkey in s.db.followed
    requires !(0 < s.db.followed[e.pubkey].cursor && e.publishedAt < s.db.followed[e.pubkey].cursor)
             || e.publishedAt >= s.now - OVERLAP
    ensures Undoable(s, e)
  {
    if e.publishedAt >= s.now - OVERLAP {
      var l := Pid(Above(s.subs.Keys));
      var enable := FollowCmd(e.pubkey, "");
      var s1 := Next(s, enable);
      UndoneByOpening(Next(s1, Reload(l)), l, e);
      UndoneAfter(s1, Reload(l), e);
      UndoneAfter(s, enable, e);
    } else {
      var b := Pid(Above(s.batches.Keys));
      UndoneBySnapshot(Next(s, Ask(b, e.pubkey)), b, e);
      UndoneAfter(s, Ask(b, e.pubkey), e);
    }
  }

  /** The guard is exact: a moderation can be undone by later synchronisation just when the guard fails. */
  lemma GuardIsExact(s: State, e: Torrent)
    requires Safety.Inv(s) && e in s.published
    ensures Undoable(s, e) <==> !Guarded(s, e)
  {
    if Guarded(s, e) {
      forall steps | Sparing(s, steps, e)
        ensures !Rewrites(s, steps, e)
      {
        GuardedRun(s, steps, e);
      }
    } else if b :| b in s.batches && !BatchPast(s.batches[b], e) {
      if s.batches[b].Snapshot? {
        UndoneBySnapshot(s, b, e);
      } else {
        UndoneByWriting(s, b, e);
      }
    } else if l :| l in s.subs && !SubPast(s.subs[l], e, s.now) {
      UndoneBySub(s, l, e);
    } else {
      UndoneByAccount(s, e);
    }
  }

  lemma UndoneBySub(s: State, l: Pid, e: Torrent)
    requires e in s.published && l in s.subs && !SubPast(s.subs[l], e, s.now)
    ensures Undoable(s, e)
  {
    if s.subs[l].Opening? {
      UndoneByOpening(s, l, e);
    } else if s.subs[l].held == GotTorrent(e) {
      UndoneNow(s, LiveUpsert(l, true), e);
    } else {
      UndoneByOpen(s, l, e);
    }
  }
}
