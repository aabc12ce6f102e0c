/**
 What a live subscription needs for the cursor to stay honest: to reach back to it when it is opened. The
 overlap of two minutes is what it has for that; an account last synchronised earlier can lose events.
 */
module LiveGap {
  import opened Catalog
  import opened Protocol
  import opened NoGap
  import Safety

  // ---------------------------------------------------------------------------------------------
  // One live event
  // ---------------------------------------------------------------------------------------------

  /**
   Moving the cursor to a live event loses the guarantee exactly if something between the old cursor (or the
   beginning, if there is none) and the start of the subscription is missing; a subscription that reaches back
   leaves no such room.
   */
  lemma LiveAdvanceExactly(s: State, l: Pid)
    requires Safety.Inv(s) && Gapless(s) && Enabled(s, LiveAdvance(l, true))
    requires var t := s.subs[l].held.t; t.pubkey in s.db.followed && s.db.followed[t.pubkey].cursor < t.publishedAt
    ensures var t, s' := s.subs[l].held.t, Next(s, LiveAdvance(l, true));
            var cursor := s.db.followed[t.pubkey].cursor;
            && s'.db.followed[t.pubkey].cursor == t.publishedAt
            && (Covered(s', t.pubkey, t.publishedAt) <==> NothingMissing(s, t.pubkey, cursor, s.subs[l].since))
            && (ReachesBack(s.db, t.pubkey, s.subs[l].since) ==> NothingMissing(s, t.pubkey, cursor, s.subs[l].since))
  {
    var x, s' := s.subs[l], Next(s, LiveAdvance(l, true));
    var t := x.held.t;
    assert Caught(s, x) && Bears(x, t);
    assert Covered(s, t.pubkey, s.db.followed[t.pubkey].cursor);
    assert Safety.Dated(s.written, t.pubkey, s.db.followed[t.pubkey].cursor);
    assert s'.published == s.published && s'.db.torrents == s.db.torrents;
  }

  ghost predicate NothingMissing(s: State, author: string, from: int, to: int) {
    forall e | e in s.published && e.pubkey == author && (from <= e.publishedAt || from == 0) && e.publishedAt < to ::
      e.id in s.db.torrents
  }

  // ---------------------------------------------------------------------------------------------
  // A guard for the opening of a subscription
  // ---------------------------------------------------------------------------------------------

  /** When the subscription is opened, the cursor of each of its accounts is at most the overlap old. */
  ghost predicate SafeOpening(s: State, step: Step) {
    step.Connect? ==>
      step.l in s.subs && forall p | p in s.subs[step.l].authors :: ReachesBack(s.db, p, s.now - OVERLAP)
  }

  ghost predicate SafeRun(s: State, steps: seq<Step>)
    decreases |steps|
  {
    steps == [] || (Enabled(s, steps[0]) && Orderly(s, steps[0]) && SafeOpening(s, steps[0]) && SafeRun(Next(s, steps[0]), steps[1..]))
  }

  ghost predicate SubReachesBack(db: Db, x: Sub) {
    x.Open? ==>
      && (forall p | p in x.authors :: ReachesBack(db, p, x.since))
      && (forall t | Bears(x, t) :: t.pubkey in x.authors)
  }

  ghost predicate AllReachBack(s: State) {
    forall l | l in s.subs :: SubReachesBack(s.db, s.subs[l])
  }

  lemma ReachesBackKept(s: State, step: Step, p: string, since: int)
    requires Enabled(s, step) && Orderly(s, step) && ReachesBack(s.db, p, since)
    ensures ReachesBack(Next(s, step).db, p, since)
  {
    Safety.CursorStep(s, step, p);
  }

  lemma SubReachesBackKept(s: State, step: Step, x: Sub)
    requires Enabled(s, step) && Orderly(s, step) && SubReachesBack(s.db, x)
    ensures SubReachesBack(Next(s, step).db, x)
  {
    if x.Open? {
      forall p | p in x.authors
        ensures ReachesBack(Next(s, step).db, p, x.since)
      {
        ReachesBackKept(s, step, p, x.since);
      }
    }
  }

  lemma AllReachBackStep(s: State, step: Step)
    requires AllReachBack(s) && Enabled(s, step) && Orderly(s, step) && SafeOpening(s, step)
    ensures MovesSafely(s, step) && AllReachBack(Next(s, step))
  {
    var s' := Next(s, step);
    if step.LiveAdvance? {
      assert SubReachesBack(s.db, s.subs[step.l]) && Bears(s.subs[step.l], s.subs[step.l].held.t);
    }
    forall l | l in s'.subs
      ensures SubReachesBack(s'.db, s'.subs[l])
    {
      MovedReachesBack(s, step, l);
      SubReachesBackKept(s, step, s'.subs[l]);
    }
  }

  lemma MovedReachesBack(s: State, step: Step, l: Pid)
    requires AllReachBack(s) && Enabled(s, step) && SafeOpening(s, step) && l in SubsAfter(s, step)
    ensures SubReachesBack(s.db, SubsAfter(s, step)[l])
  {
    assert l in s.subs ==> SubReachesBack(s.db, s.subs[l]);
    if step.LiveUpsert? && step.l == l {
      assert Bears(s.subs[l], s.subs[l].held.t);
    }
  }

  lemma {:induction false} SafeIsGuarded(s: State, steps: seq<Step>)
    requires AllReachBack(s) && SafeRun(s, steps)
    ensures OrderlyRun(s, steps)
    decreases |steps|
  {
    if steps != [] {
      AllReachBackStep(s, steps[0]);
      SafeIsGuarded(Next(s, steps[0]), steps[1..]);
    }
  }

  /**
   Batch synchronisers and live consumers side by side: if every subscription is opened on accounts whose
   cursor is set and at most the overlap old, nothing published before a cursor is ever missing.
   */
  lemma NoGapWithLive(now: int, steps: seq<Step>)
    requires SafeRun(Start(now), steps)
    ensures Legal(Start(now), steps)
    ensures var s := Run(Start(now), steps);
            forall p, e | p in s.db.followed && s.db.followed[p].cursor > 0 && e in s.published && e.pubkey == p
                          && e.publishedAt < s.db.followed[p].cursor :: e.id in s.db.torrents
  {
    SafeIsGuarded(Start(now), steps);
    NoGap.NoGap(now, steps);
  }

  // ---------------------------------------------------------------------------------------------
  // The guard is exact, whatever the clock and the cursors
  // ---------------------------------------------------------------------------------------------

  /** Orderly steps, guarded or not, lead from `start` to `s`. */
  ghost predicate Walk(start: State, steps: seq<Step>, s: State)
    decreases |steps|
  {
    if steps == [] then s == start
    else Enabled(start, steps[0]) && Orderly(start, steps[0]) && Walk(Next(start, steps[0]), steps[1..], s)
  }

  ghost predicate Reaches(start: State, s: State) {
    exists steps :: Walk(start, steps, s)
  }

  predicate OpensNothing(steps: seq<Step>) {
    forall k | 0 <= k < |steps| :: !steps[k].Connect?
  }

  /** The same, without opening any subscription. */
  ghost predicate Drifts(start: State, s: State) {
    exists steps :: Walk(start, steps, s) && OpensNothing(steps)
  }

  const PID := Pid(0)

  /** A subscription on all followed accounts, the only one, is about to be opened; these are the cursors. */
  ghost predicate Opens(s: State, now: int, cursors: map<string, nat>) {
    && s.now == now && s.db.followed.Keys == cursors.Keys
    && (forall p | p in cursors :: s.db.followed[p].cursor == cursors[p])
    && s.subs == map[PID := Opening(cursors.Keys)]
  }

  ghost predicate MissesSome(s: State) {
    exists t | t in s.published ::
      t.pubkey in s.db.followed && t.publishedAt < s.db.followed[t.pubkey].cursor && 0 < s.db.followed[t.pubkey].cursor
      && t.id !in s.db.torrents
  }

  /** Opened now, and no other after it, the subscription can lead to a cursor with something missing before it. */
  ghost predicate Loses(s: State)
    requires Enabled(s, Connect(PID))
  {
    exists e :: Drifts(Next(s, Connect(PID)), e) && MissesSome(e)
  }

  predicate Recent(now: int, cursors: map<string, nat>) {
    forall p | p in cursors :: 0 < cursors[p] && now - 120 <= cursors[p]
  }

  /**
   Opening a subscription is safe, after every orderly history that has left no gap, if and only if every cursor
   is set and at most the overlap old.
   */
  lemma OpeningIsSafeExactly(now: int, cursors: map<string, nat>)
    ensures (forall origin, s | Reaches(Start(origin), s) && Opens(s, now, cursors) && Gapless(s) :: !Loses(s))
            <==> Recent(now, cursors)
  {
    if Recent(now, cursors) {
      forall origin, s | Reaches(Start(origin), s) && Opens(s, now, cursors) && Gapless(s)
        ensures !Loses(s)
      {
        RecentIsSafe(origin, s, now, cursors);
      }
    } else {
      var p :| p in cursors && !(0 < cursors[p] && now - OVERLAP <= cursors[p]);
      var s := StaleLoses(now, cursors, p);
    }
  }

  // Recent cursors: no run loses anything

  lemma RecentIsSafe(origin: int, s: State, now: int, cursors: map<string, nat>)
    requires Reaches(Start(origin), s) && Opens(s, now, cursors) && Gapless(s) && Recent(now, cursors)
    ensures !Loses(s)
  {
    var s' := Next(s, Connect(PID));
    OpenedReachesBack(s, now, cursors);
    ReachedInv(origin, s);
    Safety.InvStep(s, Connect(PID));
    GaplessStep(s, Connect(PID));
    forall e | Drifts(s', e)
      ensures !MissesSome(e)
    {
      var steps :| Walk(s', steps, e) && OpensNothing(steps);
      DriftIsSafe(s', steps, e);
      WalkIsLegal(s', steps, e);
      SafeIsGuarded(s', steps);
      GaplessRun(s', steps);
      GaplessMissesNone(e);
    }
  }

  lemma OpenedReachesBack(s: State, now: int, cursors: map<string, nat>)
    requires Opens(s, now, cursors) && Recent(now, cursors)
    ensures AllReachBack(Next(s, Connect(PID)))
  {
    forall p | p in cursors
      ensures ReachesBack(s.db, p, now - OVERLAP)
    {
    }
  }

  lemma ReachedInv(origin: int, s: State)
    requires Reaches(Start(origin), s)
    ensures Safety.Inv(s)
  {
    var steps :| Walk(Start(origin), steps, s);
    WalkIsLegal(Start(origin), steps, s);
    Safety.StartInv(origin);
    Safety.InvRun(Start(origin), steps);
  }

  /** An orderly walk is a legal run. */
  lemma {:induction false} WalkIsLegal(start: State, steps: seq<Step>, s: State)
    requires Walk(start, steps, s)
    ensures Legal(start, steps) && Run(start, steps) == s
    decreases |steps|
  {
    if steps != [] {
      WalkIsLegal(Next(start, steps[0]), steps[1..], s);
    }
  }

  lemma {:induction false} DriftIsSafe(start: State, steps: seq<Step>, s: State)
    requires Walk(start, steps, s) && OpensNothing(steps)
    ensures SafeRun(start, steps)
    decreases |steps|
  {
    if steps != [] {
      assert !steps[0].Connect? && forall k | 0 <= k < |steps| - 1 :: steps[1..][k] == steps[k + 1];
      DriftIsSafe(Next(start, steps[0]), steps[1..], s);
    }
  }

  lemma GaplessMissesNone(s: State)
    requires Gapless(s)
    ensures !MissesSome(s)
  {
    forall t | t in s.published && t.pubkey in s.db.followed && t.publishedAt < s.db.followed[t.pubkey].cursor
               && 0 < s.db.followed[t.pubkey].cursor
      ensures t.id in s.db.torrents
    {
      assert Covered(s, t.pubkey, s.db.followed[t.pubkey].cursor);
    }
  }

  // Some cursor is not: a history, and a run that loses an event

  lemma ReachesItself(s: State)
    ensures Reaches(s, s) && Drifts(s, s)
  {
    assert Walk(s, [], s);
    assert OpensNothing([]);
  }

  lemma {:induction false} WalkOn(start: State, steps: seq<Step>, s: State, step: Step)
    requires Walk(start, steps, s) && Enabled(s, step) && Orderly(s, step)
    ensures Walk(start, steps + [step], Next(s, step))
    decreases |steps|
  {
    if steps == [] {
      assert ([] + [step])[1..] == [];
    } else {
      WalkOn(Next(start, steps[0]), steps[1..], s, step);
      assert (steps + [step])[1..] == steps[1..] + [step];
    }
  }

  lemma Onward(start: State, s: State, step: Step) returns (s': State)
    requires Reaches(start, s) && Enabled(s, step) && Orderly(s, step)
    ensures s' == Next(s, step) && Reaches(start, s')
  {
    s' := Next(s, step);
    var steps :| Walk(start, steps, s);
    WalkOn(start, steps, s, step);
  }

  lemma Drift(start: State, s: State, step: Step) returns (s': State)
    requires Drifts(start, s) && Enabled(s, step) && Orderly(s, step) && !step.Connect?
    ensures s' == Next(s, step) && Drifts(start, s')
  {
    s' := Next(s, step);
    var steps :| Walk(start, steps, s) && OpensNothing(steps);
    WalkOn(start, steps, s, step);
    assert OpensNothing(steps + [step]);
  }

  /** The event of an account under this mark. */
  function Sample(p: string, mark: char, date: int): (t: Torrent)
    ensures WellSized(t)
  {
    Torrent(p + [mark], p, "t", "", "", "", "", "", "", [], 0, [], date)
  }

  predicate Marked(id: string, mark: char) {
    id != "" && id[|id| - 1] == mark
  }

  lemma SampleIds(p: string, mark: char, date: int)
    ensures Marked(Sample(p, mark, date).id, mark) && Sample(p, mark, date).id[..|p|] == p
  {
  }

  /** These accounts at these cursors; whatever they published is dated at the cursor, and nothing is in flight. */
  ghost predicate Prepared(s: State, now: int, cursors: map<string, nat>) {
    && s.now == now && s.subs == map[] && s.batches == map[]
    && s.db.followed.Keys == cursors.Keys
    && (forall p | p in cursors :: s.db.followed[p].enabled && s.db.followed[p].cursor == cursors[p])
    && (forall e | e in s.published :: e.pubkey in cursors && cursors[e.pubkey] > 0 && e == Sample(e.pubkey, '1', cursors[e.pubkey]))
    && (forall id | id in s.db.torrents :: Marked(id, '1'))
  }

  /** Any cursors can come about: for each account an event of that date, synchronised. */
  lemma {:induction false} PreparedAt(now: int, cursors: map<string, nat>) returns (s: State)
    ensures Reaches(Start(now), s) && Prepared(s, now, cursors)
    decreases |cursors|
  {
    if cursors == map[] {
      s := Start(now);
      ReachesItself(s);
    } else {
      var p :| p in cursors;
      OneLess(cursors, p);
      s := PreparedAt(now, cursors - {p});
      s := AccountAdded(Start(now), s, now, cursors, p);
    }
  }

  lemma OneLess(cursors: map<string, nat>, p: string)
    requires p in cursors
    ensures |cursors - {p}| < |cursors| && (cursors - {p}).Keys == cursors.Keys - {p}
  {
    assert (cursors - {p}).Keys == cursors.Keys - {p};
    assert |(cursors - {p}).Keys| == |cursors - {p}| && |cursors.Keys| == |cursors|;
  }

  lemma AccountAdded(s0: State, s: State, now: int, cursors: map<string, nat>, p: string) returns (s': State)
    requires p in cursors && Reaches(s0, s) && Prepared(s, now, cursors - {p})
    ensures Reaches(s0, s') && Prepared(s', now, cursors)
  {
    s' := AccountFollowed(s0, s, now, cursors, p);
    if cursors[p] > 0 {
      s' := AccountRaised(s0, s', now, cursors, p);
    } else {
      assert (cursors - {p})[p := 0] == cursors;
    }
  }

  lemma AccountFollowed(s0: State, s: State, now: int, cursors: map<string, nat>, p: string) returns (s': State)
    requires p in cursors && Reaches(s0, s) && Prepared(s, now, cursors - {p})
    ensures Reaches(s0, s') && Prepared(s', now, (cursors - {p})[p := 0])
  {
    s' := Onward(s0, s, FollowCmd(p, ""));
  }

  /** An account at cursor zero has published nothing; after one event and one synchronisation it is at its date. */
  lemma AccountRaised(s0: State, s: State, now: int, cursors: map<string, nat>, p: string) returns (s': State)
    requires p in cursors && cursors[p] > 0 && Reaches(s0, s) && Prepared(s, now, (cursors - {p})[p := 0])
    ensures Reaches(s0, s') && Prepared(s', now, cursors)
  {
    NothingYet(s, now, cursors, p);
    var s1 := Announced(s0, s, p, cursors[p]);
    s' := SyncedOnce(s0, s1, p, cursors[p]);
    SampleIds(p, '1', cursors[p]);
    PreparedAfter(s, s', now, cursors, p);
  }

  lemma NothingYet(s: State, now: int, cursors: map<string, nat>, p: string)
    requires p in cursors && Prepared(s, now, (cursors - {p})[p := 0])
    ensures forall e | e in s.published :: e.pubkey != p && e.id == e.pubkey + ['1']
  {
  }

  lemma PreparedAfter(s: State, s': State, now: int, cursors: map<string, nat>, p: string)
    requires p in cursors && cursors[p] > 0 && Prepared(s, now, (cursors - {p})[p := 0])
    requires s'.batches == map[] && s'.subs == s.subs && s'.now == s.now
    requires s'.published == s.published + {Sample(p, '1', cursors[p])}
    requires s'.db.torrents.Keys == s.db.torrents.Keys + {Sample(p, '1', cursors[p]).id}
    requires s'.db.followed == s.db.followed[p := s.db.followed[p].(cursor := cursors[p])]
    requires Marked(Sample(p, '1', cursors[p]).id, '1')
    ensures Prepared(s', now, cursors)
  {
  }

  lemma Announced(s0: State, s: State, p: string, cursor: nat) returns (s': State)
    requires Reaches(s0, s) && (forall e | e in s.published :: e.pubkey != p && e.id == e.pubkey + ['1'])
    ensures Reaches(s0, s') && s' == s.(published := s.published + {Sample(p, '1', cursor)})
  {
    forall e | e in s.published
      ensures e.id != p + ['1']
    {
      assert (e.pubkey + ['1'])[..|e.pubkey|] == e.pubkey && (p + ['1'])[..|p|] == p;
    }
    s' := Onward(s0, s, Publish(Sample(p, '1', cursor)));
  }

  /** One synchronisation of the account, from its snapshot to its end. */
  lemma SyncedOnce(s0: State, s: State, p: string, cursor: nat) returns (s': State)
    requires Reaches(s0, s) && s.batches == map[] && p in s.db.followed && s.db.followed[p].cursor == 0 && cursor > 0
    requires PublishedBy(s, p) == {Sample(p, '1', cursor)}
    ensures Reaches(s0, s') && s'.batches == map[] && s'.subs == s.subs && s'.now == s.now && s'.published == s.published
    ensures s'.db.torrents.Keys == s.db.torrents.Keys + {Sample(p, '1', cursor).id}
    ensures s'.db.followed == s.db.followed[p := s.db.followed[p].(cursor := cursor)]
  {
    s' := Onward(s0, s, Ask(PID, p));
    s' := AnsweredOnce(s0, s', p, cursor);
    s' := WroteOne(s0, s', p, cursor);
    s' := CursorMoved(s0, s', p, cursor);
    s' := Ended(s0, s', p);
  }

  lemma AnsweredOnce(s0: State, s: State, p: string, cursor: nat) returns (s': State)
    requires Reaches(s0, s) && s.batches == map[PID := Snapshot(p, 0)] && cursor > 0
    requires PublishedBy(s, p) == {Sample(p, '1', cursor)}
    ensures Reaches(s0, s') && s' == s.(batches := s'.batches, heard := s'.heard)
    ensures s'.batches == map[PID := Writing(p, 0, 0, [Sample(p, '1', cursor)], {Sample(p, '1', cursor)})]
  {
    var t := Sample(p, '1', cursor);
    assert t in PublishedBy(s, p) && t in s.published;
    s' := Onward(s0, s, Answer(PID, [t]));
  }

  lemma WroteOne(s0: State, s: State, p: string, cursor: nat) returns (s': State)
    requires Reaches(s0, s) && cursor > 0
    requires s.batches == map[PID := Writing(p, 0, 0, [Sample(p, '1', cursor)], {Sample(p, '1', cursor)})]
    ensures Reaches(s0, s') && s'.batches == map[PID := Writing(p, 0, cursor, [], {Sample(p, '1', cursor)})]
    ensures s'.subs == s.subs && s'.now == s.now && s'.published == s.published
    ensures s'.db.torrents.Keys == s.db.torrents.Keys + {Sample(p, '1', cursor).id} && s'.db.followed == s.db.followed
  {
    s' := Onward(s0, s, BatchUpsert(PID, true));
    WritesOne(s, p, cursor);
  }

  lemma WritesOne(s: State, p: string, cursor: nat)
    requires cursor > 0 && s.batches == map[PID := Writing(p, 0, 0, [Sample(p, '1', cursor)], {Sample(p, '1', cursor)})]
    ensures BatchesAfter(s, BatchUpsert(PID, true)) == map[PID := Writing(p, 0, cursor, [], {Sample(p, '1', cursor)})]
    ensures WriteOf(s, BatchUpsert(PID, true)) == Put(Sample(p, '1', cursor))
  {
    assert [Sample(p, '1', cursor)][1..] == [];
  }

  lemma CursorMoved(s0: State, s: State, p: string, cursor: nat) returns (s': State)
    requires Reaches(s0, s) && cursor > 0 && p in s.db.followed && s.db.followed[p].cursor == 0
    requires s.batches == map[PID := Writing(p, 0, cursor, [], {Sample(p, '1', cursor)})]
    ensures Reaches(s0, s') && s'.batches == map[PID := Advanced(p)]
    ensures s'.subs == s.subs && s'.now == s.now && s'.published == s.published
    ensures s'.db == s.db.(followed := s.db.followed[p := s.db.followed[p].(cursor := cursor)])
  {
    s' := Onward(s0, s, Advance(PID, true));
    MovesCursor(s, p, cursor);
  }

  lemma MovesCursor(s: State, p: string, cursor: nat)
    requires cursor > 0 && p in s.db.followed && s.db.followed[p].cursor == 0
    requires s.batches == map[PID := Writing(p, 0, cursor, [], {Sample(p, '1', cursor)})]
    ensures BatchesAfter(s, Advance(PID, true)) == map[PID := Advanced(p)]
    ensures WriteOf(s, Advance(PID, true)) == Raise(p, cursor)
  {
  }

  lemma Ended(s0: State, s: State, p: string) returns (s': State)
    requires Reaches(s0, s) && s.batches == map[PID := Advanced(p)]
    ensures Reaches(s0, s') && s'.batches == map[]
    ensures s'.subs == s.subs && s'.now == s.now && s'.published == s.published && s'.db == s.db
  {
    s' := Onward(s0, s, AskProfiles(PID, []));
    s' := Onward(s0, s', EndBatch(PID));
  }

  /** The account publishes what will be missed, and something new; a reload finds all accounts. */
  lemma AboutToOpen(now: int, cursors: map<string, nat>, p: string, old': int, new': int) returns (s: State)
    requires p in cursors && (cursors[p] > 0 ==> cursors[p] <= old') && old' <= new'
    ensures Reaches(Start(now), s) && Opens(s, now, cursors) && Gapless(s)
    ensures {Sample(p, '2', old'), Sample(p, '3', new')} <= s.published
    ensures forall e | e in s.published && e.pubkey == p ::
              e == Sample(p, '2', old') || e == Sample(p, '3', new') || (cursors[p] > 0 && e.publishedAt == cursors[p])
    ensures forall id | id in s.db.torrents :: Marked(id, '1')
  {
    s := PreparedAt(now, cursors);
    PreparedDates(s, now, cursors);
    s := PublishedTwo(Start(now), s, now, cursors, p, old', new');
    assert EnabledAuthors(s.db) == cursors.Keys;
    s := Onward(Start(now), s, Reload(PID));
    NothingBefore(s, now, cursors);
  }

  lemma PreparedDates(s: State, now: int, cursors: map<string, nat>)
    requires Prepared(s, now, cursors)
    ensures forall e | e in s.published :: e.pubkey in cursors && cursors[e.pubkey] > 0 && e.publishedAt == cursors[e.pubkey]
  {
  }

  /** With nothing in flight and nothing published before any cursor, there is no gap. */
  lemma NothingBefore(s: State, now: int, cursors: map<string, nat>)
    requires Opens(s, now, cursors) && s.batches == map[]
    requires forall e | e in s.published && e.pubkey in cursors && cursors[e.pubkey] > 0 :: cursors[e.pubkey] <= e.publishedAt
    ensures Gapless(s)
  {
  }

  lemma PublishedTwo(s0: State, s: State, now: int, cursors: map<string, nat>, p: string, old': int, new': int) returns (s': State)
    requires Reaches(s0, s) && Prepared(s, now, cursors) && p in cursors
    requires (cursors[p] > 0 ==> cursors[p] <= old') && old' <= new'
    ensures Reaches(s0, s') && s' == s.(published := s.published + {Sample(p, '2', old'), Sample(p, '3', new')})
  {
    SampleIds(p, '2', old');
    SampleIds(p, '3', new');
    assert forall e | e in s.published :: Marked(e.id, '1');
    s' := Onward(s0, s, Publish(Sample(p, '2', old')));
    s' := Onward(s0, s', Publish(Sample(p, '3', new')));
  }

  /** The subscription delivers the new event, and the cursor moves to it. */
  lemma Delivered(s: State, p: string, t: Torrent) returns (s': State)
    requires PID in s.subs && s.subs[PID].Open? && s.subs[PID].held.Idle? && p in s.subs[PID].authors
    requires p in s.db.followed && t in s.published && t.pubkey == p && s.subs[PID].since <= t.publishedAt
    requires forall e | e in s.published && e.pubkey == p && e != t :: e.publishedAt < s.subs[PID].since
    ensures Drifts(s, s') && s'.published == s.published
    ensures s'.db.torrents.Keys == s.db.torrents.Keys + {t.id} && s'.db.followed.Keys == s.db.followed.Keys
    ensures s'.db.followed[p].cursor == Max(s.db.followed[p].cursor, t.publishedAt)
  {
    ReachesItself(s);
    s' := Drift(s, s, Arrive(PID, t));
    s' := EventWritten(s, s', p, t);
  }

  lemma EventWritten(s0: State, s: State, p: string, t: Torrent) returns (s': State)
    requires Drifts(s0, s) && PID in s.subs && s.subs[PID].Open? && s.subs[PID].held == GotTorrent(t)
    requires t.pubkey == p && p in s.db.followed
    ensures Drifts(s0, s') && s'.published == s.published
    ensures s'.db.torrents.Keys == s.db.torrents.Keys + {t.id} && s'.db.followed.Keys == s.db.followed.Keys
    ensures s'.db.followed[p].cursor == Max(s.db.followed[p].cursor, t.publishedAt)
  {
    s' := Drift(s0, s, LiveUpsert(PID, true));
    s' := Drift(s0, s', LiveAdvance(PID, true));
  }

  /**
   For every clock and all cursors, one of which fails the guard: an orderly history without a gap up to the
   opening, after which an event is lost.
   */
  lemma StaleLoses(now: int, cursors: map<string, nat>, p: string) returns (s: State)
    requires p in cursors && !(0 < cursors[p] && now - OVERLAP <= cursors[p])
    ensures Reaches(Start(now), s) && Opens(s, now, cursors) && Gapless(s) && Loses(s)
  {
    var since := now - OVERLAP;
    var old' := if cursors[p] > 0 then cursors[p] else since - 1;
    var new' := Max(since, 0) + 1;
    s := AboutToOpen(now, cursors, p, old', new');
    var e := Delivered(Next(s, Connect(PID)), p, Sample(p, '3', new'));
    Missed(e, p, old', new');
  }

  lemma Missed(e: State, p: string, old': int, new': int)
    requires Sample(p, '2', old') in e.published && p in e.db.followed && old' < e.db.followed[p].cursor && 0 < e.db.followed[p].cursor
    requires forall id | id in e.db.torrents :: Marked(id, '1') || id == Sample(p, '3', new').id
    ensures MissesSome(e)
  {
    SampleIds(p, '2', old');
    SampleIds(p, '3', new');
    assert Sample(p, '2', old').id !in e.db.torrents;
  }
}
