/**
 The scraper's pass as a run of the protocol: write-backs of single torrents, with anything the others do in
 between; and what the counters are worth in every run, of any number of passes.
 */
module ScrapeRun {
  import opened Wrappers
  import opened Catalog
  import opened Protocol
  import opened Database
  import opened ScrapeBatch
  import opened Ingest

  /** What the answers to these requests tell: with distinct ids, one row per torrent (StatsExactly). */
  function Told(calls: seq<Call>, net: Network, now: int): set<(string, Stats)> {
    Recorded(map[], calls, net, now).Items
  }

  // ---------------------------------------------------------------------------------------------
  // The pass is a run
  // ---------------------------------------------------------------------------------------------

  /** The steps lead to this database; syncs, subscriptions and the clock are where they were. */
  ghost predicate Obtains(s: State, told: set<(string, Stats)>, db: Db) {
    exists e :: Leads(Scraping(told), s, e) && e == s.(db := db)
  }

  lemma ObtainsStep(s: State, step: Step, told: set<(string, Stats)>, db: Db)
    requires Enabled(s, step) && Acts(Scraping(told), s, step) && Obtains(Next(s, step), told, db)
    ensures Obtains(s, told, db)
  {
    var e :| Leads(Scraping(told), Next(s, step), e) && e == Next(s, step).(db := db);
    LeadsStep(Scraping(told), s, step, e);
  }

  lemma ObtainsNothing(s: State, told: set<(string, Stats)>)
    ensures Obtains(s, told, s.db)
  {
    LeadsNowhere(Scraping(told), s);
    assert s == s.(db := s.db);
  }

  function WithRows(db: Db, w: map<string, Stats>): Db {
    db.(stats := db.stats + Known(w, db.torrents.Keys))
  }

  /** The rows of one answer, one write-back each, in any order; the store refuses those it does not know. */
  lemma {:induction false} WritesRun(s: State, w: map<string, Stats>, told: set<(string, Stats)>)
    requires forall id | id in w :: (id, w[id]) in told
    ensures Obtains(s, told, WithRows(s.db, w))
    decreases |w|
  {
    if w == map[] {
      NoRows(s.db);
      ObtainsNothing(s, told);
    } else {
      var id :| id in w;
      var step := Scrape(id, w[id]);
      Fewer(w, id);
      ScrapeNext(s, id, w[id]);
      WritesRun(s.(db := PutStats(s.db, id, w[id])), w - {id}, told);
      WithRowsStep(s.db, w, id);
      ObtainsStep(s, step, told, WithRows(s.db, w));
    }
  }

  lemma NoRows(db: Db)
    ensures WithRows(db, map[]) == db
  {
    assert db.stats + Known(map[], db.torrents.Keys) == db.stats;
  }

  lemma ScrapeNext(s: State, id: string, stats: Stats)
    ensures Next(s, Scrape(id, stats)) == s.(db := PutStats(s.db, id, stats))
  {
  }

  lemma Fewer(w: map<string, Stats>, id: string)
    requires id in w
    ensures |w - {id}| < |w|
  {
    assert (w - {id}).Keys == w.Keys - {id};
    assert |(w - {id}).Keys| == |w - {id}| && |w.Keys| == |w|;
  }

  lemma WithRowsStep(db: Db, w: map<string, Stats>, id: string)
    requires id in w
    ensures WithRows(PutStats(db, id, w[id]), w - {id}) == WithRows(db, w)
  {
    var ids := db.torrents.Keys;
    assert PutStats(db, id, w[id]).stats + Known(w - {id}, ids) == db.stats + Known(w, ids);
  }

  lemma AnswerRun(s: State, batch: seq<Target>, answer: Option<Reply>, now: int, told: set<(string, Stats)>)
    requires answer.Some? ==> forall id | id in Written(batch, answer.value, now) :: (id, Written(batch, answer.value, now)[id]) in told
    ensures Obtains(s, told, Answered(s.db, batch, answer, now))
  {
    match answer
    case None => ObtainsNothing(s, told);
    case Some(reply) => WritesRun(s, Written(batch, reply, now), told);
  }

  /** What one answer brings is part of what the pass is told. */
  lemma {:induction false} PartOfTold(calls: seq<Call>, net: Network, now: int, c: nat)
    requires DistinctIds(Flat(calls)) && c < |calls| && AnswerTo(net, c, calls[c]).Some?
    ensures var w := Written(calls[c].batch, AnswerTo(net, c, calls[c]).value, now);
            forall id | id in w :: (id, w[id]) in Told(calls, net, now)
  {
    var batch, reply := calls[c].batch, AnswerTo(net, c, calls[c]).value;
    BatchDistinct(calls, c);
    WrittenIds(batch, reply, now);
    forall id | id in Written(batch, reply, now)
      ensures (id, Written(batch, reply, now)[id]) in Told(calls, net, now)
    {
      var k :| 0 <= k < |batch| && batch[k].torrentId == id;
      WrittenAt(batch, reply, now, k);
      StatsExactly(map[], calls, net, now, c, k);
    }
  }

  lemma {:induction false} BatchDistinct(calls: seq<Call>, c: nat)
    requires DistinctIds(Flat(calls)) && c < |calls|
    ensures DistinctIds(calls[c].batch)
  {
    PartsDistinct(calls);
    if c < |calls| - 1 {
      BatchDistinct(calls[..|calls| - 1], c);
    }
  }

  lemma LastIsRun(s: State, calls: seq<Call>, net: Network, now: int, c: nat)
    requires DistinctIds(Flat(calls)) && c < |calls|
    ensures Obtains(s, Told(calls, net, now), Answered(s.db, calls[c].batch, AnswerTo(net, c, calls[c]), now))
  {
    if AnswerTo(net, c, calls[c]).Some? {
      PartOfTold(calls, net, now, c);
    }
    AnswerRun(s, calls[c].batch, AnswerTo(net, c, calls[c]), now, Told(calls, net, now));
  }

  // Others take their steps before each answer

  predicate NoScrape(steps: seq<Step>) {
    forall k | 0 <= k < |steps| :: !steps[k].Scrape?
  }

  /** The store calls of a run. */
  ghost function WritesAlong(s: State, steps: seq<Step>): seq<Write>
    requires Legal(s, steps)
    decreases |steps|
  {
    if steps == [] then [] else [WriteOf(s, steps[0])] + WritesAlong(Next(s, steps[0]), steps[1..])
  }

  lemma {:induction false} ApplyFirst(db: Db, w: Write, ws: seq<Write>)
    ensures ApplyAll(db, [w] + ws) == ApplyAll(Apply(db, w), ws)
  {
    if ws == [] {
      assert [w] + [] == [w] && [w][..0] == [];
      assert ApplyAll(db, []) == db;
    } else {
      ApplyFirst(db, w, ws[..|ws| - 1]);
      assert ([w] + ws)[..|ws|] == [w] + ws[..|ws| - 1];
    }
  }

  /** A run leaves what its store calls leave. */
  lemma {:induction false} RunIsWrites(s: State, steps: seq<Step>)
    requires Legal(s, steps)
    ensures Run(s, steps).db == ApplyAll(s.db, WritesAlong(s, steps))
    decreases |steps|
  {
    if steps != [] {
      RunIsWrites(Next(s, steps[0]), steps[1..]);
      ApplyFirst(s.db, WriteOf(s, steps[0]), WritesAlong(Next(s, steps[0]), steps[1..]));
    }
  }

  /** The same state up to the statistics. */
  predicate Twin(s: State, t: State) {
    t == s.(db := s.db.(stats := t.db.stats))
  }

  /** No step but the scraper's looks at the statistics. */
  lemma TwinEnabled(s: State, t: State, step: Step)
    requires Twin(s, t) && Enabled(s, step)
    ensures Enabled(t, step) && WriteOf(t, step) == WriteOf(s, step)
  {
  }

  lemma TwinMoves(s: State, t: State, step: Step)
    requires Twin(s, t) && Enabled(s, step) && Enabled(t, step)
    ensures BatchesAfter(t, step) == BatchesAfter(s, step) && SubsAfter(t, step) == SubsAfter(s, step)
  {
  }

  lemma TwinApply(a: Db, b: Db, w: Write)
    requires b == a.(stats := b.stats)
    ensures Apply(b, w) == Apply(a, w).(stats := Apply(b, w).stats)
  {
  }

  lemma TwinStep(s: State, t: State, step: Step)
    requires Twin(s, t) && Enabled(s, step)
    ensures Enabled(t, step) && WriteOf(t, step) == WriteOf(s, step) && Twin(Next(s, step), Next(t, step))
  {
    TwinEnabled(s, t, step);
    TwinMoves(s, t, step);
    TwinApply(s.db, t.db, WriteOf(s, step));
  }

  lemma {:induction false} TwinRun(s: State, t: State, steps: seq<Step>)
    requires Twin(s, t) && Legal(s, steps)
    ensures Legal(t, steps) && WritesAlong(t, steps) == WritesAlong(s, steps) && Twin(Run(s, steps), Run(t, steps))
    decreases |steps|
  {
    if steps != [] {
      TwinStep(s, t, steps[0]);
      TwinRun(Next(s, steps[0]), Next(t, steps[0]), steps[1..]);
    }
  }

  function Other(step: Step): seq<Step> {
    if step.Scrape? then [] else [step]
  }

  /** The steps that are not write-backs of the scraper. */
  function Rest(steps: seq<Step>): seq<Step> {
    if steps == [] then [] else Other(steps[0]) + Rest(steps[1..])
  }

  lemma {:induction false} RestConcat(a: seq<Step>, b: seq<Step>)
    ensures Rest(a + b) == Rest(a) + Rest(b)
  {
    if a == [] {
      assert a + b == b;
    } else {
      var head, tail := a[0], a[1..];
      RestConcat(tail, b);
      assert a + b == [head] + (tail + b);
      RestCons(head, tail + b);
      Associate(Other(head), Rest(tail), Rest(b));
    }
  }

  lemma RestCons(step: Step, steps: seq<Step>)
    ensures Rest([step] + steps) == Other(step) + Rest(steps)
  {
    assert ([step] + steps)[1..] == steps;
  }

  lemma Associate(a: seq<Step>, b: seq<Step>, c: seq<Step>)
    ensures a + (b + c) == a + b + c
  {
  }

  lemma {:induction false} RestOfOthers(steps: seq<Step>)
    requires NoScrape(steps)
    ensures Rest(steps) == steps
  {
    if steps != [] {
      assert !steps[0].Scrape? && forall k | 0 <= k < |steps| - 1 :: steps[1..][k] == steps[k + 1];
      RestOfOthers(steps[1..]);
    }
  }

  /** A run of write-backs: nothing of it is left, and all of it was told. */
  lemma {:induction false} WriteBacks(s: State, told: set<(string, Stats)>, steps: seq<Step>, e: State)
    requires Runs(Scraping(told), s, steps, e)
    ensures Legal(s, steps) && Run(s, steps) == e && Rest(steps) == [] && AllReported(told, steps)
    decreases |steps|
  {
    if steps != [] {
      WriteBacks(Next(s, steps[0]), told, steps[1..], e);
      ReportedCons(told, steps);
    }
  }

  predicate AllReported(told: set<(string, Stats)>, steps: seq<Step>) {
    forall k | 0 <= k < |steps| :: Reported(told, steps[k])
  }

  lemma ReportedCons(told: set<(string, Stats)>, steps: seq<Step>)
    requires steps != []
    ensures AllReported(told, steps) <==> Reported(told, steps[0]) && AllReported(told, steps[1..])
  {
    assert forall k | 0 <= k < |steps| - 1 :: steps[1..][k] == steps[k + 1];
    if Reported(told, steps[0]) && AllReported(told, steps[1..]) {
      forall k | 0 <= k < |steps|
        ensures Reported(told, steps[k])
      {
        assert k > 0 ==> steps[k] == steps[1..][k - 1];
      }
    }
  }

  ghost function AllMoves(moves: nat -> seq<Step>, n: nat): seq<Step> {
    if n == 0 then [] else AllMoves(moves, n - 1) + moves(n - 1)
  }

  /** The others' steps, in their order and cut anywhere, with reported write-backs in between, lead there. */
  ghost predicate Interleaves(s: State, moves: nat -> seq<Step>, n: nat, told: set<(string, Stats)>, steps: seq<Step>, e: State) {
    Legal(s, steps) && Run(s, steps) == e && Rest(steps) == AllMoves(moves, n) && AllReported(told, steps)
  }

  lemma {:induction false} InterleavesMore(s: State, moves: nat -> seq<Step>, n: nat, told: set<(string, Stats)>,
                                           steps: seq<Step>, t: State, back: seq<Step>, e: State)
    requires Interleaves(s, moves, n, told, steps, t) && Legal(t, moves(n)) && NoScrape(moves(n))
    requires Runs(Scraping(told), Run(t, moves(n)), back, e)
    ensures Interleaves(s, moves, n + 1, told, steps + (moves(n) + back), e)
  {
    WriteBacks(Run(t, moves(n)), told, back, e);
    Concat(t, moves(n), back);
    Concat(s, steps, moves(n) + back);
    RestConcat(moves(n), back);
    RestConcat(steps, moves(n) + back);
    RestOfOthers(moves(n));
    assert Rest(moves(n) + back) == moves(n);
  }

  /**
   The others' steps make a run of their own, without write-backs of the scraper; this is what it writes before
   each answer.
   */
  ghost predicate Wrote(s: State, moves: nat -> seq<Step>, others: Others, n: nat) {
    forall k: nat | k < n :: WroteAt(s, moves, others, k)
  }

  ghost predicate WroteAt(s: State, moves: nat -> seq<Step>, others: Others, k: nat) {
    && Legal(s, AllMoves(moves, k)) && Legal(Run(s, AllMoves(moves, k)), moves(k)) && NoScrape(moves(k))
    && others(k) == WritesAlong(Run(s, AllMoves(moves, k)), moves(k))
  }

  lemma MovesStep(s: State, moves: nat -> seq<Step>, others: Others, k: nat)
    requires WroteAt(s, moves, others, k)
    ensures Legal(s, AllMoves(moves, k + 1))
    ensures Run(s, AllMoves(moves, k + 1)) == Run(Run(s, AllMoves(moves, k)), moves(k))
  {
    Concat(s, AllMoves(moves, k), moves(k));
  }

  /** The state the others alone would lead to, with this database. */
  ghost predicate LeadsTo(s: State, moves: nat -> seq<Step>, n: nat, db: Db, e: State) {
    Legal(s, AllMoves(moves, n)) && Twin(Run(s, AllMoves(moves, n)), e) && e.db == db
  }

  /** The others' steps before the k-th answer, then what the answer brings. */
  lemma OneAnswer(s: State, calls: seq<Call>, net: Network, now: int, others: Others, moves: nat -> seq<Step>, k: nat,
                init: seq<Step>, t: State) returns (steps: seq<Step>, e: State)
    requires DistinctIds(Flat(calls)) && k < |calls| && WroteAt(s, moves, others, k)
    requires LeadsTo(s, moves, k, t.db, t) && Interleaves(s, moves, k, Told(calls, net, now), init, t)
    ensures LeadsTo(s, moves, k + 1, Answered(ApplyAll(t.db, others(k)), calls[k].batch, AnswerTo(net, k, calls[k]), now), e)
    ensures Interleaves(s, moves, k + 1, Told(calls, net, now), steps, e)
  {
    var alone, told := Run(s, AllMoves(moves, k)), Told(calls, net, now);
    TwinRun(alone, t, moves(k));
    RunIsWrites(t, moves(k));
    MovesStep(s, moves, others, k);
    var u := Run(t, moves(k));
    var back;
    back, e := BackFrom(u, calls, net, now, k);
    InterleavesMore(s, moves, k, told, init, t, back, e);
    steps := init + (moves(k) + back);
    StillTwin(Run(alone, moves(k)), u, calls[k].batch, AnswerTo(net, k, calls[k]), now);
  }

  lemma BackFrom(u: State, calls: seq<Call>, net: Network, now: int, k: nat) returns (back: seq<Step>, e: State)
    requires DistinctIds(Flat(calls)) && k < |calls|
    ensures Runs(Scraping(Told(calls, net, now)), u, back, e)
    ensures e == u.(db := Answered(u.db, calls[k].batch, AnswerTo(net, k, calls[k]), now))
  {
    LastIsRun(u, calls, net, now, k);
    e :| Leads(Scraping(Told(calls, net, now)), u, e)
         && e == u.(db := Answered(u.db, calls[k].batch, AnswerTo(net, k, calls[k]), now));
    back :| Runs(Scraping(Told(calls, net, now)), u, back, e);
  }

  lemma StillTwin(s: State, u: State, batch: seq<Target>, answer: Option<Reply>, now: int)
    requires Twin(s, u)
    ensures Twin(s, u.(db := Answered(u.db, batch, answer, now)))
  {
  }

  /** Of the first n requests. */
  lemma {:induction false} PrefixIsRun(s: State, calls: seq<Call>, net: Network, now: int, others: Others, moves: nat -> seq<Step>, n: nat)
    returns (steps: seq<Step>, e: State)
    requires DistinctIds(Flat(calls)) && n <= |calls| && Wrote(s, moves, others, n)
    ensures LeadsTo(s, moves, n, Passed(s.db, calls[..n], net, now, others), e)
    ensures Interleaves(s, moves, n, Told(calls, net, now), steps, e)
  {
    if n == 0 {
      steps, e := [], s;
      assert calls[..0] == [] && s == s.(db := s.db.(stats := s.db.stats));
    } else {
      var init, t := PrefixIsRun(s, calls, net, now, others, moves, n - 1);
      assert WroteAt(s, moves, others, n - 1);
      PassedPrefix(s.db, calls, net, now, others, n);
      steps, e := OneAnswer(s, calls, net, now, others, moves, n - 1, init, t);
    }
  }

  lemma PassedPrefix(db: Db, calls: seq<Call>, net: Network, now: int, others: Others, n: nat)
    requires 0 < n <= |calls|
    ensures Passed(db, calls[..n], net, now, others)
            == Answered(ApplyAll(Passed(db, calls[..n - 1], net, now, others), others(n - 1)),
                        calls[n - 1].batch, AnswerTo(net, n - 1, calls[n - 1]), now)
  {
    assert calls[..n][..n - 1] == calls[..n - 1];
  }

  /**
   What ScrapeOnce does to the store, with the others' writes before each answer, is a run of the protocol: the
   others' own run, with a write-back in between for each row told; and it leads where the others alone would
   have led, but for the statistics.
   */
  lemma PassIsRun(s: State, targets: seq<Target>, calls: seq<Call>, net: Network, now: int, others: Others, moves: nat -> seq<Step>)
    returns (steps: seq<Step>, e: State)
    requires DistinctIds(targets) && multiset(Flat(calls)) == multiset(targets) && Wrote(s, moves, others, |calls|)
    ensures LeadsTo(s, moves, |calls|, Passed(s.db, calls, net, now, others), e)
    ensures Interleaves(s, moves, |calls|, Told(calls, net, now), steps, e)
  {
    StillDistinct(targets, Flat(calls));
    steps, e := PrefixIsRun(s, calls, net, now, others, moves, |calls|);
    assert calls[..|calls|] == calls;
  }

  // ---------------------------------------------------------------------------------------------
  // Counters in any run
  // ---------------------------------------------------------------------------------------------

  /** The row is an old one, or one some pass was told about this very torrent. */
  predicate Honest(before: map<string, Stats>, told: set<(string, Stats)>, after: map<string, Stats>) {
    forall id | id in after :: (id in before && after[id] == before[id]) || (id, after[id]) in told
  }

  /**
   Whatever synchronisers, consumers and moderators do between the write-backs of any number of passes, a
   counter that changes becomes what the torrent's own tracker told of it.
   */
  lemma {:induction false} CountersHonest(s: State, steps: seq<Step>, told: set<(string, Stats)>)
    requires Legal(s, steps) && AllReported(told, steps)
    ensures Honest(s.db.stats, told, Run(s, steps).db.stats)
    decreases |steps|
  {
    if steps != [] {
      ReportedCons(told, steps);
      HonestStep(s, steps[0], told);
      CountersHonest(Next(s, steps[0]), steps[1..], told);
    }
  }

  lemma HonestStep(s: State, step: Step, told: set<(string, Stats)>)
    requires Enabled(s, step) && Reported(told, step)
    ensures Honest(s.db.stats, told, Next(s, step).db.stats)
  {
  }

  /** No step deletes the torrent. */
  ghost predicate Remains(s: State, steps: seq<Step>, id: string)
    requires Legal(s, steps)
    decreases |steps|
  {
    id in s.db.torrents && (steps == [] || Remains(Next(s, steps[0]), steps[1..], id))
  }

  /** The last write-back of the torrent. */
  function LastReport(steps: seq<Step>, id: string): Option<Stats> {
    if steps == [] then None
    else
      var later := LastReport(steps[1..], id);
      if later.Some? then later
      else if steps[0].Scrape? && steps[0].id == id then Some(steps[0].stats) else None
  }

  predicate Shows(after: map<string, Stats>, before: map<string, Stats>, id: string, report: Option<Stats>) {
    match report
    case None => Same(after, before, id)
    case Some(stats) => id in after && after[id] == stats
  }

  /** While a torrent stays catalogued its counters are those of the last write-back, of whichever pass. */
  lemma {:induction false} CountersExactly(s: State, steps: seq<Step>, id: string)
    requires Legal(s, steps) && Remains(s, steps, id)
    ensures Shows(Run(s, steps).db.stats, s.db.stats, id, LastReport(steps, id))
    decreases |steps|
  {
    if steps != [] {
      ReportStep(s, steps[0], id);
      CountersExactly(Next(s, steps[0]), steps[1..], id);
    }
  }

  lemma ReportStep(s: State, step: Step, id: string)
    requires Enabled(s, step) && id in s.db.torrents && id in Next(s, step).db.torrents
    ensures Shows(Next(s, step).db.stats, s.db.stats, id, if step.Scrape? && step.id == id then Some(step.stats) else None)
  {
  }
}
