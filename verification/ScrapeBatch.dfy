/**
 One pass of the scraper (`ScrapeOnce`, internal/ingest/scrape.go): due torrents grouped by tracker, cut into
 batches a request can carry, and the counters written back.
 */
module ScrapeBatch {
  import opened Wrappers
  import opened Catalog
  import opened Database
  import Protocol
  import ScrapeCodec

  const MAX_INFOHASHES := 74

  type Reply = map<string, ScrapeCodec.Stats>

  /** The answer to the n-th request of the pass; None when the tracker is not udp, unreachable or replies badly. */
  type Network = (nat, string, seq<string>) -> Option<Reply>

  /** One request: the torrents of one tracker it asks about. */
  datatype Call = Call(tracker: string, batch: seq<Target>)

  function Hashes(batch: seq<Target>): seq<string> {
    seq(|batch|, i requires 0 <= i < |batch| => batch[i].infohash)
  }

  /** Scrape silently drops what a request cannot carry. */
  function Truncated(infohashes: seq<string>): seq<string> {
    if |infohashes| > MAX_INFOHASHES then infohashes[..MAX_INFOHASHES] else infohashes
  }

  function AnswerTo(net: Network, n: nat, call: Call): Option<Reply> {
    net(n, call.tracker, Truncated(Hashes(call.batch)))
  }

  function Counters(s: ScrapeCodec.Stats, now: int): Stats {
    Stats(s.seeders, s.leechers, now)
  }

  predicate DistinctIds(targets: seq<Target>) {
    forall j, k | 0 <= j < k < |targets| :: targets[j].torrentId != targets[k].torrentId
  }

  // ---------------------------------------------------------------------------------------------
  // One batch
  // ---------------------------------------------------------------------------------------------

  /** The tracker reported the k-th torrent's infohash, and no later torrent of the batch shares it. */
  predicate Gets(batch: seq<Target>, reply: Reply, k: nat)
    requires k < |batch|
  {
    batch[k].infohash in reply && forall j | k < j < |batch| :: batch[j].infohash != batch[k].infohash
  }

  /** The rows a batch writes. */
  function Written(batch: seq<Target>, reply: Reply, now: int): map<string, Stats> {
    if batch == [] then map[]
    else if Gets(batch, reply, 0) then
      Written(batch[1..], reply, now)[batch[0].torrentId := Counters(reply[batch[0].infohash], now)]
    else Written(batch[1..], reply, now)
  }

  lemma {:induction false} WrittenIds(batch: seq<Target>, reply: Reply, now: int)
    ensures forall id | id in Written(batch, reply, now) :: Listed(batch, id)
  {
    if batch != [] {
      WrittenIds(batch[1..], reply, now);
      forall id | Listed(batch[1..], id) || id == batch[0].torrentId
        ensures Listed(batch, id)
      {
        if Listed(batch[1..], id) {
          var k :| 0 <= k < |batch[1..]| && batch[1..][k].torrentId == id;
          assert batch[k + 1].torrentId == id;
        }
      }
    }
  }

  lemma {:induction false} WrittenAt(batch: seq<Target>, reply: Reply, now: int, k: nat)
    requires DistinctIds(batch) && k < |batch|
    ensures var w, id := Written(batch, reply, now), batch[k].torrentId;
            (id in w <==> Gets(batch, reply, k)) && (id in w ==> w[id] == Counters(reply[batch[k].infohash], now))
  {
    if k == 0 {
      WrittenIds(batch[1..], reply, now);
    } else {
      WrittenAt(batch[1..], reply, now, k - 1);
      TailGets(batch, reply, k);
    }
  }

  lemma TailGets(batch: seq<Target>, reply: Reply, k: nat)
    requires 0 < k < |batch|
    ensures Gets(batch, reply, k) <==> Gets(batch[1..], reply, k - 1)
  {
    if Gets(batch[1..], reply, k - 1) {
      forall j | k < j < |batch|
        ensures batch[j].infohash != batch[k].infohash
      {
        assert batch[1..][j - 1] == batch[j];
      }
    }
  }

  /** torrentIDByHash after the first n torrents: the last torrent of an infohash stays. */
  function IdByHash(batch: seq<Target>, n: nat): map<string, string>
    requires n <= |batch|
  {
    if n == 0 then map[] else IdByHash(batch, n - 1)[batch[n - 1].infohash := batch[n - 1].torrentId]
  }

  lemma {:induction false} IdByHashAt(batch: seq<Target>, n: nat, ih: string)
    requires n <= |batch|
    ensures if ih in IdByHash(batch, n) then
              exists k | 0 <= k < n :: batch[k].infohash == ih && batch[k].torrentId == IdByHash(batch, n)[ih]
                && forall j | k < j < n :: batch[j].infohash != ih
            else forall k | 0 <= k < n :: batch[k].infohash != ih
  {
    if n > 0 {
      IdByHashAt(batch, n - 1, ih);
    }
  }

  /** For a hash reported and asked about, the table names the torrent that gets the counters. */
  lemma TableWrites(batch: seq<Target>, reply: Reply, now: int, ih: string)
    requires DistinctIds(batch) && ih in reply && ih in IdByHash(batch, |batch|)
    ensures var w, id := Written(batch, reply, now), IdByHash(batch, |batch|)[ih];
            id in w && w[id] == Counters(reply[ih], now)
  {
    IdByHashAt(batch, |batch|, ih);
    var k :| 0 <= k < |batch| && batch[k].infohash == ih && batch[k].torrentId == IdByHash(batch, |batch|)[ih]
             && forall j | k < j < |batch| :: batch[j].infohash != ih;
    WrittenAt(batch, reply, now, k);
  }

  lemma TableEntry(batch: seq<Target>, ih: string) returns (k: nat)
    requires ih in IdByHash(batch, |batch|)
    ensures k < |batch| && batch[k].infohash == ih && batch[k].torrentId == IdByHash(batch, |batch|)[ih]
  {
    IdByHashAt(batch, |batch|, ih);
    k :| 0 <= k < |batch| && batch[k].infohash == ih && batch[k].torrentId == IdByHash(batch, |batch|)[ih];
  }

  lemma TableInjective(batch: seq<Target>, a: string, b: string)
    requires DistinctIds(batch) && a in IdByHash(batch, |batch|) && b in IdByHash(batch, |batch|)
    requires IdByHash(batch, |batch|)[a] == IdByHash(batch, |batch|)[b]
    ensures a == b
  {
    var j := TableEntry(batch, a);
    var k := TableEntry(batch, b);
    assert j == k;
  }

  /** The torrents still to be written when these hashes of the reply are left. */
  function Pending(table: map<string, string>, left: set<string>): set<string> {
    set ih | ih in left && ih in table :: table[ih]
  }

  lemma WrittenIsPending(batch: seq<Target>, reply: Reply, now: int)
    requires DistinctIds(batch)
    ensures Written(batch, reply, now).Keys <= Pending(IdByHash(batch, |batch|), reply.Keys)
  {
    var w, table := Written(batch, reply, now), IdByHash(batch, |batch|);
    WrittenIds(batch, reply, now);
    forall id | id in w
      ensures id in Pending(table, reply.Keys)
    {
      var k :| 0 <= k < |batch| && batch[k].torrentId == id;
      WrittenAt(batch, reply, now, k);
      IdByHashAt(batch, |batch|, batch[k].infohash);
      assert batch[k].infohash in table && table[batch[k].infohash] == id;
    }
  }

  /** At first exactly the rows the batch writes are pending. */
  lemma AllPendingIsWritten(batch: seq<Target>, reply: Reply, now: int)
    requires DistinctIds(batch)
    ensures Pending(IdByHash(batch, |batch|), reply.Keys) == Written(batch, reply, now).Keys
  {
    WrittenIsPending(batch, reply, now);
    var table := IdByHash(batch, |batch|);
    forall id | id in Pending(table, reply.Keys)
      ensures id in Written(batch, reply, now)
    {
      var ih :| ih in reply.Keys && ih in table && table[ih] == id;
      TableWrites(batch, reply, now, ih);
    }
  }

  lemma PendingStep(batch: seq<Target>, left: set<string>, ih: string)
    requires DistinctIds(batch) && ih in left
    ensures var table := IdByHash(batch, |batch|);
            Pending(table, left - {ih}) == if ih in table then Pending(table, left) - {table[ih]} else Pending(table, left)
  {
    var table := IdByHash(batch, |batch|);
    forall a | a in left && a in table && ih in table && table[a] == table[ih]
      ensures a == ih
    {
      TableInjective(batch, a, ih);
    }
  }

  /** Counters of torrents that are no longer catalogued are refused. */
  function Known(w: map<string, Stats>, ids: set<string>): map<string, Stats> {
    w - (w.Keys - ids)
  }

  /** What one answer does to the database: some of the torrents may have been deleted since they were listed. */
  function WrittenTo(db: Db, batch: seq<Target>, reply: Reply, now: int): Db {
    db.(stats := db.stats + Known(Written(batch, reply, now), db.torrents.Keys))
  }

  method WriteBatch(st: Store, batch: seq<Target>, reply: Reply, now: int) returns (n: nat)
    requires st.Valid() && DistinctIds(batch)
    modifies st
    ensures st.Valid()
    ensures st.View() == WrittenTo(old(st.View()), batch, reply, now)
    ensures n == |Written(batch, reply, now).Keys * old(st.View()).torrents.Keys|
  {
    var table: map<string, string> := map[];
    for j := 0 to |batch|
      invariant table == IdByHash(batch, j)
    {
      table := table[batch[j].infohash := batch[j].torrentId];
    }
    n := WriteCounters(st, batch, table, reply, now);
  }

  /**
   The reply is gone through in any order; hashes nobody asked about are skipped, and so is, with an error, a
   torrent the store refuses.
   */
  method WriteCounters(st: Store, ghost batch: seq<Target>, table: map<string, string>, reply: Reply, now: int) returns (n: nat)
    requires st.Valid() && DistinctIds(batch) && table == IdByHash(batch, |batch|)
    modifies st
    ensures st.Valid()
    ensures st.View() == WrittenTo(old(st.View()), batch, reply, now)
    ensures n == |Written(batch, reply, now).Keys * old(st.View()).torrents.Keys|
  {
    ghost var db := st.View();
    AllPending(db, batch, reply, now);
    n := 0;
    var left := reply.Keys;
    while left != {}
      invariant left <= reply.Keys
      invariant st.Valid() && st.View() == Partly(db, batch, reply, now, left)
      invariant n + |Pending(table, left) * db.torrents.Keys| == |Written(batch, reply, now).Keys * db.torrents.Keys|
    {
      var ih :| ih in left;
      var ok := WriteOne(st, db, batch, table, reply, now, left, ih);
      CountStep(batch, db.torrents.Keys, left, ih);
      n, left := if ok then n + 1 else n, left - {ih};
    }
  }

  method WriteOne(st: Store, ghost db: Db, ghost batch: seq<Target>, table: map<string, string>, reply: Reply, now: int, ghost left: set<string>, ih: string)
    returns (ok: bool)
    requires st.Valid() && DistinctIds(batch) && table == IdByHash(batch, |batch|)
    requires left <= reply.Keys && ih in left && st.View() == Partly(db, batch, reply, now, left)
    modifies st
    ensures st.Valid() && st.View() == Partly(db, batch, reply, now, left - {ih})
    ensures ok <==> ih in table && table[ih] in db.torrents
  {
    PartlyStep(db, batch, reply, now, left, ih);
    ok := false;
    if ih in table {
      ok := st.UpsertTorrentStats(table[ih], reply[ih].seeders, reply[ih].leechers, now);
    }
  }

  /** The database when these hashes of the reply are left. */
  function Partly(db: Db, batch: seq<Target>, reply: Reply, now: int, left: set<string>): Db {
    var w := Known(Written(batch, reply, now), db.torrents.Keys);
    db.(stats := db.stats + (w - Pending(IdByHash(batch, |batch|), left)))
  }

  lemma AllPending(db: Db, batch: seq<Target>, reply: Reply, now: int)
    requires DistinctIds(batch)
    ensures Partly(db, batch, reply, now, reply.Keys) == db
    ensures Partly(db, batch, reply, now, {}) == WrittenTo(db, batch, reply, now)
    ensures Pending(IdByHash(batch, |batch|), reply.Keys) == Written(batch, reply, now).Keys
  {
    AllPendingIsWritten(batch, reply, now);
    var w, table := Known(Written(batch, reply, now), db.torrents.Keys), IdByHash(batch, |batch|);
    assert w - Pending(table, reply.Keys) == map[];
    assert w - Pending(table, {}) == w;
  }

  lemma PartlyStep(db: Db, batch: seq<Target>, reply: Reply, now: int, left: set<string>, ih: string)
    requires DistinctIds(batch) && left <= reply.Keys && ih in left
    ensures var table := IdByHash(batch, |batch|);
            Partly(db, batch, reply, now, left - {ih})
            == if ih in table then PutStats(Partly(db, batch, reply, now, left), table[ih], Counters(reply[ih], now))
               else Partly(db, batch, reply, now, left)
  {
    var w, table := Written(batch, reply, now), IdByHash(batch, |batch|);
    PendingStep(batch, left, ih);
    if ih in table {
      TableWrites(batch, reply, now, ih);
      OneMore(db.stats, w, db.torrents.Keys, Pending(table, left), table[ih]);
    }
  }

  lemma OneMore(stats: map<string, Stats>, w: map<string, Stats>, ids: set<string>, pending: set<string>, id: string)
    requires id in w && id in pending
    ensures stats + (Known(w, ids) - (pending - {id}))
            == if id in ids then (stats + (Known(w, ids) - pending))[id := w[id]] else stats + (Known(w, ids) - pending)
  {
  }

  lemma CountStep(batch: seq<Target>, ids: set<string>, left: set<string>, ih: string)
    requires DistinctIds(batch) && ih in left
    ensures var table := IdByHash(batch, |batch|);
            |Pending(table, left) * ids|
            == |Pending(table, left - {ih}) * ids| + if ih in table && table[ih] in ids then 1 else 0
  {
    var table := IdByHash(batch, |batch|);
    PendingStep(batch, left, ih);
    var before, after := Pending(table, left) * ids, Pending(table, left - {ih}) * ids;
    if ih in table && table[ih] in ids {
      assert table[ih] in before && after == before - {table[ih]};
    } else {
      assert after == before;
    }
  }

  // ---------------------------------------------------------------------------------------------
  // The pass
  // ---------------------------------------------------------------------------------------------

  /** The statistics the answers to these requests bring, the later over the earlier. */
  function Recorded(stats: map<string, Stats>, calls: seq<Call>, net: Network, now: int): map<string, Stats> {
    if calls == [] then stats
    else
      var n := |calls| - 1;
      var before := Recorded(stats, calls[..n], net, now);
      Noted(before, calls[n].batch, AnswerTo(net, n, calls[n]), now)
  }

  function Noted(stats: map<string, Stats>, batch: seq<Target>, answer: Option<Reply>, now: int): map<string, Stats> {
    match answer
    case None => stats
    case Some(reply) => stats + Written(batch, reply, now)
  }

  /** What synchronisers, consumers and moderators write before the n-th answer is written back. */
  type Others = nat -> seq<Protocol.Write>

  /** The database after these requests, their answers, and what others wrote meanwhile. */
  function Passed(db: Db, calls: seq<Call>, net: Network, now: int, others: Others): Db {
    if calls == [] then db
    else
      var n := |calls| - 1;
      Answered(Protocol.ApplyAll(Passed(db, calls[..n], net, now, others), others(n)), calls[n].batch, AnswerTo(net, n, calls[n]), now)
  }

  function Answered(db: Db, batch: seq<Target>, answer: Option<Reply>, now: int): Db {
    match answer
    case None => db
    case Some(reply) => WrittenTo(db, batch, reply, now)
  }

  /** How many rows the pass writes, over all its requests. */
  function Updates(db: Db, calls: seq<Call>, net: Network, now: int, others: Others): nat {
    if calls == [] then 0
    else
      var n := |calls| - 1;
      var before := Protocol.ApplyAll(Passed(db, calls[..n], net, now, others), others(n));
      Updates(db, calls[..n], net, now, others) + Accepted(before, calls[n].batch, AnswerTo(net, n, calls[n]), now)
  }

  function Accepted(db: Db, batch: seq<Target>, answer: Option<Reply>, now: int): nat {
    match answer
    case None => 0
    case Some(reply) => |Written(batch, reply, now).Keys * db.torrents.Keys|
  }

  lemma PassedSnoc(db: Db, calls: seq<Call>, call: Call, net: Network, now: int, others: Others)
    ensures var before, answer := Protocol.ApplyAll(Passed(db, calls, net, now, others), others(|calls|)), AnswerTo(net, |calls|, call);
            && Passed(db, calls + [call], net, now, others) == Answered(before, call.batch, answer, now)
            && Updates(db, calls + [call], net, now, others)
               == Updates(db, calls, net, now, others) + Accepted(before, call.batch, answer, now)
  {
    assert (calls + [call])[..|calls|] == calls;
  }

  /** All targets asked about, in order. */
  function Flat(calls: seq<Call>): seq<Target> {
    if calls == [] then [] else Flat(calls[..|calls| - 1]) + calls[|calls| - 1].batch
  }

  /** The request asks one tracker about its own torrents, and none of them is dropped by truncation. */
  predicate Proper(call: Call) {
    && 1 <= |call.batch| <= MAX_INFOHASHES
    && forall t | t in call.batch :: t.tracker == call.tracker
  }

  predicate AllProper(calls: seq<Call>) {
    forall c | c in calls :: Proper(c)
  }

  /** The targets of these trackers. */
  function Having(targets: seq<Target>, trackers: set<string>): seq<Target> {
    if targets == [] then []
    else
      var init, last := Having(targets[..|targets| - 1], trackers), targets[|targets| - 1];
      if last.tracker in trackers then init + [last] else init
  }

  lemma {:induction false} HavingSplits(targets: seq<Target>, trackers: set<string>, tracker: string)
    requires tracker in trackers
    ensures multiset(Having(targets, trackers)) == multiset(Having(targets, {tracker})) + multiset(Having(targets, trackers - {tracker}))
  {
    if targets != [] {
      HavingSplits(targets[..|targets| - 1], trackers, tracker);
    }
  }

  lemma {:induction false} HavingAll(targets: seq<Target>, trackers: set<string>)
    requires forall t | t in targets :: t.tracker in trackers
    ensures Having(targets, trackers) == targets
  {
    if targets != [] {
      var init := targets[..|targets| - 1];
      assert forall t | t in init :: t in targets;
      HavingAll(init, trackers);
      assert targets == init + [targets[|targets| - 1]];
    }
  }

  lemma {:induction false} HavingMembers(targets: seq<Target>, tracker: string)
    ensures forall t | t in Having(targets, {tracker}) :: t in targets && t.tracker == tracker
  {
    if targets != [] {
      HavingMembers(targets[..|targets| - 1], tracker);
      assert targets == targets[..|targets| - 1] + [targets[|targets| - 1]];
    }
  }

  lemma {:induction false} HavingDistinct(targets: seq<Target>, tracker: string)
    requires DistinctIds(targets)
    ensures DistinctIds(Having(targets, {tracker}))
  {
    if targets != [] {
      var init, last := targets[..|targets| - 1], targets[|targets| - 1];
      HavingDistinct(init, tracker);
      HavingMembers(init, tracker);
      forall t | t in init
        ensures t.torrentId != last.torrentId
      {
      }
      SnocDistinct(Having(init, {tracker}), last);
    }
  }

  lemma SnocDistinct(targets: seq<Target>, t: Target)
    requires DistinctIds(targets)
    ensures (forall u | u in targets :: u.torrentId != t.torrentId) ==> DistinctIds(targets + [t])
  {
  }

  method GroupByTracker(targets: seq<Target>) returns (groups: map<string, seq<Target>>)
    ensures forall t | t in targets :: t.tracker in groups
    ensures forall tracker | tracker in groups :: groups[tracker] == Having(targets, {tracker})
  {
    groups := map[];
    for i := 0 to |targets|
      invariant Grouped(targets[..i], groups)
    {
      var t := targets[i];
      GroupedStep(targets, i, groups);
      var group := if t.tracker in groups then groups[t.tracker] else [];
      groups := groups[t.tracker := group + [t]];
    }
    assert targets[..|targets|] == targets;
    GroupedHas(targets, groups);
  }

  ghost predicate Grouped(targets: seq<Target>, groups: map<string, seq<Target>>) {
    forall tracker :: Having(targets, {tracker}) == if tracker in groups then groups[tracker] else []
  }

  lemma GroupedStep(targets: seq<Target>, i: nat, groups: map<string, seq<Target>>)
    requires i < |targets| && Grouped(targets[..i], groups)
    ensures var t := targets[i];
            Grouped(targets[..i + 1], groups[t.tracker := (if t.tracker in groups then groups[t.tracker] else []) + [t]])
  {
    assert targets[..i + 1][..i] == targets[..i];
  }

  lemma {:induction false} GroupedHas(targets: seq<Target>, groups: map<string, seq<Target>>)
    requires Grouped(targets, groups)
    ensures forall t | t in targets :: t.tracker in groups
  {
    forall t | t in targets
      ensures t.tracker in groups
    {
      HavingKeeps(targets, t);
    }
  }

  lemma {:induction false} HavingKeeps(targets: seq<Target>, t: Target)
    requires t in targets
    ensures t in Having(targets, {t.tracker})
  {
    var init, last := targets[..|targets| - 1], targets[|targets| - 1];
    assert targets == init + [last];
    if t != last {
      HavingKeeps(init, t);
    }
  }

  function Smaller(a: nat, b: nat): nat {
    if a < b then a else b
  }

  /** The batches of one tracker's targets from the i-th on. */
  function Cuts(tracker: string, group: seq<Target>, i: nat): seq<Call>
    requires i <= |group|
    decreases |group| - i
  {
    if i == |group| then []
    else
      var end := Smaller(i + MAX_INFOHASHES, |group|);
      [Call(tracker, group[i..end])] + Cuts(tracker, group, end)
  }

  /** The batches of one tracker, one request each; a failed request is only logged. */
  method ScrapeGroup(st: Store, tracker: string, group: seq<Target>, net: Network, now: int, others: Others, before: seq<Call>, ghost db: Db)
    returns (calls: seq<Call>, scraped: nat)
    requires DistinctIds(group) && Reflects(st, db, before, net, now, others)
    modifies st, st.fts
    ensures Reflects(st, db, calls, net, now, others)
    ensures calls == before + Cuts(tracker, group, 0)
    ensures Updates(db, calls, net, now, others) == Updates(db, before, net, now, others) + scraped
  {
    calls, scraped := before, 0;
    var i := 0;
    while i < |group|
      invariant i <= |group|
      invariant Reflects(st, db, calls, net, now, others)
      invariant calls + Cuts(tracker, group, i) == before + Cuts(tracker, group, 0)
      invariant Updates(db, calls, net, now, others) == Updates(db, before, net, now, others) + scraped
    {
      var end := Smaller(i + MAX_INFOHASHES, |group|);
      var call := Call(tracker, group[i..end]);
      SliceDistinct(group, i, end);
      CutsStep(calls, tracker, group, i);
      var n := ScrapeCall(st, call, net, now, others, calls, db);
      calls, scraped, i := calls + [call], scraped + n, end;
    }
  }

  lemma SliceDistinct(group: seq<Target>, i: nat, j: nat)
    requires DistinctIds(group) && i <= j <= |group|
    ensures DistinctIds(group[i..j])
  {
  }

  lemma CutsStep(calls: seq<Call>, tracker: string, group: seq<Target>, i: nat)
    requires i < |group|
    ensures var end := Smaller(i + MAX_INFOHASHES, |group|);
            calls + [Call(tracker, group[i..end])] + Cuts(tracker, group, end) == calls + Cuts(tracker, group, i)
  {
    var end := Smaller(i + MAX_INFOHASHES, |group|);
    assert Cuts(tracker, group, i) == [Call(tracker, group[i..end])] + Cuts(tracker, group, end);
  }

  /** Each request is of one tracker, and of at most what it can carry. */
  lemma {:induction false} CutsProper(tracker: string, group: seq<Target>, i: nat)
    requires i <= |group| && forall t | t in group :: t.tracker == tracker
    ensures AllProper(Cuts(tracker, group, i))
    decreases |group| - i
  {
    if i < |group| {
      CutsProper(tracker, group, Smaller(i + MAX_INFOHASHES, |group|));
    }
  }

  lemma {:induction false} CutsFlat(tracker: string, group: seq<Target>, i: nat)
    requires i <= |group|
    ensures Flat(Cuts(tracker, group, i)) == group[i..]
    decreases |group| - i
  {
    if i < |group| {
      var end := Smaller(i + MAX_INFOHASHES, |group|);
      var call := Call(tracker, group[i..end]);
      CutsFlat(tracker, group, end);
      FlatConcat([call], Cuts(tracker, group, end));
      FlatOne(call);
      assert group[i..] == group[i..end] + group[end..];
    }
  }

  lemma FlatOne(call: Call)
    ensures Flat([call]) == call.batch
  {
    assert [call][..0] == [];
    assert Flat([]) + call.batch == call.batch;
  }

  lemma {:induction false} FlatConcat(a: seq<Call>, b: seq<Call>)
    ensures Flat(a + b) == Flat(a) + Flat(b)
  {
    if b == [] {
      assert a + b == a;
    } else {
      assert (a + b)[..|a + b| - 1] == a + b[..|b| - 1];
      FlatConcat(a, b[..|b| - 1]);
    }
  }

  /** The store holds what these requests and the others' writes have made of the database of the beginning. */
  ghost predicate Reflects(st: Store, db: Db, calls: seq<Call>, net: Network, now: int, others: Others)
    reads st, st.fts
  {
    st.Valid() && st.View() == Passed(db, calls, net, now, others)
  }

  method ScrapeCall(st: Store, call: Call, net: Network, now: int, others: Others, calls: seq<Call>, ghost db: Db) returns (n: nat)
    requires DistinctIds(call.batch) && Reflects(st, db, calls, net, now, others)
    modifies st, st.fts
    ensures Reflects(st, db, calls + [call], net, now, others)
    ensures Updates(db, calls + [call], net, now, others) == Updates(db, calls, net, now, others) + n
  {
    PassedSnoc(db, calls, call, net, now, others);
    n := 0;
    var answer := AnswerTo(net, |calls|, call);
    Meanwhile(st, others(|calls|), now);
    if answer.Some? {
      n := WriteBatch(st, call.batch, answer.value, now);
    }
  }

  /** What happens to the store while the request is under way. */
  method Meanwhile(st: Store, ws: seq<Protocol.Write>, now: int)
    requires st.Valid()
    modifies st, st.fts
    ensures st.Valid() && st.View() == Protocol.ApplyAll(old(st.View()), ws)
  {
    ghost var db := st.View();
    for i := 0 to |ws|
      invariant st.Valid() && st.View() == Protocol.ApplyAll(db, ws[..i])
    {
      assert ws[..i + 1][..i] == ws[..i];
      Perform(st, ws[i], now);
    }
    assert ws[..|ws|] == ws;
  }

  /** One store call. */
  method Perform(st: Store, w: Protocol.Write, now: int)
    requires st.Valid()
    modifies st, st.fts
    ensures st.Valid() && st.View() == Protocol.Apply(old(st.View()), w)
  {
    match w {
      case Nothing =>
      case Put(t) => var ok := st.UpsertTorrent(t, now, None);
      case Raise(author, ts) => st.UpdateLastSynced(author, ts);
      case PutP(p) => st.UpsertProfile(p);
      case Change(id, title, category) => var found := st.UpdateTorrentFields(id, title, category, now);
      case Drop(ids) => DeleteAll(st, ids);
      case Add(author, alias, at) => st.AddFollowed(author, alias, at);
      case Remove(author) => var found := st.RemoveFollowed(author);
      case Count(id, s) => var ok := st.UpsertTorrentStats(id, s.seeders, s.leechers, s.scrapedAt);
    }
  }

  method DeleteAll(st: Store, ids: set<string>)
    requires st.Valid()
    modifies st, st.fts
    ensures st.Valid() && st.View() == DropTorrents(old(st.View()), ids)
  {
    var left := ids;
    ghost var db, done: set<string> := st.View(), {};
    DropNothing(db);
    while left != {}
      invariant done + left == ids
      invariant st.Valid() && st.View() == DropTorrents(db, done)
      decreases left
    {
      var id :| id in left;
      DropTwice(db, done, id);
      var found := st.DeleteTorrent(id);
      left, done := left - {id}, done + {id};
    }
  }

  lemma DropNothing(db: Db)
    ensures DropTorrents(db, {}) == db
  {
    assert db.torrents - {} == db.torrents && db.stats - {} == db.stats;
  }

  /** The whole pass; trackers are visited in any order. */
  method ScrapeOnce(st: Store, olderThan: int, now: int, net: Network, others: Others)
    returns (scraped: nat, ghost targets: seq<Target>, calls: seq<Call>)
    requires st.Valid()
    modifies st, st.fts
    ensures Collected(old(st.View()), targets, olderThan)
    ensures forall id | Due(old(st.View()), id, olderThan) :: Listed(targets, id)
    ensures Reflects(st, old(st.View()), calls, net, now, others) && scraped == Updates(old(st.View()), calls, net, now, others)
    ensures AllProper(calls) && multiset(Flat(calls)) == multiset(targets)
    ensures forall c | c in calls :: 1 <= |c.batch| <= 74 && forall t | t in c.batch :: t.tracker == c.tracker && t.tracker != ""
  {
    var due := st.TorrentsDueForScrape(olderThan);
    targets := due;
    scraped, calls := ScrapeTargets(st, due, net, now, others, st.View());
    EveryoneIsTarget(calls, targets);
  }

  lemma EveryoneIsTarget(calls: seq<Call>, targets: seq<Target>)
    requires multiset(Flat(calls)) == multiset(targets)
    ensures forall c | c in calls :: forall t | t in c.batch :: t in targets
  {
    forall c, t | c in calls && t in c.batch
      ensures t in targets
    {
      var i :| 0 <= i < |calls| && calls[i] == c;
      var k :| 0 <= k < |c.batch| && c.batch[k] == t;
      InFlat(calls, i, k);
      assert t in multiset(targets);
    }
  }

  method ScrapeTargets(st: Store, targets: seq<Target>, net: Network, now: int, others: Others, ghost db: Db)
    returns (scraped: nat, calls: seq<Call>)
    requires st.Valid() && st.View() == db && DistinctIds(targets)
    modifies st, st.fts
    ensures Reflects(st, db, calls, net, now, others) && scraped == Updates(db, calls, net, now, others)
    ensures AllProper(calls) && multiset(Flat(calls)) == multiset(targets)
  {
    var groups := GroupByTracker(targets);
    scraped, calls := 0, [];
    var left := groups.Keys;
    HavingAll(targets, left);
    while left != {}
      invariant left <= groups.Keys
      invariant Reflects(st, db, calls, net, now, others) && scraped == Updates(db, calls, net, now, others)
      invariant Accounted(targets, calls, left)
    {
      var tracker :| tracker in left;
      HavingDistinct(targets, tracker);
      AccountedStep(targets, calls, left, tracker);
      var n;
      calls, n := ScrapeGroup(st, tracker, groups[tracker], net, now, others, calls, db);
      scraped, left := scraped + n, left - {tracker};
    }
    HavingNone(targets);
  }

  /** What has been asked about and what is left make up the targets. */
  ghost predicate Accounted(targets: seq<Target>, calls: seq<Call>, left: set<string>) {
    AllProper(calls) && multiset(Flat(calls)) + multiset(Having(targets, left)) == multiset(targets)
  }

  lemma AccountedStep(targets: seq<Target>, calls: seq<Call>, left: set<string>, tracker: string)
    requires Accounted(targets, calls, left) && tracker in left
    ensures Accounted(targets, calls + Cuts(tracker, Having(targets, {tracker}), 0), left - {tracker})
  {
    HavingMembers(targets, tracker);
    GroupFlat(calls, tracker, Having(targets, {tracker}));
    HavingSplits(targets, left, tracker);
  }

  lemma GroupFlat(before: seq<Call>, tracker: string, group: seq<Target>)
    requires AllProper(before) && forall t | t in group :: t.tracker == tracker
    ensures AllProper(before + Cuts(tracker, group, 0))
    ensures multiset(Flat(before + Cuts(tracker, group, 0))) == multiset(Flat(before)) + multiset(group)
  {
    CutsFlat(tracker, group, 0);
    CutsProper(tracker, group, 0);
    FlatConcat(before, Cuts(tracker, group, 0));
    assert group[0..] == group;
  }

  lemma {:induction false} HavingNone(targets: seq<Target>)
    ensures Having(targets, {}) == []
  {
    if targets != [] {
      HavingNone(targets[..|targets| - 1]);
    }
  }

  // ---------------------------------------------------------------------------------------------
  // What a pass means
  // ---------------------------------------------------------------------------------------------

  /** Truncation never bites: a proper request asks about all its torrents. */
  lemma NothingTruncated(call: Call)
    requires Proper(call)
    ensures Truncated(Hashes(call.batch)) == Hashes(call.batch)
  {
  }

  lemma BagTwice(s: seq<Target>, i: nat, j: nat)
    requires i < j < |s| && s[i] == s[j]
    ensures multiset(s)[s[i]] >= 2
  {
    assert s == s[..j] + [s[j]] + s[j + 1..];
    assert s[i] in s[..j] by { assert s[..j][i] == s[i]; }
  }

  lemma BagOnce(s: seq<Target>, i: nat)
    requires DistinctIds(s) && i < |s|
    ensures multiset(s)[s[i]] == 1
  {
    assert s == s[..i] + [s[i]] + s[i + 1..];
    assert s[i] !in s[..i] && s[i] !in s[i + 1..];
  }

  /** A rearrangement of targets with distinct ids has distinct ids: every due torrent is in exactly one place. */
  lemma StillDistinct(targets: seq<Target>, flat: seq<Target>)
    requires DistinctIds(targets) && multiset(flat) == multiset(targets)
    ensures DistinctIds(flat)
  {
    forall j, k | 0 <= j < k < |flat|
      ensures flat[j].torrentId != flat[k].torrentId
    {
      assert flat[j] in multiset(targets) && flat[k] in multiset(targets);
      var a :| 0 <= a < |targets| && targets[a] == flat[j];
      var b :| 0 <= b < |targets| && targets[b] == flat[k];
      if a == b {
        BagTwice(flat, j, k);
        BagOnce(targets, a);
      }
    }
  }

  predicate Same(a: map<string, Stats>, b: map<string, Stats>, id: string) {
    (id in a <==> id in b) && (id in a ==> a[id] == b[id])
  }

  /** Torrents nobody asked about keep their statistics. */
  lemma {:induction false} OthersUntouched(stats: map<string, Stats>, calls: seq<Call>, net: Network, now: int, id: string)
    requires forall t | t in Flat(calls) :: t.torrentId != id
    ensures Same(Recorded(stats, calls, net, now), stats, id)
  {
    if calls != [] {
      var n := |calls| - 1;
      OthersUntouched(stats, calls[..n], net, now, id);
      var answer := AnswerTo(net, n, calls[n]);
      if answer.Some? {
        WrittenIds(calls[n].batch, answer.value, now);
        forall k | 0 <= k < |calls[n].batch|
          ensures calls[n].batch[k].torrentId != id
        {
          assert calls[n].batch[k] in calls[n].batch;
        }
      }
    }
  }

  /** The counters of the k-th torrent of the c-th request. */
  function Given(calls: seq<Call>, net: Network, now: int, c: nat, k: nat): Option<Stats>
    requires c < |calls| && k < |calls[c].batch|
  {
    var answer := AnswerTo(net, c, calls[c]);
    if answer.Some? && Gets(calls[c].batch, answer.value, k)
    then Some(Counters(answer.value[calls[c].batch[k].infohash], now)) else None
  }

  /**
   Every torrent asked about has exactly the counters its own tracker reported for its own infohash in the one
   request it was part of (the last one of the batch, if several share the infohash); failing that, what it had.
   */
  lemma {:induction false} StatsExactly(stats: map<string, Stats>, calls: seq<Call>, net: Network, now: int, c: nat, k: nat)
    requires DistinctIds(Flat(calls)) && c < |calls| && k < |calls[c].batch|
    ensures var after, id := Recorded(stats, calls, net, now), calls[c].batch[k].torrentId;
            match Given(calls, net, now, c, k)
            case Some(s) => id in after && after[id] == s
            case None => Same(after, stats, id)
  {
    var n := |calls| - 1;
    var init, last := calls[..n], calls[n];
    PartsDistinct(calls);
    if c == n {
      OthersUntouched(stats, init, net, now, last.batch[k].torrentId);
      if AnswerTo(net, n, last).Some? {
        WrittenAt(last.batch, AnswerTo(net, n, last).value, now, k);
      }
    } else {
      StatsExactly(stats, init, net, now, c, k);
      assert init[c] == calls[c];
      InFlat(init, c, k);
      if AnswerTo(net, n, last).Some? {
        WrittenIds(last.batch, AnswerTo(net, n, last).value, now);
      }
    }
  }

  /** The row shows these counters, as of now. */
  predicate RowIs(stats: map<string, Stats>, id: string, seeders: int, leechers: int, now: int) {
    id in stats && stats[id].seeders == seeders && stats[id].leechers == leechers && stats[id].scrapedAt == now
  }

  /** The last torrent of its infohash in the batch, and the tracker's answer names it. */
  predicate Named(batch: seq<Target>, answer: Option<Reply>, k: nat)
    requires k < |batch|
  {
    && answer.Some? && batch[k].infohash in answer.value
    && forall j | k < j < |batch| :: batch[j].infohash != batch[k].infohash
  }

  /** `hashes` is what the tracker is asked: the infohash of every torrent of the batch. */
  predicate AsksFor(hashes: seq<string>, batch: seq<Target>) {
    |hashes| == |batch| <= 74 && forall i | 0 <= i < |batch| :: hashes[i] == batch[i].infohash
  }

  lemma AnsweredWhole(call: Call, hashes: seq<string>, net: Network, n: nat)
    requires AsksFor(hashes, call.batch)
    ensures AnswerTo(net, n, call) == net(n, call.tracker, hashes)
  {
    assert Hashes(call.batch) == hashes;
  }

  /** Seeders are stored as seeders and leechers as leechers, dated now; who is not named keeps what it had. */
  lemma ReplyStored(stats: map<string, Stats>, calls: seq<Call>, net: Network, now: int, c: nat, k: nat, hashes: seq<string>)
    requires DistinctIds(Flat(calls)) && c < |calls| && k < |calls[c].batch| && AsksFor(hashes, calls[c].batch)
    ensures var after, t, answer := Recorded(stats, calls, net, now), calls[c].batch[k], net(c, calls[c].tracker, hashes);
            if Named(calls[c].batch, answer, k)
            then RowIs(after, t.torrentId, answer.value[t.infohash].seeders, answer.value[t.infohash].leechers, now)
            else Same(after, stats, t.torrentId)
  {
    AnsweredWhole(calls[c], hashes, net, c);
    StatsExactly(stats, calls, net, now, c, k);
  }

  /**
   The same of the pass, whatever others wrote meanwhile short of deleting the torrent, storing it anew or
   bringing counters of their own.
   */
  lemma PassStores(db: Db, calls: seq<Call>, net: Network, now: int, others: Others, c: nat, k: nat, hashes: seq<string>)
    requires DistinctIds(Flat(calls)) && c < |calls| && k < |calls[c].batch| && AsksFor(hashes, calls[c].batch)
    requires calls[c].batch[k].torrentId in db.torrents
    requires forall n: nat | n < |calls| :: Leaves(others(n), calls[c].batch[k].torrentId)
    requires forall n: nat | n < |calls| :: forall w | w in others(n) :: w.Drop? ==> calls[c].batch[k].torrentId !in w.ids
    ensures var after, t := Passed(db, calls, net, now, others), calls[c].batch[k];
            var answer := net(c, calls[c].tracker, hashes);
            && t.torrentId in after.torrents
            && if Named(calls[c].batch, answer, k)
               then RowIs(after.stats, t.torrentId, answer.value[t.infohash].seeders, answer.value[t.infohash].leechers, now)
               else Same(after.stats, db.stats, t.torrentId)
  {
    var id := calls[c].batch[k].torrentId;
    GoneExactly(others, |calls|, id);
    PassedExactly(db, calls, net, now, others, id);
    ReplyStored(db.stats, calls, net, now, c, k, hashes);
  }

  /** And what nobody asked about has the statistics it had. */
  lemma PassSpares(db: Db, calls: seq<Call>, net: Network, now: int, others: Others, id: string)
    requires forall c, k | 0 <= c < |calls| && 0 <= k < |calls[c].batch| :: calls[c].batch[k].torrentId != id
    requires forall n: nat | n < |calls| :: Leaves(others(n), id)
    requires forall n: nat | n < |calls| :: forall w | w in others(n) :: w.Drop? ==> id !in w.ids
    ensures Same(Passed(db, calls, net, now, others).stats, db.stats, id)
  {
    forall t | t in Flat(calls)
      ensures t.torrentId != id
    {
      var c, k := Somewhere(calls, t);
    }
    GoneExactly(others, |calls|, id);
    PassedExactly(db, calls, net, now, others, id);
    OthersUntouched(db.stats, calls, net, now, id);
  }

  /** An answer names the torrent. */
  predicate Served(calls: seq<Call>, net: Network, id: string) {
    exists c, k | 0 <= c < |calls| && 0 <= k < |calls[c].batch| ::
      calls[c].batch[k].torrentId == id && Named(calls[c].batch, AnswerTo(net, c, calls[c]), k)
  }

  /** The pass reports the number of catalogued torrents an answer named. */
  lemma PassCounts(db: Db, calls: seq<Call>, net: Network, now: int, others: Others)
    requires DistinctIds(Flat(calls)) && forall n: nat | n < |calls| :: forall w | w in others(n) :: !w.Put? && !w.Drop?
    ensures Updates(db, calls, net, now, others) == |set id | id in db.torrents && Served(calls, net, id)|
  {
    UpdatesCounted(db, calls, net, now, others);
    var rows := Recorded(map[], calls, net, now);
    forall id
      ensures id in rows <==> Served(calls, net, id)
    {
      ServedIsRecorded(calls, net, now, id);
    }
    assert (set id | id in db.torrents && Served(calls, net, id)) == rows.Keys * db.torrents.Keys;
  }

  lemma ServedIsRecorded(calls: seq<Call>, net: Network, now: int, id: string)
    requires DistinctIds(Flat(calls))
    ensures id in Recorded(map[], calls, net, now) <==> Served(calls, net, id)
  {
    forall c, k | 0 <= c < |calls| && 0 <= k < |calls[c].batch| && calls[c].batch[k].torrentId == id
      ensures id in Recorded(map[], calls, net, now) <==> Named(calls[c].batch, AnswerTo(net, c, calls[c]), k)
    {
      StatsExactly(map[], calls, net, now, c, k);
    }
    if id in Recorded(map[], calls, net, now) && forall t | t in Flat(calls) :: t.torrentId != id {
      OthersUntouched(map[], calls, net, now, id);
    } else if t :| t in Flat(calls) && t.torrentId == id {
      var c, k := Somewhere(calls, t);
    }
  }

  lemma {:induction false} UpdatesCounted(db: Db, calls: seq<Call>, net: Network, now: int, others: Others)
    requires DistinctIds(Flat(calls)) && forall n: nat | n < |calls| :: forall w | w in others(n) :: !w.Put? && !w.Drop?
    ensures Passed(db, calls, net, now, others).torrents.Keys == db.torrents.Keys
    ensures Updates(db, calls, net, now, others) == |Recorded(map[], calls, net, now).Keys * db.torrents.Keys|
  {
    if calls != [] {
      var n := |calls| - 1;
      PartsDistinct(calls);
      UpdatesCounted(db, calls[..n], net, now, others);
      RowsStay(Passed(db, calls[..n], net, now, others), others(n));
      NotedApart(calls, net, now, db.torrents.Keys);
    }
  }

  /** The last answer's rows are new ones. */
  lemma NotedApart(calls: seq<Call>, net: Network, now: int, ids: set<string>)
    requires calls != [] && DistinctIds(Flat(calls))
    ensures var n := |calls| - 1;
            var answer := AnswerTo(net, n, calls[n]);
            |Recorded(map[], calls, net, now).Keys * ids|
            == |Recorded(map[], calls[..n], net, now).Keys * ids|
               + if answer.Some? then |Written(calls[n].batch, answer.value, now).Keys * ids| else 0
  {
    var n := |calls| - 1;
    var before, answer := Recorded(map[], calls[..n], net, now), AnswerTo(net, n, calls[n]);
    PartsDistinct(calls);
    if answer.Some? {
      var w := Written(calls[n].batch, answer.value, now);
      WrittenIds(calls[n].batch, answer.value, now);
      forall id | id in w
        ensures id !in before
      {
        OthersUntouched(map[], calls[..n], net, now, id);
      }
      assert (before + w).Keys * ids == before.Keys * ids + w.Keys * ids;
    }
  }

  lemma {:induction false} RowsStay(db: Db, ws: seq<Protocol.Write>)
    requires forall w | w in ws :: !w.Put? && !w.Drop?
    ensures Protocol.ApplyAll(db, ws).torrents.Keys == db.torrents.Keys
  {
    if ws != [] {
      assert forall w | w in ws[..|ws| - 1] :: w in ws;
      RowsStay(db, ws[..|ws| - 1]);
      assert ws[|ws| - 1] in ws;
    }
  }

  lemma {:induction false} DropsExactly(ws: seq<Protocol.Write>, id: string)
    ensures id in Drops(ws) <==> exists w :: w in ws && w.Drop? && id in w.ids
  {
    if ws != [] {
      DropsExactly(ws[..|ws| - 1], id);
      assert ws == ws[..|ws| - 1] + [ws[|ws| - 1]];
    }
  }

  /** Gone is what some write has deleted before the n-th answer. */
  lemma {:induction false} GoneExactly(others: Others, n: nat, id: string)
    ensures id in Gone(others, n) <==> exists m: nat, w :: m < n && w in others(m) && w.Drop? && id in w.ids
  {
    if n > 0 {
      GoneExactly(others, n - 1, id);
      DropsExactly(others(n - 1), id);
    }
  }

  /** The last batch and the earlier ones do not meet. */
  lemma PartsDistinct(calls: seq<Call>)
    requires calls != [] && DistinctIds(Flat(calls))
    ensures var init, last := calls[..|calls| - 1], calls[|calls| - 1];
            && DistinctIds(Flat(init)) && DistinctIds(last.batch)
            && forall t | t in Flat(init) :: forall k | 0 <= k < |last.batch| :: t.torrentId != last.batch[k].torrentId
  {
    var init, last := Flat(calls[..|calls| - 1]), calls[|calls| - 1].batch;
    assert Flat(calls) == init + last;
    forall i, k | 0 <= i < |init| && 0 <= k < |last|
      ensures init[i].torrentId != last[k].torrentId
    {
      assert Flat(calls)[i] == init[i] && Flat(calls)[|init| + k] == last[k];
    }
    TailDistinct(init, last);
  }

  lemma TailDistinct(a: seq<Target>, b: seq<Target>)
    requires DistinctIds(a + b)
    ensures DistinctIds(a) && DistinctIds(b)
  {
    forall j, k | 0 <= j < k < |b|
      ensures b[j].torrentId != b[k].torrentId
    {
      assert (a + b)[|a| + j] == b[j] && (a + b)[|a| + k] == b[k];
    }
    forall j, k | 0 <= j < k < |a|
      ensures a[j].torrentId != a[k].torrentId
    {
      assert (a + b)[j] == a[j] && (a + b)[k] == a[k];
    }
  }

  lemma {:induction false} InFlat(calls: seq<Call>, c: nat, k: nat)
    requires c < |calls| && k < |calls[c].batch|
    ensures calls[c].batch[k] in Flat(calls)
  {
    var init := calls[..|calls| - 1];
    if c < |init| {
      InFlat(init, c, k);
      assert init[c] == calls[c];
    }
  }

  lemma {:induction false} Somewhere(calls: seq<Call>, t: Target) returns (c: nat, k: nat)
    requires t in Flat(calls)
    ensures c < |calls| && k < |calls[c].batch| && calls[c].batch[k] == t
  {
    var n := |calls| - 1;
    if t in Flat(calls[..n]) {
      c, k := Somewhere(calls[..n], t);
    } else {
      c := n;
      k :| 0 <= k < |calls[n].batch| && calls[n].batch[k] == t;
    }
  }

  /** Every tracker answered for every infohash it was asked about. */
  predicate Complete(calls: seq<Call>, net: Network) {
    forall c: nat | c < |calls| ::
      AnswerTo(net, c, calls[c]).Some? && forall t | t in calls[c].batch :: t.infohash in AnswerTo(net, c, calls[c]).value
  }

  predicate DistinctHashes(calls: seq<Call>) {
    forall c: nat | c < |calls| :: ScrapeCodec.Distinct(Hashes(calls[c].batch))
  }

  /** What these writes delete. */
  function Drops(ws: seq<Protocol.Write>): set<string> {
    if ws == [] then {}
    else Drops(ws[..|ws| - 1]) + if ws[|ws| - 1].Drop? then ws[|ws| - 1].ids else {}
  }

  /** What others have deleted by the n-th answer. */
  function Gone(others: Others, n: nat): set<string> {
    if n == 0 then {} else Gone(others, n - 1) + Drops(others(n - 1))
  }

  /** None of these writes stores the torrent anew or brings counters of its own. */
  predicate Leaves(ws: seq<Protocol.Write>, id: string) {
    forall w | w in ws :: !(w.Put? && w.t.id == id) && !(w.Count? && w.id == id)
  }

  lemma AppliedAt(db: Db, w: Protocol.Write, id: string)
    requires Leaves([w], id)
    ensures var after := Protocol.Apply(db, w);
            && (id in after.torrents <==> id in db.torrents && !(w.Drop? && id in w.ids))
            && (id in after.torrents ==> after.torrents[id].tracker == db.torrents[id].tracker)
            && (if w.Drop? && id in w.ids then id !in after.stats else Same(after.stats, db.stats, id))
  {
    assert w in [w];
  }

  lemma {:induction false} AllAppliedAt(db: Db, ws: seq<Protocol.Write>, id: string)
    requires Leaves(ws, id)
    ensures var after := Protocol.ApplyAll(db, ws);
            && (id in after.torrents <==> id in db.torrents && id !in Drops(ws))
            && (id in after.torrents ==> after.torrents[id].tracker == db.torrents[id].tracker)
            && (if id in Drops(ws) then id !in after.stats else Same(after.stats, db.stats, id))
  {
    if ws != [] {
      var init, w := ws[..|ws| - 1], ws[|ws| - 1];
      assert w in ws && forall v | v in init :: v in ws;
      AllAppliedAt(db, init, id);
      AppliedAt(Protocol.ApplyAll(db, init), w, id);
    }
  }

  /**
   Whatever others write during the pass, short of storing the torrent anew or bringing counters of their own:
   a deletion takes a torrent and its statistics away for good, an answer that comes in later being refused; a
   torrent that stays gets what the answers bring.
   */
  lemma {:induction false} PassedExactly(db: Db, calls: seq<Call>, net: Network, now: int, others: Others, id: string)
    requires forall n: nat | n < |calls| :: Leaves(others(n), id)
    ensures var after, gone := Passed(db, calls, net, now, others), Gone(others, |calls|);
            && (id in after.torrents <==> id in db.torrents && id !in gone)
            && (id in after.torrents ==> after.torrents[id].tracker == db.torrents[id].tracker)
            && (if id in gone then id !in after.stats
                else Same(after.stats, if id in db.torrents then Recorded(db.stats, calls, net, now) else db.stats, id))
  {
    if calls != [] {
      var n := |calls| - 1;
      var before := Passed(db, calls[..n], net, now, others);
      PassedExactly(db, calls[..n], net, now, others, id);
      AllAppliedAt(before, others(n), id);
      AnsweredAt(Protocol.ApplyAll(before, others(n)), calls[n].batch, AnswerTo(net, n, calls[n]), now, id);
    }
  }

  lemma AnsweredAt(db: Db, batch: seq<Target>, answer: Option<Reply>, now: int, id: string)
    ensures var after := Answered(db, batch, answer, now);
            && after.torrents == db.torrents
            && Same(after.stats, if id in db.torrents then Noted(db.stats, batch, answer, now) else db.stats, id)
  {
  }

  /** The answers bring the k-th torrent of the c-th request nothing. */
  predicate Unserved(calls: seq<Call>, net: Network, now: int, c: int, k: int, id: string) {
    0 <= c < |calls| && 0 <= k < |calls[c].batch| && calls[c].batch[k].torrentId == id && Given(calls, net, now, c, k).None?
  }

  /**
   After the pass a torrent others have left alone is due exactly if it was a target, has not been deleted, and
   the answers brought it nothing.
   */
  lemma DueExactly(db: Db, targets: seq<Target>, calls: seq<Call>, net: Network, olderThan: int, now: int, others: Others, id: string)
    requires Collected(db, targets, olderThan) && (Due(db, id, olderThan) ==> Listed(targets, id))
    requires multiset(Flat(calls)) == multiset(targets) && olderThan <= now
    requires forall n: nat | n < |calls| :: Leaves(others(n), id)
    ensures Due(Passed(db, calls, net, now, others), id, olderThan)
            <==> id !in Gone(others, |calls|) && exists c, k :: Unserved(calls, net, now, c, k, id)
  {
    StillDistinct(targets, Flat(calls));
    PassedExactly(db, calls, net, now, others, id);
    if Listed(targets, id) {
      var i, c, k := PlaceOf(targets, calls, id);
      StatsExactly(db.stats, calls, net, now, c, k);
      assert IsTarget(db, targets[i], olderThan);
      OnlyPlace(calls, net, now, c, k, id);
    } else {
      NotAsked(targets, calls, id);
      OthersUntouched(db.stats, calls, net, now, id);
      NoPlace(calls, net, now, id);
    }
  }

  /** Where a target is asked about. */
  lemma PlaceOf(targets: seq<Target>, calls: seq<Call>, id: string) returns (i: nat, c: nat, k: nat)
    requires Listed(targets, id) && multiset(Flat(calls)) == multiset(targets)
    ensures i < |targets| && c < |calls| && k < |calls[c].batch|
    ensures targets[i].torrentId == id && calls[c].batch[k] == targets[i]
  {
    i :| 0 <= i < |targets| && targets[i].torrentId == id;
    assert targets[i] in multiset(Flat(calls));
    c, k := Somewhere(calls, targets[i]);
  }

  /** With distinct ids the answers serve a torrent in one place only. */
  lemma OnlyPlace(calls: seq<Call>, net: Network, now: int, c: nat, k: nat, id: string)
    requires DistinctIds(Flat(calls)) && c < |calls| && k < |calls[c].batch| && calls[c].batch[k].torrentId == id
    ensures (exists c', k' :: Unserved(calls, net, now, c', k', id)) <==> Given(calls, net, now, c, k).None?
  {
    var served := Recorded(map[], calls, net, now);
    StatsExactly(map[], calls, net, now, c, k);
    if c', k' :| Unserved(calls, net, now, c', k', id) {
      StatsExactly(map[], calls, net, now, c', k');
      assert id !in served;
    }
    if Given(calls, net, now, c, k).None? {
      assert Unserved(calls, net, now, c, k, id);
    }
  }

  lemma NotAsked(targets: seq<Target>, calls: seq<Call>, id: string)
    requires !Listed(targets, id) && multiset(Flat(calls)) == multiset(targets)
    ensures forall t | t in Flat(calls) :: t.torrentId != id
  {
    forall t | t in Flat(calls)
      ensures t.torrentId != id
    {
      assert t in multiset(targets);
    }
  }

  lemma NoPlace(calls: seq<Call>, net: Network, now: int, id: string)
    requires forall t | t in Flat(calls) :: t.torrentId != id
    ensures forall c, k :: !Unserved(calls, net, now, c, k, id)
  {
    forall c, k | 0 <= c < |calls| && 0 <= k < |calls[c].batch|
      ensures calls[c].batch[k].torrentId != id
    {
      InFlat(calls, c, k);
    }
  }

  /** With complete answers and no infohash twice in a batch, nothing that was due is due any more. */
  lemma NothingLeftDue(db: Db, targets: seq<Target>, calls: seq<Call>, net: Network, olderThan: int, now: int, others: Others, id: string)
    requires Collected(db, targets, olderThan) && (Due(db, id, olderThan) ==> Listed(targets, id))
    requires multiset(Flat(calls)) == multiset(targets) && olderThan <= now
    requires forall n: nat | n < |calls| :: Leaves(others(n), id)
    requires Complete(calls, net) && DistinctHashes(calls)
    ensures !Due(Passed(db, calls, net, now, others), id, olderThan)
  {
    DueExactly(db, targets, calls, net, olderThan, now, others, id);
    forall c, k | Unserved(calls, net, now, c, k, id)
      ensures false
    {
      ServedAt(calls, net, now, c, k);
    }
  }

  lemma ServedAt(calls: seq<Call>, net: Network, now: int, c: nat, k: nat)
    requires Complete(calls, net) && DistinctHashes(calls) && c < |calls| && k < |calls[c].batch|
    ensures Given(calls, net, now, c, k).Some?
  {
    var batch := calls[c].batch;
    assert batch[k] in batch;
    forall j | k < j < |batch|
      ensures batch[j].infohash != batch[k].infohash
    {
      assert Hashes(batch)[j] == batch[j].infohash && Hashes(batch)[k] == batch[k].infohash;
    }
  }
}
