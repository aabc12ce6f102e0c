/**
 The ingestion protocol as a state machine. Batch synchronisers (internal/ingest/ingest.go), live
 consumers (internal/ingest/live.go), the moderator's commands and the scraper share one database and are
 interleaved at the granularity of one store call. Relays are any source of published events that match
 the filter they are given; the clock does not go back; every write may fail.
 */
module Protocol {
  import opened Catalog

  /** How far a new live subscription reaches back, in seconds. */
  const OVERLAP := 120

  datatype Pid = Pid(n: nat)

  /** One SyncUser call in flight. `known` records what the author had published when the relays answered. */
  datatype Batch =
    | Snapshot(author: string, since: int)
    | Writing(author: string, since: int, maxTs: int, todo: seq<Torrent>, known: set<Torrent>)
    | Advanced(author: string)
    | Profiling(author: string, profiles: seq<Profile>)

  /** What a live consumer has taken from its channel and not finished writing. */
  datatype Held = Idle | GotTorrent(t: Torrent) | Upserted(t: Torrent) | GotProfile(p: Profile)

  /** A live subscription. `taken` records every event its consumer has taken from the channel. */
  datatype Sub =
    | Opening(authors: set<string>)
    | Open(authors: set<string>, since: int, held: Held, taken: set<Torrent>)

  /** The last four fields are history: what was published, written, and received so far. */
  datatype State = State(
    db: Db, batches: map<Pid, Batch>, subs: map<Pid, Sub>, now: int,
    published: set<Torrent>, written: set<Torrent>, heard: set<Torrent>, heardProfiles: set<Profile>)

  datatype Step =
    | Publish(t: Torrent)
    | Tick(now: int)
    | Ask(b: Pid, author: string)
    | Answer(b: Pid, events: seq<Torrent>)
    | BatchUpsert(b: Pid, ok: bool)
    | Advance(b: Pid, ok: bool)
    | AskProfiles(b: Pid, answer: seq<Profile>)
    | BatchProfile(b: Pid, ok: bool)
    | EndBatch(b: Pid)
    | Reload(l: Pid)
    | Connect(l: Pid)
    | Arrive(l: Pid, t: Torrent)
    | ArriveProfile(l: Pid, p: Profile)
    | LiveUpsert(l: Pid, ok: bool)
    | LiveAdvance(l: Pid, ok: bool)
    | LiveProfile(l: Pid, ok: bool)
    | Close(l: Pid)
    | EditCmd(id: string, title: string, category: string)
    | RemoveCmd(id: string)
    | PurgeCmd(author: string)
    | FollowCmd(author: string, alias: string)
    | UnfollowCmd(author: string)
    | Scrape(id: string, stats: Stats)

  /** One store call. */
  datatype Write =
    | Nothing
    | Put(t: Torrent)
    | Raise(author: string, ts: int)
    | PutP(p: Profile)
    | Change(id: string, title: string, category: string)
    | Drop(ids: set<string>)
    | Add(author: string, alias: string, at: int)
    | Remove(author: string)
    | Count(id: string, stats: Stats)

  function Apply(db: Db, w: Write): Db {
    match w
    case Nothing => db
    case Put(t) => PutTorrent(db, t)
    case Raise(author, ts) => RaiseCursor(db, author, ts)
    case PutP(p) => PutProfile(db, p)
    case Change(id, title, category) => EditTorrent(db, id, title, category)
    case Drop(ids) => DropTorrents(db, ids)
    case Add(author, alias, at) => Follow(db, author, alias, at)
    case Remove(author) => Unfollow(db, author)
    case Count(id, stats) => PutStats(db, id, stats)
  }

  function ApplyAll(db: Db, ws: seq<Write>): Db {
    if ws == [] then db else Apply(ApplyAll(db, ws[..|ws| - 1]), ws[|ws| - 1])
  }

  predicate WellSized(t: Torrent) {
    t.size == Wrap64(TotalSize(t.files))
  }

  /** The profile FetchProfiles keeps of one author's answer: the newest, the first of equals. */
  function Newest(ps: seq<Profile>): seq<Profile> {
    if ps == [] then []
    else
      var cur, last := Newest(ps[..|ps| - 1]), ps[|ps| - 1];
      if cur == [] || last.updatedAt > cur[0].updatedAt then [last] else cur
  }

  /** FetchProfiles keeps one profile, and none received is newer. */
  lemma {:induction false} NewestIsNewest(ps: seq<Profile>)
    ensures |Newest(ps)| <= 1 && (Newest(ps) == [] <==> ps == [])
    ensures forall r | r in Newest(ps) :: r in ps && forall q | q in ps :: q.updatedAt <= r.updatedAt
  {
    if ps != [] {
      NewestIsNewest(ps[..|ps| - 1]);
      assert ps == ps[..|ps| - 1] + [ps[|ps| - 1]];
    }
  }

  function EnabledAuthors(db: Db): set<string> {
    set p | p in db.followed && db.followed[p].enabled
  }

  predicate Enabled(s: State, step: Step) {
    match step
    case Publish(t) => WellSized(t) && forall e | e in s.published :: e.id != t.id
    case Tick(n) => s.now <= n
    case Ask(b, author) => b !in s.batches && author in s.db.followed
    case Answer(b, events) =>
      b in s.batches && s.batches[b].Snapshot? &&
      forall t | t in events ::
        t in s.published && t.pubkey == s.batches[b].author && (s.batches[b].since > 0 ==> t.publishedAt >= s.batches[b].since)
    case BatchUpsert(b, _) => b in s.batches && s.batches[b].Writing? && s.batches[b].todo != []
    case Advance(b, _) => b in s.batches && s.batches[b].Writing? && s.batches[b].todo == []
    case AskProfiles(b, answer) =>
      b in s.batches && s.batches[b].Advanced? && forall p | p in answer :: p.pubkey == s.batches[b].author
    case BatchProfile(b, _) => b in s.batches && s.batches[b].Profiling? && s.batches[b].profiles != []
    case EndBatch(b) => b in s.batches && s.batches[b].Profiling? && s.batches[b].profiles == []
    case Reload(l) => l !in s.subs
    case Connect(l) => l in s.subs && s.subs[l].Opening?
    case Arrive(l, t) =>
      l in s.subs && s.subs[l].Open? && s.subs[l].held.Idle? &&
      t in s.published && t.pubkey in s.subs[l].authors && t.publishedAt >= s.subs[l].since
    case ArriveProfile(l, p) =>
      l in s.subs && s.subs[l].Open? && s.subs[l].held.Idle? && p.pubkey in s.subs[l].authors && p.updatedAt >= s.subs[l].since
    case LiveUpsert(l, _) => l in s.subs && s.subs[l].Open? && s.subs[l].held.GotTorrent?
    case LiveAdvance(l, _) => l in s.subs && s.subs[l].Open? && s.subs[l].held.Upserted?
    case LiveProfile(l, _) => l in s.subs && s.subs[l].Open? && s.subs[l].held.GotProfile?
    case Close(l) => l in s.subs && (s.subs[l].Opening? || s.subs[l].held.Idle?)
    case _ => true
  }

  /** The store call a step makes. */
  function WriteOf(s: State, step: Step): Write
    requires Enabled(s, step)
  {
    match step
    case BatchUpsert(b, ok) => if ok then Put(s.batches[b].todo[0]) else Nothing
    case Advance(b, ok) =>
      var x := s.batches[b];
      if ok && x.maxTs > x.since then Raise(x.author, x.maxTs) else Nothing
    case BatchProfile(b, ok) => if ok then PutP(s.batches[b].profiles[0]) else Nothing
    case LiveUpsert(l, ok) => if ok then Put(s.subs[l].held.t) else Nothing
    case LiveAdvance(l, ok) => if ok then Raise(s.subs[l].held.t.pubkey, s.subs[l].held.t.publishedAt) else Nothing
    case LiveProfile(l, ok) => if ok then PutP(s.subs[l].held.p) else Nothing
    case EditCmd(id, title, category) => Change(id, title, category)
    case RemoveCmd(id) => Drop({id})
    case PurgeCmd(author) => Drop(IdsBy(s.db, author))
    case FollowCmd(author, alias) => Add(author, alias, s.now)
    case UnfollowCmd(author) => Remove(author)
    case Scrape(id, stats) => Count(id, stats)
    case _ => Nothing
  }

  /** What SyncUser does next; a failed upsert or cursor update ends it. */
  function BatchesAfter(s: State, step: Step): map<Pid, Batch>
    requires Enabled(s, step)
  {
    match step
    case Ask(b, author) => s.batches[b := Snapshot(author, s.db.followed[author].cursor)]
    case Answer(b, events) =>
      var x := s.batches[b];
      s.batches[b := Writing(x.author, x.since, x.since, events, PublishedBy(s, x.author))]
    case BatchUpsert(b, ok) =>
      var x := s.batches[b];
      if ok then s.batches[b := x.(todo := x.todo[1..], maxTs := Max(x.maxTs, x.todo[0].publishedAt))] else s.batches - {b}
    case Advance(b, ok) =>
      var x := s.batches[b];
      if ok || x.maxTs <= x.since then s.batches[b := Advanced(x.author)] else s.batches - {b}
    case AskProfiles(b, answer) => s.batches[b := Profiling(s.batches[b].author, Newest(answer))]
    case BatchProfile(b, _) => s.batches[b := s.batches[b].(profiles := s.batches[b].profiles[1..])]
    case EndBatch(b) => s.batches - {b}
    case _ => s.batches
  }

  function PublishedBy(s: State, author: string): set<Torrent> {
    set t | t in s.published && t.pubkey == author
  }

  /** What a live consumer does next; after a failed upsert the cursor is not touched. */
  function SubsAfter(s: State, step: Step): map<Pid, Sub>
    requires Enabled(s, step)
  {
    match step
    case Reload(l) => s.subs[l := Opening(EnabledAuthors(s.db))]
    case Connect(l) => s.subs[l := Open(s.subs[l].authors, s.now - OVERLAP, Idle, {})]
    case Arrive(l, t) => s.subs[l := s.subs[l].(held := GotTorrent(t), taken := s.subs[l].taken + {t})]
    case ArriveProfile(l, p) => s.subs[l := s.subs[l].(held := GotProfile(p))]
    case LiveUpsert(l, ok) => s.subs[l := s.subs[l].(held := if ok then Upserted(s.subs[l].held.t) else Idle)]
    case LiveAdvance(l, _) => s.subs[l := s.subs[l].(held := Idle)]
    case LiveProfile(l, _) => s.subs[l := s.subs[l].(held := Idle)]
    case Close(l) => s.subs - {l}
    case _ => s.subs
  }

  function Next(s: State, step: Step): State
    requires Enabled(s, step)
  {
    var w := WriteOf(s, step);
    State(
      Apply(s.db, w), BatchesAfter(s, step), SubsAfter(s, step),
      if step.Tick? then step.now else s.now,
      if step.Publish? then s.published + {step.t} else s.published,
      if w.Put? then s.written + {w.t} else s.written,
      match step { case Answer(_, events) => s.heard + (set t | t in events) case Arrive(_, t) => s.heard + {t} case _ => s.heard },
      match step
      case AskProfiles(_, answer) => s.heardProfiles + (set p | p in answer)
      case ArriveProfile(_, p) => s.heardProfiles + {p}
      case _ => s.heardProfiles)
  }

  /** An empty database before anything happened. */
  function Start(now: int): State {
    State(EMPTY, map[], map[], now, {}, {}, {}, {})
  }

  ghost predicate Legal(s: State, steps: seq<Step>)
    decreases |steps|
  {
    steps == [] || (Enabled(s, steps[0]) && Legal(Next(s, steps[0]), steps[1..]))
  }

  ghost function Run(s: State, steps: seq<Step>): State
    requires Legal(s, steps)
    decreases |steps|
  {
    if steps == [] then s else Run(Next(s, steps[0]), steps[1..])
  }

  /** A run continued from where it ends. */
  lemma {:induction false} Concat(s: State, first: seq<Step>, second: seq<Step>)
    requires Legal(s, first) && Legal(Run(s, first), second)
    ensures Legal(s, first + second) && Run(s, first + second) == Run(Run(s, first), second)
    decreases |first|
  {
    if first == [] {
      assert first + second == second;
    } else {
      Concat(Next(s, first[0]), first[1..], second);
      assert (first + second)[1..] == first[1..] + second;
    }
  }
}
