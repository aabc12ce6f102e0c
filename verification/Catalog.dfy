/**
 The catalogue as a value: what the database means, without rowids, index or local timestamps.
 The store (Database.dfy) is proved to implement these operations; the ingestion protocol
 (Protocol.dfy) is built from them.
 */
module Catalog {

  datatype File = File(path: string, size: int)

  /** A torrent as parsed from a kind 2003 event, with its file list. */
  datatype Torrent = Torrent(
    id: string, pubkey: string, title: string, description: string, infohash: string, magnet: string,
    tracker: string, image: string, category: string, refs: seq<string>, size: int, files: seq<File>,
    publishedAt: int)

  datatype Stats = Stats(seeders: int, leechers: int, scrapedAt: int)

  datatype Account = Account(alias: string, enabled: bool, cursor: int, createdAt: int)

  datatype Profile = Profile(pubkey: string, name: string, displayName: string, picture: string, nip05: string, updatedAt: int)

  datatype Db = Db(
    torrents: map<string, Torrent>, stats: map<string, Stats>,
    followed: map<string, Account>, profiles: map<string, Profile>)

  const EMPTY := Db(map[], map[], map[], map[])

  function Max(a: int, b: int): int {
    if a < b then b else a
  }

  /** What an upsert of `t` leaves under its id: a row that is already there keeps its author. */
  function Stored(db: Db, t: Torrent): Torrent {
    if t.id in db.torrents then t.(pubkey := db.torrents[t.id].pubkey) else t
  }

  function PutTorrent(db: Db, t: Torrent): Db {
    db.(torrents := db.torrents[t.id := Stored(db, t)])
  }

  function DropTorrents(db: Db, ids: set<string>): Db {
    db.(torrents := db.torrents - ids, stats := db.stats - ids)
  }

  function IdsBy(db: Db, pubkey: string): set<string> {
    set id | id in db.torrents && db.torrents[id].pubkey == pubkey
  }

  function EditTorrent(db: Db, id: string, title: string, category: string): Db {
    if id !in db.torrents then db
    else db.(torrents := db.torrents[id := db.torrents[id].(title := title, category := category)])
  }

  /** Statistics of a torrent that is no longer catalogued break the foreign key and are refused. */
  function PutStats(db: Db, id: string, s: Stats): Db {
    if id !in db.torrents then db else db.(stats := db.stats[id := s])
  }

  function Follow(db: Db, pubkey: string, alias: string, now: int): Db {
    db.(followed := db.followed[pubkey :=
          if pubkey in db.followed then db.followed[pubkey].(alias := alias, enabled := true)
          else Account(alias, true, 0, now)])
  }

  function Unfollow(db: Db, pubkey: string): Db {
    db.(followed := db.followed - {pubkey})
  }

  function RaiseCursor(db: Db, pubkey: string, ts: int): Db {
    if pubkey !in db.followed then db
    else
      var a := db.followed[pubkey];
      db.(followed := db.followed[pubkey := a.(cursor := Max(a.cursor, ts))])
  }

  function PutProfile(db: Db, p: Profile): Db {
    if p.pubkey in db.profiles && p.updatedAt < db.profiles[p.pubkey].updatedAt then db
    else db.(profiles := db.profiles[p.pubkey := p])
  }

  /** Candidate for a tracker scrape. */
  predicate Due(db: Db, id: string, olderThan: int) {
    && id in db.torrents
    && db.torrents[id].tracker != ""
    && (id !in db.stats || db.stats[id].scrapedAt < olderThan)
  }

  const MAX_INT64 := 0x7fff_ffff_ffff_ffff

  /** Two's complement wrap-around of a 64-bit integer. */
  function Wrap64(n: int): int {
    (n + MAX_INT64 + 1) % 0x1_0000_0000_0000_0000 - MAX_INT64 - 1
  }

  function TotalSize(files: seq<File>): int {
    if files == [] then 0 else TotalSize(files[..|files| - 1]) + files[|files| - 1].size
  }

  // ---------------------------------------------------------------------------------------------
  // What each operation means, field by field
  // ---------------------------------------------------------------------------------------------

  /** The entry is the given one, files and all; only its author stays if the id was there. */
  lemma PutExactly(db: Db, t: Torrent)
    ensures var after := PutTorrent(db, t);
            && after.torrents.Keys == db.torrents.Keys + {t.id}
            && after.torrents[t.id] == t.(pubkey := after.torrents[t.id].pubkey)
            && after.torrents[t.id].pubkey == (if t.id in db.torrents then db.torrents[t.id].pubkey else t.pubkey)
            && (forall id | id in db.torrents && id != t.id :: after.torrents[id] == db.torrents[id])
            && after.stats == db.stats && after.followed == db.followed && after.profiles == db.profiles
  {
  }

  lemma DropExactly(db: Db, ids: set<string>)
    ensures var after := DropTorrents(db, ids);
            && (forall id :: id in after.torrents <==> id in db.torrents && id !in ids)
            && (forall id :: id in after.stats <==> id in db.stats && id !in ids)
            && (forall id | id in after.torrents :: after.torrents[id] == db.torrents[id])
            && (forall id | id in after.stats :: after.stats[id] == db.stats[id])
            && after.followed == db.followed && after.profiles == db.profiles
  {
  }

  /** Title and category change; everything else, the magnet link included, stays. */
  lemma EditExactly(db: Db, id: string, title: string, category: string)
    ensures var after := EditTorrent(db, id, title, category);
            && after.torrents.Keys == db.torrents.Keys
            && (id in db.torrents ==>
                  && after.torrents[id].title == title && after.torrents[id].category == category
                  && after.torrents[id].(title := db.torrents[id].title, category := db.torrents[id].category) == db.torrents[id])
            && (forall other | other in db.torrents && other != id :: after.torrents[other] == db.torrents[other])
            && after.stats == db.stats && after.followed == db.followed && after.profiles == db.profiles
  {
  }

  lemma StatsStored(db: Db, id: string, s: Stats)
    ensures var after := PutStats(db, id, s);
            && (id in db.torrents ==> after.stats.Keys == db.stats.Keys + {id} && after.stats[id] == s)
            && (id !in db.torrents ==> after.stats == db.stats)
            && (forall other | other in db.stats && other != id :: after.stats[other] == db.stats[other])
            && after.torrents == db.torrents && after.followed == db.followed && after.profiles == db.profiles
  {
  }

  /** A new account starts enabled and unsynchronised; a known one is renamed and enabled again, and keeps its place. */
  lemma FollowExactly(db: Db, pubkey: string, alias: string, now: int)
    ensures var after := Follow(db, pubkey, alias, now);
            && after.followed.Keys == db.followed.Keys + {pubkey}
            && after.followed[pubkey].alias == alias && after.followed[pubkey].enabled
            && after.followed[pubkey].cursor == (if pubkey in db.followed then db.followed[pubkey].cursor else 0)
            && after.followed[pubkey].createdAt == (if pubkey in db.followed then db.followed[pubkey].createdAt else now)
            && (forall other | other in db.followed && other != pubkey :: after.followed[other] == db.followed[other])
            && after.torrents == db.torrents && after.stats == db.stats && after.profiles == db.profiles
  {
  }

  lemma UnfollowExactly(db: Db, pubkey: string)
    ensures var after := Unfollow(db, pubkey);
            && (forall p :: p in after.followed <==> p in db.followed && p != pubkey)
            && (forall p | p in after.followed :: after.followed[p] == db.followed[p])
            && after.torrents == db.torrents && after.stats == db.stats && after.profiles == db.profiles
  {
  }

  /** The larger of the two dates; an unknown account is not created. */
  lemma RaiseExactly(db: Db, pubkey: string, ts: int)
    ensures var after := RaiseCursor(db, pubkey, ts);
            && after.followed.Keys == db.followed.Keys
            && (pubkey in db.followed ==>
                  && after.followed[pubkey] == db.followed[pubkey].(cursor := after.followed[pubkey].cursor)
                  && (if db.followed[pubkey].cursor < ts then after.followed[pubkey].cursor == ts
                      else after.followed[pubkey].cursor == db.followed[pubkey].cursor))
            && (forall other | other in db.followed && other != pubkey :: after.followed[other] == db.followed[other])
            && after.torrents == db.torrents && after.stats == db.stats && after.profiles == db.profiles
  {
  }

  /** A profile replaces one that is not strictly newer. */
  lemma ProfileExactly(db: Db, p: Profile)
    ensures var after := PutProfile(db, p);
            && after.profiles.Keys == db.profiles.Keys + {p.pubkey}
            && after.profiles[p.pubkey]
               == (if p.pubkey in db.profiles && db.profiles[p.pubkey].updatedAt > p.updatedAt then db.profiles[p.pubkey] else p)
            && (forall other | other in db.profiles && other != p.pubkey :: after.profiles[other] == db.profiles[other])
            && after.torrents == db.torrents && after.stats == db.stats && after.followed == db.followed
  {
  }

  lemma IdsByExactly(db: Db, pubkey: string)
    ensures forall id :: id in IdsBy(db, pubkey) <==> id in db.torrents && db.torrents[id].pubkey == pubkey
  {
  }

  /** The 64-bit integer that differs by a multiple of 2 to the 64th. */
  lemma WrapExactly(n: int)
    ensures -0x8000_0000_0000_0000 <= Wrap64(n) <= 0x7fff_ffff_ffff_ffff
    ensures (n - Wrap64(n)) % 0x1_0000_0000_0000_0000 == 0
  {
  }

  /** The sizes added up, whichever way. */
  lemma {:induction false} TotalConcat(a: seq<File>, b: seq<File>)
    ensures TotalSize(a + b) == TotalSize(a) + TotalSize(b)
  {
    if b == [] {
      assert a + b == a;
    } else {
      TotalConcat(a, b[..|b| - 1]);
      assert (a + b)[..|a + b| - 1] == a + b[..|b| - 1];
    }
  }

  lemma TotalOne(f: File)
    ensures TotalSize([]) == 0 && TotalSize([f]) == f.size
  {
    assert [f][..0] == [];
  }
}
