/**
 The SQLite store (internal/store): tables, unique index, cascades, triggers and full-text index as
 mutable state. `View` reads the tables as a catalogue value; every method is proved to implement the
 corresponding operation of Catalog on that view, and to keep the index in agreement with the table.
 */
module Database {
  import opened Wrappers
  import opened Catalog
  import opened Fts
  import FtsQuery

  /** A row of `torrents`. */
  datatype Row = Row(
    id: string, pubkey: string, title: string, description: string, infohash: string, magnet: string,
    tracker: string, image: string, category: string, refs: seq<string>, size: int, publishedAt: int,
    createdAt: int, updatedAt: int)

  /** A row of `torrent_files`. */
  datatype FileRow = FileRow(torrentId: string, path: string, size: int)

  datatype Summary = Summary(
    id: string, title: string, category: string, size: int, publishedAt: int, pubkey: string,
    publisherName: string, hasStats: bool, seeders: int, leechers: int)

  datatype Target = Target(torrentId: string, infohash: string, tracker: string)

  datatype Relay = Relay(enabled: bool, createdAt: int)

  function DocOf(row: Row): Doc {
    Doc(row.title, row.description, row.category)
  }

  function Docs(rows: map<Rowid, Row>): map<Rowid, Doc> {
    map r | r in rows :: DocOf(rows[r])
  }

  /** SELECT path, size_bytes FROM torrent_files WHERE torrent_id = id. */
  function FilesOf(files: seq<FileRow>, id: string): seq<File> {
    FilesUpTo(files, |files|, id)
  }

  function FilesUpTo(files: seq<FileRow>, n: nat, id: string): seq<File>
    requires n <= |files|
  {
    if n == 0 then []
    else if files[n - 1].torrentId == id then FilesUpTo(files, n - 1, id) + [File(files[n - 1].path, files[n - 1].size)]
    else FilesUpTo(files, n - 1, id)
  }

  /** DELETE FROM torrent_files WHERE torrent_id = id. */
  function Without(files: seq<FileRow>, id: string): seq<FileRow> {
    if files == [] then []
    else
      var init := Without(files[..|files| - 1], id);
      if files[|files| - 1].torrentId == id then init else init + [files[|files| - 1]]
  }

  lemma {:induction false} WithoutFiles(files: seq<FileRow>, id: string, other: string)
    ensures FilesOf(Without(files, id), other) == if other == id then [] else FilesOf(files, other)
  {
    if files != [] {
      var init, last := files[..|files| - 1], files[|files| - 1];
      WithoutFiles(init, id, other);
      assert files == init + [last];
      FilesOfSnoc(init, last, other);
      FilesOfSnoc(Without(init, id), last, other);
    }
  }

  lemma {:induction false} WithoutRows(files: seq<FileRow>, id: string, k: nat)
    requires k < |Without(files, id)|
    ensures Without(files, id)[k] in files && Without(files, id)[k].torrentId != id
  {
    var init := files[..|files| - 1];
    if k < |Without(init, id)| {
      WithoutRows(init, id, k);
      assert forall f | f in init :: f in files;
    }
  }

  lemma FilesOfSnoc(files: seq<FileRow>, f: FileRow, id: string)
    ensures FilesOf(files + [f], id) == if f.torrentId == id then FilesOf(files, id) + [File(f.path, f.size)] else FilesOf(files, id)
  {
    FilesUpToPrefix(files, f, |files|, id);
  }

  lemma {:induction false} FilesUpToPrefix(files: seq<FileRow>, f: FileRow, n: nat, id: string)
    requires n <= |files|
    ensures FilesUpTo(files + [f], n, id) == FilesUpTo(files, n, id)
  {
    if n > 0 {
      FilesUpToPrefix(files, f, n - 1, id);
    }
  }

  function Assemble(row: Row, files: seq<File>): Torrent {
    Torrent(row.id, row.pubkey, row.title, row.description, row.infohash, row.magnet, row.tracker, row.image,
            row.category, row.refs, row.size, files, row.publishedAt)
  }

  function NewRow(t: Torrent, now: int): Row {
    Row(t.id, t.pubkey, t.title, t.description, t.infohash, t.magnet, t.tracker, t.image, t.category, t.refs,
        t.size, t.publishedAt, now, now)
  }

  /** ON CONFLICT(id) DO UPDATE SET ...: id, author and creation date stay. */
  function Overwrite(row: Row, t: Torrent, now: int): Row {
    row.(title := t.title, description := t.description, infohash := t.infohash, magnet := t.magnet,
         tracker := t.tracker, image := t.image, category := t.category, refs := t.refs, size := t.size,
         publishedAt := t.publishedAt, updatedAt := now)
  }

  /** Local dates after a write of row `r`: created once, updated now; every other row is as it was. */
  ghost predicate Stamped(before: map<Rowid, Row>, after: map<Rowid, Row>, r: Rowid, now: int) {
    && r in after && after == before[r := after[r]]
    && (after[r].createdAt, after[r].updatedAt) == (if r in before then before[r].createdAt else now, now)
  }

  /** The unique index and the table describe each other. */
  ghost predicate Keyed(rows: map<Rowid, Row>, byId: map<string, Rowid>) {
    && (forall id | id in byId :: byId[id] in rows && rows[byId[id]].id == id)
    && (forall r | r in rows :: rows[r].id in byId && byId[rows[r].id] == r)
  }

  /** Every file row has its torrent. */
  ghost predicate Parented(files: seq<FileRow>, byId: map<string, Rowid>) {
    forall k | 0 <= k < |files| :: files[k].torrentId in byId
  }

  /** The other torrents keep their file lists. */
  ghost predicate SameElsewhere(files': seq<FileRow>, files: seq<FileRow>, id: string) {
    forall other | other != id :: FilesOf(files', other) == FilesOf(files, other)
  }

  lemma WithoutAll(files: seq<FileRow>, id: string, byId: map<string, Rowid>)
    requires Parented(files, byId)
    ensures Parented(Without(files, id), byId)
    ensures FilesOf(Without(files, id), id) == [] && SameElsewhere(Without(files, id), files, id)
  {
    forall k | 0 <= k < |Without(files, id)|
      ensures Without(files, id)[k].torrentId in byId
    {
      WithoutRows(files, id, k);
    }
    forall other
      ensures FilesOf(Without(files, id), other) == if other == id then [] else FilesOf(files, other)
    {
      WithoutFiles(files, id, other);
    }
  }

  lemma AppendFile(files: seq<FileRow>, f: FileRow, files0: seq<FileRow>)
    requires SameElsewhere(files, files0, f.torrentId)
    ensures FilesOf(files + [f], f.torrentId) == FilesOf(files, f.torrentId) + [File(f.path, f.size)]
    ensures SameElsewhere(files + [f], files0, f.torrentId)
  {
    forall other
      ensures FilesOf(files + [f], other)
              == if other == f.torrentId then FilesOf(files, other) + [File(f.path, f.size)] else FilesOf(files, other)
    {
      FilesOfSnoc(files, f, other);
    }
  }

  /** The tables `torrents` and `torrent_files` read as one map. */
  ghost function Joined(rows: map<Rowid, Row>, byId: map<string, Rowid>, files: seq<FileRow>): map<string, Torrent>
    requires Keyed(rows, byId)
  {
    map id | id in byId :: Assemble(rows[byId[id]], FilesOf(files, id))
  }

  lemma DropTwice(db: Db, done: set<string>, id: string)
    ensures DropTorrents(DropTorrents(db, done), {id}) == DropTorrents(db, done + {id})
  {
    assert db.torrents - done - {id} == db.torrents - (done + {id});
    assert db.stats - done - {id} == db.stats - (done + {id});
  }

  lemma AllGone(db: Db, done: set<string>, pubkey: string)
    requires done <= IdsBy(db, pubkey)
    requires var left := DropTorrents(db, done).torrents; forall id | id in left :: left[id].pubkey != pubkey
    ensures done == IdsBy(db, pubkey)
  {
    forall id | id in IdsBy(db, pubkey)
      ensures id in done
    {
      assert id !in done ==> id in DropTorrents(db, done).torrents;
    }
  }

  function RowsBy(rows: map<Rowid, Row>, pubkey: string): set<Rowid> {
    set r | r in rows && rows[r].pubkey == pubkey
  }

  lemma NoRowsNoIds(rows: map<Rowid, Row>, byId: map<string, Rowid>, files: seq<FileRow>, pubkey: string)
    requires Keyed(rows, byId)
    requires RowsBy(rows, pubkey) == {}
    ensures forall id | id in Joined(rows, byId, files) :: Joined(rows, byId, files)[id].pubkey != pubkey
  {
    forall id | id in byId
      ensures rows[byId[id]].pubkey != pubkey
    {
      assert byId[id] !in RowsBy(rows, pubkey);
    }
  }

  lemma JoinedAfterDelete(rows: map<Rowid, Row>, byId: map<string, Rowid>, files: seq<FileRow>, r: Rowid)
    requires Keyed(rows, byId) && r in rows && Parented(files, byId)
    ensures var id := rows[r].id;
            && Keyed(rows - {r}, byId - {id})
            && Parented(Without(files, id), byId - {id})
            && Joined(rows - {r}, byId - {id}, Without(files, id)) == Joined(rows, byId, files) - {id}
  {
    var id := rows[r].id;
    forall k | 0 <= k < |Without(files, id)|
      ensures Without(files, id)[k].torrentId in byId - {id}
    {
      WithoutRows(files, id, k);
    }
    forall other | other in byId - {id}
      ensures FilesOf(Without(files, id), other) == FilesOf(files, other)
    {
      WithoutFiles(files, id, other);
    }
  }

  lemma KeyedAfterPut(rows: map<Rowid, Row>, byId: map<string, Rowid>, r: Rowid, row: Row)
    requires Keyed(rows, byId)
    requires if row.id in byId then byId[row.id] == r else r !in rows
    ensures Keyed(rows[r := row], byId[row.id := r])
    ensures forall id | id in byId && id != row.id :: rows[r := row][byId[id]] == rows[byId[id]]
  {
  }

  /** Writing one row is one entry of the joined map. */
  lemma JoinedAfterPut(rows: map<Rowid, Row>, byId: map<string, Rowid>, files: seq<FileRow>, r: Rowid, row: Row)
    requires Keyed(rows, byId)
    requires if row.id in byId then byId[row.id] == r else r !in rows
    ensures Keyed(rows[r := row], byId[row.id := r])
    ensures Joined(rows[r := row], byId[row.id := r], files)
            == Joined(rows, byId, files)[row.id := Assemble(row, FilesOf(files, row.id))]
  {
    KeyedAfterPut(rows, byId, r, row);
  }

  /** Replacing one torrent's file list changes that entry alone. */
  lemma JoinedAfterFiles(rows: map<Rowid, Row>, byId: map<string, Rowid>, files: seq<FileRow>, files': seq<FileRow>, id: string)
    requires Keyed(rows, byId) && id in byId && SameElsewhere(files', files, id)
    ensures var was := Joined(rows, byId, files);
            Joined(rows, byId, files') == was[id := was[id].(files := FilesOf(files', id))]
  {
  }

  function SetFiles(db: Db, id: string, fs: seq<File>): Db
    requires id in db.torrents
  {
    db.(torrents := db.torrents[id := db.torrents[id].(files := fs)])
  }

  lemma PutInTwoSteps(db: Db, t: Torrent, fs: seq<File>)
    ensures SetFiles(PutTorrent(db, t.(files := fs)), t.id, t.files) == PutTorrent(db, t)
  {
  }

  lemma JoinedAt(rows: map<Rowid, Row>, byId: map<string, Rowid>, files: seq<FileRow>, r: Rowid)
    requires Keyed(rows, byId) && r in rows
    ensures rows[r].id in Joined(rows, byId, files)
    ensures Joined(rows, byId, files)[rows[r].id] == Assemble(rows[r], FilesOf(files, rows[r].id))
  {
  }

  // ---------------------------------------------------------------------------------------------
  // ORDER BY published_at DESC (ties by rowid), LIMIT, OFFSET
  // ---------------------------------------------------------------------------------------------

  predicate Before(rows: map<Rowid, Row>, a: Rowid, b: Rowid)
    requires a in rows && b in rows
  {
    rows[a].publishedAt > rows[b].publishedAt || (rows[a].publishedAt == rows[b].publishedAt && a.n < b.n)
  }

  ghost predicate IsOrder(rows: map<Rowid, Row>, s: set<Rowid>, order: seq<Rowid>)
    requires s <= rows.Keys
  {
    && (forall r :: r in order <==> r in s)
    && (forall i, j | 0 <= i < j < |order| :: Before(rows, order[i], order[j]))
  }

  function Place(rows: map<Rowid, Row>, order: seq<Rowid>, r: Rowid): seq<Rowid>
    requires r in rows && forall x | x in order :: x in rows
  {
    if order == [] || Before(rows, r, order[0]) then [r] + order
    else [order[0]] + Place(rows, order[1..], r)
  }

  lemma {:induction false} PlaceKeepsOrder(rows: map<Rowid, Row>, s: set<Rowid>, order: seq<Rowid>, r: Rowid)
    requires s <= rows.Keys && r in rows && r !in s && IsOrder(rows, s, order)
    ensures IsOrder(rows, s + {r}, Place(rows, order, r))
  {
    if order != [] && !Before(rows, r, order[0]) {
      var head, tail := order[0], order[1..];
      assert order == [head] + tail;
      PlaceKeepsOrder(rows, s - {head}, tail, r);
      forall x | x in s + {r} && x != head
        ensures Before(rows, head, x)
      {
      }
    }
  }

  ghost function TheOrder(rows: map<Rowid, Row>, s: set<Rowid>): (order: seq<Rowid>)
    requires s <= rows.Keys
    ensures IsOrder(rows, s, order)
  {
    if s == {} then []
    else
      var r :| r in s;
      PlaceKeepsOrder(rows, s - {r}, TheOrder(rows, s - {r}), r);
      Place(rows, TheOrder(rows, s - {r}), r)
  }

  /** The order is total, so a set of rows has only one arrangement. */
  lemma {:induction false} OrderUnique(rows: map<Rowid, Row>, s: set<Rowid>, a: seq<Rowid>, b: seq<Rowid>)
    requires s <= rows.Keys && IsOrder(rows, s, a) && IsOrder(rows, s, b)
    ensures a == b
    decreases |a|
  {
    OrderEmpty(rows, s, a);
    OrderEmpty(rows, s, b);
    if s != {} {
      assert a[0] in b && b[0] in a;
      assert a[0] == b[0];
      TailIsOrder(rows, s, a);
      TailIsOrder(rows, s, b);
      OrderUnique(rows, s - {a[0]}, a[1..], b[1..]);
    }
  }

  lemma OrderEmpty(rows: map<Rowid, Row>, s: set<Rowid>, order: seq<Rowid>)
    requires s <= rows.Keys && IsOrder(rows, s, order)
    ensures order == [] <==> s == {}
  {
    if order != [] {
      assert order[0] in order;
    }
  }

  lemma TailIsOrder(rows: map<Rowid, Row>, s: set<Rowid>, a: seq<Rowid>)
    requires s <= rows.Keys && IsOrder(rows, s, a) && a != []
    ensures IsOrder(rows, s - {a[0]}, a[1..])
  {
    assert a == [a[0]] + a[1..];
  }

  function Clamped(limit: int): int {
    if limit <= 0 || limit > 100 then 40 else limit
  }

  /** LIMIT and OFFSET; a negative offset counts as zero. */
  function Page<T>(all: seq<T>, limit: int, offset: int): seq<T>
    requires limit >= 0
  {
    var lo := if offset < 0 then 0 else if offset > |all| then |all| else offset;
    var hi := if lo + limit > |all| then |all| else lo + limit;
    all[lo..hi]
  }

  /** A row of `followed`. */
  datatype FollowedRow = FollowedRow(pubkey: string, account: Account)

  ghost predicate ByDate(list: seq<FollowedRow>) {
    forall i, j | 0 <= i < j < |list| :: list[i].account.createdAt <= list[j].account.createdAt
  }

  ghost predicate Distinct(list: seq<FollowedRow>) {
    forall i, j | 0 <= i < j < |list| :: list[i].pubkey != list[j].pubkey
  }

  /** Every row of the table, once. */
  ghost predicate Lists(list: seq<FollowedRow>, followed: map<string, Account>) {
    && Distinct(list)
    && forall f :: f in list <==> f.pubkey in followed && f.account == followed[f.pubkey]
  }

  function PlaceByDate(list: seq<FollowedRow>, f: FollowedRow): seq<FollowedRow> {
    if list == [] || f.account.createdAt <= list[0].account.createdAt then [f] + list
    else [list[0]] + PlaceByDate(list[1..], f)
  }

  lemma {:induction false} PlaceMembers(list: seq<FollowedRow>, f: FollowedRow)
    ensures forall g :: g in PlaceByDate(list, f) <==> g in list || g == f
  {
    if list != [] && f.account.createdAt > list[0].account.createdAt {
      PlaceMembers(list[1..], f);
      assert list == [list[0]] + list[1..];
    }
  }

  lemma ConsKeepsDates(head: FollowedRow, tail: seq<FollowedRow>)
    requires ByDate(tail) && Distinct(tail)
    requires forall g | g in tail :: head.account.createdAt <= g.account.createdAt && head.pubkey != g.pubkey
    ensures ByDate([head] + tail) && Distinct([head] + tail)
  {
  }

  lemma {:induction false} PlaceKeepsDates(list: seq<FollowedRow>, f: FollowedRow)
    requires ByDate(list) && Distinct(list) && forall g | g in list :: g.pubkey != f.pubkey
    ensures ByDate(PlaceByDate(list, f)) && Distinct(PlaceByDate(list, f))
    ensures forall g :: g in PlaceByDate(list, f) <==> g in list || g == f
  {
    PlaceMembers(list, f);
    if list != [] && f.account.createdAt > list[0].account.createdAt {
      PlaceKeepsDates(list[1..], f);
      ConsKeepsDates(list[0], PlaceByDate(list[1..], f));
    } else {
      ConsKeepsDates(f, list);
    }
  }

  /** The reference meaning of a query: every word that has tokens stands in some column as a phrase prefix. */
  ghost predicate Wanted(tk: Tokenizer, doc: Doc, words: seq<string>) {
    && (exists k | 0 <= k < |words| :: tk(words[k]) != [])
    && (forall k | 0 <= k < |words| :: tk(words[k]) == [] || StandsIn(tk, doc, tk(words[k])))
  }

  ghost predicate StandsIn(tk: Tokenizer, doc: Doc, toks: seq<Token>)
    requires toks != []
  {
    exists col: Column, at: nat :: PhraseAt(tk(doc.Text(col)), toks, true, at)
  }

  lemma IntendedIsWanted(tk: Tokenizer, doc: Doc, query: string)
    requires tk("") == []
    ensures DocMatches(tk, doc, FtsQuery.Intended(query)) <==> Wanted(tk, doc, FtsQuery.Words(query))
  {
    var words := FtsQuery.Words(query);
    if words != [] {
      var phrases := FtsQuery.Phrases(words);
      forall k | 0 <= k < |words|
        ensures phrases[k].text == words[k]
        ensures PhraseHolds(tk, doc, phrases[k]) <==> tk(words[k]) == [] || StandsIn(tk, doc, tk(words[k]))
      {
      }
    }
  }

  class Store {
    const fts: FtsIndex
    var rows: map<Rowid, Row>          // torrents, by implicit rowid
    var byId: map<string, Rowid>       // the unique index of the primary key
    var files: seq<FileRow>
    var stats: map<string, Stats>
    var followed: map<string, Account>
    var profiles: map<string, Profile>
    var relays: map<string, Relay>

    /** Primary key, foreign keys and profile keys. */
    ghost predicate Consistent()
      reads this
    {
      && Keyed(rows, byId)
      && Parented(files, byId)
      && stats.Keys <= byId.Keys
      && (forall p | p in profiles :: profiles[p].pubkey == p)
    }

    ghost predicate Valid()
      reads this, fts
    {
      && Consistent()
      && Agrees(fts.tokenize, Docs(rows), fts.postings)
      && fts.tokenize("") == []
    }

    /** What the tables mean. */
    ghost function View(): Db
      requires Consistent()
      reads this
    {
      Db(Joined(rows, byId, files), stats, followed, profiles)
    }

    constructor (tokenize: Tokenizer)
      requires tokenize("") == []
      ensures Valid() && View() == EMPTY && relays == map[]
      ensures fresh(fts) && fts.tokenize == tokenize
    {
      fts := new FtsIndex(tokenize);
      rows, byId, files, stats, followed, profiles, relays := map[], map[], [], map[], map[], map[], map[];
    }

    // -------------------------------------------------------------------------------------------
    // Rows of `torrents`: each statement with its trigger and cascades
    // -------------------------------------------------------------------------------------------

    /** A rowid not in use; one freed by an earlier delete may come back. */
    method FreshRowid() returns (r: Rowid)
      ensures r !in rows
    {
      r := Rowid(1);
      ghost var left := rows.Keys;
      while r in rows
        invariant left <= rows.Keys
        invariant forall k | k in rows && k !in left :: k.n < r.n
        decreases left
      {
        left := left - {r};
        r := Rowid(r.n + 1);
      }
    }

    /** INSERT INTO torrents, then trigger torrents_ai. */
    method InsertRow(row: Row) returns (r: Rowid)
      requires Valid() && row.id !in byId
      modifies this`rows, this`byId, fts
      ensures Valid() && r !in old(rows)
      ensures rows == old(rows)[r := row] && byId == old(byId)[row.id := r]
    {
      r := FreshRowid();
      rows := rows[r := row];
      byId := byId[row.id := r];
      fts.InsertDoc(r, DocOf(row));
      AgreesAfterInsert(fts.tokenize, old(Docs(rows)), old(fts.postings), fts.postings, r, DocOf(row));
      assert Docs(rows) == old(Docs(rows))[r := DocOf(row)];
    }

    /** UPDATE torrents, then trigger torrents_au: delete with the old columns, insert the new ones. */
    method UpdateRow(r: Rowid, row: Row)
      requires Valid() && r in rows && row.id == rows[r].id
      modifies this`rows, fts
      ensures Valid()
      ensures rows == old(rows)[r := row]
    {
      var was := rows[r];
      rows := rows[r := row];
      fts.DeleteDoc(r, DocOf(was));
      AgreesAfterDelete(fts.tokenize, old(Docs(rows)), old(fts.postings), fts.postings, r);
      ghost var between := fts.postings;
      fts.InsertDoc(r, DocOf(row));
      AgreesAfterInsert(fts.tokenize, old(Docs(rows)) - {r}, between, fts.postings, r, DocOf(row));
      assert Docs(rows) == (old(Docs(rows)) - {r})[r := DocOf(row)];
    }

    /** DELETE of one row: the cascades to the two child tables, then trigger torrents_ad. */
    method DeleteRow(r: Rowid)
      requires Valid() && r in rows
      modifies this`rows, this`byId, this`files, this`stats, fts
      ensures Valid()
      ensures rows == old(rows) - {r}
      ensures View() == DropTorrents(old(View()), {old(rows)[r].id})
    {
      var was := rows[r];
      DeleteCascading(r);
      fts.DeleteDoc(r, DocOf(was));
      AgreesAfterDelete(fts.tokenize, old(Docs(rows)), old(fts.postings), fts.postings, r);
      assert Docs(rows) == old(Docs(rows)) - {r};
    }

    method DeleteCascading(r: Rowid)
      requires Consistent() && r in rows
      modifies this`rows, this`byId, this`files, this`stats
      ensures Consistent()
      ensures rows == old(rows) - {r}
      ensures View() == DropTorrents(old(View()), {old(rows)[r].id})
    {
      var id := rows[r].id;
      JoinedAfterDelete(rows, byId, files, r);
      rows := rows - {r};
      byId := byId - {id};
      files := Without(files, id);
      stats := stats - {id};
    }

    // -------------------------------------------------------------------------------------------
    // torrents.go
    // -------------------------------------------------------------------------------------------

    /**
     One transaction. `fault` is the statement at which the database reports an error, if any: 0 begins the
     transaction, 1 writes the row, 2 clears the old files, 3 + i writes file i, the last one commits.
     */
    method UpsertTorrent(t: Torrent, now: int, fault: Option<nat>) returns (ok: bool)
      requires Valid()
      modifies this`rows, this`byId, this`files, fts
      ensures Valid()
      ensures ok <==> !(fault.Some? && fault.value < |t.files| + 4)
      ensures ok ==> View() == PutTorrent(old(View()), t)
      ensures ok && t.id in old(byId) ==> byId == old(byId)
      ensures ok ==> t.id in byId && Stamped(old(rows), rows, byId[t.id], now)
      ensures !ok ==> rows == old(rows) && byId == old(byId) && files == old(files) && fts.postings == old(fts.postings)
    {
      if fault == Some(0) {
        return false;
      }
      var rows0, byId0, files0, postings0 := rows, byId, files, fts.postings;
      ok := Statements(t, now, fault);
      if !ok || fault == Some(|t.files| + 3) {
        rows, byId, files, fts.postings := rows0, byId0, files0, postings0;
        ok := false;
      }
    }

    /** The statements inside the transaction; on an error the tables are left half written. */
    method Statements(t: Torrent, now: int, fault: Option<nat>) returns (ok: bool)
      requires Valid()
      requires fault.Some? ==> fault.value >= 1
      modifies this`rows, this`byId, this`files, fts
      ensures Valid()
      ensures ok <==> !(fault.Some? && fault.value < |t.files| + 3)
      ensures ok ==> View() == PutTorrent(old(View()), t)
      ensures ok && t.id in old(byId) ==> byId == old(byId)
      ensures ok ==> t.id in byId && Stamped(old(rows), rows, byId[t.id], now)
    {
      if fault == Some(1) {
        return false;
      }
      assert fault.Some? ==> fault.value >= 2;
      ghost var db := View();
      PutRow(t, now);
      ok := ReplaceFiles(t.id, t.files, fault);
      PutInTwoSteps(db, t, FilesOf(old(files), t.id));
    }

    method ReplaceFiles(id: string, newFiles: seq<File>, fault: Option<nat>) returns (ok: bool)
      requires Consistent() && id in byId
      requires fault.Some? ==> fault.value >= 2
      modifies this`files
      ensures Consistent()
      ensures ok <==> !(fault.Some? && fault.value < |newFiles| + 3)
      ensures id in old(View()).torrents
      ensures ok ==> View() == SetFiles(old(View()), id, newFiles)
    {
      ok := WriteFiles(id, newFiles, fault);
      if ok {
        JoinedAfterFiles(rows, byId, old(files), files, id);
      }
    }

    method WriteFiles(id: string, newFiles: seq<File>, fault: Option<nat>) returns (ok: bool)
      requires Parented(files, byId) && id in byId
      requires fault.Some? ==> fault.value >= 2
      modifies this`files
      ensures Parented(files, byId)
      ensures ok <==> !(fault.Some? && fault.value < |newFiles| + 3)
      ensures ok ==> FilesOf(files, id) == newFiles && SameElsewhere(files, old(files), id)
    {
      if fault == Some(2) {
        return false;
      }
      WithoutAll(files, id, byId);
      files := Without(files, id);
      for i := 0 to |newFiles|
        invariant Parented(files, byId)
        invariant FilesOf(files, id) == newFiles[..i] && SameElsewhere(files, old(files), id)
        invariant fault.Some? ==> fault.value >= i + 3
      {
        if fault == Some(i + 3) {
          return false;
        }
        AppendFile(files, FileRow(id, newFiles[i].path, newFiles[i].size), old(files));
        files := files + [FileRow(id, newFiles[i].path, newFiles[i].size)];
        assert newFiles[..i + 1] == newFiles[..i] + [newFiles[i]];
      }
      ok := true;
    }

    /** INSERT ... ON CONFLICT(id) DO UPDATE: the new row, still with the files it had. */
    method PutRow(t: Torrent, now: int)
      requires Valid()
      modifies this`rows, this`byId, fts
      ensures Valid()
      ensures t.id in byId && (t.id in old(byId) ==> byId == old(byId))
      ensures Stamped(old(rows), rows, byId[t.id], now)
      ensures View() == PutTorrent(old(View()), t.(files := FilesOf(files, t.id)))
    {
      var r;
      if t.id in byId {
        r := byId[t.id];
        UpdateRow(r, Overwrite(rows[r], t, now));
      } else {
        r := InsertRow(NewRow(t, now));
      }
      assert byId == old(byId)[t.id := r];
      JoinedAfterPut(old(rows), old(byId), files, r, rows[r]);
    }

    method GetTorrent(id: string) returns (t: Option<Torrent>)
      requires Valid()
      ensures t == if id in View().torrents then Some(View().torrents[id]) else None
    {
      if id !in byId {
        return None;
      }
      return Some(Assemble(rows[byId[id]], FilesOf(files, id)));
    }

    method DeleteTorrent(id: string) returns (found: bool)
      requires Valid()
      modifies this`rows, this`byId, this`files, this`stats, fts
      ensures Valid()
      ensures found <==> id in old(View()).torrents
      ensures View() == DropTorrents(old(View()), {id})
    {
      found := id in byId;
      if found {
        DeleteRow(byId[id]);
      }
    }

    method UpdateTorrentFields(id: string, title: string, category: string, now: int) returns (found: bool)
      requires Valid()
      modifies this`rows, fts
      ensures Valid()
      ensures found <==> id in old(View()).torrents
      ensures View() == EditTorrent(old(View()), id, title, category)
      ensures if found then id in byId && Stamped(old(rows), rows, byId[id], now) else rows == old(rows)
    {
      found := id in byId;
      if found {
        var r := byId[id];
        var row := rows[r].(title := title, category := category, updatedAt := now);
        UpdateRow(r, row);
        JoinedAfterPut(old(rows), old(byId), files, r, row);
        assert byId == old(byId)[id := r];
      }
    }

    method CountByPubkey(pubkey: string) returns (n: nat)
      requires Valid()
      ensures n == |IdsBy(View(), pubkey)|
    {
      n := 0;
      var left := rows.Keys;
      ghost var seen: set<string> := {};
      while left != {}
        invariant left <= rows.Keys && n == |seen|
        invariant seen == set r | r in rows.Keys - left && rows[r].pubkey == pubkey :: rows[r].id
      {
        var r :| r in left;
        left := left - {r};
        if rows[r].pubkey == pubkey {
          assert rows[r].id !in seen;
          n, seen := n + 1, seen + {rows[r].id};
        }
      }
      forall id | id in IdsBy(View(), pubkey)
        ensures id in seen
      {
        assert byId[id] in rows.Keys;
      }
      assert seen == IdsBy(View(), pubkey);
    }

    method PurgeRow(r: Rowid, pubkey: string) returns (ghost id: string)
      requires Valid() && r in RowsBy(rows, pubkey)
      modifies this`rows, this`byId, this`files, this`stats, fts
      ensures Valid()
      ensures id in IdsBy(old(View()), pubkey) && id !in View().torrents
      ensures View() == DropTorrents(old(View()), {id})
      ensures RowsBy(rows, pubkey) == RowsBy(old(rows), pubkey) - {r}
    {
      id := rows[r].id;
      assert View().torrents[id].pubkey == pubkey;
      DeleteRow(r);
    }

    /** The statement visits the author's rows one by one; trigger and cascades run for each. */
    method DeleteByPubkey(pubkey: string) returns (n: nat)
      requires Valid()
      modifies this`rows, this`byId, this`files, this`stats, fts
      ensures Valid()
      ensures n == |IdsBy(old(View()), pubkey)|
      ensures View() == DropTorrents(old(View()), IdsBy(old(View()), pubkey))
    {
      n := 0;
      var left := RowsBy(rows, pubkey);
      ghost var done: set<string> := {};
      ghost var db := View();
      while left != {}
        invariant Valid()
        invariant left == RowsBy(rows, pubkey)
        invariant n == |done| && done <= IdsBy(db, pubkey)
        invariant View() == DropTorrents(db, done)
      {
        var r :| r in left;
        ghost var id := PurgeRow(r, pubkey);
        DropTwice(db, done, id);
        n, done, left := n + 1, done + {id}, left - {r};
      }
      NoRowsNoIds(rows, byId, files, pubkey);
      AllGone(db, done, pubkey);
    }

    // -------------------------------------------------------------------------------------------
    // Search
    // -------------------------------------------------------------------------------------------

    /** The rows a linear scan of the table keeps for a query. */
    ghost function Scan(query: string): set<Rowid>
      reads this, fts
    {
      if query == "" then rows.Keys
      else set r | r in rows && Wanted(fts.tokenize, DocOf(rows[r]), FtsQuery.Words(query))
    }

    /** The page found by scanning and sorting the table, without the index. */
    ghost function ScanPage(query: string, limit: int, offset: int): seq<Summary>
      reads this, fts
    {
      Page(Summaries(TheOrder(rows, Scan(query))), Clamped(limit), offset)
    }

    function Summaries(order: seq<Rowid>): seq<Summary>
      requires forall r | r in order :: r in rows
      reads this
    {
      seq(|order|, i requires 0 <= i < |order| reads this requires order[i] in rows => Summarise(rows[order[i]]))
    }

    function Summarise(row: Row): Summary
      reads this
    {
      var name :=
        if row.pubkey !in profiles then ""
        else if profiles[row.pubkey].displayName != "" then profiles[row.pubkey].displayName
        else profiles[row.pubkey].name;
      if row.id in stats then
        var st := stats[row.id];
        Summary(row.id, row.title, row.category, row.size, row.publishedAt, row.pubkey, name, true, st.seeders, st.leechers)
      else
        Summary(row.id, row.title, row.category, row.size, row.publishedAt, row.pubkey, name, false, 0, 0)
    }

    /** Through the index, the same page as the linear scan. */
    method Search(query: string, limit: int, offset: int) returns (page: seq<Summary>)
      requires Valid()
      ensures page == ScanPage(query, limit, offset)
      ensures GoodPage(page, fts.tokenize, View(), query, if limit <= 0 || limit > 100 then 40 else limit, offset)
      ensures forall i, j | 0 <= i < j < |page| :: page[i].publishedAt >= page[j].publishedAt
    {
      var hits := rows.Keys;
      if query != "" {
        var text := FtsQuery.Build(query);
        var phrases := FtsQuery.Parse(text).value;
        hits := fts.Match(phrases, Docs(rows));
        forall r | r in rows
          ensures DocMatches(fts.tokenize, DocOf(rows[r]), phrases)
                  <==> Wanted(fts.tokenize, DocOf(rows[r]), FtsQuery.Words(query))
        {
          IntendedIsWanted(fts.tokenize, DocOf(rows[r]), query);
        }
        assert hits == Scan(query);
      }
      var order := OrderByDate(hits);
      page := Page(Summaries(order), Clamped(limit), offset);
      SearchMeans(this, query, limit, offset);
    }

    method OrderByDate(hits: set<Rowid>) returns (order: seq<Rowid>)
      requires hits <= rows.Keys
      ensures order == TheOrder(rows, hits)
      ensures forall r :: r in order <==> r in hits
      ensures forall i, j | 0 <= i < j < |order| ::
                order[i] in rows && order[j] in rows && order[i] != order[j]
                && rows[order[i]].publishedAt >= rows[order[j]].publishedAt
    {
      order := [];
      var left := hits;
      ghost var placed := {};
      while left != {}
        invariant left <= hits && placed == hits - left
        invariant IsOrder(rows, placed, order)
      {
        var r :| r in left;
        PlaceKeepsOrder(rows, placed, order, r);
        order := Place(rows, order, r);
        left, placed := left - {r}, placed + {r};
      }
      assert placed == hits;
      OrderUnique(rows, hits, order, TheOrder(rows, hits));
      forall i, j | 0 <= i < j < |order|
        ensures order[i] in rows && order[j] in rows && order[i] != order[j]
                && rows[order[i]].publishedAt >= rows[order[j]].publishedAt
      {
        assert order[i] in order && order[j] in order && Before(rows, order[i], order[j]);
      }
    }

    // -------------------------------------------------------------------------------------------
    // followed.go, profiles.go, stats.go
    // -------------------------------------------------------------------------------------------

    method AddFollowed(pubkey: string, alias: string, now: int)
      requires Valid()
      modifies this`followed
      ensures Valid() && View() == Follow(old(View()), pubkey, alias, now)
    {
      if pubkey in followed {
        followed := followed[pubkey := followed[pubkey].(alias := alias, enabled := true)];
      } else {
        followed := followed[pubkey := Account(alias, true, 0, now)];
      }
    }

    /** SELECT ... FROM followed ORDER BY created_at. */
    method ListFollowed() returns (list: seq<FollowedRow>)
      requires Valid()
      ensures Lists(list, View().followed)
      ensures forall p :: (exists f | f in list :: f.pubkey == p) <==> p in View().followed
      ensures forall i, j | 0 <= i < j < |list| ::
                list[i].pubkey != list[j].pubkey && list[i].account.createdAt <= list[j].account.createdAt
      ensures forall f | f in list :: f.pubkey in View().followed && f.account == View().followed[f.pubkey]
    {
      list := [];
      var left := followed.Keys;
      while left != {}
        invariant left <= followed.Keys
        invariant ByDate(list) && Distinct(list)
        invariant forall f :: f in list <==> f.pubkey in followed && f.pubkey !in left && f.account == followed[f.pubkey]
      {
        var p :| p in left;
        var f := FollowedRow(p, followed[p]);
        left := left - {p};
        PlaceKeepsDates(list, f);
        list := PlaceByDate(list, f);
      }
      forall p | p in followed
        ensures exists f | f in list :: f.pubkey == p
      {
        assert FollowedRow(p, followed[p]) in list;
      }
    }

    method RemoveFollowed(pubkey: string) returns (found: bool)
      requires Valid()
      modifies this`followed
      ensures Valid() && View() == Unfollow(old(View()), pubkey)
      ensures found <==> pubkey in old(followed)
    {
      found := pubkey in followed;
      followed := followed - {pubkey};
    }

    method UpdateLastSynced(pubkey: string, ts: int)
      requires Valid()
      modifies this`followed
      ensures Valid() && View() == RaiseCursor(old(View()), pubkey, ts)
    {
      if pubkey in followed {
        var a := followed[pubkey];
        followed := followed[pubkey := a.(cursor := if a.cursor < ts then ts else a.cursor)];
      }
    }

    method UpsertProfile(p: Profile)
      requires Valid()
      modifies this`profiles
      ensures Valid() && View() == PutProfile(old(View()), p)
    {
      if p.pubkey !in profiles || p.updatedAt >= profiles[p.pubkey].updatedAt {
        profiles := profiles[p.pubkey := p];
      }
    }

    /** Fails, changing nothing, when the torrent was deleted meanwhile (foreign key). */
    method UpsertTorrentStats(id: string, seeders: int, leechers: int, scrapedAt: int) returns (ok: bool)
      requires Valid()
      modifies this`stats
      ensures Valid() && View() == PutStats(old(View()), id, Stats(seeders, leechers, scrapedAt))
      ensures ok <==> id in old(View()).torrents
    {
      ok := id in byId;
      if ok {
        stats := stats[id := Stats(seeders, leechers, scrapedAt)];
      }
    }

    method TorrentsDueForScrape(olderThan: int) returns (out: seq<Target>)
      requires Valid()
      ensures Collected(View(), out, olderThan)
      ensures forall id | Due(View(), id, olderThan) :: Listed(out, id)
      ensures forall j, k | 0 <= j < k < |out| :: out[j].torrentId != out[k].torrentId
      ensures forall k | 0 <= k < |out| ::
                var id, db := out[k].torrentId, View();
                && id in db.torrents && out[k] == Target(id, db.torrents[id].infohash, db.torrents[id].tracker)
                && out[k].tracker != "" && (id in db.stats ==> db.stats[id].scrapedAt < olderThan)
      ensures forall id | id in View().torrents && View().torrents[id].tracker != ""
                          && (id in View().stats ==> View().stats[id].scrapedAt < olderThan) ::
                exists k | 0 <= k < |out| :: out[k].torrentId == id
    {
      out := [];
      var left := rows.Keys;
      ghost var db := View();
      while left != {}
        invariant left <= rows.Keys
        invariant Collected(db, out, olderThan)
        invariant forall r | r in rows :: Listed(out, rows[r].id) <==> r !in left && Due(db, rows[r].id, olderThan)
      {
        var r :| r in left;
        left := left - {r};
        var row := rows[r];
        JoinedAt(rows, byId, files, r);
        if row.tracker != "" && (row.id !in stats || stats[row.id].scrapedAt < olderThan) {
          ListedSnoc(out, Target(row.id, row.infohash, row.tracker));
          out := out + [Target(row.id, row.infohash, row.tracker)];
        }
      }
      forall id | Due(db, id, olderThan)
        ensures Listed(out, id)
      {
        assert byId[id] in rows;
      }
      DueMeans(db, out, olderThan);
    }
  }

  /** What is collected, column by column; a torrent never scraped is due. */
  lemma DueMeans(db: Db, out: seq<Target>, olderThan: int)
    requires Collected(db, out, olderThan) && forall id | Due(db, id, olderThan) :: Listed(out, id)
    ensures forall k | 0 <= k < |out| ::
              var id := out[k].torrentId;
              && id in db.torrents && out[k] == Target(id, db.torrents[id].infohash, db.torrents[id].tracker)
              && out[k].tracker != "" && (id in db.stats ==> db.stats[id].scrapedAt < olderThan)
    ensures forall id | id in db.torrents && db.torrents[id].tracker != "" && (id in db.stats ==> db.stats[id].scrapedAt < olderThan) ::
              exists k | 0 <= k < |out| :: out[k].torrentId == id
  {
    forall k | 0 <= k < |out|
      ensures IsTarget(db, out[k], olderThan)
    {
    }
    forall id | id in db.torrents && db.torrents[id].tracker != "" && (id in db.stats ==> db.stats[id].scrapedAt < olderThan)
      ensures exists k | 0 <= k < |out| :: out[k].torrentId == id
    {
      assert Due(db, id, olderThan) && Listed(out, id);
    }
  }

  // ---------------------------------------------------------------------------------------------
  // What a page shows, in terms of the catalogue
  // ---------------------------------------------------------------------------------------------

  /** The tokens of a word stand in the text from `at` on, the last one possibly as the beginning of one. */
  predicate Says(text: seq<Token>, toks: seq<Token>, at: nat) {
    && 0 < |toks| && at + |toks| <= |text|
    && (forall k | 0 <= k < |toks| - 1 :: text[at + k] == toks[k])
    && toks[|toks| - 1] <= text[at + |toks| - 1]
  }

  ghost predicate SaysSomewhere(tk: Tokenizer, text: string, toks: seq<Token>) {
    exists at :: Says(tk(text), toks, at)
  }

  /** Title, description or category say every word that has tokens, and there is such a word. */
  ghost predicate Found(tk: Tokenizer, t: Torrent, words: seq<string>) {
    && (exists k | 0 <= k < |words| :: tk(words[k]) != [])
    && (forall k | 0 <= k < |words| && tk(words[k]) != [] ::
          || SaysSomewhere(tk, t.title, tk(words[k]))
          || SaysSomewhere(tk, t.description, tk(words[k]))
          || SaysSomewhere(tk, t.category, tk(words[k])))
  }

  lemma SaysIsPhrase(text: seq<Token>, toks: seq<Token>, at: nat)
    requires toks != []
    ensures Says(text, toks, at) <==> PhraseAt(text, toks, true, at)
  {
    if at + |toks| <= |text| {
      var init := text[at..at + |toks| - 1];
      assert forall k | 0 <= k < |init| :: init[k] == text[at + k];
    }
  }

  lemma StandsIsSaid(tk: Tokenizer, doc: Doc, toks: seq<Token>)
    requires toks != []
    ensures StandsIn(tk, doc, toks)
            <==> SaysSomewhere(tk, doc.title, toks) || SaysSomewhere(tk, doc.description, toks) || SaysSomewhere(tk, doc.category, toks)
  {
    forall text, at: nat
      ensures Says(text, toks, at) <==> PhraseAt(text, toks, true, at)
    {
      SaysIsPhrase(text, toks, at);
    }
    assert doc.Text(Title) == doc.title && doc.Text(Description) == doc.description && doc.Text(Category) == doc.category;
    if StandsIn(tk, doc, toks) {
      var col: Column, at: nat :| PhraseAt(tk(doc.Text(col)), toks, true, at);
      assert Says(tk(doc.Text(col)), toks, at);
    }
    if at: nat :| Says(tk(doc.title), toks, at) {
      assert PhraseAt(tk(doc.Text(Title)), toks, true, at);
    } else if at: nat :| Says(tk(doc.description), toks, at) {
      assert PhraseAt(tk(doc.Text(Description)), toks, true, at);
    } else if at: nat :| Says(tk(doc.category), toks, at) {
      assert PhraseAt(tk(doc.Text(Category)), toks, true, at);
    }
  }

  lemma WantedIsFound(tk: Tokenizer, row: Row, t: Torrent, words: seq<string>)
    requires t.title == row.title && t.description == row.description && t.category == row.category
    ensures Wanted(tk, DocOf(row), words) <==> Found(tk, t, words)
  {
    forall k | 0 <= k < |words| && tk(words[k]) != []
      ensures StandsIn(tk, DocOf(row), tk(words[k]))
              <==> SaysSomewhere(tk, t.title, tk(words[k])) || SaysSomewhere(tk, t.description, tk(words[k]))
                   || SaysSomewhere(tk, t.category, tk(words[k]))
    {
      StandsIsSaid(tk, DocOf(row), tk(words[k]));
    }
  }

  /** A result shows the torrent's own columns, its author's name and its counters. */
  ghost predicate Displays(s: Summary, db: Db) {
    && s.id in db.torrents
    && (var t := db.torrents[s.id];
        && s.title == t.title && s.category == t.category && s.size == t.size
        && s.publishedAt == t.publishedAt && s.pubkey == t.pubkey)
    && (if s.pubkey !in db.profiles then s.publisherName == ""
        else if db.profiles[s.pubkey].displayName != "" then s.publisherName == db.profiles[s.pubkey].displayName
        else s.publisherName == db.profiles[s.pubkey].name)
    && (if s.id in db.stats then s.hasStats && s.seeders == db.stats[s.id].seeders && s.leechers == db.stats[s.id].leechers
        else !s.hasStats && s.seeders == 0 && s.leechers == 0)
  }

  lemma SummaryDisplays(st: Store, r: Rowid)
    requires st.Valid() && r in st.rows
    ensures Displays(st.Summarise(st.rows[r]), st.View()) && st.Summarise(st.rows[r]).id == st.rows[r].id
  {
    JoinedAt(st.rows, st.byId, st.files, r);
  }

  /** The torrent is a result of the query; the empty query asks for everything. */
  ghost predicate IsResult(tk: Tokenizer, db: Db, query: string, id: string) {
    id in db.torrents && (query == "" || Found(tk, db.torrents[id], FtsQuery.Words(query)))
  }

  lemma ScanMeans(st: Store, query: string, r: Rowid)
    requires st.Valid() && r in st.rows
    ensures r in st.Scan(query) <==> IsResult(st.fts.tokenize, st.View(), query, st.rows[r].id)
  {
    JoinedAt(st.rows, st.byId, st.files, r);
    WantedIsFound(st.fts.tokenize, st.rows[r], st.View().torrents[st.rows[r].id], FtsQuery.Words(query));
  }

  /** Each result once, newest first. */
  ghost predicate Presents(all: seq<Summary>, tk: Tokenizer, db: Db, query: string) {
    && (forall i, j | 0 <= i < j < |all| :: all[i].id != all[j].id && all[i].publishedAt >= all[j].publishedAt)
    && (forall i | 0 <= i < |all| :: Displays(all[i], db) && IsResult(tk, db, query, all[i].id))
    && (forall id | IsResult(tk, db, query, id) :: exists i | 0 <= i < |all| :: all[i].id == id)
  }

  /** The pages of a query are stretches of one list of its results. */
  lemma ResultsMean(st: Store, query: string) returns (all: seq<Summary>)
    requires st.Valid()
    ensures Presents(all, st.fts.tokenize, st.View(), query)
    ensures forall limit, offset ::
              st.ScanPage(query, limit, offset) == Page(all, if limit <= 0 || limit > 100 then 40 else limit, offset)
  {
    var order := TheOrder(st.rows, st.Scan(query));
    all := st.Summaries(order);
    forall i | 0 <= i < |order|
      ensures order[i] in st.Scan(query) && all[i] == st.Summarise(st.rows[order[i]])
    {
      assert order[i] in order;
    }
    OrderPresents(st, query, order, all);
  }

  lemma OrderPresents(st: Store, query: string, order: seq<Rowid>, all: seq<Summary>)
    requires st.Valid() && IsOrder(st.rows, st.Scan(query), order) && |all| == |order|
    requires forall i | 0 <= i < |order| :: order[i] in st.Scan(query) && all[i] == st.Summarise(st.rows[order[i]])
    ensures Presents(all, st.fts.tokenize, st.View(), query)
  {
    forall i | 0 <= i < |all|
      ensures Displays(all[i], st.View()) && all[i].id == st.rows[order[i]].id
      ensures IsResult(st.fts.tokenize, st.View(), query, all[i].id)
    {
      SummaryDisplays(st, order[i]);
      ScanMeans(st, query, order[i]);
    }
    forall i, j | 0 <= i < j < |all|
      ensures all[i].id != all[j].id && all[i].publishedAt >= all[j].publishedAt
    {
      OrderDates(st, query, order, i, j);
    }
    forall id | IsResult(st.fts.tokenize, st.View(), query, id)
      ensures exists i | 0 <= i < |all| :: all[i].id == id
    {
      var r := st.byId[id];
      ScanMeans(st, query, r);
      assert r in order;
      var i :| 0 <= i < |order| && order[i] == r;
      assert all[i].id == id;
    }
  }

  lemma OrderDates(st: Store, query: string, order: seq<Rowid>, i: nat, j: nat)
    requires st.Valid() && IsOrder(st.rows, st.Scan(query), order) && i < j < |order|
    ensures order[i] in st.rows && order[j] in st.rows
    ensures st.rows[order[i]].publishedAt >= st.rows[order[j]].publishedAt && st.rows[order[i]].id != st.rows[order[j]].id
  {
    assert order[i] in order && order[j] in order;
    assert Before(st.rows, order[i], order[j]);
  }

  /** LIMIT and OFFSET on a list: a stretch of it from the offset on, as long as the limit unless the list ends. */
  lemma PageMeans<T>(all: seq<T>, limit: nat, offset: int) returns (lo: nat)
    ensures lo <= |all| && (lo == offset || (offset < 0 && lo == 0) || (offset > |all| && lo == |all|))
    ensures Page(all, limit, offset) <= all[lo..]
    ensures |Page(all, limit, offset)| == limit || (|Page(all, limit, offset)| < limit && Page(all, limit, offset) == all[lo..])
  {
    lo := if offset < 0 then 0 else if offset > |all| then |all| else offset;
  }

  /**
   A page, newest first, as long as the limit allows. What is found and not on it is on one side of it: no newer
   than anything on it, or no older; on the first page there is only the former, and only if the page is full.
   */
  ghost predicate GoodPage(page: seq<Summary>, tk: Tokenizer, db: Db, query: string, size: int, offset: int) {
    && |page| <= size
    && (forall i, j | 0 <= i < j < |page| :: page[i].id != page[j].id && page[i].publishedAt >= page[j].publishedAt)
    && (forall i | 0 <= i < |page| :: Displays(page[i], db) && IsResult(tk, db, query, page[i].id))
    && (forall id | IsResult(tk, db, query, id) && Misses(page, id) :: OnOneSide(page, db.torrents[id].publishedAt))
    && (offset <= 0 ==>
          forall id | IsResult(tk, db, query, id) && Misses(page, id) ::
            |page| == size && forall i | 0 <= i < |page| :: page[i].publishedAt >= db.torrents[id].publishedAt)
  }

  predicate Misses(page: seq<Summary>, id: string) {
    forall i | 0 <= i < |page| :: page[i].id != id
  }

  predicate OnOneSide(page: seq<Summary>, date: int) {
    || (forall i | 0 <= i < |page| :: page[i].publishedAt >= date)
    || (forall i | 0 <= i < |page| :: page[i].publishedAt <= date)
  }

  lemma PageIsGood(all: seq<Summary>, tk: Tokenizer, db: Db, query: string, size: nat, offset: int)
    requires Presents(all, tk, db, query)
    ensures GoodPage(Page(all, size, offset), tk, db, query, size, offset)
  {
    var page := Page(all, size, offset);
    var lo := PageMeans(all, size, offset);
    StretchIsGood(all, lo, page, tk, db, query);
    if offset <= 0 {
      StartIsGood(all, page, size, tk, db, query);
    }
  }

  /** Of any stretch of the results. */
  lemma StretchIsGood(all: seq<Summary>, lo: nat, page: seq<Summary>, tk: Tokenizer, db: Db, query: string)
    requires Presents(all, tk, db, query) && lo <= |all| && page <= all[lo..]
    ensures forall i, j | 0 <= i < j < |page| :: page[i].id != page[j].id && page[i].publishedAt >= page[j].publishedAt
    ensures forall i | 0 <= i < |page| :: Displays(page[i], db) && IsResult(tk, db, query, page[i].id)
    ensures forall id | IsResult(tk, db, query, id) && Misses(page, id) :: OnOneSide(page, db.torrents[id].publishedAt)
  {
    assert forall i | 0 <= i < |page| :: page[i] == all[lo + i];
    forall id | IsResult(tk, db, query, id) && Misses(page, id)
      ensures OnOneSide(page, db.torrents[id].publishedAt)
    {
      Beside(all, lo, page, tk, db, query, id);
    }
  }

  /** Of one from their start on. */
  lemma StartIsGood(all: seq<Summary>, page: seq<Summary>, size: nat, tk: Tokenizer, db: Db, query: string)
    requires Presents(all, tk, db, query) && page <= all && (|page| == size || page == all)
    ensures forall id | IsResult(tk, db, query, id) && Misses(page, id) ::
              |page| == size && forall i | 0 <= i < |page| :: page[i].publishedAt >= db.torrents[id].publishedAt
  {
    forall id | IsResult(tk, db, query, id) && Misses(page, id)
      ensures |page| == size && forall i | 0 <= i < |page| :: page[i].publishedAt >= db.torrents[id].publishedAt
    {
      LeftBehind(all, |page|, tk, db, query, id);
    }
  }

  lemma Beside(all: seq<Summary>, lo: nat, page: seq<Summary>, tk: Tokenizer, db: Db, query: string, id: string)
    requires Presents(all, tk, db, query) && lo <= |all| && page <= all[lo..]
    requires IsResult(tk, db, query, id) && Misses(page, id)
    ensures OnOneSide(page, db.torrents[id].publishedAt)
  {
    var k :| 0 <= k < |all| && all[k].id == id;
    assert Displays(all[k], db);
    forall i | 0 <= i < |page|
      ensures page[i] == all[lo + i] && lo + i != k
    {
    }
  }

  lemma LeftBehind(all: seq<Summary>, n: nat, tk: Tokenizer, db: Db, query: string, id: string)
    requires n <= |all| && Presents(all, tk, db, query) && IsResult(tk, db, query, id)
    requires forall i | 0 <= i < n :: all[i].id != id
    ensures n < |all| && forall i | 0 <= i < n :: all[i].publishedAt >= db.torrents[id].publishedAt
  {
    var k :| 0 <= k < |all| && all[k].id == id;
    assert n <= k && Displays(all[k], db);
  }

  lemma SearchMeans(st: Store, query: string, limit: int, offset: int)
    requires st.Valid()
    ensures GoodPage(st.ScanPage(query, limit, offset), st.fts.tokenize, st.View(), query,
                     if limit <= 0 || limit > 100 then 40 else limit, offset)
  {
    var all := ResultsMean(st, query);
    PageIsGood(all, st.fts.tokenize, st.View(), query, if limit <= 0 || limit > 100 then 40 else limit, offset);
  }

  /** In every state the operations can reach, the index is the one rebuilt from the table. */
  lemma IndexIsRebuilt(st: Store)
    requires st.Valid()
    ensures st.fts.postings == Rebuild(st.fts.tokenize, Docs(st.rows))
  {
    AgreementIsRebuild(st.fts.tokenize, Docs(st.rows), st.fts.postings);
  }

  /** Each target is due and no torrent is listed twice. */
  ghost predicate Collected(db: Db, out: seq<Target>, olderThan: int) {
    && (forall k | 0 <= k < |out| :: IsTarget(db, out[k], olderThan))
    && (forall j, k | 0 <= j < k < |out| :: out[j].torrentId != out[k].torrentId)
  }

  /** `target` names a torrent due for a scrape, with that torrent's own infohash and tracker. */
  predicate IsTarget(db: Db, target: Target, olderThan: int) {
    && Due(db, target.torrentId, olderThan)
    && target.infohash == db.torrents[target.torrentId].infohash
    && target.tracker == db.torrents[target.torrentId].tracker
  }

  predicate Listed(targets: seq<Target>, id: string) {
    exists k | 0 <= k < |targets| :: targets[k].torrentId == id
  }

  lemma ListedSnoc(targets: seq<Target>, t: Target)
    ensures forall id :: Listed(targets + [t], id) <==> Listed(targets, id) || id == t.torrentId
  {
    assert (targets + [t])[|targets|] == t;
    forall id | Listed(targets, id)
      ensures Listed(targets + [t], id)
    {
      var k :| 0 <= k < |targets| && targets[k].torrentId == id;
      assert (targets + [t])[k] == targets[k];
    }
  }
}
