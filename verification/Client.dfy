/**
 What the Nostr client makes of the relays' deliveries (`FetchTorrents`, `FetchProfiles`,
 internal/nostr/client.go). Deliveries are the events of all relays in order of arrival; signature checking
 and reading the JSON of profiles are parameters.
 */
module Client {
  import opened Wrappers
  import opened Catalog
  import opened Nip35
  import opened Magnet
  import Protocol
  import Ingest

  // ---------------------------------------------------------------------------------------------
  // Torrents
  // ---------------------------------------------------------------------------------------------

  predicate Accepted(ev: Event) {
    Title(ev.tags) != "" && IsInfohash(Infohash(ev.tags))
  }

  /** The i-th delivery is the first with its id. */
  predicate FirstArrival(deliveries: seq<Event>, i: nat)
    requires i < |deliveries|
  {
    forall j | 0 <= j < i :: deliveries[j].id != deliveries[i].id
  }

  /** What the client makes of one event: nothing if it is badly signed or no torrent. */
  function Reading(valid: Event -> bool, lib: Lib): Event -> Option<Torrent> {
    ev => if valid(ev) && Accepted(ev) then Some(Entry(ev, lib)) else None
  }

  /** What is handed on of the first n deliveries, in order: the first of each id, if it can be read. */
  function Picked(deliveries: seq<Event>, read: Event -> Option<Torrent>, n: nat): seq<Torrent>
    requires n <= |deliveries|
  {
    if n == 0 then []
    else
      var init, t := Picked(deliveries, read, n - 1), read(deliveries[n - 1]);
      if FirstArrival(deliveries, n - 1) && t.Some? then init + [t.value] else init
  }

  /** The answer of FetchTorrents. */
  function Fetched(deliveries: seq<Event>, valid: Event -> bool, lib: Lib): seq<Torrent> {
    Picked(deliveries, Reading(valid, lib), |deliveries|)
  }

  method FetchTorrents(deliveries: seq<Event>, valid: Event -> bool, lib: Lib) returns (out: seq<Torrent>)
    ensures out == Fetched(deliveries, valid, lib)
  {
    out := Fetch(deliveries, valid, lib, Reading(valid, lib));
  }

  predicate Tells(read: Event -> Option<Torrent>, valid: Event -> bool, lib: Lib, ev: Event) {
    read(ev) == if valid(ev) && Accepted(ev) then Some(Entry(ev, lib)) else None
  }

  method Fetch(deliveries: seq<Event>, valid: Event -> bool, lib: Lib, ghost read: Event -> Option<Torrent>) returns (out: seq<Torrent>)
    requires forall ev :: Tells(read, valid, lib, ev)
    ensures out == Picked(deliveries, read, |deliveries|)
  {
    out := [];
    var seen: set<string> := {};
    for i := 0 to |deliveries|
      invariant seen == set j | 0 <= j < i :: deliveries[j].id
      invariant out == Picked(deliveries, read, i)
    {
      var ev := deliveries[i];
      PickedStep(deliveries, read, i);
      if ev.id in seen {
        continue;
      }
      seen := seen + {ev.id};
      var t := Checked(ev, valid, lib, read);
      if t.None? {
        continue;
      }
      out := out + [t.value];
    }
  }

  /** Signature, then parsing; what fails is only logged. */
  method Checked(ev: Event, valid: Event -> bool, lib: Lib, ghost read: Event -> Option<Torrent>) returns (r: Option<Torrent>)
    requires forall e :: Tells(read, valid, lib, e)
    ensures r == read(ev)
  {
    assert Tells(read, valid, lib, ev);
    if !valid(ev) {
      return None;
    }
    var parsed := ParseTorrent(ev, lib);
    r := if parsed.Ok? then Some(parsed.value) else None;
  }

  lemma PickedStep(deliveries: seq<Event>, read: Event -> Option<Torrent>, i: nat)
    requires i < |deliveries|
    ensures Picked(deliveries, read, i + 1)
            == Picked(deliveries, read, i)
               + if FirstArrival(deliveries, i) && read(deliveries[i]).Some? then [read(deliveries[i]).value] else []
  {
  }

  lemma {:induction false} Source(deliveries: seq<Event>, read: Event -> Option<Torrent>, n: nat, t: Torrent) returns (i: nat)
    requires n <= |deliveries| && t in Picked(deliveries, read, n)
    ensures i < n && FirstArrival(deliveries, i) && read(deliveries[i]) == Some(t)
  {
    if t in Picked(deliveries, read, n - 1) {
      i := Source(deliveries, read, n - 1, t);
    } else {
      i := n - 1;
    }
  }

  lemma {:induction false} PickedHas(deliveries: seq<Event>, read: Event -> Option<Torrent>, n: nat, i: nat, t: Torrent)
    requires i < n <= |deliveries| && FirstArrival(deliveries, i) && read(deliveries[i]) == Some(t)
    ensures t in Picked(deliveries, read, n)
  {
    if i < n - 1 {
      PickedHas(deliveries, read, n - 1, i, t);
    }
  }

  predicate DistinctIds(out: seq<Torrent>) {
    forall j, k | 0 <= j < k < |out| :: out[j].id != out[k].id
  }

  /** Entries go under the id of their event. */
  ghost predicate KeepsIds(read: Event -> Option<Torrent>) {
    forall ev | read(ev).Some? :: read(ev).value.id == ev.id
  }

  lemma ReadingKeepsIds(valid: Event -> bool, lib: Lib)
    ensures KeepsIds(Reading(valid, lib))
  {
    forall ev | Reading(valid, lib)(ev).Some?
      ensures Reading(valid, lib)(ev).value.id == ev.id
    {
      assert Entry(ev, lib).id == ev.id;
    }
  }

  lemma {:induction false} PickedDistinct(deliveries: seq<Event>, read: Event -> Option<Torrent>, n: nat)
    requires n <= |deliveries| && KeepsIds(read)
    ensures DistinctIds(Picked(deliveries, read, n))
  {
    if n > 0 {
      PickedDistinct(deliveries, read, n - 1);
      var out := Picked(deliveries, read, n - 1);
      if FirstArrival(deliveries, n - 1) {
        forall k | 0 <= k < |out|
          ensures out[k].id != deliveries[n - 1].id
        {
          var i := Source(deliveries, read, n - 1, out[k]);
        }
      }
    }
  }

  lemma PickedExactly(deliveries: seq<Event>, read: Event -> Option<Torrent>, i: nat)
    requires i < |deliveries| && FirstArrival(deliveries, i) && KeepsIds(read)
    ensures var out := Picked(deliveries, read, |deliveries|);
            && ((exists t | t in out :: t.id == deliveries[i].id) <==> read(deliveries[i]).Some?)
            && (forall t | t in out && t.id == deliveries[i].id :: Some(t) == read(deliveries[i]))
  {
    var n, out := |deliveries|, Picked(deliveries, read, |deliveries|);
    if read(deliveries[i]).Some? {
      PickedHas(deliveries, read, n, i, read(deliveries[i]).value);
    }
    forall t | t in out && t.id == deliveries[i].id
      ensures Some(t) == read(deliveries[i])
    {
      var j := Source(deliveries, read, n, t);
      assert deliveries[j].id == deliveries[i].id;
      assert j == i;
    }
  }

  /**
   An event's torrent is returned once at most, and exactly when the first delivery with its id is validly
   signed and acceptable: an invalid delivery that arrives first hides the valid ones behind it.
   */
  lemma FetchedExactly(deliveries: seq<Event>, valid: Event -> bool, lib: Lib, i: nat)
    requires i < |deliveries| && FirstArrival(deliveries, i)
    ensures var out := Fetched(deliveries, valid, lib);
            && ((exists t | t in out :: t.id == deliveries[i].id) <==> valid(deliveries[i]) && Accepted(deliveries[i]))
            && (forall t | t in out && t.id == deliveries[i].id :: t == Entry(deliveries[i], lib))
            && DistinctIds(out)
  {
    ReadingKeepsIds(valid, lib);
    PickedExactly(deliveries, Reading(valid, lib), i);
    PickedDistinct(deliveries, Reading(valid, lib), |deliveries|);
  }

  /** A badly signed event under the id of a good one: arriving first, it leaves nothing of that id. */
  lemma HiddenByInvalid(forged: Event, good: Event, valid: Event -> bool, lib: Lib)
    requires forged.id == good.id && !valid(forged) && valid(good) && Accepted(good)
    ensures Fetched([forged, good], valid, lib) == []
    ensures Fetched([good, forged], valid, lib) == [Entry(good, lib)]
  {
    PickedOfTwo(forged, good, Reading(valid, lib));
    PickedOfTwo(good, forged, Reading(valid, lib));
  }

  /** Of two deliveries under one id only the first can be handed on. */
  lemma PickedOfTwo(first: Event, second: Event, read: Event -> Option<Torrent>)
    requires first.id == second.id
    ensures Picked([first, second], read, 2) == if read(first).Some? then [read(first).value] else []
  {
    var d := [first, second];
    assert d[0].id == d[1].id;
    assert !FirstArrival(d, 1) && FirstArrival(d, 0);
    assert Picked(d, read, 0) == [];
    assert Picked(d, read, 2) == Picked(d, read, 1);
  }

  // ---------------------------------------------------------------------------------------------
  // When invalid deliveries are as good as absent
  // ---------------------------------------------------------------------------------------------

  /** The validly signed deliveries among the first n. */
  function ValidOnly(deliveries: seq<Event>, valid: Event -> bool, n: nat): seq<Event>
    requires n <= |deliveries|
  {
    if n == 0 then []
    else if valid(deliveries[n - 1]) then ValidOnly(deliveries, valid, n - 1) + [deliveries[n - 1]]
    else ValidOnly(deliveries, valid, n - 1)
  }

  /** The j-th delivery is the first valid one with its id. */
  predicate FirstValid(deliveries: seq<Event>, valid: Event -> bool, j: nat)
    requires j < |deliveries|
  {
    valid(deliveries[j]) && forall k | 0 <= k < j && deliveries[k].id == deliveries[j].id :: !valid(deliveries[k])
  }

  /** An id arrives invalid first, and the first valid event under it could have been read. */
  predicate Hides(deliveries: seq<Event>, valid: Event -> bool, read: Event -> Option<Torrent>, i: int, j: int) {
    && 0 <= i < |deliveries| && 0 <= j < |deliveries| && deliveries[i].id == deliveries[j].id
    && FirstArrival(deliveries, i) && !valid(deliveries[i])
    && FirstValid(deliveries, valid, j) && read(deliveries[j]).Some?
  }

  lemma {:induction false} PickedPrefix(deliveries: seq<Event>, more: seq<Event>, read: Event -> Option<Torrent>, n: nat)
    requires n <= |deliveries|
    ensures Picked(deliveries + more, read, n) == Picked(deliveries, read, n)
  {
    if n > 0 {
      PickedPrefix(deliveries, more, read, n - 1);
      assert forall j | 0 <= j < n :: (deliveries + more)[j] == deliveries[j];
      PickedStep(deliveries, read, n - 1);
      PickedStep(deliveries + more, read, n - 1);
      FirstInPrefix(deliveries, more, n - 1);
    }
  }

  lemma FirstInPrefix(deliveries: seq<Event>, more: seq<Event>, i: nat)
    requires i < |deliveries|
    ensures FirstArrival(deliveries + more, i) <==> FirstArrival(deliveries, i)
  {
    var all := deliveries + more;
    assert forall j | 0 <= j <= i :: all[j] == deliveries[j];
    if FirstArrival(all, i) {
      forall j | 0 <= j < i
        ensures deliveries[j].id != deliveries[i].id
      {
        assert all[j].id != all[i].id;
      }
    }
  }

  lemma {:induction false} ValidMembers(deliveries: seq<Event>, valid: Event -> bool, n: nat, ev: Event)
    requires n <= |deliveries|
    ensures ev in ValidOnly(deliveries, valid, n) <==> exists k | 0 <= k < n :: deliveries[k] == ev && valid(ev)
  {
    if n > 0 {
      ValidMembers(deliveries, valid, n - 1, ev);
    }
  }

  /** A delivery is the first of its id among the valid ones exactly if it is the first valid one. */
  lemma FirstAmongValid(deliveries: seq<Event>, valid: Event -> bool, n: nat)
    requires n < |deliveries| && valid(deliveries[n])
    ensures var init, ev := ValidOnly(deliveries, valid, n), deliveries[n];
            FirstArrival(init + [ev], |init|) <==> FirstValid(deliveries, valid, n)
  {
    var init, ev := ValidOnly(deliveries, valid, n), deliveries[n];
    if k :| 0 <= k < n && deliveries[k].id == ev.id && valid(deliveries[k]) {
      ValidMembers(deliveries, valid, n, deliveries[k]);
      var m :| 0 <= m < |init| && init[m] == deliveries[k];
      assert (init + [ev])[m].id == (init + [ev])[|init|].id;
    } else {
      forall m | 0 <= m < |init|
        ensures (init + [ev])[m].id != ev.id
      {
        ValidMembers(deliveries, valid, n, init[m]);
      }
    }
  }

  /** One more valid delivery, among the valid ones. */
  lemma PickedValidStep(deliveries: seq<Event>, valid: Event -> bool, read: Event -> Option<Torrent>, n: nat)
    requires n < |deliveries| && valid(deliveries[n])
    ensures var init, ev := ValidOnly(deliveries, valid, n), deliveries[n];
            Picked(init + [ev], read, |init| + 1)
            == Picked(init, read, |init|) + if FirstValid(deliveries, valid, n) && read(ev).Some? then [read(ev).value] else []
  {
    var init, ev := ValidOnly(deliveries, valid, n), deliveries[n];
    FirstAmongValid(deliveries, valid, n);
    PickedStep(init + [ev], read, |init|);
    PickedPrefix(init, [ev], read, |init|);
  }

  lemma {:induction false} PickedOfValid(deliveries: seq<Event>, valid: Event -> bool, read: Event -> Option<Torrent>, n: nat)
    requires n <= |deliveries| && forall ev | !valid(ev) :: read(ev).None?
    requires forall i, j :: !Hides(deliveries, valid, read, i, j)
    ensures Picked(deliveries, read, n) == Picked(ValidOnly(deliveries, valid, n), read, |ValidOnly(deliveries, valid, n)|)
  {
    if n > 0 {
      PickedOfValid(deliveries, valid, read, n - 1);
      PickedStep(deliveries, read, n - 1);
      if valid(deliveries[n - 1]) {
        PickedValidStep(deliveries, valid, read, n - 1);
        if read(deliveries[n - 1]).Some? && FirstValid(deliveries, valid, n - 1) && !FirstArrival(deliveries, n - 1) {
          var i := HiddenBy(deliveries, valid, read, n - 1);
        }
      }
    }
  }

  /** What could be read, is the first valid one, and is not the first of its id, is hidden. */
  lemma HiddenBy(deliveries: seq<Event>, valid: Event -> bool, read: Event -> Option<Torrent>, n: nat) returns (i: nat)
    requires n < |deliveries| && read(deliveries[n]).Some?
    requires FirstValid(deliveries, valid, n) && !FirstArrival(deliveries, n)
    ensures Hides(deliveries, valid, read, i, n)
  {
    i := Earliest(deliveries, n);
  }

  lemma {:induction false} Earliest(deliveries: seq<Event>, n: nat) returns (i: nat)
    requires n < |deliveries|
    ensures i <= n && deliveries[i].id == deliveries[n].id && FirstArrival(deliveries, i)
  {
    if k :| 0 <= k < n && deliveries[k].id == deliveries[n].id {
      i := Earliest(deliveries, k);
    } else {
      i := n;
    }
  }

  lemma {:induction false} InValid(deliveries: seq<Event>, valid: Event -> bool, read: Event -> Option<Torrent>, n: nat, j: nat)
    requires j < n <= |deliveries| && FirstValid(deliveries, valid, j) && read(deliveries[j]).Some?
    ensures var all := ValidOnly(deliveries, valid, n); read(deliveries[j]).value in Picked(all, read, |all|)
  {
    if j == n - 1 {
      PickedValidStep(deliveries, valid, read, j);
    } else {
      InValid(deliveries, valid, read, n - 1, j);
      if valid(deliveries[n - 1]) {
        PickedValidStep(deliveries, valid, read, n - 1);
      }
    }
  }

  /**
   Badly signed events are ignored, that is the answer is the one without them, exactly when no id that arrives
   invalid first has a first valid event that is a torrent.
   */
  lemma IgnoredExactly(deliveries: seq<Event>, valid: Event -> bool, lib: Lib)
    ensures Fetched(deliveries, valid, lib) == Fetched(ValidOnly(deliveries, valid, |deliveries|), valid, lib)
            <==> forall i, j :: !Hides(deliveries, valid, Reading(valid, lib), i, j)
    ensures forall ev :: Reading(valid, lib)(ev).Some? <==> valid(ev) && Accepted(ev)
  {
    var read := Reading(valid, lib);
    ReadingKeepsIds(valid, lib);
    PickedIgnores(deliveries, valid, read);
  }

  lemma PickedIgnores(deliveries: seq<Event>, valid: Event -> bool, read: Event -> Option<Torrent>)
    requires KeepsIds(read) && forall ev | !valid(ev) :: read(ev).None?
    ensures var all := ValidOnly(deliveries, valid, |deliveries|);
            Picked(deliveries, read, |deliveries|) == Picked(all, read, |all|)
            <==> forall i, j :: !Hides(deliveries, valid, read, i, j)
  {
    if forall i, j :: !Hides(deliveries, valid, read, i, j) {
      PickedOfValid(deliveries, valid, read, |deliveries|);
    } else {
      var i, j :| Hides(deliveries, valid, read, i, j);
      InValid(deliveries, valid, read, |deliveries|, j);
      PickedExactly(deliveries, read, i);
      assert read(deliveries[j]).value.id == deliveries[i].id;
    }
  }

  // ---------------------------------------------------------------------------------------------
  // The answers are what the protocol assumes of them
  // ---------------------------------------------------------------------------------------------

  /** A parsed entry has the size the protocol takes published events to have. */
  lemma EntryIsWellSized(ev: Event, lib: Lib)
    ensures Protocol.WellSized(Entry(ev, lib))
  {
  }

  /** The relay sends what the filter asks for. */
  predicate Filtered(deliveries: seq<Event>, author: string, since: int) {
    forall ev | ev in deliveries :: ev.pubkey == author && (since > 0 ==> ev.createdAt >= since)
  }

  /** Every good event delivered has been published. */
  ghost predicate Authentic(deliveries: seq<Event>, valid: Event -> bool, lib: Lib, published: set<Torrent>) {
    forall ev | ev in deliveries && valid(ev) && Accepted(ev) :: Entry(ev, lib) in published
  }

  /** What the client makes of filtered deliveries is an answer the state machine admits. */
  lemma AnswerMatches(
      deliveries: seq<Event>, profiles: seq<Event>, valid: Event -> bool, lib: Lib, meta: string -> Option<Meta>,
      published: set<Torrent>, author: string, since: int, w: Ingest.Weather)
    requires Filtered(deliveries, author, since) && Authentic(deliveries, valid, lib, published)
    requires w.torrents == Fetched(deliveries, valid, lib)
    requires w.profiles == ProfilesOf(profiles, valid, meta, author, |profiles|)
    ensures Ingest.Matches(published, author, since, w)
  {
    forall t | t in w.torrents
      ensures t in published && t.pubkey == author && (since > 0 ==> t.publishedAt >= since)
    {
      var i := Source(deliveries, Reading(valid, lib), |deliveries|, t);
      EntryOf(deliveries[i], valid, lib, t);
      assert deliveries[i] in deliveries;
    }
    ProfilesAreBy(profiles, valid, meta, author, |profiles|);
  }

  lemma EntryOf(ev: Event, valid: Event -> bool, lib: Lib, t: Torrent)
    requires Reading(valid, lib)(ev) == Some(t)
    ensures valid(ev) && Accepted(ev) && t == Entry(ev, lib) && t.pubkey == ev.pubkey && t.publishedAt == ev.createdAt
  {
    assert Entry(ev, lib).pubkey == ev.pubkey && Entry(ev, lib).publishedAt == ev.createdAt;
  }

  lemma {:induction false} ProfilesAreBy(deliveries: seq<Event>, valid: Event -> bool, meta: string -> Option<Meta>, author: string, n: nat)
    requires n <= |deliveries|
    ensures forall p | p in ProfilesOf(deliveries, valid, meta, author, n) :: p.pubkey == author
  {
    if n > 0 {
      ProfilesAreBy(deliveries, valid, meta, author, n - 1);
    }
  }

  // ---------------------------------------------------------------------------------------------
  // Profiles
  // ---------------------------------------------------------------------------------------------

  /** The event FetchProfiles keeps of one author among the first n deliveries. */
  function Latest(deliveries: seq<Event>, valid: Event -> bool, author: string, n: nat): Option<Event>
    requires n <= |deliveries|
  {
    if n == 0 then None
    else
      var cur, ev := Latest(deliveries, valid, author, n - 1), deliveries[n - 1];
      if valid(ev) && ev.pubkey == author && (cur.None? || ev.createdAt > cur.value.createdAt) then Some(ev) else cur
  }

  /** What the JSON of a profile event holds. */
  datatype Meta = Meta(name: string, displayName: string, picture: string, nip05: string)

  /** The profile an event stands for, if its content can be read. */
  function ProfileOf(ev: Event, meta: string -> Option<Meta>): Option<Profile> {
    match meta(ev.content)
    case None => None
    case Some(m) => Some(Profile(ev.pubkey, m.name, m.displayName, m.picture, m.nip05, ev.createdAt))
  }

  /** An unreadable newest event leaves the author without a profile, whatever came before it. */
  function Chosen(deliveries: seq<Event>, valid: Event -> bool, meta: string -> Option<Meta>, author: string): Option<Profile> {
    match Latest(deliveries, valid, author, |deliveries|)
    case None => None
    case Some(ev) => ProfileOf(ev, meta)
  }

  predicate OnePerAuthor(out: seq<Profile>) {
    forall j, k | 0 <= j < k < |out| :: out[j].pubkey != out[k].pubkey
  }

  method FetchProfiles(deliveries: seq<Event>, valid: Event -> bool, meta: string -> Option<Meta>) returns (out: seq<Profile>)
    ensures forall p :: p in out <==> exists author :: Chosen(deliveries, valid, meta, author) == Some(p)
    ensures forall p :: p in out <==> exists k :: NewestOf(deliveries, valid, p.pubkey, k) && Describes(deliveries[k], meta, p)
    ensures OnePerAuthor(out)
  {
    forall p {
      ChosenMeans(deliveries, valid, meta, p);
    }
    var latest: map<string, Event> := map[];
    for i := 0 to |deliveries|
      invariant forall author ::
          Latest(deliveries, valid, author, i) == if author in latest then Some(latest[author]) else None
      invariant forall author | author in latest :: latest[author].pubkey == author
    {
      var ev := deliveries[i];
      if !valid(ev) {
        continue;
      }
      if ev.pubkey !in latest || ev.createdAt > latest[ev.pubkey].createdAt {
        latest := latest[ev.pubkey := ev];
      }
    }
    out := ReadAll(latest, meta);
    assert forall author ::
        Chosen(deliveries, valid, meta, author) == if author in latest then ProfileOf(latest[author], meta) else None;
  }

  method ReadAll(latest: map<string, Event>, meta: string -> Option<Meta>) returns (out: seq<Profile>)
    requires forall author | author in latest :: latest[author].pubkey == author
    ensures forall p :: p in out <==> exists author | author in latest :: ProfileOf(latest[author], meta) == Some(p)
    ensures OnePerAuthor(out)
  {
    out := [];
    var left := latest.Keys;
    while left != {}
      invariant left <= latest.Keys
      invariant forall p :: p in out <==> exists author | author in latest && author !in left :: ProfileOf(latest[author], meta) == Some(p)
      invariant OnePerAuthor(out) && forall p | p in out :: p.pubkey !in left
    {
      var author :| author in left;
      left := left - {author};
      match ProfileOf(latest[author], meta)
      case None =>
      case Some(p) => out := out + [p];
    }
  }

  /** It is the newest valid event of the author, and the first to arrive of equally new ones. */
  lemma {:induction false} LatestIsNewest(deliveries: seq<Event>, valid: Event -> bool, author: string, n: nat)
    requires n <= |deliveries|
    ensures var e := Latest(deliveries, valid, author, n);
            if e.None? then forall i | 0 <= i < n :: !(valid(deliveries[i]) && deliveries[i].pubkey == author)
            else exists k | 0 <= k < n ::
              && deliveries[k] == e.value && valid(e.value) && e.value.pubkey == author
              && forall i | 0 <= i < n && valid(deliveries[i]) && deliveries[i].pubkey == author ::
                   deliveries[i].createdAt <= e.value.createdAt && (i < k ==> deliveries[i].createdAt < e.value.createdAt)
  {
    if n > 0 {
      LatestIsNewest(deliveries, valid, author, n - 1);
      var cur, ev := Latest(deliveries, valid, author, n - 1), deliveries[n - 1];
      if valid(ev) && ev.pubkey == author && (cur.None? || ev.createdAt > cur.value.createdAt) {
        assert deliveries[n - 1] == ev;
      }
    }
  }

  /** The k-th delivery is valid and the author's, none of those is newer, and those as new arrive later. */
  predicate NewestOf(deliveries: seq<Event>, valid: Event -> bool, author: string, k: int) {
    && 0 <= k < |deliveries| && valid(deliveries[k]) && deliveries[k].pubkey == author
    && forall i | 0 <= i < |deliveries| && valid(deliveries[i]) && deliveries[i].pubkey == author ::
         deliveries[i].createdAt <= deliveries[k].createdAt && (i < k ==> deliveries[i].createdAt < deliveries[k].createdAt)
  }

  /** The profile is dated as the event and holds the four texts of its content. */
  predicate Describes(ev: Event, meta: string -> Option<Meta>, p: Profile) {
    && p.updatedAt == ev.createdAt && meta(ev.content).Some?
    && var m := meta(ev.content).value;
       p.name == m.name && p.displayName == m.displayName && p.picture == m.picture && p.nip05 == m.nip05
  }

  lemma ChosenMeans(deliveries: seq<Event>, valid: Event -> bool, meta: string -> Option<Meta>, p: Profile)
    ensures (exists author :: Chosen(deliveries, valid, meta, author) == Some(p))
            <==> exists k :: NewestOf(deliveries, valid, p.pubkey, k) && Describes(deliveries[k], meta, p)
  {
    if author :| Chosen(deliveries, valid, meta, author) == Some(p) {
      var k := LatestAt(deliveries, valid, author);
      assert NewestOf(deliveries, valid, p.pubkey, k) && Describes(deliveries[k], meta, p);
    }
    if k :| NewestOf(deliveries, valid, p.pubkey, k) && Describes(deliveries[k], meta, p) {
      LatestIsNewest(deliveries, valid, p.pubkey, |deliveries|);
      var j := LatestAt(deliveries, valid, p.pubkey);
      assert j == k;
      assert Chosen(deliveries, valid, meta, p.pubkey) == Some(p);
    }
  }

  lemma LatestAt(deliveries: seq<Event>, valid: Event -> bool, author: string) returns (k: int)
    requires Latest(deliveries, valid, author, |deliveries|).Some?
    ensures NewestOf(deliveries, valid, author, k) && Latest(deliveries, valid, author, |deliveries|) == Some(deliveries[k])
  {
    LatestIsNewest(deliveries, valid, author, |deliveries|);
    var e := Latest(deliveries, valid, author, |deliveries|).value;
    k :| 0 <= k < |deliveries| && deliveries[k] == e
         && forall i | 0 <= i < |deliveries| && valid(deliveries[i]) && deliveries[i].pubkey == author ::
              deliveries[i].createdAt <= e.createdAt && (i < k ==> deliveries[i].createdAt < e.createdAt);
  }

  /** The valid profile events of one author that can be read. */
  function ProfilesOf(deliveries: seq<Event>, valid: Event -> bool, meta: string -> Option<Meta>, author: string, n: nat): seq<Profile>
    requires n <= |deliveries|
  {
    if n == 0 then []
    else
      var init, ev := ProfilesOf(deliveries, valid, meta, author, n - 1), deliveries[n - 1];
      if valid(ev) && ev.pubkey == author && ProfileOf(ev, meta).Some? then init + [ProfileOf(ev, meta).value] else init
  }

  /**
   The protocol's choice among the readable profiles is the client's, unless the author's newest event cannot
   be read: then the client keeps none, and the protocol takes the answer as empty.
   */
  lemma {:induction false} LatestIsProtocols(deliveries: seq<Event>, valid: Event -> bool, meta: string -> Option<Meta>, author: string, n: nat)
    requires n <= |deliveries|
    ensures var e, newest := Latest(deliveries, valid, author, n), Protocol.Newest(ProfilesOf(deliveries, valid, meta, author, n));
            if e.None? then newest == []
            else if ProfileOf(e.value, meta).Some? then newest == [ProfileOf(e.value, meta).value]
            else forall p | p in newest :: p.updatedAt <= e.value.createdAt
  {
    if n > 0 {
      LatestIsProtocols(deliveries, valid, meta, author, n - 1);
      var init, ev := ProfilesOf(deliveries, valid, meta, author, n - 1), deliveries[n - 1];
      if valid(ev) && ev.pubkey == author && ProfileOf(ev, meta).Some? {
        NewestSnoc(init, ProfileOf(ev, meta).value);
      }
    }
  }

  lemma NewestSnoc(init: seq<Profile>, last: Profile)
    ensures var cur := Protocol.Newest(init);
            Protocol.Newest(init + [last]) == if cur == [] || last.updatedAt > cur[0].updatedAt then [last] else cur
  {
    assert (init + [last])[..|init|] == init;
  }
}
