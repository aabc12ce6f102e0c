/**
 The live subscription manager (`LiveSync` and its `reload`, internal/ingest/live.go): the subscription is
 replaced when, and only when, the enabled relays or accounts have changed.
 */
module Live {
  import opened Wrappers
  import opened Catalog
  import opened Database

  // ---------------------------------------------------------------------------------------------
  // sort.Strings
  // ---------------------------------------------------------------------------------------------

  predicate Leq(a: string, b: string) {
    a == "" || (b != "" && (a[0] < b[0] || (a[0] == b[0] && Leq(a[1..], b[1..]))))
  }

  lemma {:induction false} LeqTotal(a: string, b: string)
    ensures Leq(a, b) || Leq(b, a)
    ensures Leq(a, b) && Leq(b, a) ==> a == b
  {
    if a != "" && b != "" && a[0] == b[0] {
      LeqTotal(a[1..], b[1..]);
      assert a == [a[0]] + a[1..] && b == [b[0]] + b[1..];
    }
  }

  lemma {:induction false} LeqTransitive(a: string, b: string, c: string)
    requires Leq(a, b) && Leq(b, c)
    ensures Leq(a, c)
  {
    if a != "" && a[0] == b[0] && b[0] == c[0] {
      LeqTransitive(a[1..], b[1..], c[1..]);
    }
  }

  ghost predicate IsSorted(s: seq<string>) {
    forall i, j | 0 <= i < j < |s| :: Leq(s[i], s[j])
  }

  function Insert(s: seq<string>, x: string): seq<string> {
    if s == [] || Leq(x, s[0]) then [x] + s else [s[0]] + Insert(s[1..], x)
  }

  function Sort(s: seq<string>): seq<string> {
    if s == [] then [] else Insert(Sort(s[1..]), s[0])
  }

  lemma {:induction false} InsertSorts(s: seq<string>, x: string)
    requires IsSorted(s)
    ensures IsSorted(Insert(s, x)) && multiset(Insert(s, x)) == multiset(s) + multiset{x}
  {
    if s != [] {
      assert s == [s[0]] + s[1..];
      if Leq(x, s[0]) {
        ConsSorted(x, s);
      } else {
        LeqTotal(x, s[0]);
        InsertSorts(s[1..], x);
        forall y | y in Insert(s[1..], x)
          ensures Leq(s[0], y)
        {
          assert y in multiset(Insert(s[1..], x));
        }
        Prepended(s[0], Insert(s[1..], x));
      }
    }
  }

  lemma ConsSorted(x: string, s: seq<string>)
    requires IsSorted(s) && s != [] && Leq(x, s[0])
    ensures IsSorted([x] + s)
  {
    forall j | 0 <= j < |s|
      ensures Leq(x, s[j])
    {
      if j > 0 {
        LeqTransitive(x, s[0], s[j]);
      }
    }
  }

  lemma Prepended(x: string, s: seq<string>)
    requires IsSorted(s) && forall y | y in s :: Leq(x, y)
    ensures IsSorted([x] + s)
  {
  }

  lemma {:induction false} SortSorts(s: seq<string>)
    ensures IsSorted(Sort(s)) && multiset(Sort(s)) == multiset(s)
  {
    if s != [] {
      SortSorts(s[1..]);
      InsertSorts(Sort(s[1..]), s[0]);
      assert s == [s[0]] + s[1..];
    }
  }

  /** A collection of strings has one sorted arrangement. */
  lemma {:induction false} SortedUnique(a: seq<string>, b: seq<string>)
    requires IsSorted(a) && IsSorted(b) && multiset(a) == multiset(b)
    ensures a == b
  {
    assert |a| == |multiset(a)| == |multiset(b)| == |b|;
    if a != [] {
      SameHead(a, b);
      TailBag(a);
      TailBag(b);
      SortedUnique(a[1..], b[1..]);
      assert a == [a[0]] + a[1..] && b == [b[0]] + b[1..];
    }
  }

  lemma SameHead(a: seq<string>, b: seq<string>)
    requires IsSorted(a) && IsSorted(b) && multiset(a) == multiset(b) && a != [] && b != []
    ensures a[0] == b[0]
  {
    assert a[0] in multiset(b) && b[0] in multiset(a);
    HeadLeast(a, b[0]);
    HeadLeast(b, a[0]);
    LeqTotal(a[0], b[0]);
  }

  lemma TailBag(a: seq<string>)
    requires a != []
    ensures multiset(a[1..]) == multiset(a) - multiset{a[0]}
  {
    assert a == [a[0]] + a[1..];
  }

  lemma HeadLeast(a: seq<string>, x: string)
    requires IsSorted(a) && x in a
    ensures Leq(a[0], x)
  {
    LeqTotal(x, x);
  }

  lemma SortCanonical(a: seq<string>, b: seq<string>)
    ensures Sort(a) == Sort(b) <==> multiset(a) == multiset(b)
  {
    SortSorts(a);
    SortSorts(b);
    if multiset(a) == multiset(b) {
      SortedUnique(Sort(a), Sort(b));
    }
  }

  // ---------------------------------------------------------------------------------------------
  // The change key
  // ---------------------------------------------------------------------------------------------

  function Join(parts: seq<string>): string {
    if parts == [] then ""
    else if |parts| == 1 then parts[0]
    else parts[0] + "," + Join(parts[1..])
  }

  function Key(relays: seq<string>, authors: seq<string>): string {
    Join(relays) + "|" + Join(authors)
  }

  predicate CommaFree(parts: seq<string>) {
    forall p | p in parts :: p != "" && ',' !in p
  }

  predicate IsHexKey(a: string) {
    |a| == 64 && forall i | 0 <= i < 64 :: '0' <= a[i] <= '9' || 'a' <= a[i] <= 'f'
  }

  predicate AllHexKeys(authors: seq<string>) {
    forall a | a in authors :: IsHexKey(a)
  }

  lemma CutAtLast(x: string, y: string, x': string, y': string, c: char)
    requires c !in y && c !in y' && x + [c] + y == x' + [c] + y'
    ensures x == x' && y == y'
  {
    var s := x + [c] + y;
    assert s[|x|] == c && forall i | |x| < i < |s| :: s[i] == y[i - |x| - 1] && s[i] != c;
    assert s[|x'|] == c && forall i | |x'| < i < |s| :: s[i] == y'[i - |x'| - 1] && s[i] != c;
    assert x == s[..|x|] && x' == s[..|x'|];
    assert y == s[|x| + 1..] && y' == s[|x'| + 1..];
  }

  /** The comma-separated pieces of a string. */
  function Pieces(s: string): (pieces: seq<string>)
    ensures pieces != []
  {
    if s == "" then [""]
    else
      PutInFront(s[0], Pieces(s[1..]))
  }

  /** The pieces of all the URLs, in order. */
  function Flat(urls: seq<string>): seq<string> {
    if urls == [] then [] else Pieces(urls[0]) + Flat(urls[1..])
  }

  lemma {:induction false} PiecesSplit(a: string, b: string)
    ensures Pieces(a + "," + b) == Pieces(a) + Pieces(b)
  {
    var s := a + "," + b;
    if a == "" {
      assert s[0] == ',' && s[1..] == b;
    } else {
      PiecesSplit(a[1..], b);
      assert s[0] == a[0] && s[1..] == a[1..] + "," + b;
      PutBefore(a[0], Pieces(a[1..]), Pieces(b));
    }
  }

  /** What one more character in front does to the pieces. */
  function PutInFront(c: char, rest: seq<string>): seq<string>
    requires rest != []
  {
    if c == ',' then [""] + rest else [[c] + rest[0]] + rest[1..]
  }

  lemma PutBefore(c: char, a: seq<string>, b: seq<string>)
    requires a != []
    ensures PutInFront(c, a + b) == PutInFront(c, a) + b
  {
    assert (a + b)[1..] == a[1..] + b;
  }

  /** The joined text has the pieces of its parts, however many commas they hold. */
  lemma {:induction false} PiecesOfJoin(urls: seq<string>)
    requires urls != []
    ensures Pieces(Join(urls)) == Flat(urls)
  {
    if |urls| == 1 {
      assert Flat(urls[1..]) == [];
      assert Pieces(urls[0]) + [] == Pieces(urls[0]);
    } else {
      PiecesOfJoin(urls[1..]);
      PiecesSplit(urls[0], Join(urls[1..]));
    }
  }

  lemma {:induction false} PiecesSpell(s: string)
    ensures Join(Pieces(s)) == s
  {
    if s != "" {
      var rest := Pieces(s[1..]);
      PiecesSpell(s[1..]);
      if s[0] == ',' {
        assert ([""] + rest)[1..] == rest;
        assert s == "" + "," + s[1..];
      } else {
        JoinHead(s[0], rest);
        assert s == [s[0]] + s[1..];
      }
    }
  }

  lemma JoinHead(c: char, parts: seq<string>)
    requires parts != []
    ensures Join([[c] + parts[0]] + parts[1..]) == [c] + Join(parts)
  {
    assert ([[c] + parts[0]] + parts[1..])[1..] == parts[1..];
  }

  /** Joined lists of non-empty URLs are the same text exactly when they have the same pieces. */
  lemma JoinExactly(a: seq<string>, b: seq<string>)
    requires "" !in a && "" !in b
    ensures Join(a) == Join(b) <==> Flat(a) == Flat(b)
  {
    JoinNotEmpty(a);
    JoinNotEmpty(b);
    if a != [] {
      PiecesOfJoin(a);
      PiecesSpell(Join(a));
    }
    if b != [] {
      PiecesOfJoin(b);
      PiecesSpell(Join(b));
    }
  }

  lemma JoinNotEmpty(a: seq<string>)
    requires "" !in a
    ensures Join(a) == "" <==> a == []
    ensures Flat(a) == [] <==> a == []
  {
    if a != [] {
      assert a[0] in a;
    }
  }

  /** URLs without commas are their own pieces. */
  lemma {:induction false} FlatOfCommaFree(urls: seq<string>)
    requires CommaFree(urls)
    ensures Flat(urls) == urls && "" !in urls
  {
    if urls != [] {
      TailIn(urls);
      FlatOfCommaFree(urls[1..]);
      OnePiece(urls[0]);
      assert urls == [urls[0]] + urls[1..];
    }
  }

  lemma {:induction false} OnePiece(s: string)
    requires ',' !in s
    ensures Pieces(s) == [s]
  {
    if s != "" {
      OnePiece(s[1..]);
      assert s == [s[0]] + s[1..];
    }
  }

  lemma {:induction false} JoinOfKeys(authors: seq<string>)
    requires AllHexKeys(authors)
    ensures '|' !in Join(authors) && CommaFree(authors)
  {
    forall a | a in authors
      ensures '|' !in a && ',' !in a && a != ""
    {
      HexKeyClean(a);
    }
    if |authors| > 1 {
      TailIn(authors);
      JoinOfKeys(authors[1..]);
    } else if |authors| == 1 {
      TailIn(authors);
    }
  }

  lemma HexKeyClean(a: string)
    requires IsHexKey(a)
    ensures '|' !in a && ',' !in a && a != ""
  {
  }

  lemma TailIn(s: seq<string>)
    requires s != []
    ensures s[0] in s && forall p | p in s[1..] :: p in s
  {
  }

  /** The sorted relays of two configurations fall into the same pieces, and the accounts are the same. */
  ghost predicate SamePieces(relays: seq<string>, authors: seq<string>, relays': seq<string>, authors': seq<string>) {
    Flat(Sort(relays)) == Flat(Sort(relays')) && multiset(authors) == multiset(authors')
  }

  /** What a key tells, exactly: the accounts, and the relays up to where commas separate them. */
  lemma KeyExactly(relays: seq<string>, authors: seq<string>, relays': seq<string>, authors': seq<string>)
    requires "" !in relays && "" !in relays' && AllHexKeys(authors) && AllHexKeys(authors')
    ensures Key(Sort(relays), Sort(authors)) == Key(Sort(relays'), Sort(authors'))
            <==> SamePieces(relays, authors, relays', authors')
  {
    SortMembers(relays);
    SortMembers(relays');
    JoinExactly(Sort(relays), Sort(relays'));
    AuthorsOfKey(authors, authors');
    if Key(Sort(relays), Sort(authors)) == Key(Sort(relays'), Sort(authors')) {
      CutAtLast(Join(Sort(relays)), Join(Sort(authors)), Join(Sort(relays')), Join(Sort(authors')), '|');
    }
  }

  /** Hex keys hold neither separator, so their part of the key tells them exactly. */
  lemma AuthorsOfKey(authors: seq<string>, authors': seq<string>)
    requires AllHexKeys(authors) && AllHexKeys(authors')
    ensures '|' !in Join(Sort(authors)) && '|' !in Join(Sort(authors'))
    ensures Join(Sort(authors)) == Join(Sort(authors')) <==> multiset(authors) == multiset(authors')
  {
    SortMembers(authors);
    SortMembers(authors');
    JoinOfKeys(Sort(authors));
    JoinOfKeys(Sort(authors'));
    FlatOfCommaFree(Sort(authors));
    FlatOfCommaFree(Sort(authors'));
    JoinExactly(Sort(authors), Sort(authors'));
    SortCanonical(authors, authors');
  }

  /**
   For URLs without commas, two configurations have the same key exactly when they have the same relays and
   the same accounts, in any row order.
   */
  lemma KeySound(relays: seq<string>, authors: seq<string>, relays': seq<string>, authors': seq<string>)
    requires CommaFree(relays) && CommaFree(relays') && AllHexKeys(authors) && AllHexKeys(authors')
    ensures Key(Sort(relays), Sort(authors)) == Key(Sort(relays'), Sort(authors'))
            <==> multiset(relays) == multiset(relays') && multiset(authors) == multiset(authors')
  {
    KeyExactly(relays, authors, relays', authors');
    SortMembers(relays);
    SortMembers(relays');
    FlatOfCommaFree(Sort(relays));
    FlatOfCommaFree(Sort(relays'));
    SortCanonical(relays, relays');
  }

  lemma SortMembers(s: seq<string>)
    ensures forall x :: x in Sort(s) <==> x in s
  {
    SortSorts(s);
    forall x
      ensures x in Sort(s) <==> x in s
    {
      assert x in Sort(s) <==> x in multiset(Sort(s));
      assert x in s <==> x in multiset(s);
    }
  }

  // ---------------------------------------------------------------------------------------------
  // The subscription manager
  // ---------------------------------------------------------------------------------------------

  datatype Config = Config(relays: seq<string>, authors: seq<string>)

  datatype Subscription = Subscription(config: Config, cancelled: bool)

  /** One pass of `reload`: the two lists, or a failed read. */
  datatype Reading = Failed | Lists(relays: seq<string>, followed: seq<FollowedRow>)

  function EnabledAuthors(followed: seq<FollowedRow>): seq<string> {
    if followed == [] then []
    else
      var init, last := EnabledAuthors(followed[..|followed| - 1]), followed[|followed| - 1];
      if last.account.enabled then init + [last.pubkey] else init
  }

  /** The configuration a reading stands for, in sorted order. */
  function Seen(r: Reading): Config
    requires r.Lists?
  {
    Config(Sort(r.relays), Sort(EnabledAuthors(r.followed)))
  }

  /** How many rows enable this account. */
  function EnabledRows(followed: seq<FollowedRow>, a: string): nat {
    if followed == [] then 0
    else
      var last := followed[|followed| - 1];
      EnabledRows(followed[..|followed| - 1], a) + if last.account.enabled && last.pubkey == a then 1 else 0
  }

  lemma {:induction false} EnabledExactly(followed: seq<FollowedRow>)
    ensures forall a :: a in EnabledAuthors(followed) <==> exists f | f in followed :: f.account.enabled && f.pubkey == a
    ensures forall a :: multiset(EnabledAuthors(followed))[a] == EnabledRows(followed, a)
  {
    if followed != [] {
      var init, last := followed[..|followed| - 1], followed[|followed| - 1];
      EnabledExactly(init);
      assert followed == init + [last];
      forall a
        ensures a in EnabledAuthors(followed) <==> exists f | f in followed :: f.account.enabled && f.pubkey == a
      {
        EnabledSnoc(init, last, a);
      }
    }
  }

  lemma EnabledSnoc(init: seq<FollowedRow>, last: FollowedRow, a: string)
    ensures (exists f | f in init + [last] :: f.account.enabled && f.pubkey == a)
            <==> (exists f | f in init :: f.account.enabled && f.pubkey == a) || (last.account.enabled && last.pubkey == a)
  {
    if f :| f in init + [last] && f.account.enabled && f.pubkey == a {
      assert f in init || f == last;
    }
    if f :| f in init && f.account.enabled && f.pubkey == a {
      assert f in init + [last];
    }
    if last.account.enabled && last.pubkey == a {
      assert last in init + [last];
    }
  }

  /** These are the relays and the enabled accounts of the reading, as often as they are listed. */
  ghost predicate ConfigOf(c: Config, r: Reading)
    requires r.Lists?
  {
    && multiset(c.relays) == multiset(r.relays)
    && (forall a :: a in c.authors <==> exists f | f in r.followed :: f.account.enabled && f.pubkey == a)
    && (forall a :: multiset(c.authors)[a] == EnabledRows(r.followed, a))
  }

  lemma SeenExactly(r: Reading)
    requires r.Lists?
    ensures ConfigOf(Seen(r), r)
  {
    SortSorts(r.relays);
    SortSorts(EnabledAuthors(r.followed));
    SortMembers(EnabledAuthors(r.followed));
    EnabledExactly(r.followed);
  }

  /** One subscription is open, on what was read, if there is a relay and an enabled account; otherwise none. */
  ghost predicate Subscribes(subs: seq<Subscription>, r: Reading)
    requires r.Lists?
  {
    && ((exists i | 0 <= i < |subs| :: !subs[i].cancelled)
        <==> r.relays != [] && exists f | f in r.followed :: f.account.enabled)
    && (forall i | 0 <= i < |subs| && !subs[i].cancelled :: ConfigOf(subs[i].config, r))
    && (forall i, j | 0 <= i < j < |subs| :: subs[i].cancelled || subs[j].cancelled)
  }

  /** The one open subscription, if any, carries what was seen. */
  lemma SubscribesSeen(subs: seq<Subscription>, open: Option<nat>, r: Reading)
    requires r.Lists? && (open.Some? <==> Active(Seen(r)))
    requires open.Some? ==> open.value < |subs| && subs[open.value] == Subscription(Seen(r), false)
    requires forall i | 0 <= i < |subs| && open != Some(i) :: subs[i].cancelled
    ensures Subscribes(subs, r)
  {
    SeenExactly(r);
    ActiveExactly(r);
    if open.Some? {
      assert !subs[open.value].cancelled;
    }
  }

  lemma ActiveExactly(r: Reading)
    requires r.Lists?
    ensures Active(Seen(r)) <==> r.relays != [] && exists f | f in r.followed :: f.account.enabled
  {
    SeenExactly(r);
    var c := Seen(r);
    assert |multiset(c.relays)| == |multiset(r.relays)|;
    if c.authors != [] {
      assert c.authors[0] in c.authors;
    }
    if f :| f in r.followed && f.account.enabled {
      assert f.pubkey in c.authors;
    }
  }

  predicate Active(c: Config) {
    c.relays != [] && c.authors != []
  }

  method ListEnabled(followed: seq<FollowedRow>) returns (authors: seq<string>)
    ensures authors == EnabledAuthors(followed)
  {
    authors := [];
    for i := 0 to |followed|
      invariant authors == EnabledAuthors(followed[..i])
    {
      assert followed[..i + 1][..i] == followed[..i];
      if followed[i].account.enabled {
        authors := authors + [followed[i].pubkey];
      }
    }
    assert followed[..|followed|] == followed;
  }

  class Manager {
    var lastKey: string
    var subCancel: Option<nat>          // which subscription the stored cancel function closes
    var subs: seq<Subscription>         // every subscription ever opened
    ghost var current: Option<Config>   // the configuration lastKey was computed from

    /** At most one subscription is open, it is the one subCancel closes, and it carries the current configuration. */
    ghost predicate Valid()
      reads this
    {
      && (current.None? ==> lastKey == "" && subCancel.None?)
      && (current.Some? ==> lastKey == Key(current.value.relays, current.value.authors))
      && (subCancel.Some? <==> current.Some? && Active(current.value))
      && (subCancel.Some? ==> subCancel.value < |subs| && subs[subCancel.value] == Subscription(current.value, false))
      && (forall i | 0 <= i < |subs| && subCancel != Some(i) :: subs[i].cancelled)
    }

    constructor ()
      ensures Valid() && current == None && subs == []
    {
      lastKey, subCancel, subs, current := "", None, [], None;
    }

    /** A failed read changes nothing; a new key replaces the subscription; the same key leaves it. */
    method Reload(r: Reading)
      requires Valid()
      modifies this
      ensures Valid() && current == Reloaded(old(current), r)
      ensures r.Lists? ==> current.Some? && lastKey == Key(Seen(r).relays, Seen(r).authors)
      ensures current == old(current) ==> subs == old(subs)
      ensures r.Lists? && lastKey != old(lastKey) ==> Subscribes(subs, r)
      ensures current != old(current) ==> |subs| == |old(subs)| + if Active(current.value) then 1 else 0
      ensures forall i | 0 <= i < |old(subs)| :: i < |subs| && subs[i].config == old(subs)[i].config
    {
      if r.Failed? {
        return;
      }
      var authors := ListEnabled(r.followed);
      authors := Sort(authors);
      var relays := Sort(r.relays);
      var key := Key(relays, authors);
      KeyNotEmpty(relays, authors);
      if key == lastKey {
        return;
      }
      lastKey := key;
      Replace(Config(relays, authors));
      SubscribesSeen(subs, subCancel, r);
    }

    /** The old subscription is cancelled; a new one is opened unless a list is empty. */
    method Replace(config: Config)
      requires lastKey == Key(config.relays, config.authors)
      requires subCancel.Some? ==> subCancel.value < |subs|
      requires forall i | 0 <= i < |subs| && subCancel != Some(i) :: subs[i].cancelled
      modifies this
      ensures Valid() && current == Some(config) && lastKey == old(lastKey)
      ensures |subs| == |old(subs)| + if Active(config) then 1 else 0
      ensures forall i | 0 <= i < |old(subs)| :: i < |subs| && subs[i].config == old(subs)[i].config
    {
      current := Some(config);
      if subCancel.Some? {
        subs := subs[subCancel.value := subs[subCancel.value].(cancelled := true)];
        subCancel := None;
      }
      if |config.relays| == 0 || |config.authors| == 0 {
        return;
      }
      subCancel := Some(|subs|);
      subs := subs + [Subscription(config, false)];
    }

    /** The deferred cancellation when the manager stops. */
    method Stop()
      requires Valid()
      modifies this`subs
      ensures forall i | 0 <= i < |subs| :: subs[i].cancelled
    {
      if subCancel.Some? {
        subs := subs[subCancel.value := subs[subCancel.value].(cancelled := true)];
      }
    }
  }

  /** A key always holds a bar, so the first reload is never skipped. */
  lemma KeyNotEmpty(relays: seq<string>, authors: seq<string>)
    ensures Key(relays, authors) != ""
  {
    assert Key(relays, authors)[|Join(relays)|] == '|';
  }

  /** The configuration in force after a reload. */
  function Reloaded(current: Option<Config>, r: Reading): Option<Config> {
    if r.Failed? || (current.Some? && Key(Seen(r).relays, Seen(r).authors) == Key(current.value.relays, current.value.authors))
    then current else Some(Seen(r))
  }

  /** The configuration in force after a run of reloads, the first first. */
  function InForce(readings: seq<Reading>): Option<Config> {
    if readings == [] then None else Reloaded(InForce(readings[..|readings| - 1]), readings[|readings| - 1])
  }

  /** What the command line lets in: URLs are not empty, accounts are 64-digit hex keys. */
  predicate WellFormed(r: Reading) {
    r.Lists? ==> "" !in r.relays && AllHexKeys(EnabledAuthors(r.followed))
  }

  function LastRead(readings: seq<Reading>): Option<Config> {
    if readings == [] then None
    else if readings[|readings| - 1].Lists? then Some(Seen(readings[|readings| - 1]))
    else LastRead(readings[..|readings| - 1])
  }

  /** Two readings the key does not tell apart. */
  ghost predicate Alike(r: Reading, r': Reading)
    requires r.Lists? && r'.Lists?
  {
    SamePieces(r.relays, EnabledAuthors(r.followed), r'.relays, EnabledAuthors(r'.followed))
  }

  lemma SameSeen(r: Reading, r': Reading)
    requires r.Lists? && r'.Lists?
    ensures Seen(r) == Seen(r')
            <==> multiset(r.relays) == multiset(r'.relays)
                 && multiset(EnabledAuthors(r.followed)) == multiset(EnabledAuthors(r'.followed))
  {
    SortCanonical(r.relays, r'.relays);
    SortCanonical(EnabledAuthors(r.followed), EnabledAuthors(r'.followed));
  }

  lemma KeyOfReadings(r: Reading, r': Reading)
    requires r.Lists? && r'.Lists? && WellFormed(r) && WellFormed(r')
    ensures Key(Seen(r).relays, Seen(r).authors) == Key(Seen(r').relays, Seen(r').authors) <==> Alike(r, r')
  {
    KeyExactly(r.relays, EnabledAuthors(r.followed), r'.relays, EnabledAuthors(r'.followed));
  }

  /** A reload is wrongly skipped exactly when the relays changed but not the pieces they fall into. */
  lemma WronglySkipped(before: Reading, r: Reading)
    requires before.Lists? && r.Lists? && WellFormed(before) && WellFormed(r)
    ensures Reloaded(Some(Seen(before)), r) != Some(Seen(r))
            <==> Alike(before, r) && multiset(before.relays) != multiset(r.relays)
  {
    KeyOfReadings(before, r);
    SameSeen(before, r);
  }

  /** The reading in force and the last one read; the key does not tell them apart. */
  ghost predicate Stands(readings: seq<Reading>, r: Reading, last: Reading) {
    && r in readings && last in readings && r.Lists? && last.Lists? && Alike(r, last)
    && InForce(readings) == Some(Seen(r)) && LastRead(readings) == Some(Seen(last))
  }

  /** After any run of reloads the configuration in force was read in it, and has the key of the one last read. */
  lemma {:induction false} StaleUpToPieces(readings: seq<Reading>)
    requires forall r | r in readings :: WellFormed(r)
    ensures if InForce(readings).None? then LastRead(readings).None? else exists r, last :: Stands(readings, r, last)
  {
    if readings != [] {
      var init, now := readings[..|readings| - 1], readings[|readings| - 1];
      assert readings == init + [now];
      StaleUpToPieces(init);
      if InForce(init).Some? {
        var r, last :| Stands(init, r, last);
        StandsAfter(init, r, last, now);
      } else if now.Lists? {
        assert Stands(readings, now, now);
      }
    }
  }

  lemma StandsAfter(init: seq<Reading>, r: Reading, last: Reading, now: Reading)
    requires Stands(init, r, last) && WellFormed(r) && WellFormed(now)
    ensures var readings := init + [now];
            if now.Failed? then Stands(readings, r, last)
            else if Alike(now, r) then Stands(readings, r, now)
            else Stands(readings, now, now)
  {
    assert (init + [now])[..|init|] == init;
    if now.Lists? {
      KeyOfReadings(now, r);
    }
  }

  ghost predicate DrawnFrom(run: seq<Reading>, readings: set<Reading>) {
    forall r | r in run :: r in readings
  }

  /** No two of these readings list different relays that fall into the same pieces, for the same accounts. */
  ghost predicate Unambiguous(readings: set<Reading>) {
    forall r, r' | r in readings && r' in readings && r.Lists? && r'.Lists? && Alike(r, r') ::
      multiset(r.relays) == multiset(r'.relays)
  }

  /**
   Over every run of reloads, failed ones included, the configuration in force is the one last read, if and only
   if no two of the readings that may occur are confused by their commas. With Valid, the one open subscription
   then carries exactly the enabled relays and accounts last read, and there is none when either list was empty.
   */
  lemma NeverStaleExactly(readings: set<Reading>)
    requires forall r | r in readings :: WellFormed(r)
    ensures (forall run: seq<Reading> | DrawnFrom(run, readings) :: InForce(run) == LastRead(run)) <==> Unambiguous(readings)
  {
    if Unambiguous(readings) {
      forall run: seq<Reading> | DrawnFrom(run, readings)
        ensures InForce(run) == LastRead(run)
      {
        StaleUpToPieces(run);
        if InForce(run).Some? {
          var r, last :| Stands(run, r, last);
          SameSeen(r, last);
        }
      }
    } else {
      var r, r' :| r in readings && r' in readings && r.Lists? && r'.Lists? && Alike(r, r')
                   && multiset(r.relays) != multiset(r'.relays);
      TwoReadings(r, r');
      assert DrawnFrom([r, r'], readings);
    }
  }

  /** After two readings that are told apart by their relays but not by their key, the first stays in force. */
  lemma TwoReadings(r: Reading, r': Reading)
    requires r.Lists? && r'.Lists? && WellFormed(r) && WellFormed(r')
    requires Alike(r, r') && multiset(r.relays) != multiset(r'.relays)
    ensures InForce([r, r']) == Some(Seen(r)) && LastRead([r, r']) == Some(Seen(r')) && Seen(r) != Seen(r')
  {
    assert [r, r'][..1] == [r] && [r][..0] == [];
    assert InForce([r]) == Some(Seen(r));
    WronglySkipped(r, r');
    SameSeen(r, r');
    assert InForce([r, r']) == Reloaded(InForce([r]), r');
  }

  /** URLs without commas are never confused. */
  lemma NeverStale(readings: seq<Reading>)
    requires forall r | r in readings && r.Lists? :: CommaFree(r.relays) && AllHexKeys(EnabledAuthors(r.followed))
    ensures InForce(readings) == LastRead(readings)
  {
    var all := set r | r in readings;
    forall r, r' | r in all && r' in all && r.Lists? && r'.Lists? && Alike(r, r')
      ensures multiset(r.relays) == multiset(r'.relays)
    {
      KeySound(r.relays, EnabledAuthors(r.followed), r'.relays, EnabledAuthors(r'.followed));
      KeyExactly(r.relays, EnabledAuthors(r.followed), r'.relays, EnabledAuthors(r'.followed));
    }
    NeverStaleExactly(all);
    assert DrawnFrom(readings, all);
  }

  /** One URL that names two relays, then the two relays: the first stays subscribed. */
  lemma StalePair(a: string, b: string, followed: seq<FollowedRow>)
    requires a != "" && b != "" && Leq(a, b) && AllHexKeys(EnabledAuthors(followed))
    ensures var run := [Lists([a + "," + b], followed), Lists([a, b], followed)];
            InForce(run) != LastRead(run)
  {
    var r, r' := Lists([a + "," + b], followed), Lists([a, b], followed);
    SortTwo(a, b);
    FlatOfTwo(a, b);
    assert Sort([a + "," + b]) == [a + "," + b];
    assert |multiset(r.relays)| != |multiset(r'.relays)|;
    TwoReadings(r, r');
  }

  /** An instance the command line accepts. */
  lemma StaleRun(followed: seq<FollowedRow>)
    requires AllHexKeys(EnabledAuthors(followed))
    ensures var run := [Lists(["wss://a" + "," + "wss://b"], followed), Lists(["wss://a", "wss://b"], followed)];
            InForce(run) != LastRead(run)
  {
    LeqAfter("wss://", "a", "b");
    assert "wss://" + "a" == "wss://a" && "wss://" + "b" == "wss://b";
    StalePair("wss://a", "wss://b", followed);
  }

  lemma {:induction false} LeqAfter(p: string, a: string, b: string)
    requires Leq(a, b)
    ensures Leq(p + a, p + b)
  {
    if p == "" {
      assert p + a == a && p + b == b;
    } else {
      LeqAfter(p[1..], a, b);
      assert (p + a)[1..] == p[1..] + a && (p + b)[1..] == p[1..] + b;
    }
  }

  lemma SortTwo(a: string, b: string)
    requires Leq(a, b)
    ensures Sort([a, b]) == [a, b]
  {
    assert [a, b][1..] == [b];
    assert [b][1..] == [] && Sort([b]) == Insert([], b);
  }

  lemma FlatOfTwo(a: string, b: string)
    ensures Flat([a + "," + b]) == Flat([a, b])
  {
    PiecesSplit(a, b);
    FlatOne(a + "," + b);
    FlatOne(b);
    assert [a, b][1..] == [b];
  }

  lemma FlatOne(url: string)
    ensures Flat([url]) == Pieces(url)
  {
    assert [url][1..] == [] && Flat([url]) == Pieces(url) + Flat([]);
  }

  /** A manager that has gone through these readings, one reload each: the tick loop of LiveSync. */
  method ReloadAll(m: Manager, readings: seq<Reading>)
    requires m.Valid() && m.current == None
    modifies m
    ensures m.Valid() && m.current == InForce(readings)
  {
    assert readings[..0] == [];
    for i := 0 to |readings|
      invariant m.Valid() && m.current == InForce(readings[..i])
    {
      assert readings[..i + 1][..i] == readings[..i];
      m.Reload(readings[i]);
    }
    assert readings[..|readings|] == readings;
  }
}
