/**
 From a Nostr event to a catalogue entry (`ParseTorrent`, internal/nostr/nip35.go). URL syntax and image
 extraction are parameters. Strings are byte strings, as in Magnet.
 */
module Nip35 {
  import opened Wrappers
  import opened Catalog
  import opened Magnet

  type Tag = seq<Bytes>

  datatype Event = Event(id: string, pubkey: string, createdAt: int, tags: seq<Tag>, content: string)

  /** The library calls: is it a tracker URL, and which image do the tags name. */
  datatype Lib = Lib(isTrackerUrl: Bytes -> bool, image: seq<Tag> -> string)

  datatype ParseError = NoTitle | BadInfohash

  predicate Named(tag: Tag, key: string) {
    |tag| >= 2 && tag[0] == key
  }

  /** The value of the first tag of that name. */
  function Find(tags: seq<Tag>, key: string): Option<Bytes> {
    if tags == [] then None
    else if Named(tags[0], key) then Some(tags[0][1])
    else Find(tags[1..], key)
  }

  /** White space in UTF-8: six ASCII characters, U+0085, U+00A0, and those of three bytes. */
  predicate IsSpace(r: string) {
    match |r|
    case 1 => r[0] == ' ' || '\t' <= r[0] <= '\r'
    case 2 => r[0] as int == 0xC2 && r[1] as int in {0x85, 0xA0}
    case 3 =>
      var b := (r[0] as int, r[1] as int, r[2] as int);
      || b == (0xE1, 0x9A, 0x80)
      || (b.0 == 0xE2 && b.1 == 0x80 && (0x80 <= b.2 <= 0x8A || b.2 in {0xA8, 0xA9, 0xAF}))
      || b == (0xE2, 0x81, 0x9F)
      || b == (0xE3, 0x80, 0x80)
    case _ => false
  }

  /** How many bytes of white space the string starts with: at most one character's. */
  function Lead(s: Bytes): (n: nat)
    ensures n <= |s|
  {
    if |s| >= 1 && IsSpace(s[..1]) then 1
    else if |s| >= 2 && IsSpace(s[..2]) then 2
    else if |s| >= 3 && IsSpace(s[..3]) then 3
    else 0
  }

  function Tail(s: Bytes): (n: nat)
    ensures n <= |s|
  {
    if |s| >= 1 && IsSpace(s[|s| - 1..]) then 1
    else if |s| >= 2 && IsSpace(s[|s| - 2..]) then 2
    else if |s| >= 3 && IsSpace(s[|s| - 3..]) then 3
    else 0
  }

  function TrimSpace(s: Bytes): Bytes
    decreases |s|
  {
    if Lead(s) > 0 then TrimSpace(s[Lead(s)..])
    else if Tail(s) > 0 then TrimSpace(s[..|s| - Tail(s)])
    else s
  }

  /** No white space is left at either end. */
  lemma {:induction false} TrimSpaceTrims(s: Bytes)
    ensures Lead(TrimSpace(s)) == 0 && Tail(TrimSpace(s)) == 0
    decreases |s|
  {
    if Lead(s) > 0 {
      TrimSpaceTrims(s[Lead(s)..]);
    } else if Tail(s) > 0 {
      TrimSpaceTrims(s[..|s| - Tail(s)]);
    }
  }

  function ToLower(s: Bytes): Bytes {
    seq(|s|, i requires 0 <= i < |s| => if 'A' <= s[i] <= 'Z' then (s[i] as int + 32) as char else s[i])
  }

  // ---------------------------------------------------------------------------------------------
  // Files
  // ---------------------------------------------------------------------------------------------

  function Digits(s: string): Option<int> {
    if s == "" then Some(0)
    else
      var init := Digits(s[..|s| - 1]);
      var c := s[|s| - 1];
      if init.None? || !('0' <= c <= '9') then None else Some(10 * init.value + (c as int - '0' as int))
  }

  /** strconv.ParseInt in base 10 with 64 bits. */
  function ParseInt(s: string): Option<int> {
    var sign := s != "" && (s[0] == '+' || s[0] == '-');
    var digits := if sign then s[1..] else s;
    if digits == "" || Digits(digits).None? then None
    else
      var n: int := if sign && s[0] == '-' then -Digits(digits).value else Digits(digits).value;
      if -MAX_INT64 - 1 <= n <= MAX_INT64 then Some(n) else None
  }

  /** An absent, malformed or negative size counts as zero. */
  function FileOf(tag: Tag): (f: File)
    requires |tag| >= 2
    ensures 0 <= f.size <= MAX_INT64
  {
    var n := if |tag| >= 3 then ParseInt(tag[2]) else None;
    File(tag[1], if n.Some? && n.value >= 0 then n.value else 0)
  }

  function FilesIn(tags: seq<Tag>): seq<File> {
    if tags == [] then []
    else
      var init, last := FilesIn(tags[..|tags| - 1]), tags[|tags| - 1];
      if Named(last, "file") then init + [FileOf(last)] else init
  }

  function Categories(tags: seq<Tag>): seq<string> {
    if tags == [] then []
    else
      var init, last := Categories(tags[..|tags| - 1]), tags[|tags| - 1];
      if Named(last, "t") && TrimSpace(last[1]) != "" then init + [TrimSpace(last[1])] else init
  }

  function Refs(tags: seq<Tag>): seq<string> {
    if tags == [] then []
    else
      var init, last := Refs(tags[..|tags| - 1]), tags[|tags| - 1];
      if Named(last, "i") then init + [last[1]] else init
  }

  function JoinWith(parts: seq<string>, sep: string): string {
    if parts == [] then ""
    else if |parts| == 1 then parts[0]
    else JoinWith(parts[..|parts| - 1], sep) + sep + parts[|parts| - 1]
  }

  // ---------------------------------------------------------------------------------------------
  // The parser
  // ---------------------------------------------------------------------------------------------

  function Title(tags: seq<Tag>): Bytes {
    match Find(tags, "title")
    case None => ""
    case Some(v) => TrimSpace(v)
  }

  function Infohash(tags: seq<Tag>): Bytes {
    match Find(tags, "x")
    case None => ""
    case Some(v) => ToLower(TrimSpace(v))
  }

  function Tracker(tags: seq<Tag>, lib: Lib): Bytes {
    match Find(tags, "tracker")
    case None => ""
    case Some(v) => if lib.isTrackerUrl(v) then TrimSpace(v) else ""
  }

  method ParseTorrent(ev: Event, lib: Lib) returns (r: Result<Torrent, ParseError>)
    ensures Title(ev.tags) == "" ==> r == Err(NoTitle)
    ensures Title(ev.tags) != "" && !IsInfohash(Infohash(ev.tags)) ==> r == Err(BadInfohash)
    ensures Title(ev.tags) != "" && IsInfohash(Infohash(ev.tags)) ==> r == Ok(Entry(ev, lib))
    ensures Means(ev, r)
  {
    Understood(ev, lib);
    var title := Title(ev.tags);
    if title == "" {
      return Err(NoTitle);
    }
    var infohash := Infohash(ev.tags);
    if !IsInfohash(infohash) {
      return Err(BadInfohash);
    }
    var tracker := Tracker(ev.tags, lib);
    var files, size := CollectFiles(ev.tags);
    var category, refs := CollectLabels(ev.tags);
    r := Ok(Torrent(ev.id, ev.pubkey, title, ev.content, infohash, BuildMagnet(infohash, title, tracker), tracker,
                    lib.image(ev.tags), category, refs, size, files, ev.createdAt));
  }

  /** The i-th tag is the first of this name that has a value. */
  predicate IsFirst(tags: seq<Tag>, i: int, key: string) {
    && 0 <= i < |tags| && |tags[i]| >= 2 && tags[i][0] == key
    && forall j | 0 <= j < i :: !(|tags[j]| >= 2 && tags[j][0] == key)
  }

  /** Forty digits or letters a to f, in lower case. */
  predicate LowerHex40(h: string) {
    |h| == 40 && forall i | 0 <= i < |h| :: '0' <= h[i] <= '9' || 'a' <= h[i] <= 'f'
  }

  /**
   The outcome, by the event's own tags: the first "title", trimmed, must not be blank, then the first "x",
   trimmed and in lower case, must be an infohash; and they are the entry's.
   */
  predicate Means(ev: Event, r: Result<Torrent, ParseError>) {
    && ((forall i | 0 <= i < |ev.tags| :: !IsFirst(ev.tags, i, "title")) ==> r == Err(NoTitle))
    && (forall t | 0 <= t < |ev.tags| && IsFirst(ev.tags, t, "title") ::
          && (r == Err(NoTitle) <==> TrimSpace(ev.tags[t][1]) == "")
          && (r.Ok? ==> r.value.title == TrimSpace(ev.tags[t][1])))
    && ((forall i | 0 <= i < |ev.tags| :: !IsFirst(ev.tags, i, "x")) ==> r.Err?)
    && (forall x | 0 <= x < |ev.tags| && IsFirst(ev.tags, x, "x") ::
          && (r == Err(BadInfohash) ==> !LowerHex40(ToLower(TrimSpace(ev.tags[x][1]))))
          && (r.Ok? ==> LowerHex40(ToLower(TrimSpace(ev.tags[x][1]))) && r.value.infohash == ToLower(TrimSpace(ev.tags[x][1]))))
    && (r.Ok? ==> r.value.id == ev.id && r.value.pubkey == ev.pubkey && r.value.description == ev.content
                  && r.value.publishedAt == ev.createdAt)
  }

  lemma {:induction false} FindExactly(tags: seq<Tag>, key: string)
    ensures (forall i | 0 <= i < |tags| :: !IsFirst(tags, i, key)) ==> Find(tags, key) == None
    ensures forall i | 0 <= i < |tags| && IsFirst(tags, i, key) :: Find(tags, key) == Some(tags[i][1])
  {
    if tags != [] {
      FindExactly(tags[1..], key);
      if |tags[0]| >= 2 && tags[0][0] == key {
        assert IsFirst(tags, 0, key);
      } else {
        forall i | 0 <= i < |tags|
          ensures IsFirst(tags, i, key) <==> i > 0 && IsFirst(tags[1..], i - 1, key)
        {
          LaterFirst(tags, i, key);
        }
        forall k | 0 <= k < |tags[1..]| && IsFirst(tags[1..], k, key)
          ensures IsFirst(tags, k + 1, key) && tags[k + 1] == tags[1..][k]
        {
          assert IsFirst(tags, k + 1, key) <==> k + 1 > 0 && IsFirst(tags[1..], k + 1 - 1, key);
        }
      }
    }
  }

  lemma LaterFirst(tags: seq<Tag>, i: int, key: string)
    requires 0 <= i < |tags| && !(|tags[0]| >= 2 && tags[0][0] == key)
    ensures IsFirst(tags, i, key) <==> i > 0 && IsFirst(tags[1..], i - 1, key)
  {
    assert forall j | 1 <= j < |tags| :: tags[j] == tags[1..][j - 1];
    if i > 0 && IsFirst(tags[1..], i - 1, key) {
      forall j | 0 <= j < i
        ensures !(|tags[j]| >= 2 && tags[j][0] == key)
      {
        assert j > 0 ==> tags[j] == tags[1..][j - 1];
      }
    } else if IsFirst(tags, i, key) {
      forall j | 0 <= j < i - 1
        ensures !(|tags[1..][j]| >= 2 && tags[1..][j][0] == key)
      {
        assert tags[1..][j] == tags[j + 1];
      }
    }
  }

  lemma TitleExactly(tags: seq<Tag>)
    ensures (forall i | 0 <= i < |tags| :: !IsFirst(tags, i, "title")) ==> Title(tags) == ""
    ensures forall i | 0 <= i < |tags| && IsFirst(tags, i, "title") :: Title(tags) == TrimSpace(tags[i][1])
  {
    FindExactly(tags, "title");
  }

  lemma InfohashExactly(tags: seq<Tag>)
    ensures (forall i | 0 <= i < |tags| :: !IsFirst(tags, i, "x")) ==> Infohash(tags) == ""
    ensures forall i | 0 <= i < |tags| && IsFirst(tags, i, "x") :: Infohash(tags) == ToLower(TrimSpace(tags[i][1]))
    ensures IsInfohash(Infohash(tags)) <==> LowerHex40(Infohash(tags))
  {
    FindExactly(tags, "x");
    if Find(tags, "x").Some? {
      LoweredHex(TrimSpace(Find(tags, "x").value));
    }
  }

  lemma LoweredHex(s: Bytes)
    ensures IsInfohash(ToLower(s)) <==> LowerHex40(ToLower(s))
    ensures |ToLower(s)| == |s|
    ensures forall i | 0 <= i < |s| :: if 'A' <= s[i] <= 'Z' then ToLower(s)[i] as int == s[i] as int + 32 else ToLower(s)[i] == s[i]
  {
  }

  function Outcome(ev: Event, lib: Lib): Result<Torrent, ParseError> {
    if Title(ev.tags) == "" then Err(NoTitle)
    else if !IsInfohash(Infohash(ev.tags)) then Err(BadInfohash)
    else Ok(Entry(ev, lib))
  }

  lemma Understood(ev: Event, lib: Lib)
    ensures Means(ev, Outcome(ev, lib))
  {
    TitleExactly(ev.tags);
    InfohashExactly(ev.tags);
    EntryFields(ev, lib);
  }

  lemma EntryFields(ev: Event, lib: Lib)
    ensures var t := Entry(ev, lib);
            && t.id == ev.id && t.pubkey == ev.pubkey && t.title == Title(ev.tags) && t.description == ev.content
            && t.infohash == Infohash(ev.tags) && t.tracker == Tracker(ev.tags, lib) && t.image == lib.image(ev.tags)
            && t.category == JoinWith(Categories(ev.tags), ", ") && t.refs == Refs(ev.tags) && t.files == FilesIn(ev.tags)
            && t.publishedAt == ev.createdAt && t.magnet == BuildMagnet(t.infohash, t.title, t.tracker)
  {
  }

  // Which tags give files, categories and references

  lemma FilesExactly(tags: seq<Tag>, tag: Tag)
    ensures FilesIn([]) == []
    ensures FilesIn(tags + [tag]) == FilesIn(tags) +
              if |tag| >= 2 && tag[0] == "file" then
                [File(tag[1], if |tag| >= 3 && ParseInt(tag[2]).Some? && ParseInt(tag[2]).value >= 0 then ParseInt(tag[2]).value else 0)]
              else []
  {
    assert (tags + [tag])[..|tags|] == tags;
  }

  lemma CategoriesExactly(tags: seq<Tag>, tag: Tag)
    ensures Categories([]) == []
    ensures Categories(tags + [tag]) == Categories(tags) +
              if |tag| >= 2 && tag[0] == "t" && TrimSpace(tag[1]) != "" then [TrimSpace(tag[1])] else []
  {
    assert (tags + [tag])[..|tags|] == tags;
  }

  lemma RefsExactly(tags: seq<Tag>, tag: Tag)
    ensures Refs([]) == []
    ensures Refs(tags + [tag]) == Refs(tags) + if |tag| >= 2 && tag[0] == "i" then [tag[1]] else []
  {
    assert (tags + [tag])[..|tags|] == tags;
  }

  lemma JoinedExactly(parts: seq<string>, last: string)
    ensures JoinWith([], ", ") == "" && JoinWith([last], ", ") == last
    ensures parts != [] ==> JoinWith(parts + [last], ", ") == JoinWith(parts, ", ") + ", " + last
  {
    assert (parts + [last])[..|parts|] == parts;
  }

  /** A number in decimal digits. */
  function Decimal(n: nat): string {
    (if n < 10 then "" else Decimal(n / 10)) + [('0' as int + n % 10) as char]
  }

  lemma {:induction false} DigitsOfDecimal(n: nat)
    ensures Digits(Decimal(n)) == Some(n)
  {
    var init, last := if n < 10 then "" else Decimal(n / 10), ('0' as int + n % 10) as char;
    if n >= 10 {
      DigitsOfDecimal(n / 10);
    }
    OneMoreDigit(init, last);
  }

  lemma OneMoreDigit(init: string, last: char)
    requires '0' <= last <= '9'
    ensures Digits(init + [last]) == match Digits(init) case None => None case Some(n) => Some(10 * n + (last as int - '0' as int))
  {
    assert (init + [last])[..|init|] == init;
  }

  lemma {:induction false} DecimalStarts(n: nat)
    ensures Decimal(n) != "" && '0' <= Decimal(n)[0] <= '9'
  {
    if n >= 10 {
      DecimalStarts(n / 10);
    }
  }

  lemma ReadsNumber(d: string, n: int)
    requires d != "" && '0' <= d[0] <= '9' && Digits(d) == Some(n) && n >= 0
    ensures ParseInt(d) == if n <= 0x7fff_ffff_ffff_ffff then Some(n) else None
    ensures ParseInt("-" + d) == if n <= 0x8000_0000_0000_0000 then Some(-n) else None
  {
    assert ("-" + d)[1..] == d && ("-" + d)[0] == '-';
  }

  /** Sizes are read in decimal, as long as they fit 64 bits ... */
  lemma ParsesDecimals(n: int)
    requires n >= 0
    ensures ParseInt(Decimal(n)) == if n <= 0x7fff_ffff_ffff_ffff then Some(n) else None
    ensures ParseInt("-" + Decimal(n)) == if n <= 0x8000_0000_0000_0000 then Some(-n) else None
  {
    DigitsOfDecimal(n);
    DecimalStarts(n);
    ReadsNumber(Decimal(n), n);
  }

  /** ... and anything but digits after an optional sign is refused. */
  lemma {:induction false} ParsesNothingElse(s: string, i: nat)
    requires i < |s| && !('0' <= s[i] <= '9') && (i == 0 ==> s[0] != '+' && s[0] != '-')
    ensures ParseInt(s) == None && ParseInt("") == None
  {
    var digits := if s[0] == '+' || s[0] == '-' then s[1..] else s;
    var k := if s[0] == '+' || s[0] == '-' then i - 1 else i;
    assert digits[k] == s[i];
    NotDigits(digits, k);
  }

  lemma {:induction false} NotDigits(s: string, i: nat)
    requires i < |s| && !('0' <= s[i] <= '9')
    ensures Digits(s) == None
  {
    if i < |s| - 1 {
      NotDigits(s[..|s| - 1], i);
    }
  }

  /** The entry an accepted event stands for; its size is the sum of its files in 64-bit arithmetic. */
  function Entry(ev: Event, lib: Lib): Torrent {
    var files := FilesIn(ev.tags);
    Torrent(ev.id, ev.pubkey, Title(ev.tags), ev.content, Infohash(ev.tags),
            BuildMagnet(Infohash(ev.tags), Title(ev.tags), Tracker(ev.tags, lib)), Tracker(ev.tags, lib),
            lib.image(ev.tags), JoinWith(Categories(ev.tags), ", "), Refs(ev.tags),
            Wrap64(TotalSize(files)), files, ev.createdAt)
  }

  method CollectFiles(tags: seq<Tag>) returns (files: seq<File>, size: int)
    ensures files == FilesIn(tags) && size == Wrap64(TotalSize(files))
  {
    files, size := [], 0;
    for i := 0 to |tags|
      invariant files == FilesIn(tags[..i]) && size == Wrap64(TotalSize(files))
    {
      assert tags[..i + 1][..i] == tags[..i];
      if Named(tags[i], "file") {
        var f := FileOf(tags[i]);
        WrapAdds(TotalSize(files), f.size);
        assert (files + [f])[..|files|] == files;
        files, size := files + [f], Wrap64(size + f.size);
      }
    }
    assert tags[..|tags|] == tags;
  }

  method CollectLabels(tags: seq<Tag>) returns (category: string, refs: seq<string>)
    ensures category == JoinWith(Categories(tags), ", ") && refs == Refs(tags)
  {
    var categories: seq<string> := [];
    refs := [];
    for i := 0 to |tags|
      invariant categories == Categories(tags[..i]) && refs == Refs(tags[..i])
    {
      assert tags[..i + 1][..i] == tags[..i];
      if Named(tags[i], "t") && TrimSpace(tags[i][1]) != "" {
        categories := categories + [TrimSpace(tags[i][1])];
      }
      if Named(tags[i], "i") {
        refs := refs + [tags[i][1]];
      }
    }
    assert tags[..|tags|] == tags;
    category := JoinWith(categories, ", ");
  }

  lemma WrapAdds(a: int, b: int)
    ensures Wrap64(Wrap64(a) + b) == Wrap64(a + b)
  {
  }

  /** Every file size is a non-negative 64-bit integer, so the total is never negative. */
  lemma {:induction false} TotalNonNegative(tags: seq<Tag>)
    ensures TotalSize(FilesIn(tags)) >= 0
  {
    if tags != [] {
      var init, last := FilesIn(tags[..|tags| - 1]), tags[|tags| - 1];
      TotalNonNegative(tags[..|tags| - 1]);
      if Named(last, "file") {
        assert (init + [FileOf(last)])[..|init|] == init;
      }
    }
  }

  /** The size shown is the size of the files exactly when the total fits 64 bits. */
  lemma SizeIsTotal(ev: Event, lib: Lib)
    ensures Entry(ev, lib).size == TotalSize(Entry(ev, lib).files) <==> TotalSize(FilesIn(ev.tags)) <= MAX_INT64
  {
    TotalNonNegative(ev.tags);
  }

  const LARGEST: Bytes := "9223372036854775807"

  lemma NextDigit(i: nat, n: int)
    requires i < |LARGEST| && Digits(LARGEST[..i]) == Some(n) && '0' <= LARGEST[i] <= '9'
    ensures Digits(LARGEST[..i + 1]) == Some(10 * n + (LARGEST[i] as int - '0' as int))
  {
    assert LARGEST[..i + 1][..i] == LARGEST[..i];
  }

  lemma Digits5()
    ensures Digits(LARGEST[..5]) == Some(92233)
  {
    assert LARGEST[..0] == "";
    NextDigit(0, 0);
    NextDigit(1, 9);
    NextDigit(2, 92);
    NextDigit(3, 922);
    NextDigit(4, 9223);
  }

  lemma Digits10()
    ensures Digits(LARGEST[..10]) == Some(9223372036)
  {
    Digits5();
    NextDigit(5, 92233);
    NextDigit(6, 922337);
    NextDigit(7, 9223372);
    NextDigit(8, 92233720);
    NextDigit(9, 922337203);
  }

  lemma Digits15()
    ensures Digits(LARGEST[..15]) == Some(922337203685477)
  {
    Digits10();
    NextDigit(10, 9223372036);
    NextDigit(11, 92233720368);
    NextDigit(12, 922337203685);
    NextDigit(13, 9223372036854);
    NextDigit(14, 92233720368547);
  }

  lemma Digits19()
    ensures Digits(LARGEST[..19]) == Some(9223372036854775807)
  {
    Digits15();
    NextDigit(15, 922337203685477);
    NextDigit(16, 9223372036854775);
    NextDigit(17, 92233720368547758);
    NextDigit(18, 922337203685477580);
  }

  lemma LargestParses()
    ensures ParseInt(LARGEST) == Some(MAX_INT64)
  {
    Digits19();
    assert LARGEST[..19] == LARGEST;
  }

  function FileTag(path: Bytes, size: Bytes): (tag: Tag)
    ensures |tag| == 3 && Named(tag, "file") && tag[1] == path && tag[2] == size
  {
    ["file", path, size]
  }

  /** Two files behind whatever other tags an event has, of the largest size and of one byte: the size is not their total. */
  lemma SizeWraps(ev: Event, lib: Lib, others: seq<Tag>)
    requires FilesIn(others) == [] && ev.tags == others + [FileTag("a", LARGEST), FileTag("b", "1")]
    ensures TotalSize(Entry(ev, lib).files) == MAX_INT64 + 1 && Entry(ev, lib).size == -MAX_INT64 - 1
  {
    TwoFiles(others);
    TwoTotal();
    EntryFiles(ev, lib);
  }

  lemma EntryFiles(ev: Event, lib: Lib)
    ensures Entry(ev, lib).files == FilesIn(ev.tags) && Entry(ev, lib).size == Wrap64(TotalSize(FilesIn(ev.tags)))
  {
  }

  lemma TwoFiles(others: seq<Tag>)
    requires FilesIn(others) == []
    ensures FilesIn(others + [FileTag("a", LARGEST), FileTag("b", "1")]) == [File("a", MAX_INT64), File("b", 1)]
  {
    var a, b := FileTag("a", LARGEST), FileTag("b", "1");
    LargestParses();
    OneParses();
    FilesSnoc(others, a);
    FilesSnoc(others + [a], b);
    assert others + [a] + [b] == others + [a, b];
  }

  lemma TwoTotal()
    ensures TotalSize([File("a", MAX_INT64), File("b", 1)]) == MAX_INT64 + 1
  {
    var files := [File("a", MAX_INT64), File("b", 1)];
    assert files[..1] == [files[0]] && files[..1][..0] == [];
    assert TotalSize([]) == 0 && TotalSize(files[..1]) == MAX_INT64;
  }

  lemma OneParses()
    ensures ParseInt("1") == Some(1)
  {
    assert "1"[..0] == "";
    assert Digits("1") == Some(1);
  }

  lemma FilesSnoc(tags: seq<Tag>, tag: Tag)
    requires Named(tag, "file")
    ensures FilesIn(tags + [tag]) == FilesIn(tags) + [FileOf(tag)]
  {
    assert (tags + [tag])[..|tags|] == tags;
  }

  /** An accepted entry carries a link that gives back its own infohash, title and tracker. */
  lemma EntryMagnet(ev: Event, lib: Lib)
    requires IsInfohash(Infohash(ev.tags))
    ensures var t := Entry(ev, lib);
            ParseMagnet(t.magnet)
            == Some([("xt", "urn:btih:" + ToUpper(t.infohash)), ("dn", t.title)] + if t.tracker == "" then [] else [("tr", t.tracker)])
  {
    EntryFields(ev, lib);
    MagnetRoundTrip(Infohash(ev.tags), Title(ev.tags), Tracker(ev.tags, lib));
  }

  // ---------------------------------------------------------------------------------------------
  // Several trackers
  // ---------------------------------------------------------------------------------------------

  predicate GoodTracker(tag: Tag, lib: Lib) {
    Named(tag, "tracker") && lib.isTrackerUrl(tag[1])
  }

  /** The entry carries every tracker the event names well. */
  ghost predicate CarriesAll(tags: seq<Tag>, lib: Lib) {
    forall tag | tag in tags && GoodTracker(tag, lib) :: TrimSpace(tag[1]) == Tracker(tags, lib)
  }

  /** Every good tracker says the same as this tag. */
  ghost predicate AllSay(tags: seq<Tag>, lib: Lib, said: Tag)
    requires |said| >= 2
  {
    forall tag | tag in tags && GoodTracker(tag, lib) :: TrimSpace(tag[1]) == TrimSpace(said[1])
  }

  ghost predicate FirstSpeaksForAll(tags: seq<Tag>, lib: Lib) {
    exists i :: IsFirst(tags, i, "tracker") && GoodTracker(tags[i], lib) && AllSay(tags, lib, tags[i])
  }

  /**
   The tag may be repeated, but an entry has one tracker. It carries all the good ones exactly when there is
   none, or the first tag of that name is good and the others say the same. An accepted URL has a host, so it
   is not blank.
   */
  lemma TrackersExactly(tags: seq<Tag>, lib: Lib)
    requires forall v: Bytes | lib.isTrackerUrl(v) :: TrimSpace(v) != ""
    ensures CarriesAll(tags, lib)
            <==> (forall tag | tag in tags :: !GoodTracker(tag, lib)) || FirstSpeaksForAll(tags, lib)
  {
    if tag :| tag in tags && GoodTracker(tag, lib) {
      var i := FirstOne(tags, tag);
      CarriesFirst(tags, lib, i, tag);
      if FirstSpeaksForAll(tags, lib) {
        var k :| IsFirst(tags, k, "tracker") && GoodTracker(tags[k], lib) && AllSay(tags, lib, tags[k]);
        assert k == i;
      }
    }
  }

  lemma {:induction false} FirstOne(tags: seq<Tag>, tag: Tag) returns (i: nat)
    requires tag in tags && Named(tag, "tracker")
    ensures IsFirst(tags, i, "tracker")
  {
    i := 0;
    while !Named(tags[i], "tracker")
      invariant i < |tags|
      invariant forall j | 0 <= j < i :: !Named(tags[j], "tracker")
      invariant tag in tags[i..]
      decreases |tags| - i
    {
      assert tags[i..] == [tags[i]] + tags[i + 1..];
      i := i + 1;
    }
  }

  lemma CarriesFirst(tags: seq<Tag>, lib: Lib, i: int, good: Tag)
    requires IsFirst(tags, i, "tracker") && good in tags && GoodTracker(good, lib) && TrimSpace(good[1]) != ""
    ensures CarriesAll(tags, lib) <==> GoodTracker(tags[i], lib) && AllSay(tags, lib, tags[i])
  {
    FirstTracker(tags, lib, i);
  }

  lemma {:induction false} FirstTracker(tags: seq<Tag>, lib: Lib, i: int)
    requires IsFirst(tags, i, "tracker")
    ensures Tracker(tags, lib) == if GoodTracker(tags[i], lib) then TrimSpace(tags[i][1]) else ""
    decreases |tags|
  {
    if i > 0 {
      assert IsFirst(tags[1..], i - 1, "tracker") by {
        assert forall j | 0 <= j < i :: tags[1..][j] == tags[j + 1];
      }
      FirstTracker(tags[1..], lib, i - 1);
    }
  }

  /** Whatever comes first, a different good tracker behind it is lost. */
  lemma SecondLost(tags: seq<Tag>, lib: Lib)
    requires |tags| == 2 && Named(tags[0], "tracker") && GoodTracker(tags[1], lib)
    requires TrimSpace(tags[1][1]) != if lib.isTrackerUrl(tags[0][1]) then TrimSpace(tags[0][1]) else ""
    ensures !CarriesAll(tags, lib)
  {
    assert IsFirst(tags, 0, "tracker");
    FirstTracker(tags, lib, 0);
    assert tags[1] in tags;
  }

  function TrackerTag(value: Bytes): (tag: Tag)
    ensures Named(tag, "tracker") && tag[1] == value
  {
    ["tracker", value]
  }

  predicate Visible(s: Bytes) {
    s != "" && '!' <= s[0] <= '~' && '!' <= s[|s| - 1] <= '~'
  }

  /** Of two good trackers the second is lost; behind a bad one a good one is lost. */
  lemma TrackersLost(a: Bytes, b: Bytes, bad: Bytes, lib: Lib)
    requires lib.isTrackerUrl(a) && lib.isTrackerUrl(b) && !lib.isTrackerUrl(bad) && Visible(a) && Visible(b) && a != b
    ensures !CarriesAll([TrackerTag(a), TrackerTag(b)], lib)
    ensures !CarriesAll([TrackerTag(bad), TrackerTag(b)], lib)
  {
    Unspaced(a);
    Unspaced(b);
    SecondLost([TrackerTag(a), TrackerTag(b)], lib);
    SecondLost([TrackerTag(bad), TrackerTag(b)], lib);
  }

  /** Such events. */
  lemma TrackersLostInstance(lib: Lib)
    requires lib.isTrackerUrl("udp://a:1") && lib.isTrackerUrl("udp://b:1") && !lib.isTrackerUrl("a:1")
    ensures !CarriesAll([TrackerTag("udp://a:1"), TrackerTag("udp://b:1")], lib)
    ensures !CarriesAll([TrackerTag("a:1"), TrackerTag("udp://b:1")], lib)
  {
    assert "udp://a:1"[6] != "udp://b:1"[6];
    TrackersLost("udp://a:1", "udp://b:1", "a:1", lib);
  }

  lemma Unspaced(s: Bytes)
    requires Visible(s)
    ensures TrimSpace(s) == s
  {
    NoLead(s);
    NoTail(s);
  }

  lemma NoLead(s: Bytes)
    requires Visible(s)
    ensures Lead(s) == 0
  {
    VisibleIsNotSpace(s[..1]);
    if |s| >= 2 {
      VisibleIsNotSpace(s[..2]);
    }
    if |s| >= 3 {
      VisibleIsNotSpace(s[..3]);
    }
  }

  lemma NoTail(s: Bytes)
    requires Visible(s)
    ensures Tail(s) == 0
  {
    VisibleIsNotSpace(s[|s| - 1..]);
    if |s| >= 2 {
      VisibleIsNotSpace(s[|s| - 2..]);
    }
    if |s| >= 3 {
      VisibleIsNotSpace(s[|s| - 3..]);
    }
  }

  lemma VisibleIsNotSpace(r: string)
    requires r != "" && ('!' <= r[0] <= '~' || '!' <= r[|r| - 1] <= '~')
    ensures !IsSpace(r)
  {
  }
}
