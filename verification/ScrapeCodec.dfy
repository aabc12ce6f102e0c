/**
 The UDP tracker protocol of BEP 15 as the scraper speaks it (internal/scrape/scrape.go): packets written in
 place into byte buffers, and the replies read back.
 */
module ScrapeCodec {
  import opened Wrappers
  import Magnet

  type Byte = n: int | 0 <= n < 0x100
  type U32 = n: int | 0 <= n < 0x1_0000_0000
  type U64 = n: int | 0 <= n < 0x1_0000_0000_0000_0000

  const PROTOCOL_MAGIC: U64 := 0x41727101980
  const ACTION_CONNECT: U32 := 0
  const ACTION_SCRAPE: U32 := 2

  datatype Stats = Stats(seeders: U32, completed: U32, leechers: U32)

  datatype Failure = TooShort | WrongAction | WrongTransaction | BadInfohash

  // ---------------------------------------------------------------------------------------------
  // Big-endian integers
  // ---------------------------------------------------------------------------------------------

  function Be32(v: U32): (s: seq<Byte>)
    ensures |s| == 4
  {
    [v / 0x100_0000, v / 0x1_0000 % 0x100, v / 0x100 % 0x100, v % 0x100]
  }

  function Be64(v: U64): (s: seq<Byte>)
    ensures |s| == 8
  {
    Be32(v / 0x1_0000_0000) + Be32(v % 0x1_0000_0000)
  }

  function Read32(s: seq<Byte>, at: nat): U32
    requires at + 4 <= |s|
  {
    var a: int, b: int, c: int, d: int := s[at], s[at + 1], s[at + 2], s[at + 3];
    0x100_0000 * a + 0x1_0000 * b + 0x100 * c + d
  }

  function Read64(s: seq<Byte>, at: nat): U64
    requires at + 8 <= |s|
  {
    var hi: int, lo: int := Read32(s, at), Read32(s, at + 4);
    0x1_0000_0000 * hi + lo
  }

  lemma Reads32(a: seq<Byte>, v: U32, b: seq<Byte>)
    ensures Read32(a + Be32(v) + b, |a|) == v
  {
    var s, w := a + Be32(v) + b, Be32(v);
    assert s[|a|] == w[0] && s[|a| + 1] == w[1] && s[|a| + 2] == w[2] && s[|a| + 3] == w[3];
    BytesOf(v);
  }

  lemma BytesOf(v: U32)
    ensures 0x100_0000 * (v / 0x100_0000) + 0x1_0000 * (v / 0x1_0000 % 0x100) + 0x100 * (v / 0x100 % 0x100) + v % 0x100 == v
  {
    var a := v / 0x100;
    var b := a / 0x100;
    DivTwice(v);
    DivTwice(a);
    assert v == 0x100 * a + v % 0x100;
    assert a == 0x100 * b + a % 0x100;
    assert b == 0x100 * (b / 0x100) + b % 0x100;
    assert v / 0x100_0000 == b / 0x100 by {
      DivThrice(v);
    }
  }

  lemma DivTwice(v: nat)
    ensures v / 0x100 / 0x100 == v / 0x1_0000
  {
  }

  lemma DivThrice(v: nat)
    ensures v / 0x1_0000 / 0x100 == v / 0x100_0000
  {
  }

  lemma Reads64(a: seq<Byte>, v: U64, b: seq<Byte>)
    ensures Read64(a + Be64(v) + b, |a|) == v
  {
    var hi, lo := Be32(v / 0x1_0000_0000), Be32(v % 0x1_0000_0000);
    assert a + Be64(v) + b == a + hi + (lo + b) == (a + hi) + lo + b;
    Reads32(a, v / 0x1_0000_0000, lo + b);
    Reads32(a + hi, v % 0x1_0000_0000, b);
  }

  /** The most significant byte first. */
  lemma BigEndian(v: U32)
    ensures var a: int, b: int, c: int, d: int := Be32(v)[0], Be32(v)[1], Be32(v)[2], Be32(v)[3];
            v == 0x100_0000 * a + 0x1_0000 * b + 0x100 * c + d
  {
    BytesOf(v);
  }

  /** And the more significant half. */
  lemma HighFirst(v: U64)
    ensures var hi: int, lo: int := Read32(Be64(v), 0), Read32(Be64(v), 4); v == 0x1_0000_0000 * hi + lo
  {
    Reads32([], v / 0x1_0000_0000, Be32(v % 0x1_0000_0000));
    Reads32(Be32(v / 0x1_0000_0000), v % 0x1_0000_0000, []);
    assert Be64(v) == [] + Be32(v / 0x1_0000_0000) + Be32(v % 0x1_0000_0000) == Be32(v / 0x1_0000_0000) + Be32(v % 0x1_0000_0000) + [];
  }

  /** copy(buf[at:], bytes): only that stretch changes. */
  method Copy(buf: array<Byte>, at: nat, bytes: seq<Byte>)
    requires at + |bytes| <= buf.Length
    modifies buf
    ensures buf[..] == old(buf[..at]) + bytes + old(buf[at + |bytes|..])
  {
    for i := 0 to |bytes|
      invariant buf[..] == old(buf[..at]) + bytes[..i] + old(buf[at + i..])
    {
      buf[at + i] := bytes[i];
      assert bytes[..i + 1] == bytes[..i] + [bytes[i]];
    }
    assert bytes[..|bytes|] == bytes;
  }

  // ---------------------------------------------------------------------------------------------
  // Hexadecimal
  // ---------------------------------------------------------------------------------------------

  function DecodeHex(s: string): (r: seq<Byte>)
    requires |s| % 2 == 0 && forall i | 0 <= i < |s| :: Magnet.IsHex(s[i])
    ensures |r| == |s| / 2
  {
    if s == "" then [] else [16 * Magnet.HexValue(s[0]) + Magnet.HexValue(s[1])] + DecodeHex(s[2..])
  }

  function LowerDigit(n: nat): char
    requires n < 16
  {
    if n < 10 then ('0' as int + n) as char else ('a' as int + n - 10) as char
  }

  function EncodeHex(bytes: seq<Byte>): string {
    if bytes == [] then "" else [LowerDigit(bytes[0] / 16), LowerDigit(bytes[0] % 16)] + EncodeHex(bytes[1..])
  }

  function Lower(s: string): string {
    seq(|s|, i requires 0 <= i < |s| => if 'A' <= s[i] <= 'Z' then (s[i] as int + 32) as char else s[i])
  }

  lemma LowerOfDigit(c: char)
    requires Magnet.IsHex(c)
    ensures LowerDigit(Magnet.HexValue(c)) == if 'A' <= c <= 'Z' then (c as int + 32) as char else c
  {
  }

  /** The two digits of one byte. */
  lemma ByteRoundTrip(x: char, y: char)
    requires Magnet.IsHex(x) && Magnet.IsHex(y)
    ensures var byte := 16 * Magnet.HexValue(x) + Magnet.HexValue(y);
            [LowerDigit(byte / 16), LowerDigit(byte % 16)] == Lower([x, y])
  {
    LowerOfDigit(x);
    LowerOfDigit(y);
    Nibbles(Magnet.HexValue(x), Magnet.HexValue(y));
  }

  lemma Nibbles(a: nat, b: nat)
    requires b < 16
    ensures (16 * a + b) / 16 == a && (16 * a + b) % 16 == b
  {
  }

  lemma LowerConcat(a: string, b: string)
    ensures Lower(a + b) == Lower(a) + Lower(b)
  {
  }

  lemma EncodesFirst(x: char, y: char, rest: seq<Byte>)
    requires Magnet.IsHex(x) && Magnet.IsHex(y)
    ensures EncodeHex([16 * Magnet.HexValue(x) + Magnet.HexValue(y)] + rest) == Lower([x, y]) + EncodeHex(rest)
  {
    var byte: Byte := 16 * Magnet.HexValue(x) + Magnet.HexValue(y);
    ByteRoundTrip(x, y);
    assert ([byte] + rest)[1..] == rest;
  }

  lemma {:induction false} EncodesDecoded(s: string)
    requires |s| % 2 == 0 && forall i | 0 <= i < |s| :: Magnet.IsHex(s[i])
    ensures EncodeHex(DecodeHex(s)) == Lower(s)
  {
    if s != "" {
      EncodesDecoded(s[2..]);
      EncodesFirst(s[0], s[1], DecodeHex(s[2..]));
      LowerConcat([s[0], s[1]], s[2..]);
      assert s == [s[0], s[1]] + s[2..];
    }
  }

  // ---------------------------------------------------------------------------------------------
  // Connect
  // ---------------------------------------------------------------------------------------------

  lemma ConnectBytes()
    ensures Be64(PROTOCOL_MAGIC) + Be32(ACTION_CONNECT) == [0, 0, 4, 0x17, 0x27, 0x10, 0x19, 0x80, 0, 0, 0, 0]
  {
  }

  method BuildConnect(txId: U32) returns (req: array<Byte>)
    ensures fresh(req) && req[..] == Be64(PROTOCOL_MAGIC) + Be32(ACTION_CONNECT) + Be32(txId)
    ensures req[..] == [0, 0, 4, 0x17, 0x27, 0x10, 0x19, 0x80, 0, 0, 0, 0] + Be32(txId)
  {
    ConnectBytes();
    req := new Byte[16](_ => 0);
    Copy(req, 0, Be64(PROTOCOL_MAGIC));
    Copy(req, 8, Be32(ACTION_CONNECT));
    Copy(req, 12, Be32(txId));
  }

  /** The first n bytes of the buffer are what was received. */
  method ReadConnect(resp: array<Byte>, n: nat, txId: U32) returns (r: Result<U64, Failure>)
    requires resp.Length == 16 && n <= 16
    ensures r == ConnectReply(resp[..n], txId)
    ensures r.Ok? <==> n == 16 && resp[..4] == [0, 0, 0, 0] && Read32(resp[..], 4) == txId
    ensures r.Ok? ==> r.value == Read64(resp[..], 8)
  {
    if n < 16 {
      return Err(TooShort);
    }
    assert resp[..n] == resp[..];
    if Read32(resp[..], 0) != ACTION_CONNECT {
      return Err(WrongAction);
    }
    if Read32(resp[..], 4) != txId {
      return Err(WrongTransaction);
    }
    return Ok(Read64(resp[..], 8));
  }

  function ConnectReply(s: seq<Byte>, txId: U32): Result<U64, Failure> {
    if |s| < 16 then Err(TooShort)
    else if Read32(s, 0) != ACTION_CONNECT then Err(WrongAction)
    else if Read32(s, 4) != txId then Err(WrongTransaction)
    else Ok(Read64(s, 8))
  }

  /** A conforming reply yields the tracker's connection id; any other transaction is refused. */
  lemma ConnectRoundTrip(txId: U32, sent: U32, connId: U64)
    ensures ConnectReply(Be32(ACTION_CONNECT) + Be32(sent) + Be64(connId), txId)
            == if sent == txId then Ok(connId) else Err(WrongTransaction)
  {
    var a, t, c := Be32(ACTION_CONNECT), Be32(sent), Be64(connId);
    Reads32([], ACTION_CONNECT, t + c);
    Reads32(a, sent, c);
    Reads64(a + t, connId, []);
    assert a + t + c == [] + a + (t + c) == (a + t) + c + [];
  }

  // ---------------------------------------------------------------------------------------------
  // Scrape request
  // ---------------------------------------------------------------------------------------------

  predicate AllInfohashes(infohashes: seq<string>) {
    forall i | 0 <= i < |infohashes| :: Magnet.IsInfohash(infohashes[i])
  }

  function Header(connId: U64, txId: U32): (s: seq<Byte>)
    ensures |s| == 16
  {
    Be64(connId) + Be32(ACTION_SCRAPE) + Be32(txId)
  }

  function Body(infohashes: seq<string>): (s: seq<Byte>)
    requires AllInfohashes(infohashes)
    ensures |s| == 20 * |infohashes|
  {
    if infohashes == [] then [] else Body(infohashes[..|infohashes| - 1]) + DecodeHex(infohashes[|infohashes| - 1])
  }

  method BuildScrape(connId: U64, txId: U32, infohashes: seq<string>) returns (r: Result<array<Byte>, Failure>)
    ensures r.Ok? <==> AllInfohashes(infohashes)
    ensures r.Ok? ==> fresh(r.value) && r.value[..] == Header(connId, txId) + Body(infohashes)
    ensures r.Ok? ==> r.value[..16] == Be64(connId) + [0, 0, 0, 2] + Be32(txId)
  {
    var req := new Byte[16 + 20 * |infohashes|](_ => 0);
    Copy(req, 0, Be64(connId));
    Copy(req, 8, Be32(ACTION_SCRAPE));
    Copy(req, 12, Be32(txId));
    assert req[..16] == Header(connId, txId);
    var ok := FillHashes(req, infohashes);
    if !ok {
      return Err(BadInfohash);
    }
    assert req[..] == req[..16] + req[16..];
    return Ok(req);
  }

  /** Each decoded infohash is copied to its place; what was written before stays. */
  method FillHashes(req: array<Byte>, infohashes: seq<string>) returns (ok: bool)
    requires req.Length == 16 + 20 * |infohashes|
    modifies req
    ensures ok <==> AllInfohashes(infohashes)
    ensures req[..16] == old(req[..16])
    ensures ok ==> req[16..] == Body(infohashes)
  {
    for i := 0 to |infohashes|
      invariant AllInfohashes(infohashes[..i])
      invariant req[..16] == old(req[..16]) && req[16..16 + 20 * i] == Body(infohashes[..i])
    {
      if !Magnet.IsInfohash(infohashes[i]) {
        return false;
      }
      BodySnoc(infohashes, i);
      ghost var before := req[..];
      Copy(req, 16 + 20 * i, DecodeHex(infohashes[i]));
      assert req[..16] == before[..16];
      assert req[16..16 + 20 * (i + 1)] == before[16..16 + 20 * i] + DecodeHex(infohashes[i]);
    }
    assert infohashes[..|infohashes|] == infohashes;
    assert req[16..16 + 20 * |infohashes|] == req[16..];
    return true;
  }

  lemma BodySnoc(infohashes: seq<string>, i: nat)
    requires i < |infohashes| && AllInfohashes(infohashes[..i]) && Magnet.IsInfohash(infohashes[i])
    ensures AllInfohashes(infohashes[..i + 1])
    ensures Body(infohashes[..i + 1]) == Body(infohashes[..i]) + DecodeHex(infohashes[i])
  {
    assert infohashes[..i + 1][..i] == infohashes[..i];
  }

  /** What a tracker reads in a request. */
  datatype Request = Request(connId: U64, action: U32, txId: U32, infohashes: seq<string>)

  function ReadRequest(s: seq<Byte>): Option<Request> {
    if |s| < 16 || (|s| - 16) % 20 != 0 then None
    else Some(Request(Read64(s, 0), Read32(s, 8), Read32(s, 12), HashesIn(s[16..], (|s| - 16) / 20)))
  }

  function HashesIn(body: seq<Byte>, n: nat): seq<string>
    requires 20 * n <= |body|
  {
    seq(n, i requires 0 <= i < n => EncodeHex(body[20 * i..20 * i + 20]))
  }

  lemma {:induction false} BodySlice(infohashes: seq<string>, i: nat)
    requires AllInfohashes(infohashes) && i < |infohashes|
    ensures Body(infohashes)[20 * i..20 * i + 20] == DecodeHex(infohashes[i])
  {
    var init, last := infohashes[..|infohashes| - 1], infohashes[|infohashes| - 1];
    assert Magnet.IsInfohash(last) && AllInfohashes(init);
    assert Body(infohashes) == Body(init) + DecodeHex(last);
    if i < |init| {
      BodySlice(init, i);
      assert init[i] == infohashes[i];
      assert Body(infohashes)[20 * i..20 * i + 20] == Body(init)[20 * i..20 * i + 20];
    }
  }

  function LowerAll(infohashes: seq<string>): seq<string> {
    seq(|infohashes|, i requires 0 <= i < |infohashes| => Lower(infohashes[i]))
  }

  lemma HashReads(infohashes: seq<string>, i: nat)
    requires AllInfohashes(infohashes) && i < |infohashes|
    ensures EncodeHex(Body(infohashes)[20 * i..20 * i + 20]) == Lower(infohashes[i])
  {
    BodySlice(infohashes, i);
    EncodesDecoded(infohashes[i]);
  }

  lemma HashesRead(infohashes: seq<string>)
    requires AllInfohashes(infohashes)
    ensures HashesIn(Body(infohashes), |infohashes|) == LowerAll(infohashes)
  {
    var read, lower := HashesIn(Body(infohashes), |infohashes|), LowerAll(infohashes);
    forall i | 0 <= i < |infohashes|
      ensures read[i] == lower[i]
    {
      HashReads(infohashes, i);
    }
  }

  /** A tracker reads back the connection id, action 2, the transaction id and every infohash, in lower case. */
  lemma RequestRoundTrip(connId: U64, txId: U32, infohashes: seq<string>)
    requires AllInfohashes(infohashes)
    ensures var s := Header(connId, txId) + Body(infohashes);
            && |s| == 16 + 20 * |infohashes|
            && ReadRequest(s) == Some(Request(connId, ACTION_SCRAPE, txId, LowerAll(infohashes)))
  {
    RequestReads(connId, txId, Body(infohashes), |infohashes|);
    HashesRead(infohashes);
  }

  lemma RequestReads(connId: U64, txId: U32, body: seq<Byte>, n: nat)
    requires |body| == 20 * n
    ensures ReadRequest(Header(connId, txId) + body) == Some(Request(connId, ACTION_SCRAPE, txId, HashesIn(body, n)))
  {
    var head := Header(connId, txId);
    HeaderReads(connId, txId, body);
    assert (head + body)[16..] == body;
  }

  lemma HeaderReads(connId: U64, txId: U32, body: seq<Byte>)
    ensures var s := Header(connId, txId) + body;
            Read64(s, 0) == connId && Read32(s, 8) == ACTION_SCRAPE && Read32(s, 12) == txId
  {
    var s := Header(connId, txId) + body;
    var c, a, t := Be64(connId), Be32(ACTION_SCRAPE), Be32(txId);
    Reads64([], connId, a + t + body);
    Reads32(c, ACTION_SCRAPE, t + body);
    Reads32(c + a, txId, body);
    assert s == [] + c + (a + t + body) == c + a + (t + body) == (c + a) + t + body;
  }

  // ---------------------------------------------------------------------------------------------
  // Scrape response
  // ---------------------------------------------------------------------------------------------

  /** How many complete entries of the asked ones were received. */
  function Entries(received: nat, asked: nat): nat
    requires received >= 8
  {
    if (received - 8) / 12 < asked then (received - 8) / 12 else asked
  }

  function StatsAt(s: seq<Byte>, i: nat): Stats
    requires 8 + 12 * i + 12 <= |s|
  {
    Stats(Read32(s, 8 + 12 * i), Read32(s, 12 + 12 * i), Read32(s, 16 + 12 * i))
  }

  /** The first k entries, by infohash; of two entries for one infohash the later stays. */
  function Table(s: seq<Byte>, infohashes: seq<string>, k: nat): map<string, Stats>
    requires k <= |infohashes| && 8 + 12 * k <= |s|
  {
    if k == 0 then map[] else Table(s, infohashes, k - 1)[infohashes[k - 1] := StatsAt(s, k - 1)]
  }

  /** The reply, from the received bytes alone. */
  function ScrapeReply(s: seq<Byte>, txId: U32, infohashes: seq<string>): Result<map<string, Stats>, Failure> {
    if |s| < 8 then Err(TooShort)
    else if Read32(s, 0) != ACTION_SCRAPE then Err(WrongAction)
    else if Read32(s, 4) != txId then Err(WrongTransaction)
    else Ok(Table(s, infohashes, Entries(|s|, |infohashes|)))
  }

  /** Whatever lies in the buffer past the n bytes received plays no part. */
  method ReadScrape(resp: array<Byte>, n: nat, txId: U32, infohashes: seq<string>) returns (r: Result<map<string, Stats>, Failure>)
    requires resp.Length == 8 + 12 * |infohashes| && n <= resp.Length
    ensures r == ScrapeReply(resp[..n], txId, infohashes)
    ensures r.Ok? <==> n >= 8 && resp[..4] == [0, 0, 0, 2] && Read32(resp[..], 4) == txId
  {
    if n < 8 {
      return Err(TooShort);
    }
    if Read32(resp[..n], 0) != ACTION_SCRAPE {
      return Err(WrongAction);
    }
    if Read32(resp[..n], 4) != txId {
      return Err(WrongTransaction);
    }
    var out: map<string, Stats> := map[];
    var i := 0;
    while i < |infohashes|
      invariant i <= Entries(n, |infohashes|)
      invariant out == Table(resp[..n], infohashes, i)
    {
      var offset := 8 + 12 * i;
      if offset + 12 > n {
        break;
      }
      out := out[infohashes[i] := StatsAt(resp[..n], i)];
      i := i + 1;
    }
    return Ok(out);
  }

  predicate Distinct(infohashes: seq<string>) {
    forall i, j | 0 <= i < j < |infohashes| :: infohashes[i] != infohashes[j]
  }

  /** The last of the first k entries with this infohash. */
  predicate LastOf(infohashes: seq<string>, k: nat, i: nat)
    requires k <= |infohashes|
  {
    i < k && forall j | i < j < k :: infohashes[j] != infohashes[i]
  }

  lemma {:induction false} TableHas(s: seq<Byte>, infohashes: seq<string>, k: nat)
    requires k <= |infohashes| && 8 + 12 * k <= |s|
    ensures forall ih :: ih in Table(s, infohashes, k) <==> ih in infohashes[..k]
  {
    if k > 0 {
      TableHas(s, infohashes, k - 1);
      assert infohashes[..k] == infohashes[..k - 1] + [infohashes[k - 1]];
    }
  }

  lemma {:induction false} TableAt(s: seq<Byte>, infohashes: seq<string>, k: nat, i: nat)
    requires k <= |infohashes| && 8 + 12 * k <= |s| && LastOf(infohashes, k, i)
    ensures infohashes[i] in Table(s, infohashes, k) && Table(s, infohashes, k)[infohashes[i]] == StatsAt(s, i)
  {
    if i < k - 1 {
      TableAt(s, infohashes, k - 1, i);
      assert infohashes[k - 1] != infohashes[i];
    }
  }

  /** What the table holds: each infohash asked for, with the counters of its last entry, and nothing else. */
  lemma TableExactly(s: seq<Byte>, infohashes: seq<string>, k: nat)
    requires k <= |infohashes| && 8 + 12 * k <= |s|
    ensures forall ih :: ih in Table(s, infohashes, k) <==> ih in infohashes[..k]
    ensures forall i | 0 <= i < k && LastOf(infohashes, k, i) :: Table(s, infohashes, k)[infohashes[i]] == StatsAt(s, i)
  {
    TableHas(s, infohashes, k);
    forall i | 0 <= i < k && LastOf(infohashes, k, i)
      ensures Table(s, infohashes, k)[infohashes[i]] == StatsAt(s, i)
    {
      TableAt(s, infohashes, k, i);
    }
  }

  /** With distinct infohashes: exactly the first min(asked, (n - 8) / 12), each with its own entry. */
  lemma ReplyExactly(s: seq<Byte>, txId: U32, infohashes: seq<string>)
    requires Distinct(infohashes) && ScrapeReply(s, txId, infohashes).Ok?
    ensures var table, k := ScrapeReply(s, txId, infohashes).value, Entries(|s|, |infohashes|);
            && k <= |infohashes| && 8 + 12 * k <= |s| && (k == |infohashes| || |s| < 8 + 12 * (k + 1))
            && (forall ih :: ih in table <==> ih in infohashes[..k])
            && forall i | 0 <= i < k ::
                 var st := table[infohashes[i]];
                 && st.seeders == Read32(s, 8 + 12 * i) && st.completed == Read32(s, 8 + 12 * i + 4)
                 && st.leechers == Read32(s, 8 + 12 * i + 8)
  {
    var k := Entries(|s|, |infohashes|);
    TableExactly(s, infohashes, k);
    forall i | 0 <= i < k
      ensures LastOf(infohashes, k, i)
    {
    }
  }

  /** A tracker's conforming reply. */
  function EncodeStats(stats: seq<Stats>): (s: seq<Byte>)
    ensures |s| == 12 * |stats|
  {
    if stats == [] then []
    else
      var last := stats[|stats| - 1];
      EncodeStats(stats[..|stats| - 1]) + (Be32(last.seeders) + Be32(last.completed) + Be32(last.leechers))
  }

  function EncodeReply(txId: U32, stats: seq<Stats>): seq<Byte> {
    Be32(ACTION_SCRAPE) + Be32(txId) + EncodeStats(stats)
  }

  lemma EntryReads(a: seq<Byte>, st: Stats, b: seq<Byte>)
    ensures var s := a + (Be32(st.seeders) + Be32(st.completed) + Be32(st.leechers)) + b;
            Read32(s, |a|) == st.seeders && Read32(s, |a| + 4) == st.completed && Read32(s, |a| + 8) == st.leechers
  {
    var x, y, z := Be32(st.seeders), Be32(st.completed), Be32(st.leechers);
    Reads32(a, st.seeders, y + z + b);
    Reads32(a + x, st.completed, z + b);
    Reads32(a + x + y, st.leechers, b);
    var s := a + (x + y + z) + b;
    assert s == a + x + (y + z + b) == (a + x) + y + (z + b) == (a + x + y) + z + b;
  }

  lemma {:induction false} EncodedAt(head: seq<Byte>, stats: seq<Stats>, tail: seq<Byte>, i: nat)
    requires |head| == 8 && i < |stats|
    ensures 8 + 12 * i + 12 <= |head + EncodeStats(stats) + tail| && StatsAt(head + EncodeStats(stats) + tail, i) == stats[i]
  {
    var init, last := stats[..|stats| - 1], stats[|stats| - 1];
    var bytes := Be32(last.seeders) + Be32(last.completed) + Be32(last.leechers);
    assert head + EncodeStats(stats) + tail == head + EncodeStats(init) + (bytes + tail);
    if i == |init| {
      EntryReads(head + EncodeStats(init), last, tail);
      assert head + EncodeStats(init) + (bytes + tail) == (head + EncodeStats(init)) + bytes + tail;
    } else {
      EncodedAt(head, init, bytes + tail, i);
    }
  }

  /** Reading inverts the encoder, also when the tracker answers fewer infohashes than asked. */
  lemma ReplyRoundTrip(txId: U32, stats: seq<Stats>, infohashes: seq<string>)
    requires Distinct(infohashes) && |stats| <= |infohashes|
    ensures var r := ScrapeReply(EncodeReply(txId, stats), txId, infohashes);
            && r.Ok?
            && (forall ih :: ih in r.value <==> ih in infohashes[..|stats|])
            && forall i | 0 <= i < |stats| :: infohashes[i] in r.value && r.value[infohashes[i]] == stats[i]
  {
    var s := EncodeReply(txId, stats);
    HeadReads(txId, EncodeStats(stats));
    assert |s| == 8 + 12 * |stats| && Entries(|s|, |infohashes|) == |stats|;
    ReplyExactly(s, txId, infohashes);
    forall i | 0 <= i < |stats|
      ensures infohashes[i] in infohashes[..|stats|] && StatsAt(s, i) == stats[i]
    {
      assert infohashes[..|stats|][i] == infohashes[i];
      EncodedAt(Be32(ACTION_SCRAPE) + Be32(txId), stats, [], i);
      assert Be32(ACTION_SCRAPE) + Be32(txId) + EncodeStats(stats) + [] == s;
    }
  }

  lemma HeadReads(txId: U32, rest: seq<Byte>)
    ensures var s := Be32(ACTION_SCRAPE) + Be32(txId) + rest; Read32(s, 0) == ACTION_SCRAPE && Read32(s, 4) == txId
  {
    var a, t := Be32(ACTION_SCRAPE), Be32(txId);
    assert a + t + rest == [] + a + (t + rest);
    Reads32([], ACTION_SCRAPE, t + rest);
    Reads32(a, txId, rest);
  }
}
