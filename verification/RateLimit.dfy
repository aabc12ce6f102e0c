/**
 The per-IP token bucket and its garbage collector (internal/web/ratelimit.go).
 Times are integers in nanoseconds, read from a clock that does not go back.
 */
module RateLimit {

  const TEN_MINUTES := 600_000_000_000

  class Bucket {
    var tokens: int
    var lastSeen: int

    constructor (tokens: int, lastSeen: int)
      ensures this.tokens == tokens && this.lastSeen == lastSeen
    {
      this.tokens, this.lastSeen := tokens, lastSeen;
    }

    /** Refill for the whole periods elapsed, then take one token. */
    method Take(p: Params, now: int) returns (ok: bool)
      requires p.Valid()
      modifies this
      ensures var b := Refilled(p, old(Level(tokens, lastSeen)), now);
              && ok == (b.tokens > 0)
              && Level(tokens, lastSeen) == if ok then b.(tokens := b.tokens - 1) else b
    {
      var refill := (now - lastSeen) / p.every;
      if refill > 0 {
        tokens := tokens + refill * p.rate;
        if tokens > p.rate {
          tokens := p.rate;
        }
        lastSeen := now;
      }
      if tokens <= 0 {
        return false;
      }
      tokens := tokens - 1;
      return true;
    }
  }

  /** The contents of a bucket. */
  datatype Level = Level(tokens: int, lastSeen: int)

  datatype Params = Params(rate: int, every: int) {
    predicate Valid() {
      rate >= 1 && every >= 1
    }
  }

  class Limiter {
    const params: Params
    var buckets: map<string, Bucket>

    ghost predicate Valid()
      reads this
    {
      && params.Valid()
      && forall a, b | a in buckets && b in buckets && a != b :: buckets[a] != buckets[b]
    }

    ghost function Levels(): map<string, Level>
      reads this, buckets.Values
    {
      map ip | ip in buckets :: Level(buckets[ip].tokens, buckets[ip].lastSeen)
    }

    constructor (params: Params)
      requires params.Valid()
      ensures Valid() && this.params == params && Levels() == map[]
    {
      this.params, buckets := params, map[];
    }

    method Allow(ip: string, now: int) returns (ok: bool)
      requires Valid()
      modifies this, buckets.Values
      ensures Valid() && fresh(buckets.Values - old(buckets.Values))
      ensures ok == Verdict(params, old(Levels()), ip, now)
      ensures Levels() == Asked(params, old(Levels()), ip, now)
      ensures OneRequest(params, old(Levels()), ip, now, ok, Levels())
    {
      RequestExactly(params, Levels(), ip, now);
      if ip !in buckets {
        var full := new Bucket(params.rate - 1, now);
        buckets := buckets[ip := full];
        return true;
      }
      ok := buckets[ip].Take(params, now);
    }

    /** One sweep; the clock is read anew for every bucket, between `begin` and `end`. */
    method Gc(begin: int, end: int) returns (ghost gone: set<string>)
      requires Valid() && begin <= end
      modifies this`buckets
      ensures Valid() && buckets.Values <= old(buckets.Values)
      ensures Levels() == old(Levels()) - gone
      ensures forall ip | ip in gone :: Stale(old(Levels()), ip, end)
      ensures forall ip | ip in Levels() :: !Stale(Levels(), ip, begin)
      ensures forall ip | ip in old(Levels()) && end - old(Levels())[ip].lastSeen <= 600_000_000_000 :: ip in Levels()
      ensures forall ip | ip in Levels() :: begin - Levels()[ip].lastSeen <= 600_000_000_000
    {
      gone := {};
      var left := buckets.Keys;
      while left != {}
        invariant Valid() && left <= buckets.Keys
        invariant buckets == old(buckets) - gone
        invariant forall ip | ip in gone :: ip in old(buckets) && end - old(buckets)[ip].lastSeen > TEN_MINUTES
        invariant forall ip | ip in buckets && ip !in left :: begin - buckets[ip].lastSeen <= TEN_MINUTES
      {
        var ip :| ip in left;
        left := left - {ip};
        var now: int :| begin <= now <= end;
        if now - buckets[ip].lastSeen > TEN_MINUTES {
          buckets, gone := buckets - {ip}, gone + {ip};
        }
      }
    }
  }

  // ---------------------------------------------------------------------------------------------
  // One call, on the contents of the buckets
  // ---------------------------------------------------------------------------------------------

  function Refilled(p: Params, b: Level, now: int): Level
    requires p.Valid()
  {
    var refill := (now - b.lastSeen) / p.every;
    if refill > 0 then Level(if b.tokens + refill * p.rate > p.rate then p.rate else b.tokens + refill * p.rate, now) else b
  }

  function Verdict(p: Params, m: map<string, Level>, ip: string, now: int): bool
    requires p.Valid()
  {
    ip !in m || Refilled(p, m[ip], now).tokens > 0
  }

  function Asked(p: Params, m: map<string, Level>, ip: string, now: int): map<string, Level>
    requires p.Valid()
  {
    if ip !in m then m[ip := Level(p.rate - 1, now)]
    else
      var b := Refilled(p, m[ip], now);
      m[ip := if b.tokens <= 0 then b else b.(tokens := b.tokens - 1)]
  }

  /** An unknown client or one whose last refill is a period ago gets a full bucket, less one; the others what is left. */
  predicate OneRequest(p: Params, m: map<string, Level>, ip: string, now: int, ok: bool, after: map<string, Level>) {
    && (ip !in m ==> ok && after == m[ip := Level(p.rate - 1, now)])
    && (ip in m && now - m[ip].lastSeen >= p.every && m[ip].tokens >= 0 ==> ok && after == m[ip := Level(p.rate - 1, now)])
    && (ip in m && now - m[ip].lastSeen < p.every && m[ip].tokens > 0 ==>
          ok && after == m[ip := Level(m[ip].tokens - 1, m[ip].lastSeen)])
    && (ip in m && now - m[ip].lastSeen < p.every && m[ip].tokens <= 0 ==> !ok && after == m)
  }

  lemma RequestExactly(p: Params, m: map<string, Level>, ip: string, now: int)
    requires p.Valid()
    ensures OneRequest(p, m, ip, now, Verdict(p, m, ip, now), Asked(p, m, ip, now))
  {
    if ip in m && m[ip].tokens >= 0 {
      RefillIsReset(p, m[ip], now);
    } else if ip in m && now - m[ip].lastSeen < p.every {
      NoPeriod(now - m[ip].lastSeen, p.every);
    }
  }

  lemma NoPeriod(age: int, every: int)
    requires age < every && every >= 1
    ensures age / every <= 0
  {
  }

  predicate Stale(m: map<string, Level>, ip: string, now: int) {
    ip in m && now - m[ip].lastSeen > TEN_MINUTES
  }

  // ---------------------------------------------------------------------------------------------
  // Whole runs: requests of any clients, with sweeps anywhere
  // ---------------------------------------------------------------------------------------------

  datatype Event = Request(ip: string, at: int) | Sweep(at: int, gone: set<string>)

  /** The buckets after a run. */
  function After(p: Params, run: seq<Event>): map<string, Level>
    requires p.Valid()
  {
    if run == [] then map[]
    else
      var m := After(p, run[..|run| - 1]);
      match run[|run| - 1]
      case Request(ip, at) => Asked(p, m, ip, at)
      case Sweep(_, gone) => m - gone
  }

  /** The clock never goes back, and a sweep forgets stale buckets only. */
  ghost predicate Legal(p: Params, run: seq<Event>)
    requires p.Valid()
  {
    run == [] ||
    var init, last := run[..|run| - 1], run[|run| - 1];
    && Legal(p, init)
    && (forall e | e in init :: e.at <= last.at)
    && (last.Sweep? ==> forall ip | ip in last.gone :: Stale(After(p, init), ip, last.at))
  }

  /** `now` is not before anything in the run. */
  predicate NotBefore(run: seq<Event>, now: int) {
    forall e | e in run :: e.at <= now
  }

  /** The run as the limiter that never forgets sees it. */
  function Requests(run: seq<Event>): seq<Event> {
    if run == [] then []
    else
      var init, last := Requests(run[..|run| - 1]), run[|run| - 1];
      if last.Request? then init + [last] else init
  }

  // ---------------------------------------------------------------------------------------------
  // Reference: fixed windows. A window opens with the first request at least `every` after the previous
  // opening, and admits `rate` requests.
  // ---------------------------------------------------------------------------------------------

  datatype Window = Window(start: int, count: int)

  predicate InWindow(p: Params, w: map<string, Window>, ip: string, now: int) {
    ip in w && now - w[ip].start < p.every
  }

  predicate Admits(p: Params, w: map<string, Window>, ip: string, now: int) {
    !InWindow(p, w, ip, now) || w[ip].count < p.rate
  }

  function Windows(p: Params, run: seq<Event>): map<string, Window> {
    if run == [] then map[]
    else
      var w := Windows(p, run[..|run| - 1]);
      match run[|run| - 1]
      case Request(ip, at) => WindowsStep(p, w, ip, at)
      case Sweep(_, _) => w
  }

  function WindowsStep(p: Params, w: map<string, Window>, ip: string, at: int): map<string, Window> {
    if !InWindow(p, w, ip, at) then w[ip := Window(at, 1)]
    else if w[ip].count < p.rate then w[ip := w[ip].(count := w[ip].count + 1)]
    else w
  }

  // ---------------------------------------------------------------------------------------------
  // The limiter refines the windows; the garbage collector cannot be seen
  // ---------------------------------------------------------------------------------------------

  /** A bucket shows the window's start and what is left in it; a forgotten one has its window behind it. */
  ghost predicate Shows(p: Params, m: map<string, Level>, w: map<string, Window>, now: int) {
    && (forall ip | ip in w :: 1 <= w[ip].count <= p.rate)
    && (forall ip | ip in m :: ip in w && m[ip] == Level(p.rate - w[ip].count, w[ip].start))
    && (forall ip | ip in w && ip !in m :: now - w[ip].start >= p.every)
  }

  lemma RefillIsReset(p: Params, b: Level, now: int)
    requires p.Valid() && b.tokens >= 0
    ensures Refilled(p, b, now) == if now - b.lastSeen >= p.every then Level(p.rate, now) else b
  {
    var age := now - b.lastSeen;
    if age >= p.every {
      assert age / p.every >= 1;
      assert (age / p.every) * p.rate >= p.rate;
    }
  }

  lemma ShowsVerdict(p: Params, m: map<string, Level>, w: map<string, Window>, now: int, ip: string, at: int)
    requires p.Valid() && Shows(p, m, w, now) && now <= at
    ensures Verdict(p, m, ip, at) == Admits(p, w, ip, at)
  {
    if ip in m {
      RefillIsReset(p, m[ip], at);
    }
  }

  lemma ShowsRequest(p: Params, m: map<string, Level>, w: map<string, Window>, now: int, ip: string, at: int)
    requires p.Valid() && Shows(p, m, w, now) && now <= at
    ensures Shows(p, Asked(p, m, ip, at), WindowsStep(p, w, ip, at), at)
  {
    if ip in m {
      RefillIsReset(p, m[ip], at);
    }
  }

  /** No sweep of the run forgets a bucket before its window is over: it is short enough, or there are none. */
  predicate Remembered(p: Params, run: seq<Event>) {
    p.every <= TEN_MINUTES + 1 || Requests(run) == run
  }

  lemma RememberedInit(p: Params, run: seq<Event>)
    requires Remembered(p, run) && run != []
    ensures Remembered(p, run[..|run| - 1]) && (run[|run| - 1].Sweep? ==> p.every <= TEN_MINUTES + 1)
  {
    if p.every > TEN_MINUTES + 1 {
      OnlyRequests(run);
    }
  }

  lemma {:induction false} LimiterShowsWindows(p: Params, run: seq<Event>, now: int)
    requires p.Valid() && Legal(p, run) && NotBefore(run, now) && Remembered(p, run)
    ensures Shows(p, After(p, run), Windows(p, run), now)
  {
    if run != [] {
      var init, last := run[..|run| - 1], run[|run| - 1];
      assert last in run;
      RememberedInit(p, run);
      LimiterShowsWindows(p, init, last.at);
      var m, w := After(p, init), Windows(p, init);
      if last.Request? {
        ShowsRequest(p, m, w, last.at, last.ip, last.at);
      }
    }
  }

  lemma {:induction false} RequestsShorter(run: seq<Event>)
    ensures |Requests(run)| <= |run|
    ensures forall e | e in Requests(run) :: e in run && e.Request?
  {
    if run != [] {
      var init := run[..|run| - 1];
      RequestsShorter(init);
      assert run == init + [run[|run| - 1]];
    }
  }

  lemma OnlyRequests(run: seq<Event>)
    requires run != [] && Requests(run) == run
    ensures run[|run| - 1].Request? && Requests(run[..|run| - 1]) == run[..|run| - 1]
  {
    var init, last := run[..|run| - 1], run[|run| - 1];
    RequestsShorter(init);
    assert last.Request?;
    assert Requests(run) == Requests(init) + [last];
    assert run == init + [last];
    assert Requests(init) == Requests(run)[..|run| - 1];
  }

  lemma {:induction false} RequestsIdempotent(run: seq<Event>)
    ensures Requests(Requests(run)) == Requests(run)
  {
    if run != [] {
      var init, last := run[..|run| - 1], run[|run| - 1];
      RequestsIdempotent(init);
      if last.Request? {
        assert (Requests(init) + [last])[..|Requests(init)|] == Requests(init);
      }
    }
  }

  lemma {:induction false} RequestsLegal(p: Params, run: seq<Event>)
    requires p.Valid() && Legal(p, run)
    ensures Legal(p, Requests(run)) && Windows(p, Requests(run)) == Windows(p, run)
  {
    if run != [] {
      var init, last := run[..|run| - 1], run[|run| - 1];
      RequestsLegal(p, init);
      RequestsShorter(init);
      if last.Request? {
        assert (Requests(init) + [last])[..|Requests(init)|] == Requests(init);
      }
    }
  }

  /** For any requests and any placement of sweeps, the next answer is the one of the limiter that never forgets. */
  lemma GcInvisible(p: Params, run: seq<Event>, ip: string, now: int)
    requires p.Valid() && p.every <= TEN_MINUTES + 1
    requires Legal(p, run) && NotBefore(run, now)
    ensures Verdict(p, After(p, run), ip, now) == Verdict(p, After(p, Requests(run)), ip, now)
  {
    LimiterShowsWindows(p, run, now);
    ShowsVerdict(p, After(p, run), Windows(p, run), now, ip, now);
    RequestsLegal(p, run);
    RequestsShorter(run);
    RequestsIdempotent(run);
    LimiterShowsWindows(p, Requests(run), now);
    ShowsVerdict(p, After(p, Requests(run)), Windows(p, run), now, ip, now);
  }

  ghost predicate Invisible(p: Params, run: seq<Event>, ip: string, now: int)
    requires p.Valid()
  {
    Verdict(p, After(p, run), ip, now) == Verdict(p, After(p, Requests(run)), ip, now)
  }

  /** The collector is invisible exactly for periods of up to ten minutes (and one tick of the clock). */
  lemma GcInvisibleExactly(p: Params)
    requires p.Valid()
    ensures (forall run, ip, now | Legal(p, run) && NotBefore(run, now) :: Invisible(p, run, ip, now))
            <==> p.every <= TEN_MINUTES + 1
  {
    if p.every <= TEN_MINUTES + 1 {
      forall run, ip, now | Legal(p, run) && NotBefore(run, now)
        ensures Invisible(p, run, ip, now)
      {
        GcInvisible(p, run, ip, now);
      }
    } else {
      var run := GcVisible(p);
    }
  }

  /** With a longer period, a client that has used its allowance is let in again after a sweep. */
  lemma GcVisible(p: Params) returns (run: seq<Event>)
    requires p.Valid() && p.every > TEN_MINUTES + 1
    ensures Legal(p, run) && NotBefore(run, TEN_MINUTES + 1) && !Invisible(p, run, "", TEN_MINUTES + 1)
  {
    var burst := Burst(p, p.rate);
    run := burst + [Sweep(TEN_MINUTES + 1, {""})];
    assert run[..|burst|] == burst;
    StillEmpty(p, TEN_MINUTES + 1);
  }

  /** A drained bucket refuses until a whole period has passed. */
  lemma StillEmpty(p: Params, now: int)
    requires p.Valid() && 0 <= now < p.every
    ensures !Verdict(p, Drained(p, p.rate), "", now)
  {
    assert now / p.every == 0;
  }

  /** `n` requests of one client at time zero. */
  lemma {:induction false} Burst(p: Params, n: nat) returns (run: seq<Event>)
    requires p.Valid() && n <= p.rate
    ensures Legal(p, run) && Requests(run) == run && NotBefore(run, 0)
    ensures After(p, run) == Drained(p, n)
  {
    if n == 0 {
      run := [];
    } else {
      var init := Burst(p, n - 1);
      Snoc(p, init, "", 0);
      DrainStep(p, n - 1);
      run := init + [Request("", 0)];
    }
  }

  lemma Snoc(p: Params, run: seq<Event>, ip: string, at: int)
    requires p.Valid()
    ensures After(p, run + [Request(ip, at)]) == Asked(p, After(p, run), ip, at)
    ensures Requests(run + [Request(ip, at)]) == Requests(run) + [Request(ip, at)]
    ensures Legal(p, run) && NotBefore(run, at) ==> Legal(p, run + [Request(ip, at)])
  {
    assert (run + [Request(ip, at)])[..|run|] == run;
  }

  function Drained(p: Params, n: nat): map<string, Level> {
    if n == 0 then map[] else map["" := Level(p.rate - n, 0)]
  }

  lemma DrainStep(p: Params, n: nat)
    requires p.Valid() && n < p.rate
    ensures Asked(p, Drained(p, n), "", 0) == Drained(p, n + 1)
  {
    SameInstant(p, Level(p.rate - n, 0));
  }

  lemma SameInstant(p: Params, b: Level)
    requires p.Valid()
    ensures Refilled(p, b, b.lastSeen) == b
  {
    assert 0 / p.every == 0;
  }

  // ---------------------------------------------------------------------------------------------
  // Admission
  // ---------------------------------------------------------------------------------------------

  /** How many requests of `ip` dated in [a, b] the limiter let through. */
  function Admitted(p: Params, run: seq<Event>, ip: string, a: int, b: int): nat
    requires p.Valid()
  {
    if run == [] then 0
    else
      var init, last := run[..|run| - 1], run[|run| - 1];
      Admitted(p, init, ip, a, b) +
      if last.Request? && last.ip == ip && a <= last.at <= b && Verdict(p, After(p, init), ip, last.at) then 1 else 0
  }

  /** The last step of a legal run, told by the windows. */
  lemma LastStep(p: Params, run: seq<Event>)
    requires p.Valid() && Remembered(p, run) && Legal(p, run) && run != []
    ensures var init, last := run[..|run| - 1], run[|run| - 1];
            && Legal(p, init) && Remembered(p, init) && last in run && NotBefore(init, last.at) && (forall e | e in init :: e in run)
            && Shows(p, After(p, init), Windows(p, init), last.at)
            && (last.Request? ==> Verdict(p, After(p, init), last.ip, last.at) == Admits(p, Windows(p, init), last.ip, last.at))
  {
    var init, last := run[..|run| - 1], run[|run| - 1];
    assert run == init + [last];
    RememberedInit(p, run);
    LimiterShowsWindows(p, init, last.at);
    if last.Request? {
      ShowsVerdict(p, After(p, init), Windows(p, init), last.at, last.ip, last.at);
    }
  }

  /** rate * floor(age / every), one period at a time. */
  function Allowance(p: Params, age: int): nat
    requires p.Valid()
    decreases age
  {
    if age < p.every then 0 else p.rate + Allowance(p, age - p.every)
  }

  lemma {:induction false} AllowanceIsProduct(p: Params, age: nat)
    requires p.Valid()
    ensures Allowance(p, age) == p.rate * (age / p.every)
    decreases age
  {
    if age >= p.every {
      AllowanceIsProduct(p, age - p.every);
      DivStep(age - p.every, p.every);
      assert p.rate * ((age - p.every) / p.every + 1) == p.rate * ((age - p.every) / p.every) + p.rate;
    } else {
      assert age / p.every == 0;
    }
  }

  lemma DivStep(x: nat, d: int)
    requires d >= 1
    ensures (x + d) / d == x / d + 1
  {
    var k, k' := x / d + 1, (x + d) / d;
    assert d * k == d * (x / d) + d;
    if k' < k {
      MulMonotone(d, k' + 1, k);
    } else if k < k' {
      MulMonotone(d, k + 1, k');
    }
  }

  lemma MulMonotone(d: nat, x: int, y: int)
    requires x <= y
    ensures d * x <= d * y
  {
  }

  lemma {:induction false} AllowanceMonotone(p: Params, x: int, y: int)
    requires p.Valid() && x <= y
    ensures Allowance(p, x) <= Allowance(p, y)
    decreases y
  {
    if y >= p.every && x >= p.every {
      AllowanceMonotone(p, x - p.every, y - p.every);
    }
  }

  /** Admissions since `a`, told by the window now open: one window may have been open at `a` already. */
  ghost predicate Fits(p: Params, w: map<string, Window>, ip: string, n: int, a: int)
    requires p.Valid()
  {
    if ip !in w then n == 0
    else if w[ip].start < a then n <= w[ip].count
    else n <= Allowance(p, w[ip].start - a) + p.rate + w[ip].count
  }

  /** The same when `a` is not after the client's first request: no earlier window. */
  ghost predicate FitsFromFirst(p: Params, w: map<string, Window>, ip: string, n: int, a: int)
    requires p.Valid()
  {
    if ip !in w then n == 0
    else a <= w[ip].start && n <= Allowance(p, w[ip].start - a) + w[ip].count
  }

  lemma FitsStep(p: Params, w: map<string, Window>, ip: string, n: int, a: int, at: int)
    requires p.Valid() && (ip in w ==> 1 <= w[ip].count <= p.rate && w[ip].start <= at) && (at < a ==> n == 0)
    ensures var n' := n + if a <= at && Admits(p, w, ip, at) then 1 else 0;
            && (Fits(p, w, ip, n, a) ==> Fits(p, WindowsStep(p, w, ip, at), ip, n', a))
            && (FitsFromFirst(p, w, ip, n, a) && a <= at ==> FitsFromFirst(p, WindowsStep(p, w, ip, at), ip, n', a))
  {
    if ip in w && !InWindow(p, w, ip, at) {
      AllowanceMonotone(p, w[ip].start - a, at - a - p.every);
    }
  }

  /** What the last step adds, in terms of the windows. */
  lemma AdmittedStep(p: Params, run: seq<Event>, ip: string, a: int, b: int)
    requires p.Valid() && Remembered(p, run) && Legal(p, run) && NotBefore(run, b) && run != []
    ensures var init, last := run[..|run| - 1], run[|run| - 1];
            var w, n := Windows(p, init), Admitted(p, init, ip, a, last.at);
            && (last.at < a ==> n == 0)
            && (last.Request? && last.ip == ip ==>
                  && Windows(p, run) == WindowsStep(p, w, ip, last.at)
                  && Admitted(p, run, ip, a, b) == n + if a <= last.at && Admits(p, w, ip, last.at) then 1 else 0)
            && (!(last.Request? && last.ip == ip) ==>
                  && (ip in Windows(p, run) <==> ip in w) && (ip in w ==> Windows(p, run)[ip] == w[ip])
                  && Admitted(p, run, ip, a, b) == n)
  {
    var init, last := run[..|run| - 1], run[|run| - 1];
    LastStep(p, run);
    UpperEndFree(p, init, ip, a, b, last.at);
    if last.at < a {
      NoneYet(p, init, ip, a, last.at);
    }
  }

  /** A window was opened by a request, and has admitted one at least. */
  lemma {:induction false} WindowSane(p: Params, run: seq<Event>, ip: string, b: int)
    requires p.Valid() && Remembered(p, run) && Legal(p, run) && NotBefore(run, b)
    ensures ip in Windows(p, run) ==> Windows(p, run)[ip].start <= b && 1 <= Windows(p, run)[ip].count <= p.rate
  {
    if run != [] {
      LastStep(p, run);
      WindowSane(p, run[..|run| - 1], ip, run[|run| - 1].at);
    }
  }

  /** The budget holds after every legal run. */
  lemma {:induction false} Budget(p: Params, run: seq<Event>, ip: string, a: int, b: int)
    requires p.Valid() && Remembered(p, run) && Legal(p, run) && NotBefore(run, b)
    ensures Fits(p, Windows(p, run), ip, Admitted(p, run, ip, a, b), a)
  {
    if run != [] {
      var init, last := run[..|run| - 1], run[|run| - 1];
      LastStep(p, run);
      Budget(p, init, ip, a, last.at);
      WindowSane(p, init, ip, last.at);
      AdmittedStep(p, run, ip, a, b);
      if last.Request? && last.ip == ip {
        FitsStep(p, Windows(p, init), ip, Admitted(p, init, ip, a, last.at), a, last.at);
      }
    }
  }

  /** The smaller budget holds while no request of the client is before `a`. */
  lemma {:induction false} BudgetFromFirst(p: Params, run: seq<Event>, ip: string, a: int, b: int)
    requires p.Valid() && Remembered(p, run) && Legal(p, run) && NotBefore(run, b)
    requires forall e | e in run && e.Request? && e.ip == ip :: a <= e.at
    ensures FitsFromFirst(p, Windows(p, run), ip, Admitted(p, run, ip, a, b), a)
  {
    if run != [] {
      var init, last := run[..|run| - 1], run[|run| - 1];
      LastStep(p, run);
      BudgetFromFirst(p, init, ip, a, last.at);
      WindowSane(p, init, ip, last.at);
      AdmittedStep(p, run, ip, a, b);
      if last.Request? && last.ip == ip {
        FitsStep(p, Windows(p, init), ip, Admitted(p, init, ip, a, last.at), a, last.at);
      }
    }
  }

  lemma {:induction false} NoneYet(p: Params, run: seq<Event>, ip: string, a: int, b: int)
    requires p.Valid() && b < a
    ensures Admitted(p, run, ip, a, b) == 0
  {
    if run != [] {
      NoneYet(p, run[..|run| - 1], ip, a, b);
    }
  }

  /** The upper end of the interval is idle once every event is before it. */
  lemma {:induction false} UpperEndFree(p: Params, run: seq<Event>, ip: string, a: int, b: int, c: int)
    requires p.Valid() && NotBefore(run, b) && NotBefore(run, c)
    ensures Admitted(p, run, ip, a, b) == Admitted(p, run, ip, a, c)
  {
    if run != [] {
      assert run == run[..|run| - 1] + [run[|run| - 1]];
      UpperEndFree(p, run[..|run| - 1], ip, a, b, c);
    }
  }

  /**
   At most rate * (floor(L / every) + 2) admissions in any interval of length L, and one period's worth
   less when the interval starts no later than the client's first request.
   */
  lemma {:induction false} AdmissionBound(p: Params, run: seq<Event>, ip: string, a: int, b: int)
    requires p.Valid() && Remembered(p, run) && Legal(p, run) && a <= b
    ensures Admitted(p, run, ip, a, b) <= p.rate * ((b - a) / p.every + 2)
    ensures (forall e | e in run && e.Request? && e.ip == ip :: a <= e.at)
            ==> Admitted(p, run, ip, a, b) <= p.rate * ((b - a) / p.every + 1)
  {
    if run != [] && run[|run| - 1].at > b {
      LastStep(p, run);
      AdmissionBound(p, run[..|run| - 1], ip, a, b);
    } else {
      LastIsLatest(p, run, b);
      Budget(p, run, ip, a, b);
      WindowSane(p, run, ip, b);
      if forall e | e in run && e.Request? && e.ip == ip :: a <= e.at {
        BudgetFromFirst(p, run, ip, a, b);
      }
      BudgetIsBound(p, Windows(p, run), ip, Admitted(p, run, ip, a, b), a, b);
    }
  }

  lemma BudgetIsBound(p: Params, w: map<string, Window>, ip: string, n: int, a: int, b: int)
    requires p.Valid() && a <= b && (ip in w ==> w[ip].start <= b && 1 <= w[ip].count <= p.rate)
    ensures Fits(p, w, ip, n, a) ==> n <= p.rate * ((b - a) / p.every + 2)
    ensures FitsFromFirst(p, w, ip, n, a) ==> n <= p.rate * ((b - a) / p.every + 1)
  {
    var q := (b - a) / p.every;
    AllowanceIsProduct(p, b - a);
    assert p.rate * (q + 2) == p.rate * q + 2 * p.rate;
    assert p.rate * (q + 1) == p.rate * q + p.rate;
    if ip in w {
      AllowanceMonotone(p, w[ip].start - a, b - a);
    }
  }

  lemma LastIsLatest(p: Params, run: seq<Event>, b: int)
    requires p.Valid() && Legal(p, run) && (run != [] ==> run[|run| - 1].at <= b)
    ensures NotBefore(run, b)
  {
    if run != [] {
      assert run == run[..|run| - 1] + [run[|run| - 1]];
    }
  }

  // ---------------------------------------------------------------------------------------------
  // Exactness
  // ---------------------------------------------------------------------------------------------

  /** A window counts the admissions since it opened. */
  lemma {:induction false} WindowCounts(p: Params, run: seq<Event>, ip: string, now: int)
    requires p.Valid() && Remembered(p, run) && Legal(p, run) && NotBefore(run, now)
    ensures var w := Windows(p, run);
            ip in w ==> w[ip].start <= now && w[ip].count == Admitted(p, run, ip, w[ip].start, now)
  {
    if run != [] {
      var init, last := run[..|run| - 1], run[|run| - 1];
      LastStep(p, run);
      WindowCounts(p, init, ip, now);
      WindowCounts(p, init, ip, last.at);
      var w := Windows(p, init);
      if last.Request? && last.ip == ip && !InWindow(p, w, ip, last.at) {
        NoneSince(p, init, ip, last.at, now);
      }
    }
  }

  /** Before a window opens at `at`, no request of the client dated `at` has been seen. */
  lemma {:induction false} NoneSince(p: Params, run: seq<Event>, ip: string, at: int, now: int)
    requires p.Valid() && Remembered(p, run) && Legal(p, run) && NotBefore(run, at)
    requires !InWindow(p, Windows(p, run), ip, at)
    ensures Admitted(p, run, ip, at, now) == 0
  {
    if run != [] {
      LastStep(p, run);
      NoneSince(p, run[..|run| - 1], ip, at, now);
    }
  }

  /**
   A request is denied exactly when the client's current window opened less than `every` ago and `rate`
   of its requests were admitted since.
   */
  lemma DeniedExactly(p: Params, run: seq<Event>, ip: string, now: int)
    requires p.Valid() && Remembered(p, run) && Legal(p, run) && NotBefore(run, now)
    ensures var w := Windows(p, run);
            !Verdict(p, After(p, run), ip, now)
            <==> ip in w && now - w[ip].start < p.every && Admitted(p, run, ip, w[ip].start, now) == p.rate
  {
    LimiterShowsWindows(p, run, now);
    ShowsVerdict(p, After(p, run), Windows(p, run), now, ip, now);
    WindowCounts(p, run, ip, now);
  }

  /** The requests of one client. */
  function Only(run: seq<Event>, ip: string): seq<Event> {
    if run == [] then []
    else
      var init, last := Only(run[..|run| - 1], ip), run[|run| - 1];
      if last.Request? && last.ip == ip then init + [last] else init
  }

  lemma {:induction false} OnlyFacts(p: Params, run: seq<Event>, ip: string)
    requires p.Valid() && Legal(p, run)
    ensures Legal(p, Only(run, ip)) && forall e | e in Only(run, ip) :: e in run
    ensures var w, w1 := Windows(p, run), Windows(p, Only(run, ip));
            (ip in w <==> ip in w1) && (ip in w ==> w[ip] == w1[ip])
  {
    if run != [] {
      var init, last := run[..|run| - 1], run[|run| - 1];
      OnlyFacts(p, init, ip);
      assert run == init + [last];
      if last.Request? && last.ip == ip {
        assert (Only(init, ip) + [last])[..|Only(init, ip)|] == Only(init, ip);
      }
    }
  }

  lemma {:induction false} OnlyHasRequests(run: seq<Event>, ip: string)
    ensures Requests(Only(run, ip)) == Only(run, ip)
  {
    if run != [] {
      var init, last := run[..|run| - 1], run[|run| - 1];
      OnlyHasRequests(init, ip);
      if last.Request? && last.ip == ip {
        assert (Only(init, ip) + [last])[..|Only(init, ip)|] == Only(init, ip);
      }
    }
  }

  /** Other clients and sweeps never matter: the answer is the one the client gets alone. */
  lemma OthersNeverMatter(p: Params, run: seq<Event>, ip: string, now: int)
    requires p.Valid() && Remembered(p, run) && Legal(p, run) && NotBefore(run, now)
    ensures Verdict(p, After(p, run), ip, now) == Verdict(p, After(p, Only(run, ip)), ip, now)
  {
    OnlyFacts(p, run, ip);
    OnlyHasRequests(run, ip);
    LimiterShowsWindows(p, run, now);
    ShowsVerdict(p, After(p, run), Windows(p, run), now, ip, now);
    LimiterShowsWindows(p, Only(run, ip), now);
    ShowsVerdict(p, After(p, Only(run, ip)), Windows(p, Only(run, ip)), now, ip, now);
  }
}
