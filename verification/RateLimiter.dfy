/** The per-key rate limiter: at most `rate` findings of a key within a trailing window. */
module RateLimiter {
  import opened Expiry

  function Id(t: int): int { t }

  predicate Active(rate: int, window: int) { rate > 0 && window > 0 }

  /** One call for a key with this history: whether the finding passes, and the new history. */
  function Decide(rate: int, window: int, hist: seq<int>, ts: int): (bool, seq<int>) {
    if !Active(rate, window) then (true, hist)
    else
      var dq := DropStale(hist, Id, ts - window);
      if |dq| >= rate then (false, dq) else (true, dq + [ts])
  }

  // ---------------------------------------------------------------- whole runs

  datatype Call = Call(key: string, ts: int)

  /** What is remembered for a key after the calls. */
  function HistAfter(rate: int, window: int, calls: seq<Call>, key: string): seq<int> {
    if calls == [] then []
    else
      var c, before := calls[|calls| - 1], HistAfter(rate, window, calls[..|calls| - 1], key);
      if c.key == key then Decide(rate, window, before, c.ts).1 else before
  }

  /** Whether the last call passed. */
  function LastPassed(rate: int, window: int, calls: seq<Call>): bool
    requires calls != []
  {
    var c := calls[|calls| - 1];
    Decide(rate, window, HistAfter(rate, window, calls[..|calls| - 1], c.key), c.ts).0
  }

  /** The times of the calls for a key that passed. */
  function Passed(rate: int, window: int, calls: seq<Call>, key: string): seq<int> {
    if calls == [] then []
    else
      Passed(rate, window, calls[..|calls| - 1], key)
        + if calls[|calls| - 1].key == key && LastPassed(rate, window, calls) then [calls[|calls| - 1].ts] else []
  }

  function CallTs(c: Call): int { c.ts }

  /** How many of the times lie in the closed interval. */
  function CountIn(s: seq<int>, lo: int, hi: int): nat {
    if s == [] then 0 else CountIn(s[..|s| - 1], lo, hi) + if lo <= s[|s| - 1] <= hi then 1 else 0
  }

  /** Any rate + 1 accepted times in a row span more than the window. */
  ghost predicate Spaced(rate: int, window: int, passed: seq<int>) {
    forall i, j :: 0 <= i < j < |passed| && i + rate <= j ==> passed[j] - passed[i] > window
  }

  /** The remembered times are a suffix of the accepted ones, what was forgotten is older than the
    window that ends now, and no more than `rate` accepted times fit into a window. */
  ghost predicate Keeps(rate: int, window: int, hist: seq<int>, passed: seq<int>, now: int) {
    && |hist| <= |passed| && |hist| <= rate
    && hist == passed[|passed| - |hist|..]
    && Sorted(passed, Id)
    && (forall i :: 0 <= i < |passed| ==> passed[i] <= now)
    && (forall i :: 0 <= i < |passed| - |hist| ==> passed[i] < now - window)
    && Spaced(rate, window, passed)
  }

  lemma TimePasses(rate: int, window: int, hist: seq<int>, passed: seq<int>, now: int, later: int)
    requires Keeps(rate, window, hist, passed, now) && now <= later
    ensures Keeps(rate, window, hist, passed, later)
  {
  }

  lemma DropKeeps(rate: int, window: int, hist: seq<int>, passed: seq<int>, now: int)
    requires Keeps(rate, window, hist, passed, now)
    ensures Keeps(rate, window, DropStale(hist, Id, now - window), passed, now)
  {
    hide FirstFresh, Sorted, Spaced;
    var gone := |passed| - |hist|;
    var k := FirstFresh(hist, Id, now - window);
    assert hist[k..] == passed[gone + k..];
    forall i | 0 <= i < gone + k ensures passed[i] < now - window {
      if i >= gone { assert Id(hist[i - gone]) < now - window; }
    }
  }

  lemma LaterSorted(passed: seq<int>, now: int)
    requires Sorted(passed, Id) && forall i :: 0 <= i < |passed| ==> passed[i] <= now
    ensures Sorted(passed + [now], Id)
  {
  }

  lemma AcceptSpaced(rate: int, window: int, dq: seq<int>, passed: seq<int>, now: int)
    requires Active(rate, window) && Keeps(rate, window, dq, passed, now) && |dq| < rate
    ensures Spaced(rate, window, passed + [now])
  {
    hide Sorted;
    var more := passed + [now];
    forall i, j | 0 <= i < j < |more| && i + rate <= j ensures more[j] - more[i] > window {
      if j == |passed| { assert more[i] == passed[i]; }
    }
  }

  lemma AcceptKeeps(rate: int, window: int, dq: seq<int>, passed: seq<int>, now: int)
    requires Active(rate, window) && Keeps(rate, window, dq, passed, now) && |dq| < rate
    ensures Keeps(rate, window, dq + [now], passed + [now], now)
  {
    hide Spaced, Sorted;
    var more := passed + [now];
    assert dq + [now] == more[|passed| - |dq|..];
    LaterSorted(passed, now);
    AcceptSpaced(rate, window, dq, passed, now);
  }

  lemma DecideKeeps(rate: int, window: int, hist: seq<int>, passed: seq<int>, now: int)
    requires Active(rate, window) && Keeps(rate, window, hist, passed, now)
    ensures var (ok, hist') := Decide(rate, window, hist, now);
      Keeps(rate, window, hist', if ok then passed + [now] else passed, now)
  {
    hide Keeps, DropStale;
    DropKeeps(rate, window, hist, passed, now);
    var dq := DropStale(hist, Id, now - window);
    if |dq| < rate { AcceptKeeps(rate, window, dq, passed, now); }
  }

  lemma NothingYet(rate: int, window: int, now: int)
    requires Active(rate, window)
    ensures Keeps(rate, window, [], [], now)
  {
  }

  lemma {:induction false} RunKeeps(rate: int, window: int, calls: seq<Call>, key: string, now: int)
    requires Active(rate, window) && Sorted(calls, CallTs)
    requires calls != [] ==> calls[|calls| - 1].ts <= now
    ensures Keeps(rate, window, HistAfter(rate, window, calls, key), Passed(rate, window, calls, key), now)
  {
    hide Keeps, Decide;
    if calls == [] {
      NothingYet(rate, window, now);
    } else {
      var front, c := calls[..|calls| - 1], calls[|calls| - 1];
      SortedPrefix(calls, CallTs, |calls| - 1);
      assert front != [] ==> CallTs(front[|front| - 1]) <= CallTs(c);
      RunKeeps(rate, window, front, key, c.ts);
      if c.key == key {
        DecideKeeps(rate, window, HistAfter(rate, window, front, key), Passed(rate, window, front, key), c.ts);
      }
      assert Passed(rate, window, front, key) + [] == Passed(rate, window, front, key);
      TimePasses(rate, window, HistAfter(rate, window, calls, key), Passed(rate, window, calls, key), c.ts, now);
    }
  }

  lemma {:induction false} CountNone(s: seq<int>, lo: int, hi: int)
    requires forall i :: 0 <= i < |s| ==> !(lo <= s[i] <= hi)
    ensures CountIn(s, lo, hi) == 0
  {
    if s != [] { CountNone(s[..|s| - 1], lo, hi); }
  }

  lemma {:induction false} CountAll(s: seq<int>, lo: int, hi: int)
    requires forall i :: 0 <= i < |s| ==> lo <= s[i] <= hi
    ensures CountIn(s, lo, hi) == |s|
  {
    if s != [] { CountAll(s[..|s| - 1], lo, hi); }
  }

  lemma {:induction false} CountAppend(a: seq<int>, b: seq<int>, lo: int, hi: int)
    ensures CountIn(a + b, lo, hi) == CountIn(a, lo, hi) + CountIn(b, lo, hi)
  {
    if b == [] {
      assert a + b == a;
    } else {
      CountAppend(a, b[..|b| - 1], lo, hi);
      assert (a + b)[..|a + b| - 1] == a + b[..|b| - 1];
    }
  }

  lemma SpacedPrefix(rate: int, window: int, s: seq<int>)
    requires s != [] && Spaced(rate, window, s)
    ensures Spaced(rate, window, s[..|s| - 1])
  {
  }

  lemma {:induction false} CountAtMost(s: seq<int>, lo: int, hi: int)
    ensures CountIn(s, lo, hi) <= |s|
  {
    if s != [] { CountAtMost(s[..|s| - 1], lo, hi); }
  }

  /** When the last time is not past the interval, all but the last `rate` times lie before it. */
  lemma LastInReach(rate: int, window: int, s: seq<int>, lo: int)
    requires Active(rate, window) && Spaced(rate, window, s)
    requires s != [] && s[|s| - 1] <= lo + window
    ensures CountIn(s, lo, lo + window) <= rate
  {
    hide CountIn;
    var n := |s| - 1;
    var from := if |s| <= rate then 0 else |s| - rate;
    var a, b := s[..from], s[from..];
    assert s == a + b;
    CountAppend(a, b, lo, lo + window);
    CountAtMost(b, lo, lo + window);
    forall i | 0 <= i < |a| ensures !(lo <= a[i] <= lo + window) {
      assert s[n] - s[i] > window;
    }
    CountNone(a, lo, lo + window);
  }

  /** Times that are spaced never crowd into one interval. */
  lemma {:induction false} SpacedCount(rate: int, window: int, s: seq<int>, lo: int)
    requires Active(rate, window) && Spaced(rate, window, s)
    ensures CountIn(s, lo, lo + window) <= rate
    decreases |s|
  {
    hide Spaced;
    if s != [] {
      if s[|s| - 1] > lo + window {
        SpacedPrefix(rate, window, s);
        SpacedCount(rate, window, s[..|s| - 1], lo);
      } else {
        LastInReach(rate, window, s, lo);
      }
    }
  }

  /** Over a whole run with non-decreasing times, whatever other keys are called in between: no closed interval
    of the window's length holds more than `rate` findings of one key that passed. */
  lemma NeverMoreThanRate(rate: int, window: int, calls: seq<Call>, key: string, lo: int)
    requires Active(rate, window) && Sorted(calls, CallTs)
    ensures CountIn(Passed(rate, window, calls, key), lo, lo + window) <= rate
  {
    var now := if calls == [] then 0 else calls[|calls| - 1].ts;
    RunKeeps(rate, window, calls, key, now);
    SpacedCount(rate, window, Passed(rate, window, calls, key), lo);
  }

  lemma LastOrdered(calls: seq<Call>)
    requires Sorted(calls, CallTs) && |calls| > 1
    ensures calls[|calls| - 2].ts <= calls[|calls| - 1].ts
  {
    assert CallTs(calls[|calls| - 2]) <= CallTs(calls[|calls| - 1]);
  }

  lemma DroppedFront(q: seq<int>, c: int)
    ensures var dq := DropStale(q, Id, c); dq != [] ==> dq[0] >= c
  {
    hide FirstFresh;
    var k := FirstFresh(q, Id, c);
    assert k < |q| ==> Id(q[k]) >= c;
  }

  lemma AllInWindow(b: seq<int>, window: int, now: int)
    requires Sorted(b, Id) && (b != [] ==> b[0] >= now - window) && forall i :: 0 <= i < |b| ==> b[i] <= now
    ensures CountIn(b, now - window, now) == |b|
  {
    hide CountIn;
    forall i | 0 <= i < |b| ensures now - window <= b[i] {
      assert i > 0 ==> Id(b[0]) <= Id(b[i]);
    }
    CountAll(b, now - window, now);
  }

  lemma SortedSuffix(s: seq<int>, from: nat)
    requires Sorted(s, Id) && from <= |s|
    ensures Sorted(s[from..], Id)
  {
  }

  lemma FreshAreInWindow(rate: int, window: int, hist: seq<int>, passed: seq<int>, now: int)
    requires Keeps(rate, window, hist, passed, now)
    ensures CountIn(passed, now - window, now) == |DropStale(hist, Id, now - window)| <= rate
  {
    hide FirstFresh, Spaced, CountIn, Sorted;
    DropKeeps(rate, window, hist, passed, now);
    var dq := DropStale(hist, Id, now - window);
    hide DropStale;
    var from := |passed| - |dq|;
    var a, b := passed[..from], passed[from..];
    assert passed == a + b;
    CountAppend(a, b, now - window, now);
    CountNone(a, now - window, now);
    assert dq != [] ==> dq[0] >= now - window by { DroppedFront(hist, now - window); }
    SortedSuffix(passed, from);
    AllInWindow(b, window, now);
  }

  /** A finding is refused only when its own trailing window is full, and then always. */
  lemma RefusedExactlyWhenFull(rate: int, window: int, calls: seq<Call>)
    requires Active(rate, window) && Sorted(calls, CallTs) && calls != []
    ensures var c := calls[|calls| - 1];
      var crowd := CountIn(Passed(rate, window, calls[..|calls| - 1], c.key), c.ts - window, c.ts);
      !LastPassed(rate, window, calls) <==> crowd == rate
  {
    hide DropStale, HistAfter, Passed, Keeps, Sorted, CountIn;
    var front, c := calls[..|calls| - 1], calls[|calls| - 1];
    SortedPrefix(calls, CallTs, |calls| - 1);
    if front != [] { LastOrdered(calls); }
    RunKeeps(rate, window, front, c.key, c.ts);
    var passed := Passed(rate, window, front, c.key);
    FreshAreInWindow(rate, window, HistAfter(rate, window, front, c.key), passed, c.ts);
  }

  lemma NextCall(rate: int, window: int, calls: seq<Call>, c: Call, key: string)
    ensures var before := HistAfter(rate, window, calls, key);
      && HistAfter(rate, window, calls + [c], key) == (if c.key == key then Decide(rate, window, before, c.ts).1 else before)
      && (c.key == key ==> LastPassed(rate, window, calls + [c]) == Decide(rate, window, before, c.ts).0)
    ensures Passed(rate, window, calls + [c], key) == Passed(rate, window, calls, key)
      + if c.key == key && LastPassed(rate, window, calls + [c]) then [c.ts] else []
  {
    hide Decide;
    assert (calls + [c])[..|calls|] == calls;
  }

  function TimesOf(calls: seq<Call>, key: string): seq<int> {
    if calls == [] then []
    else TimesOf(calls[..|calls| - 1], key) + if calls[|calls| - 1].key == key then [calls[|calls| - 1].ts] else []
  }

  /** Without a positive rate and a positive window, as the program starts, every finding passes. */
  lemma {:induction false} InactiveAcceptsAll(rate: int, window: int, calls: seq<Call>, key: string)
    requires rate <= 0 || window <= 0
    ensures Passed(rate, window, calls, key) == TimesOf(calls, key)
    ensures calls != [] ==> LastPassed(rate, window, calls)
  {
    if calls != [] { InactiveAcceptsAll(rate, window, calls[..|calls| - 1], key); }
  }

  // --------------------------------------------------------------- the limiter

  class Limiter {
    const rate: int
    const window: int
    var keyHist: map<string, seq<int>>
    ghost var calls: seq<Call>                  // so far
    ghost var accepted: map<string, seq<int>>   // the times of each key that passed

    constructor (rate: int, window: int)
      ensures this.rate == rate && this.window == window && calls == [] && Valid()
    {
      this.rate, this.window := rate, window;
      keyHist, calls, accepted := map[], [], map[];
    }

    /** The accepted times remembered for a key. */
    function Hist(key: string): seq<int>
      reads this
    {
      if key in keyHist then keyHist[key] else []
    }

    /** All accepted times of a key. */
    ghost function Accepted(key: string): seq<int>
      reads this
    {
      if key in accepted then accepted[key] else []
    }

    ghost predicate Agrees(key: string)
      reads this
    {
      Hist(key) == HistAfter(rate, window, calls, key) && Accepted(key) == Passed(rate, window, calls, key)
    }

    ghost predicate Valid()
      reads this
    {
      forall key :: Agrees(key)
    }

    /** The popping loop. */
    method Forget(times: seq<int>, cutoff: int) returns (dq: seq<int>)
      ensures dq == DropStale(times, Id, cutoff)
    {
      dq := times;
      ghost var p := 0;
      while dq != [] && dq[0] < cutoff
        invariant p <= |times| && dq == times[p..]
        invariant forall i :: 0 <= i < p ==> Id(times[i]) < cutoff
        decreases |dq|
      {
        dq := dq[1..];
        p := p + 1;
      }
      FirstFreshUnique(times, Id, cutoff, p);
    }

    /** Forgets what is out of the window, and admits the finding if there is room. */
    method Admit(key: string, ts: int) returns (ok: bool)
      modifies this`keyHist
      ensures ok == Decide(rate, window, old(Hist(key)), ts).0
      ensures Hist(key) == Decide(rate, window, old(Hist(key)), ts).1
      ensures forall k :: k != key ==> Hist(k) == old(Hist(k))
    {
      if rate <= 0 || window <= 0 { return true; }
      hide DropStale;
      var dq := if key in keyHist then keyHist[key] else [];
      dq := Forget(dq, ts - window);
      keyHist := keyHist[key := dq];
      if |dq| >= rate { return false; }
      keyHist := keyHist[key := dq + [ts]];
      ok := true;
    }

    /** One call. What it has let through so far is, for every key, within the limit. */
    method RateLimitOk(key: string, ts: int) returns (ok: bool)
      requires Valid()
      modifies this
      ensures Valid() && calls == old(calls) + [Call(key, ts)]
      ensures ok == LastPassed(rate, window, calls)
      ensures Accepted(key) == old(Accepted(key)) + if ok then [ts] else []
      ensures forall k :: k != key ==> Hist(k) == old(Hist(k)) && Accepted(k) == old(Accepted(k))
    {
      hide Decide, HistAfter, Passed, LastPassed;
      ghost var before, c := calls, Call(key, ts);
      assert Agrees(key);
      NextCall(rate, window, calls, c, key);
      ok := Admit(key, ts);
      if ok { accepted := accepted[key := Accepted(key) + [ts]]; }
      calls := calls + [c];
      forall k ensures Agrees(k) {
        assert old(Agrees(k));
        NextCall(rate, window, before, c, k);
      }
    }

    /** For calls in time order: no closed interval of the window's length holds more than `rate` accepted times. */
    lemma WithinRate(key: string, lo: int)
      requires Valid() && Active(rate, window) && Sorted(calls, CallTs)
      ensures CountIn(Accepted(key), lo, lo + window) <= rate
    {
      hide Passed, HistAfter;
      assert Agrees(key);
      NeverMoreThanRate(rate, window, calls, key, lo);
    }
  }
}
