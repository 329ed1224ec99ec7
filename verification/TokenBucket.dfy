/** The packet generator's rate limiter, in real arithmetic, with the clock as an input. */
module TokenBucket {

  datatype Level = Level(rate: real, capacity: real, available: real, last: nat)
  datatype Request = Request(tokens: nat, now: nat)

  function Min(a: real, b: real): real { if a < b then a else b }

  function Max(a: real, b: real): real { if a < b then b else a }

  /** Tokens earned in n microseconds, one microsecond at a time. */
  function Earn(rate: real, n: nat): real { if n == 0 then 0.0 else Earn(rate, n - 1) + rate }

  lemma {:induction false} EarnIsRateTimesTime(rate: real, n: nat)
    ensures Earn(rate, n) == rate * n as real
  {
    if n > 0 { EarnIsRateTimesTime(rate, n - 1); }
  }

  lemma {:induction false} EarnSplit(rate: real, m: nat, n: nat)
    requires rate >= 0.0
    ensures Earn(rate, m + n) == Earn(rate, m) + Earn(rate, n) && Earn(rate, n) >= 0.0
  {
    if n > 0 { EarnSplit(rate, m, n - 1); }
  }

  function Earned(l: Level, now: nat): real
    requires l.last <= now
  { Earn(l.rate, now - l.last) }

  function Refilled(l: Level, now: nat): Level
    requires l.last <= now
  { l.(available := Min(l.capacity, l.available + Earned(l, now)), last := now) }

  function After(l: Level, r: Request): Level
    requires l.last <= r.now
  {
    var f := Refilled(l, r.now);
    if Grants(l, r) then f.(available := f.available - r.tokens as real) else f
  }

  /** A request is granted when strictly fewer tokens are asked for than are there. */
  predicate Grants(l: Level, r: Request)
    requires l.last <= r.now
  { r.tokens as real < Refilled(l, r.now).available }

  ghost predicate Sane(l: Level) { l.rate >= 0.0 && 0.0 <= l.available <= l.capacity }

  class Bucket {
    var lastFill: nat
    var rate: real
    var available: real
    const capacity: real

    ghost function Now(): Level
      reads this
    { Level(rate, capacity, available, lastFill) }

    /** rate is in tokens per second, the clock in microseconds. */
    constructor (rate: nat, burst: nat, now: nat)
      ensures Sane(Now()) && Now() == Level(rate as real / 1000000.0, burst as real, burst as real, now)
    {
      this.rate := rate as real / 1000000.0;
      capacity := burst as real;
      available := burst as real;
      lastFill := now;
    }

    method Consume(requested: nat, now: nat) returns (granted: bool)
      requires Sane(Now()) && lastFill <= now
      modifies this
      ensures Sane(Now()) && Now() == After(old(Now()), Request(requested, now))
      ensures granted == Grants(old(Now()), Request(requested, now))
    {
      StepSane(Now(), Request(requested, now));
      var delta := rate * (now - lastFill) as real;
      EarnedIs(rate, now - lastFill, delta);
      available := Min(capacity, available + delta);
      lastFill := now;
      if requested as real < available {
        available := available - requested as real;
      } else {
        return false;
      }
      return true;
    }
  }

  lemma StepSane(l: Level, r: Request)
    requires Sane(l) && l.last <= r.now
    ensures Sane(After(l, r)) && Earned(l, r.now) >= 0.0
  {
    EarnSplit(l.rate, 0, r.now - l.last);
  }

  // ----- whole runs -----

  /** Requests with a clock that never goes back, from time t on. */
  ghost predicate Ticks(t: nat, run: seq<Request>)
    decreases |run|
  {
    run == [] || (t <= run[0].now && Ticks(run[0].now, run[1..]))
  }

  ghost function End(l: Level, run: seq<Request>): Level
    requires Ticks(l.last, run)
    decreases |run|
  { if run == [] then l else End(After(l, run[0]), run[1..]) }

  /** Tokens granted over a run. */
  ghost function Granted(l: Level, run: seq<Request>): real
    requires Ticks(l.last, run)
    decreases |run|
  {
    if run == [] then 0.0
    else (if Grants(l, run[0]) then run[0].tokens as real else 0.0) + Granted(After(l, run[0]), run[1..])
  }

  /** Tokens that refills poured over the brim: what does not fit in the capacity. */
  ghost function Spilled(l: Level, run: seq<Request>): real
    requires Ticks(l.last, run)
    decreases |run|
  {
    if run == [] then 0.0
    else Max(0.0, l.available + Earned(l, run[0].now) - l.capacity) + Spilled(After(l, run[0]), run[1..])
  }

  /** Every token is granted, spilled or still there. */
  lemma {:induction false} TokensConserved(l: Level, run: seq<Request>)
    requires Sane(l) && Ticks(l.last, run)
    ensures var e := End(l, run);
            && Sane(e) && e.last >= l.last && e.rate == l.rate && e.capacity == l.capacity && Spilled(l, run) >= 0.0
            && Granted(l, run) + Spilled(l, run) + e.available == l.available + Earned(l, e.last)
    decreases |run|
  {
    if run != [] {
      var m := After(l, run[0]);
      StepSane(l, run[0]);
      TokensConserved(m, run[1..]);
      EarnSplit(l.rate, m.last - l.last, End(l, run).last - m.last);
    }
  }

  /** Availability stays between zero and capacity after every prefix of every run. */
  lemma {:induction false} LevelBounded(l: Level, pre: seq<Request>, rest: seq<Request>)
    requires Sane(l) && Ticks(l.last, pre + rest)
    ensures Ticks(l.last, pre) && Sane(End(l, pre)) && End(l, pre).capacity == l.capacity && End(l, pre).rate == l.rate
    ensures Ticks(End(l, pre).last, rest)
    ensures Granted(l, pre + rest) == Granted(l, pre) + Granted(End(l, pre), rest)
    decreases |pre|
  {
    if pre == [] {
      assert pre + rest == rest;
    } else {
      StepSane(l, pre[0]);
      assert (pre + rest)[1..] == pre[1..] + rest;
      LevelBounded(After(l, pre[0]), pre[1..], rest);
    }
  }

  /** Tokens granted in the window after pre. */
  ghost function GrantedIn(l: Level, pre: seq<Request>, window: seq<Request>): real
    requires Ticks(l.last, pre) && Ticks(End(l, pre).last, window)
  { Granted(End(l, pre), window) }

  ghost predicate Bounded(granted: real, capacity: real, earned: real) {
    granted <= capacity + earned && (granted > 0.0 ==> granted < capacity + earned)
  }

  /**
   In any window of any run, the tokens granted are at most capacity plus rate times the time
   from the window's first request to its last, and strictly fewer if any were granted.
   */
  lemma RateBound(l: Level, pre: seq<Request>, window: seq<Request>, length: nat, earned: real)
    requires Sane(l) && window != [] && Ticks(l.last, pre) && Ticks(End(l, pre).last, window)
    requires window[0].now + length == window[|window| - 1].now && earned == l.rate * length as real
    ensures Bounded(GrantedIn(l, pre, window), l.capacity, earned)
  {
    EarnedIs(l.rate, length, earned);
    EarnedBound(l, pre, window, length);
  }

  lemma EarnedIs(rate: real, length: nat, earned: real)
    requires earned == rate * length as real
    ensures Earn(rate, length) == earned
  {
    EarnIsRateTimesTime(rate, length);
  }

  lemma EarnedBound(l: Level, pre: seq<Request>, window: seq<Request>, length: nat)
    requires Sane(l) && window != [] && Ticks(l.last, pre) && Ticks(End(l, pre).last, window)
    requires window[0].now + length == window[|window| - 1].now
    ensures Bounded(GrantedIn(l, pre, window), l.capacity, Earn(l.rate, length))
  {
    TokensConserved(l, pre);
    WindowBound(End(l, pre), window);
  }

  lemma {:induction false} LastTick(l: Level, run: seq<Request>)
    requires Ticks(l.last, run) && run != []
    ensures End(l, run).last == run[|run| - 1].now
    decreases |run|
  {
    if |run| > 1 { LastTick(After(l, run[0]), run[1..]); }
  }

  lemma GrantFits(l: Level, r: Request)
    requires Sane(l) && l.last <= r.now
    ensures After(l, r).available + (if Grants(l, r) then r.tokens as real else 0.0) <= l.capacity
  {
  }

  lemma WindowBound(l: Level, window: seq<Request>)
    requires Sane(l) && Ticks(l.last, window) && window != []
    ensures window[0].now <= window[|window| - 1].now
    ensures var bound := l.capacity + Earn(l.rate, window[|window| - 1].now - window[0].now);
            Granted(l, window) <= bound && (Granted(l, window) > 0.0 ==> Granted(l, window) < bound)
  {
    var r := window[0];
    StepSane(l, r);
    LastTick(l, window);
    TokensConserved(After(l, r), window[1..]);
    StrictlyLeft(l, window);
    GrantFits(l, r);
  }

  /** A bucket that has granted something has never been drained to the bottom since. */
  lemma {:induction false} StrictlyLeft(l: Level, run: seq<Request>)
    requires Sane(l) && Ticks(l.last, run)
    ensures l.available > 0.0 || Granted(l, run) > 0.0 ==> End(l, run).available > 0.0
    decreases |run|
  {
    if run != [] {
      StepSane(l, run[0]);
      StrictlyLeft(After(l, run[0]), run[1..]);
    }
  }

  /** After long enough a rest a request is granted exactly when it is below capacity. */
  lemma GrantedAfterRest(l: Level, r: Request)
    requires Sane(l) && l.last <= r.now && Earned(l, r.now) >= l.capacity
    ensures Grants(l, r) <==> r.tokens as real < l.capacity
  {
  }

  // ----- exactly which requests are granted -----

  /** Tokens granted from request k of a run on. */
  ghost function GrantedFrom(l: Level, run: seq<Request>, k: nat): real
    requires Ticks(l.last, run) && k <= |run|
    decreases |run|
  { if k == 0 then Granted(l, run) else GrantedFrom(After(l, run[0]), run[1..], k - 1) }

  /** What a bucket that is full at request k has left at time t, if nothing spills from then on. */
  ghost function FullSince(l: Level, run: seq<Request>, k: nat, t: nat): real
    requires Ticks(l.last, run) && k < |run| && run[k].now <= t
  { l.capacity + Earn(l.rate, t - run[k].now) - GrantedFrom(l, run, k) }

  lemma {:induction false} TicksBefore(l: Level, run: seq<Request>, k: nat)
    requires Ticks(l.last, run) && k < |run|
    ensures run[k].now <= End(l, run).last && l.last <= run[k].now
    decreases |run|
  {
    LastTick(l, run);
    if k > 0 {
      TicksBefore(After(l, run[0]), run[1..], k - 1);
    } else if |run| > 1 {
      TicksBefore(After(l, run[0]), run[1..], 0);
    }
  }

  /** Enough is left of the first level, and of every bucket that is full at some request. */
  ghost predicate Affordable(l: Level, run: seq<Request>, r: Request)
    requires Ticks(l.last, run) && l.last <= r.now && forall k: nat :: k < |run| ==> run[k].now <= r.now
  {
    && r.tokens as real < l.capacity
    && r.tokens as real < l.available + Earn(l.rate, r.now - l.last) - Granted(l, run)
    && forall k: nat :: k < |run| ==> r.tokens as real < FullSince(l, run, k, r.now)
  }

  /**
   After any run a request is granted exactly when it is below capacity, below the first level
   plus rate times time minus what was granted, and, for every earlier request, below capacity
   plus rate times the time since then minus what was granted since.
   */
  lemma {:induction false} GrantExactly(l: Level, run: seq<Request>, r: Request)
    requires Sane(l) && Ticks(l.last, run) && l.last <= r.now && End(l, run).last <= r.now
    ensures forall k: nat :: k < |run| ==> run[k].now <= r.now
    ensures Grants(End(l, run), r) <==> Affordable(l, run, r)
    decreases |run|
  {
    forall k: nat | k < |run| ensures run[k].now <= r.now { TicksBefore(l, run, k); }
    if run != [] {
      StepSane(l, run[0]);
      GrantExactly(After(l, run[0]), run[1..], r);
      OneMoreRequest(l, run, r);
    }
  }

  /** The first request: what is left of the level after it is what is left of the level before
      it, or of a bucket that is full at it, whichever is less. */
  lemma FirstRequest(l: Level, run: seq<Request>, t: nat)
    requires Sane(l) && Ticks(l.last, run) && run != [] && run[0].now <= t
    ensures var m := After(l, run[0]);
            m.available + Earn(m.rate, t - m.last) - Granted(m, run[1..]) ==
            Min(l.available + Earn(l.rate, t - l.last) - Granted(l, run), FullSince(l, run, 0, t))
  {
    EarnSplit(l.rate, run[0].now - l.last, t - run[0].now);
  }

  lemma OneMoreRequest(l: Level, run: seq<Request>, r: Request)
    requires Sane(l) && Ticks(l.last, run) && run != [] && forall k: nat :: k < |run| ==> run[k].now <= r.now
    ensures l.last <= r.now
    ensures Affordable(l, run, r) <==> Affordable(After(l, run[0]), run[1..], r)
  {
    FirstRequest(l, run, r.now);
    LaterRequests(l, run, r);
  }

  lemma LaterRequests(l: Level, run: seq<Request>, r: Request)
    requires Ticks(l.last, run) && run != [] && forall k: nat :: k < |run| ==> run[k].now <= r.now
    ensures (forall k: nat :: k < |run| ==> r.tokens as real < FullSince(l, run, k, r.now)) <==>
            r.tokens as real < FullSince(l, run, 0, r.now) &&
            forall k: nat :: k < |run[1..]| ==> r.tokens as real < FullSince(After(l, run[0]), run[1..], k, r.now)
  {
    var m, rest := After(l, run[0]), run[1..];
    forall k: nat | k < |rest| ensures FullSince(m, rest, k, r.now) == FullSince(l, run, k + 1, r.now) {
      assert rest[k] == run[k + 1];
    }
    forall k: nat | 0 < k < |run| ensures FullSince(m, rest, k - 1, r.now) == FullSince(l, run, k, r.now) {
      assert rest[k - 1] == run[k];
    }
  }
}
