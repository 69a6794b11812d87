/** The sliding-window limiter of rate_limit.py. Clock readings are reals; each locked block is one
  call of `TryAcquire`, so a run of many threads is a sequence of such calls. */
module RateLimiter {
  import opened Wrappers

  const WINDOW_S: real := 60.0

  predicate Young(t: real, now: real) {
    now - t < WINDOW_S
  }

  function CountYoung(h: seq<real>, now: real): nat {
    if h == [] then 0 else (if Young(h[0], now) then 1 else 0) + CountYoung(h[1..], now)
  }

  function CountWindow(h: seq<real>, a: real): nat {
    if h == [] then 0 else (if a <= h[0] < a + WINDOW_S then 1 else 0) + CountWindow(h[1..], a)
  }

  ghost predicate NonDecreasing(h: seq<real>) {
    forall i, j | 0 <= i < j < |h| :: h[i] <= h[j]
  }

  /** The naive limiter: count the whole history. */
  function Step(rpm: int, h: seq<real>, now: real): seq<real> {
    if CountYoung(h, now) < rpm then h + [now] else h
  }

  /** The grants after locked blocks at these times, by whatever threads, starting from a history. */
  function RunFrom(rpm: int, h: seq<real>, nows: seq<real>): seq<real> {
    if nows == [] then h else Step(rpm, RunFrom(rpm, h, nows[..|nows| - 1]), nows[|nows| - 1])
  }

  /** The grants of a whole run, from a new limiter. */
  function Run(rpm: int, nows: seq<real>): seq<real> {
    RunFrom(rpm, [], nows)
  }

  lemma {:induction false} RunConcat(rpm: int, h: seq<real>, a: seq<real>, b: seq<real>)
    ensures RunFrom(rpm, h, a + b) == RunFrom(rpm, RunFrom(rpm, h, a), b)
  {
    if b == [] {
      assert a + b == a;
    } else {
      assert (a + b)[..|a + b| - 1] == a + b[..|b| - 1];
      RunConcat(rpm, h, a, b[..|b| - 1]);
    }
  }

  // ---------- the attempts of one call among other threads ----------

  /** One turn of the retry loop: the locked blocks of other threads since the last turn, the time read under
    the lock, and the time compared with the deadline. */
  datatype Attempt = Attempt(others: seq<real>, now: real, checked: real)

  function Times(attempts: seq<Attempt>): seq<real> {
    if attempts == [] then []
    else
      var n := |attempts| - 1;
      Times(attempts[..n]) + attempts[n].others + [attempts[n].now]
  }

  function LastTime(clock: real, nows: seq<real>): real {
    if nows == [] then clock else nows[|nows| - 1]
  }

  /** A monotonic clock: the readings follow each other from `clock` on. */
  ghost predicate Follows(clock: real, nows: seq<real>) {
    NonDecreasing(nows) && (nows != [] ==> clock <= nows[0])
  }

  ghost predicate InOrder(clock: real, attempts: seq<Attempt>)
    decreases attempts
  {
    attempts != [] ==>
      && Follows(clock, attempts[0].others) && LastTime(clock, attempts[0].others) <= attempts[0].now
      && InOrder(attempts[0].now, attempts[1..])
  }

  /** The grants made when attempt k reads the clock. */
  function Before(rpm: int, h: seq<real>, attempts: seq<Attempt>, k: nat): seq<real>
    requires k < |attempts|
  {
    RunFrom(rpm, h, Times(attempts[..k]) + attempts[k].others)
  }

  predicate FullAt(rpm: int, h: seq<real>, attempts: seq<Attempt>, k: nat)
    requires k < |attempts|
  {
    CountYoung(Before(rpm, h, attempts, k), attempts[k].now) >= rpm
  }

  /** How a call ends: at its first attempt that finds room, or at its first past the deadline. */
  ghost predicate EndsAt(rpm: int, h: seq<real>, attempts: seq<Attempt>, deadline: real, k: nat,
                         r: Result<real, LimiterError>)
  {
    && k < |attempts|
    && (forall i | 0 <= i < k :: FullAt(rpm, h, attempts, i) && attempts[i].checked < deadline)
    && match r
       case Ok(time) => time == attempts[k].now && !FullAt(rpm, h, attempts, k)
       case Err(e) => e.TimedOut? && FullAt(rpm, h, attempts, k) && attempts[k].checked >= deadline
  }

  /** The deque is the end of the history: what is before it is too old at `clock`. */
  ghost predicate IsRecent(times: seq<real>, history: seq<real>, clock: real) {
    && |times| <= |history| && times == history[|history| - |times|..]
    && forall i | 0 <= i < |history| - |times| :: !Young(history[i], clock)
  }

  ghost predicate Tracks(times: seq<real>, history: seq<real>, clock: real) {
    && NonDecreasing(history) && (forall i | 0 <= i < |history| :: history[i] <= clock)
    && IsRecent(times, history, clock) && (forall i | 0 <= i < |times| :: Young(times[i], clock))
  }

  lemma TracksLater(times: seq<real>, history: seq<real>, clock: real, now: real)
    requires Tracks(times, history, clock) && (history != [] ==> clock <= now)
    ensures IsRecent(times, history, now) && NonDecreasing(history) && forall i | 0 <= i < |history| ::
        history[i] <= now
  {
  }

  lemma TracksEvicted(times: seq<real>, history: seq<real>, now: real)
    requires NonDecreasing(history) && (forall i | 0 <= i < |history| :: history[i] <= now)
    requires IsRecent(times, history, now) && (times != [] ==> Young(times[0], now))
    ensures Tracks(times, history, now) && CountYoung(history, now) == |times|
  {
    CountSuffix(history, |history| - |times|, now);
  }

  lemma TracksAppended(times: seq<real>, history: seq<real>, now: real)
    requires Tracks(times, history, now)
    ensures Tracks(times + [now], history + [now], now)
  {
  }

  datatype LimiterError = RpmTooSmall | TimedOut

  class RateLimiter {
    const maxPerMinute: int
    var times: seq<real>
    ghost var history: seq<real>  // every grant ever made
    ghost var clock: real         // the last time read under the lock

    /** The deque holds exactly the grants that were younger than the window at the last reading. */
    ghost predicate Valid()
      reads this
    {
      maxPerMinute >= 1 && Tracks(times, history, clock)
    }

    constructor (rpm: int)
      requires rpm >= 1
      ensures Valid() && maxPerMinute == rpm && history == [] && times == []
    {
      maxPerMinute, times, history, clock := rpm, [], [], 0.0;
    }

    /** The constructor as its callers see it: a rate below one raises. */
    static method Create(rpm: int) returns (r: Result<RateLimiter, LimiterError>)
      ensures r.Ok? <==> rpm >= 1
      ensures r.Ok? ==> fresh(r.value) && r.value.Valid() && r.value.maxPerMinute == rpm && r.value.history == []
    {
      if rpm < 1 {
        return Err(RpmTooSmall);
      }
      var limiter := new RateLimiter(rpm);
      return Ok(limiter);
    }

    /** One locked block: evict, then grant if there is room. The deque decides as the full history would. */
    method TryAcquire(now: real) returns (granted: bool)
      requires Valid() && (history != [] ==> clock <= now)
      modifies this
      ensures Valid() && clock == now
      ensures history == Step(maxPerMinute, old(history), now)
      ensures granted <==> CountYoung(old(history), now) < maxPerMinute
    {
      hide Tracks;
      hide IsRecent;
      hide CountYoung;
      TracksLater(times, history, clock, now);
      Evict(now);
      TracksEvicted(times, history, now);
      TracksAppended(times, history, now);
      granted := |times| < maxPerMinute;
      if granted {
        times := times + [now];
        history := history + [now];
      }
      clock := now;
    }

    /** The inner loop: drop grants from the front while they are out of the window. */
    method Evict(now: real)
      requires IsRecent(times, history, now)
      modifies this`times
      ensures IsRecent(times, history, now) && (times != [] ==> Young(times[0], now))
    {
      while times != [] && now - times[0] >= WINDOW_S
        invariant IsRecent(times, history, now)
        decreases |times|
      {
        times := times[1..];
      }
    }

    /** The locked blocks of any number of threads, one after the other. */
    method TryAll(nows: seq<real>)
      requires Valid() && Follows(clock, nows)
      modifies this
      ensures Valid() && clock == LastTime(old(clock), nows)
      ensures history == RunFrom(maxPerMinute, old(history), nows)
    {
      hide Tracks;
      hide CountYoung;
      for k := 0 to |nows|
        invariant Valid() && clock == LastTime(old(clock), nows[..k])
        invariant history == RunFrom(maxPerMinute, old(history), nows[..k])
      {
        var _ := TryAcquire(nows[k]);
        assert nows[..k + 1][..k] == nows[..k];
      }
      assert nows[..|nows|] == nows;
    }

    /** One turn of the loop, after `i` turns that started from the history `h`. */
    method TryTurn(ghost h: seq<real>, attempts: seq<Attempt>, i: nat) returns (granted: bool)
      requires Valid() && i < |attempts| && InOrder(clock, attempts[i..])
      requires history == RunFrom(maxPerMinute, h, Times(attempts[..i]))
      modifies this
      ensures Valid() && InOrder(clock, attempts[i + 1..])
      ensures history == RunFrom(maxPerMinute, h, Times(attempts[..i + 1]))
      ensures granted <==> !FullAt(maxPerMinute, h, attempts, i)
    {
      hide Tracks;
      hide CountYoung;
      hide Step;
      hide RunFrom;
      hide Times;
      assert attempts[i..][0] == attempts[i] && attempts[i..][1..] == attempts[i + 1..];
      TryAll(attempts[i].others);
      RunConcat(maxPerMinute, h, Times(attempts[..i]), attempts[i].others);
      granted := TryAcquire(attempts[i].now);
      NextTimes(maxPerMinute, h, attempts, i);
    }

    /** `acquire`, with other threads at work between its attempts: until a grant or until the clock passes
      the deadline. */
    method Acquire(deadline: real, attempts: seq<Attempt>) returns (r: Result<real, LimiterError>, ghost k: nat)
      requires Valid() && attempts != [] && attempts[|attempts| - 1].checked >= deadline
      requires InOrder(clock, attempts)
      modifies this
      ensures Valid()
      ensures EndsAt(maxPerMinute, old(history), attempts, deadline, k, r)
      ensures history == RunFrom(maxPerMinute, old(history), Times(attempts[..k + 1]))
    {
      hide Tracks;
      hide FullAt;
      hide InOrder;
      var i := 0;
      assert attempts[0..] == attempts;
      while true
        invariant 0 <= i < |attempts| && Valid() && InOrder(clock, attempts[i..])
        invariant history == RunFrom(maxPerMinute, old(history), Times(attempts[..i]))
        invariant forall j | 0 <= j < i ::
                    FullAt(maxPerMinute, old(history), attempts, j) && attempts[j].checked < deadline
        decreases |attempts| - i
      {
        var granted := TryTurn(old(history), attempts, i);
        if granted {
          return Ok(attempts[i].now), i;
        }
        if attempts[i].checked >= deadline {
          return Err(TimedOut), i;
        }
        i := i + 1;
      }
    }
  }

  lemma NextTimes(rpm: int, h: seq<real>, attempts: seq<Attempt>, k: nat)
    requires k < |attempts|
    ensures RunFrom(rpm, h, Times(attempts[..k + 1])) == Step(rpm, Before(rpm, h, attempts, k), attempts[k].now)
  {
    assert attempts[..k + 1][..k] == attempts[..k];
    var earlier := Times(attempts[..k]) + attempts[k].others;
    assert Times(attempts[..k + 1]) == earlier + [attempts[k].now];
    assert (earlier + [attempts[k].now])[..|earlier|] == earlier;
  }

  /** In a history cut at k, with everything before k too old and everything from k on not decreasing in
    age order, the young grants are those from k on. */
  lemma {:induction false} CountSuffix(h: seq<real>, k: nat, now: real)
    requires k <= |h| && NonDecreasing(h)
    requires forall i | 0 <= i < k :: !Young(h[i], now)
    requires k < |h| ==> Young(h[k], now)
    ensures CountYoung(h, now) == |h| - k
    ensures forall i | k <= i < |h| :: Young(h[i], now)
  {
    if h != [] {
      if k == 0 {
        assert h[0] <= h[|h| - 1];
        assert |h| > 1 ==> h[0] <= h[1];
        CountSuffix(h[1..], 0, now);
        assert forall i | 1 <= i < |h| :: h[i] == h[1..][i - 1];
      } else {
        CountSuffix(h[1..], k - 1, now);
        assert forall i | k <= i < |h| :: h[i] == h[1..][i - 1];
      }
    }
  }

  // ---------- no window holds more than rpm grants ----------

  lemma {:induction false} CountAppend(h: seq<real>, t: real, a: real)
    ensures CountWindow(h + [t], a) == CountWindow(h, a) + if a <= t < a + WINDOW_S then 1 else 0
  {
    if h == [] {
      assert ([] + [t])[1..] == [];
    } else {
      assert (h + [t])[1..] == h[1..] + [t];
      CountAppend(h[1..], t, a);
    }
  }

  /** Every grant inside a window that also holds `now` is young at `now`. */
  lemma {:induction false} WindowIsYoung(h: seq<real>, a: real, now: real)
    requires now < a + WINDOW_S
    ensures CountWindow(h, a) <= CountYoung(h, now)
  {
    if h != [] {
      WindowIsYoung(h[1..], a, now);
    }
  }

  /** Over any run, whatever the interleaving, no half-open window of 60 seconds holds more than rpm grants. */
  lemma {:induction false} WindowBound(rpm: int, nows: seq<real>, a: real)
    requires rpm >= 1
    ensures CountWindow(Run(rpm, nows), a) <= rpm
  {
    if nows != [] {
      var h, now := Run(rpm, nows[..|nows| - 1]), nows[|nows| - 1];
      WindowBound(rpm, nows[..|nows| - 1], a);
      CountAppend(h, now, a);
      if a <= now < a + WINDOW_S {
        WindowIsYoung(h, a, now);
      }
    }
  }

  lemma {:induction false} RunOrdered(rpm: int, nows: seq<real>)
    requires NonDecreasing(nows)
    ensures NonDecreasing(Run(rpm, nows))
    ensures nows != [] ==> forall i | 0 <= i < |Run(rpm, nows)| :: Run(rpm, nows)[i] <= nows[|nows| - 1]
    ensures nows == [] ==> Run(rpm, nows) == []
  {
    if nows != [] {
      var n := |nows| - 1;
      RunOrdered(rpm, nows[..n]);
      assert n > 0 ==> nows[n - 1] <= nows[n];
    }
  }

  /** A window that holds all the young grants holds at least as many. */
  lemma {:induction false} YoungInWindow(h: seq<real>, a: real, now: real)
    requires forall i | 0 <= i < |h| && Young(h[i], now) :: a <= h[i] < a + WINDOW_S
    ensures CountYoung(h, now) <= CountWindow(h, a)
  {
    if h != [] {
      assert forall i | 0 <= i < |h[1..]| :: h[1..][i] == h[i + 1];
      YoungInWindow(h[1..], a, now);
    }
  }

  lemma {:induction false} OldestYoung(h: seq<real>, now: real) returns (k: nat)
    requires CountYoung(h, now) > 0
    ensures k < |h| && Young(h[k], now) && forall i | 0 <= i < k :: !Young(h[i], now)
  {
    if Young(h[0], now) {
      k := 0;
    } else {
      k := OldestYoung(h[1..], now);
      k := k + 1;
    }
  }

  /** Nor is the limiter stricter than the bound: on a monotonic clock a block is refused exactly when granting
    it would put rpm + 1 grants into some half-open window of 60 seconds. */
  lemma RefusedOnlyWhenFull(rpm: int, nows: seq<real>, now: real)
    requires rpm >= 1 && NonDecreasing(nows + [now])
    ensures Run(rpm, nows + [now]) == Run(rpm, nows)
            <==> exists a :: CountWindow(Run(rpm, nows) + [now], a) > rpm
  {
    var h := Run(rpm, nows);
    assert (nows + [now])[..|nows|] == nows;
    assert Run(rpm, nows + [now]) == Step(rpm, h, now);
    assert |h + [now]| == |h| + 1;
    if Step(rpm, h, now) == h {
      assert NonDecreasing(nows) && (nows != [] ==> nows[|nows| - 1] <= now) by {
        assert forall i | 0 <= i < |nows| :: (nows + [now])[i] == nows[i];
      }
      RunOrdered(rpm, nows);
      var k := OldestYoung(h, now);
      YoungInWindow(h, h[k], now);
      CountAppend(h, now, h[k]);
    } else {
      forall a ensures CountWindow(h + [now], a) <= rpm {
        WindowBound(rpm, nows + [now], a);
      }
    }
  }

  // ---------- in plain terms ----------

  /** In an ordered history the first young grant. */
  lemma {:induction false} FirstYoung(h: seq<real>, now: real) returns (k: nat)
    ensures k <= |h| && (forall i | 0 <= i < k :: !Young(h[i], now)) && (k < |h| ==> Young(h[k], now))
  {
    if h == [] || Young(h[0], now) {
      k := 0;
    } else {
      k := FirstYoung(h[1..], now);
      k := k + 1;
      assert forall i | 0 < i < k :: h[i] == h[1..][i - 1];
    }
  }

  /** A block grants exactly when fewer than rpm grants were ever made, or the rpm-th last of them lies a minute
    or more back; a grant is recorded at its time. */
  lemma GrantedExactly(rpm: int, h: seq<real>, now: real)
    requires rpm >= 1 && NonDecreasing(h)
    ensures Step(rpm, h, now) == if |h| < rpm || now - h[|h| - rpm] >= 60.0 then h + [now] else h
  {
    var k := FirstYoung(h, now);
    CountSuffix(h, k, now);
  }

  /** Over any run of an ordered clock the grant rpm places after another comes a minute or more after it. */
  lemma {:induction false} GrantsSpaced(rpm: int, nows: seq<real>, i: nat)
    requires rpm >= 1 && NonDecreasing(nows) && i + rpm < |Run(rpm, nows)|
    ensures Run(rpm, nows)[i + rpm] - Run(rpm, nows)[i] >= 60.0
  {
    var n := |nows| - 1;
    var h := Run(rpm, nows[..n]);
    RunOrdered(rpm, nows[..n]);
    GrantedExactly(rpm, h, nows[n]);
    if i + rpm < |h| {
      GrantsSpaced(rpm, nows[..n], i);
    }
  }
}
