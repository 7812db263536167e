/** The token bucket and the two buckets the Telegram writer composes. Time and tokens are reals. */
module RateLimit {
  import opened Options

  /** The event loop's clock. Sleeping takes at least the time asked for; a negative delay takes none. */
  class EventLoop {
    var now: real

    constructor (now: real)
      ensures this.now == now
    {
      this.now := now;
    }

    method Sleep(delay: real)
      modifies this
      ensures now >= old(now) && now >= old(now) + delay
    {
      var late: real :| late >= 0.0;
      now := now + (if delay > 0.0 then delay else 0.0) + late;
    }
  }

  function Min(a: real, b: real): real {
    if a <= b then a else b
  }

  /** The tokens that come in over a stretch of time. */
  function Accrued(rate: real, span: real): real {
    span * rate
  }

  /** Tokens after refilling from `updated` to `now`. */
  function Refilled(tokens: real, updated: real, rate: real, capacity: real, now: real): real {
    Min(capacity, tokens + Accrued(rate, now - updated))
  }

  // ----- what was granted ------------------------------------------------

  datatype Grant = Grant(at: real, amount: real)

  function Sum(grants: seq<Grant>): real {
    if grants == [] then 0.0 else Sum(grants[..|grants| - 1]) + grants[|grants| - 1].amount
  }

  /** Tokens granted between two moments, both included. */
  function Granted(grants: seq<Grant>, from: real, to: real): real {
    if grants == [] then 0.0
    else
      var last := grants[|grants| - 1];
      Granted(grants[..|grants| - 1], from, to) + (if from <= last.at <= to then last.amount else 0.0)
  }

  predicate InTimeOrder(grants: seq<Grant>) {
    && (forall i :: 0 <= i < |grants| ==> grants[i].amount >= 0.0)
    && (forall i, j :: 0 <= i < j < |grants| ==> grants[i].at <= grants[j].at)
  }

  /** Any stretch of consecutive grants fits the burst and the rate. */
  ghost predicate Limited(grants: seq<Grant>, rate: real, capacity: real) {
    forall i, j :: 0 <= i <= j < |grants| ==> Fits(grants, rate, capacity, i, j)
  }

  predicate Fits(grants: seq<Grant>, rate: real, capacity: real, i: nat, j: nat)
    requires i <= j < |grants|
  {
    Sum(grants[i..j + 1]) <= capacity + Accrued(rate, grants[j].at - grants[i].at)
  }

  /** What was granted since grant `i` and what is left never exceed the burst and the refills since. */
  ghost predicate Budgeted(grants: seq<Grant>, tokens: real, updated: real, rate: real, capacity: real) {
    forall i :: 0 <= i < |grants| ==> Affords(grants, tokens, updated, rate, capacity, i)
  }

  predicate Affords(grants: seq<Grant>, tokens: real, updated: real, rate: real, capacity: real, i: nat)
    requires i < |grants|
  {
    grants[i].at <= updated && Sum(grants[i..]) + tokens <= capacity + Accrued(rate, updated - grants[i].at)
  }

  ghost predicate BucketOk(grants: seq<Grant>, tokens: real, updated: real, rate: real, capacity: real) {
    && rate > 0.0 && 0.0 <= tokens <= capacity
    && InTimeOrder(grants)
    && Limited(grants, rate, capacity)
    && Budgeted(grants, tokens, updated, rate, capacity)
  }

  lemma Stretch(rate: real, a: real, b: real)
    ensures Accrued(rate, a + b) == Accrued(rate, a) + Accrued(rate, b)
    ensures Accrued(rate, 0.0) == 0.0
  {
  }

  lemma NonNegative(rate: real, span: real)
    requires rate >= 0.0 && span >= 0.0
    ensures Accrued(rate, span) >= 0.0
  {
  }

  /** Refilling keeps the budget. */
  lemma RefillKeeps(grants: seq<Grant>, tokens: real, updated: real, rate: real, capacity: real, now: real)
    requires BucketOk(grants, tokens, updated, rate, capacity) && now >= updated
    ensures BucketOk(grants, Refilled(tokens, updated, rate, capacity, now), now, rate, capacity)
  {
    hide Accrued;
    NonNegative(rate, now - updated);
    forall i | 0 <= i < |grants|
      ensures Affords(grants, Refilled(tokens, updated, rate, capacity, now), now, rate, capacity, i)
    {
      assert Affords(grants, tokens, updated, rate, capacity, i);
      Stretch(rate, updated - grants[i].at, now - updated);
      assert updated - grants[i].at + (now - updated) == now - grants[i].at;
    }
  }

  lemma SumSnoc(grants: seq<Grant>, grant: Grant)
    ensures Sum(grants + [grant]) == Sum(grants) + grant.amount
  {
    assert (grants + [grant])[..|grants|] == grants;
  }

  lemma GrantBudget(grants: seq<Grant>, tokens: real, updated: real, rate: real, capacity: real, n: real, i: nat)
    requires BucketOk(grants, tokens, updated, rate, capacity) && 0.0 <= n <= tokens
    requires i <= |grants|
    ensures Affords(grants + [Grant(updated, n)], tokens - n, updated, rate, capacity, i)
  {
    hide Accrued;
    var all := grants + [Grant(updated, n)];
    if i < |grants| {
      assert Affords(grants, tokens, updated, rate, capacity, i);
      assert all[i..] == grants[i..] + [Grant(updated, n)];
      SumSnoc(grants[i..], Grant(updated, n));
    } else {
      assert all[i..] == [] + [Grant(updated, n)];
      SumSnoc([], Grant(updated, n));
      assert Sum(all[i..]) == n;
      Stretch(rate, 0.0, 0.0);
      assert updated - all[i].at == 0.0;
    }
  }

  lemma GrantFits(grants: seq<Grant>, tokens: real, updated: real, rate: real, capacity: real, n: real, i: nat, j: nat)
    requires BucketOk(grants, tokens, updated, rate, capacity) && 0.0 <= n <= tokens
    requires i <= j <= |grants|
    ensures Fits(grants + [Grant(updated, n)], rate, capacity, i, j)
  {
    var all := grants + [Grant(updated, n)];
    if j < |grants| {
      assert Fits(grants, rate, capacity, i, j);
      assert all[i..j + 1] == grants[i..j + 1];
    } else {
      GrantBudget(grants, tokens, updated, rate, capacity, n, i);
      assert all[i..j + 1] == all[i..];
    }
  }

  lemma GrantInOrder(grants: seq<Grant>, tokens: real, updated: real, rate: real, capacity: real, n: real)
    requires BucketOk(grants, tokens, updated, rate, capacity) && 0.0 <= n
    ensures InTimeOrder(grants + [Grant(updated, n)])
  {
    forall i | 0 <= i < |grants|
      ensures grants[i].at <= updated
    {
      assert Affords(grants, tokens, updated, rate, capacity, i);
    }
  }

  /** Taking tokens that are there keeps everything. */
  lemma GrantKeeps(grants: seq<Grant>, tokens: real, updated: real, rate: real, capacity: real, n: real)
    requires BucketOk(grants, tokens, updated, rate, capacity) && 0.0 <= n <= tokens
    ensures BucketOk(grants + [Grant(updated, n)], tokens - n, updated, rate, capacity)
  {
    var all, left := grants + [Grant(updated, n)], tokens - n;
    forall i | 0 <= i < |all|
      ensures Affords(all, left, updated, rate, capacity, i)
    {
      GrantBudget(grants, tokens, updated, rate, capacity, n, i);
    }
    GrantInOrder(grants, tokens, updated, rate, capacity, n);
    forall i, j {:trigger Fits(all, rate, capacity, i, j)} | 0 <= i <= j < |all|
      ensures Fits(all, rate, capacity, i, j)
    {
      GrantFits(grants, tokens, updated, rate, capacity, n, i, j);
    }
  }

  // ----- any window ------------------------------------------------------

  lemma {:induction false} GrantedFirst(grants: seq<Grant>, from: real, to: real)
    requires grants != []
    ensures Granted(grants, from, to) ==
            (if from <= grants[0].at <= to then grants[0].amount else 0.0) + Granted(grants[1..], from, to)
  {
    if |grants| > 1 {
      GrantedFirst(grants[..|grants| - 1], from, to);
      assert grants[..|grants| - 1][1..] == grants[1..][..|grants| - 2];
    } else {
      assert grants[..0] == [] && grants[1..] == [];
    }
  }

  lemma {:induction false} GrantedAll(grants: seq<Grant>, from: real, to: real)
    requires forall i :: 0 <= i < |grants| ==> from <= grants[i].at <= to
    ensures Granted(grants, from, to) == Sum(grants)
  {
    if grants != [] {
      GrantedAll(grants[..|grants| - 1], from, to);
    }
  }

  lemma FitsPart(grants: seq<Grant>, rate: real, capacity: real, lo: nat, hi: nat, i: nat, j: nat)
    requires Limited(grants, rate, capacity) && lo <= hi <= |grants| && i <= j < hi - lo
    ensures Fits(grants[lo..hi], rate, capacity, i, j)
  {
    assert Fits(grants, rate, capacity, lo + i, lo + j);
    var part := grants[lo..hi];
    var a, b := part[i..j + 1], grants[lo + i..lo + j + 1];
    assert |a| == |b| && forall k :: 0 <= k < |a| ==> a[k] == b[k];
    assert a == b;
  }

  /** A part of a limited history is limited. */
  lemma LimitedPart(grants: seq<Grant>, rate: real, capacity: real, lo: nat, hi: nat)
    requires Limited(grants, rate, capacity) && InTimeOrder(grants) && lo <= hi <= |grants|
    ensures Limited(grants[lo..hi], rate, capacity) && InTimeOrder(grants[lo..hi])
  {
    var part := grants[lo..hi];
    forall i, j {:trigger Fits(part, rate, capacity, i, j)} | 0 <= i <= j < |part|
      ensures Fits(part, rate, capacity, i, j)
    {
      FitsPart(grants, rate, capacity, lo, hi, i, j);
    }
  }

  /** All grants of a limited history inside one window. */
  lemma WholeFits(grants: seq<Grant>, rate: real, capacity: real, from: real, w: real)
    requires Limited(grants, rate, capacity) && InTimeOrder(grants) && rate > 0.0 && grants != []
    requires from <= grants[0].at && grants[|grants| - 1].at <= from + w
    ensures Granted(grants, from, from + w) <= capacity + Accrued(rate, w)
  {
    hide Accrued;
    var n := |grants|;
    GrantedAll(grants, from, from + w);
    assert Fits(grants, rate, capacity, 0, n - 1);
    assert grants[0..n] == grants;
    var spread := grants[n - 1].at - grants[0].at;
    NonNegative(rate, w - spread);
    Stretch(rate, spread, w - spread);
    assert spread + (w - spread) == w;
  }

  /** In any window of length `w` at most the capacity and what accrues over `w`, `capacity + rate * w`, tokens are granted. */
  lemma {:induction false} WindowBound(grants: seq<Grant>, rate: real, capacity: real, from: real, w: real)
    requires Limited(grants, rate, capacity) && InTimeOrder(grants)
    requires rate > 0.0 && capacity >= 0.0 && w >= 0.0
    ensures Granted(grants, from, from + w) <= capacity + Accrued(rate, w)
    decreases |grants|
  {
    hide Accrued, Fits;
    var n := |grants|;
    if n == 0 {
      NonNegative(rate, w);
    } else if grants[n - 1].at > from + w {
      LimitedPart(grants, rate, capacity, 0, n - 1);
      assert grants[0..n - 1] == grants[..n - 1];
      WindowBound(grants[..n - 1], rate, capacity, from, w);
    } else if grants[0].at < from {
      LimitedPart(grants, rate, capacity, 1, n);
      assert grants[1..n] == grants[1..];
      GrantedFirst(grants, from, from + w);
      WindowBound(grants[1..], rate, capacity, from, w);
    } else {
      WholeFits(grants, rate, capacity, from, w);
    }
  }

  // ----- the bucket ------------------------------------------------------

  class TokenBucket {
    const loop: EventLoop
    const rate: real
    const capacity: real
    var tokens: real
    var updated: real
    ghost var grants: seq<Grant>

    constructor (loop: EventLoop, rate: real, capacity: Option<real>)
      requires rate > 0.0 && (capacity.Some? ==> capacity.value >= 0.0)
      ensures this.loop == loop && this.rate == rate
      ensures this.capacity == (if capacity.Some? then capacity.value else rate)
      ensures tokens == this.capacity && updated == loop.now
      ensures grants == [] && Ok()
    {
      this.loop, this.rate := loop, rate;
      this.capacity := if capacity.Some? then capacity.value else rate;
      this.tokens := if capacity.Some? then capacity.value else rate;
      this.updated := loop.now;
      this.grants := [];
    }

    ghost predicate Ok()
      reads this
    {
      BucketOk(grants, tokens, updated, rate, capacity)
    }

    /** Refill from the clock and take `n` tokens if they are there. */
    method TryTake(n: real) returns (taken: bool)
      requires Ok() && updated <= loop.now && n >= 0.0
      modifies this
      ensures Ok() && updated == loop.now
      ensures var refilled := Refilled(old(tokens), old(updated), rate, capacity, loop.now);
              && (taken <==> refilled >= n)
              && tokens == (if taken then refilled - n else refilled)
              && grants == old(grants) + (if taken then [Grant(loop.now, n)] else [])
    {
      RefillKeeps(grants, tokens, updated, rate, capacity, loop.now);
      tokens := Refilled(tokens, updated, rate, capacity, loop.now);
      updated := loop.now;
      taken := tokens >= n;
      if taken {
        GrantKeeps(grants, tokens, updated, rate, capacity, n);
        tokens := tokens - n;
        grants := grants + [Grant(loop.now, n)];
      }
    }

    /** Block until `n` tokens are there and take them: one grant, after at most one sleep. A request
        above the capacity never returns (see ReturnsExactlyWhen), so it has no contract here. */
    method Acquire(n: real) returns (ghost sleeps: nat)
      requires Ok() && updated <= loop.now && 0.0 <= n <= capacity
      modifies this, loop
      ensures Ok() && updated == loop.now && loop.now >= old(loop.now)
      ensures grants == old(grants) + [Grant(loop.now, n)]
      ensures sleeps <= 1
      ensures sleeps == 0 <==> Refilled(old(tokens), old(updated), rate, capacity, old(loop.now)) >= n
      ensures sleeps == 0 ==> loop.now == old(loop.now)
    {
      sleeps := 0;
      var taken := TryTake(n);
      while !taken
        invariant Ok() && updated <= loop.now && loop.now >= old(loop.now)
        invariant taken ==> updated == loop.now && grants == old(grants) + [Grant(loop.now, n)]
        invariant !taken ==> grants == old(grants) && sleeps == 0 && tokens < n && updated == loop.now
        invariant sleeps <= 1
        invariant sleeps == 0 && taken ==> loop.now == old(loop.now)
        invariant (sleeps == 0 && taken) <==> Refilled(old(tokens), old(updated), rate, capacity, old(loop.now)) >= n
        decreases !taken
      {
        var deficit := n - tokens;
        ghost var asleep, had := loop.now, tokens;
        loop.Sleep(deficit / rate);
        SleepSuffices(had, n, rate, capacity, asleep, loop.now);
        sleeps := sleeps + 1;
        taken := TryTake(n);
      }
    }
  }

  /** Sleeping off the deficit is enough when the request fits the capacity. */
  lemma SleepSuffices(tokens: real, n: real, rate: real, capacity: real, asleep: real, awake: real)
    requires rate > 0.0 && tokens < n <= capacity && awake >= asleep + (n - tokens) / rate
    ensures Refilled(tokens, asleep, rate, capacity, awake) >= n
  {
    hide Accrued;
    var d := (n - tokens) / rate;
    TimeToAccrue(n - tokens, rate);
    NonNegative(rate, awake - asleep - d);
    Stretch(rate, d, awake - asleep - d);
    assert d + (awake - asleep - d) == awake - asleep;
  }

  /** How long `amount` tokens take to come in. */
  lemma TimeToAccrue(amount: real, rate: real)
    requires amount >= 0.0 && rate > 0.0
    ensures amount / rate >= 0.0 && Accrued(rate, amount / rate) == amount
  {
  }

  /** Passes of the waiting loop at the given clock readings, none of which grants. */
  predicate AllFail(tokens: real, updated: real, rate: real, capacity: real, n: real, readings: seq<real>)
    decreases |readings|
  {
    readings == [] ||
    (var refilled := Refilled(tokens, updated, rate, capacity, readings[0]);
     refilled < n && AllFail(refilled, readings[0], rate, capacity, n, readings[1..]))
  }

  lemma {:induction false} AboveCapacityFails(tokens: real, updated: real, rate: real, capacity: real, n: real, readings: seq<real>)
    requires n > capacity
    ensures AllFail(tokens, updated, rate, capacity, n, readings)
    decreases |readings|
  {
    if readings != [] {
      var refilled := Refilled(tokens, updated, rate, capacity, readings[0]);
      AboveCapacityFails(refilled, readings[0], rate, capacity, n, readings[1..]);
    }
  }

  /** A clock that never runs back, read from `since` on. */
  predicate Forward(since: real, readings: seq<real>) {
    && (forall i :: 0 <= i < |readings| ==> since <= readings[i])
    && (forall i, j :: 0 <= i < j < |readings| ==> readings[i] <= readings[j])
  }

  /** `acquire(n)` can return exactly when `n` fits the capacity: above it no number of passes grants,
      whatever the clock shows; within it some reading of a forward clock does. */
  lemma ReturnsExactlyWhen(tokens: real, updated: real, rate: real, capacity: real, n: real)
    requires rate > 0.0
    ensures (exists readings :: Forward(updated, readings) && !AllFail(tokens, updated, rate, capacity, n, readings))
            <==> n <= capacity
  {
    if n > capacity {
      forall readings
        ensures AllFail(tokens, updated, rate, capacity, n, readings)
      {
        AboveCapacityFails(tokens, updated, rate, capacity, n, readings);
      }
    } else {
      var wait := if tokens >= n then 0.0 else (n - tokens) / rate;
      if tokens < n {
        TimeToAccrue(n - tokens, rate);
      } else {
        Stretch(rate, 0.0, 0.0);
      }
      WaitGrants(tokens, updated, rate, capacity, n, wait);
    }
  }

  lemma WaitGrants(tokens: real, updated: real, rate: real, capacity: real, n: real, wait: real)
    requires n <= capacity && wait >= 0.0 && tokens + Accrued(rate, wait) >= n
    ensures Forward(updated, [updated + wait]) && !AllFail(tokens, updated, rate, capacity, n, [updated + wait])
  {
    hide Accrued;
    var readings := [updated + wait];
    assert readings[0] - updated == wait;
    assert readings[1..] == [];
  }
}
