/** The three rate limiters as values and what each guarantees over every interval
    of every run. Times are nanoseconds; a run is a sequence of AllowN calls under
    a clock that never goes back. */
module LimitSpec {

  const SECOND: int := 1_000_000_000

  /** A negative count is not refused. */
  datatype Call = Call(now: int, n: int)

  ghost predicate Ordered(calls: seq<Call>, from: int) {
    && (forall i :: 0 <= i < |calls| ==> from <= calls[i].now)
    && (forall i, j :: 0 <= i < j < |calls| ==> calls[i].now <= calls[j].now)
  }

  ghost predicate AllAtLeast(calls: seq<Call>, least: int) {
    forall i :: 0 <= i < |calls| ==> calls[i].n >= least
  }

  lemma OrderedFront(calls: seq<Call>, from: int)
    requires Ordered(calls, from) && calls != []
    ensures Ordered(calls[..|calls| - 1], from)
    ensures |calls| > 1 ==> calls[|calls| - 2].now <= calls[|calls| - 1].now
  {
  }

  function Latest(calls: seq<Call>, from: int): int {
    if calls == [] then from else calls[|calls| - 1].now
  }

  function Pos(x: int): nat {
    if x > 0 then x else 0
  }

  // ---------- grants in an interval ----------

  /** Everything granted at times lo <= t < hi; a call with a negative count is
      granted nothing. */
  function Total(grants: seq<Call>, lo: int, hi: int): nat {
    if grants == [] then 0
    else
      var g := grants[|grants| - 1];
      Total(grants[..|grants| - 1], lo, hi) + if lo <= g.now < hi then Pos(g.n) else 0
  }

  lemma TotalAppend(grants: seq<Call>, g: Call, lo: int, hi: int)
    ensures Total(grants + [g], lo, hi) == Total(grants, lo, hi) + if lo <= g.now < hi then Pos(g.n) else 0
  {
  }

  ghost predicate AllBefore(grants: seq<Call>, time: int) {
    forall i :: 0 <= i < |grants| ==> grants[i].now <= time
  }

  lemma {:induction false} TotalSplit(grants: seq<Call>, lo: int, mid: int, hi: int)
    requires lo <= mid <= hi
    ensures Total(grants, lo, hi) == Total(grants, lo, mid) + Total(grants, mid, hi)
  {
    if grants != [] {
      TotalSplit(grants[..|grants| - 1], lo, mid, hi);
    }
  }

  lemma {:induction false} TotalWider(grants: seq<Call>, lo: int, hi: int, lo': int, hi': int)
    requires lo' <= lo && hi <= hi'
    ensures Total(grants, lo, hi) <= Total(grants, lo', hi')
  {
    if grants != [] {
      TotalWider(grants[..|grants| - 1], lo, hi, lo', hi');
    }
  }

  lemma {:induction false} TotalPast(grants: seq<Call>, time: int, lo: int, hi: int, hi': int)
    requires AllBefore(grants, time) && time < hi <= hi'
    ensures Total(grants, lo, hi) == Total(grants, lo, hi')
    ensures time < lo ==> Total(grants, lo, hi) == 0
  {
    if grants != [] {
      TotalPast(grants[..|grants| - 1], time, lo, hi, hi');
    }
  }

  // ---------- token bucket ----------

  datatype Bucket = Bucket(capacity: int, tokens: int, refillRate: int, lastRefill: int)

  /** int64(d.Seconds()): whole seconds, truncated toward zero. */
  function WholeSeconds(d: int): int {
    if d >= 0 then d / SECOND else -((-d) / SECOND)
  }

  function NewBucket(capacity: int, refillRate: int, created: int): Bucket {
    Bucket(capacity, capacity, refillRate, created)
  }

  function TokensToAdd(b: Bucket, now: int): int {
    WholeSeconds(now - b.lastRefill) * b.refillRate
  }

  function Refill(b: Bucket, now: int): Bucket {
    var add := TokensToAdd(b, now);
    if add <= 0 then b
    else b.(tokens := if b.tokens + add > b.capacity then b.capacity else b.tokens + add, lastRefill := now)
  }

  function Take(b: Bucket, call: Call): (Bucket, bool) {
    var r := Refill(b, call.now);
    if r.tokens >= call.n then (r.(tokens := r.tokens - call.n), true) else (r, false)
  }

  /** The bucket after a run, with the calls it granted. */
  function RunBucket(b: Bucket, calls: seq<Call>): (Bucket, seq<Call>) {
    if calls == [] then (b, [])
    else
      var (before, grants) := RunBucket(b, calls[..|calls| - 1]);
      var call := calls[|calls| - 1];
      var (after, ok) := Take(before, call);
      (after, if ok then grants + [call] else grants)
  }

  lemma Wholes(a: int, b: int)
    requires a >= 0 && b >= 0
    ensures WholeSeconds(a) + WholeSeconds(b) <= WholeSeconds(a + b)
    ensures WholeSeconds(a + SECOND) == WholeSeconds(a) + 1
    ensures b >= SECOND <==> WholeSeconds(b) >= 1
    ensures a <= b ==> WholeSeconds(a) <= WholeSeconds(b)
    ensures WholeSeconds(b) * SECOND <= b
    ensures b >= SECOND ==> b <= 2 * (WholeSeconds(b) * SECOND)
  {
  }

  lemma TimesMonotone(k: int, a: int, b: int)
    requires k >= 0 && a <= b
    ensures k * a <= k * b
  {
  }

  lemma TimesSum(k: int, a: int, b: int)
    ensures k * (a + b) == k * a + k * b
  {
  }

  /** What a bucket may still have granted since `s`, given its last refill. */
  function Allowance(b: Bucket, s: int): int {
    Pos(b.capacity)
    + if b.lastRefill >= s then Pos(b.refillRate) * (WholeSeconds(b.lastRefill - s) + 1) else 0
  }

  ghost predicate Metered(b: Bucket, grants: seq<Call>, s: int, time: int) {
    s <= time ==> Pos(b.tokens) + Total(grants, s, time + 1) <= Allowance(b, s)
  }

  /** The standing facts about a bucket at time `time`. */
  ghost predicate BucketInv(b: Bucket, grants: seq<Call>, created: int, time: int) {
    && created <= b.lastRefill <= time && AllBefore(grants, time)
    && (b.refillRate > 0 ==> time < b.lastRefill + SECOND)
    && b.tokens <= b.capacity && (b.capacity >= 0 ==> b.tokens >= 0)
    && Pos(b.tokens) + Total(grants, created, time + 1)
       <= Pos(b.capacity) + Pos(b.refillRate) * WholeSeconds(b.lastRefill - created)
  }

  lemma RefillFacts(b: Bucket, now: int)
    requires b.lastRefill <= now
    ensures Refill(b, now) != b <==> b.refillRate > 0 && now >= b.lastRefill + SECOND
    ensures var add := Pos(b.refillRate) * WholeSeconds(now - b.lastRefill);
            Refill(b, now) != b ==> Refill(b, now).lastRefill == now && add == TokensToAdd(b, now) > 0
  {
  }

  lemma TakeAccounts(b: Bucket, grants: seq<Call>, s: int, call: Call)
    requires b.tokens <= b.capacity && s <= call.now && call.n >= 0
    ensures var (after, ok) := Take(b, call);
            var grants' := if ok then grants + [call] else grants;
            Pos(after.tokens) + Total(grants', s, call.now + 1)
            == Pos(Refill(b, call.now).tokens) + Total(grants, s, call.now + 1)
  {
  }

  /** A refill at `now` adds no more than the allowance since `s` grows by. */
  lemma RefillWithinAllowance(b: Bucket, s: int, now: int)
    requires s <= now && b.lastRefill <= now && Refill(b, now) != b && s < b.lastRefill + SECOND
    ensures Pos(Refill(b, now).tokens) + Allowance(b, s) <= Pos(b.tokens) + Allowance(Refill(b, now), s)
  {
    RefillFacts(b, now);
    var p, gap := Pos(b.refillRate), WholeSeconds(now - b.lastRefill);
    if b.lastRefill >= s {
      var past := WholeSeconds(b.lastRefill - s);
      Wholes(b.lastRefill - s, now - b.lastRefill);
      TimesSum(p, past + 1, gap);
      TimesMonotone(p, past + 1 + gap, WholeSeconds(now - s) + 1);
    } else {
      Wholes(now - s, 0);
      Wholes(now - b.lastRefill, now - s + SECOND);
      TimesMonotone(p, gap, WholeSeconds(now - s) + 1);
    }
  }

  lemma MeteredStep(b: Bucket, grants: seq<Call>, created: int, time: int, call: Call, s: int)
    requires BucketInv(b, grants, created, time) && time <= call.now && Metered(b, grants, s, time) && call.n >= 0
    ensures var (after, ok) := Take(b, call);
            Metered(after, if ok then grants + [call] else grants, s, call.now)
  {
    var now := call.now;
    if s <= now {
      var r := Refill(b, now);
      TakeAccounts(b, grants, s, call);
      RefillFacts(b, now);
      TotalPast(grants, time, s, time + 1, now + 1);
      if s <= time {
        if r != b {
          RefillWithinAllowance(b, s, now);
        }
      } else {
        TotalPast(grants, time, s, now + 1, now + 1);
        if r.lastRefill >= s {
          Wholes(0, r.lastRefill - s);
          TimesMonotone(Pos(b.refillRate), 0, WholeSeconds(r.lastRefill - s) + 1);
        }
      }
    }
  }

  lemma BucketInvStep(b: Bucket, grants: seq<Call>, created: int, time: int, call: Call)
    requires BucketInv(b, grants, created, time) && time <= call.now && call.n >= 0
    ensures var (after, ok) := Take(b, call);
            BucketInv(after, if ok then grants + [call] else grants, created, call.now)
  {
    var now := call.now;
    var r := Refill(b, now);
    TakeAccounts(b, grants, created, call);
    RefillFacts(b, now);
    TotalPast(grants, time, created, time + 1, now + 1);
    if r != b {
      var p, gap, past := Pos(b.refillRate), WholeSeconds(now - b.lastRefill), WholeSeconds(b.lastRefill - created);
      Wholes(b.lastRefill - created, now - b.lastRefill);
      TimesSum(p, past, gap);
      TimesMonotone(p, past + gap, WholeSeconds(now - created));
    }
  }

  lemma {:induction false} BucketRuns(b0: Bucket, created: int, calls: seq<Call>, s: int)
    requires b0 == NewBucket(b0.capacity, b0.refillRate, created) && Ordered(calls, created) && AllAtLeast(calls, 0)
    ensures var (b, grants) := RunBucket(b0, calls);
            && b.capacity == b0.capacity && b.refillRate == b0.refillRate
            && BucketInv(b, grants, created, Latest(calls, created))
            && Metered(b, grants, s, Latest(calls, created))
  {
    if calls != [] {
      var front, call := calls[..|calls| - 1], calls[|calls| - 1];
      OrderedFront(calls, created);
      BucketRuns(b0, created, front, s);
      var (b, grants) := RunBucket(b0, front);
      MeteredStep(b, grants, created, Latest(front, created), call, s);
      BucketInvStep(b, grants, created, Latest(front, created), call);
    }
  }

  lemma BoundAtEnd(b: Bucket, grants: seq<Call>, created: int, time: int, s: int, t: int)
    requires BucketInv(b, grants, created, time) && Metered(b, grants, s, time) && s <= t && time <= t
    ensures Total(grants, s, t + 1) <= Pos(b.capacity) + Pos(b.refillRate) * (WholeSeconds(t - s) + 1)
  {
    var p := Pos(b.refillRate);
    Wholes(0, t - s);
    TimesMonotone(p, 0, WholeSeconds(t - s) + 1);
    TotalPast(grants, time, s, time + 1, t + 1);
    if s <= time {
      if b.lastRefill >= s {
        Wholes(b.lastRefill - s, t - s);
        TimesMonotone(p, WholeSeconds(b.lastRefill - s) + 1, WholeSeconds(t - s) + 1);
      }
    } else {
      TotalPast(grants, time, s, t + 1, t + 1);
    }
  }

  lemma CreationBoundAtEnd(b: Bucket, grants: seq<Call>, created: int, time: int, t: int)
    requires BucketInv(b, grants, created, time) && time <= t
    ensures Total(grants, created, t + 1) <= Pos(b.capacity) + Pos(b.refillRate) * WholeSeconds(t - created)
  {
    TotalPast(grants, time, created, time + 1, t + 1);
    Wholes(b.lastRefill - created, t - created);
    TimesMonotone(Pos(b.refillRate), WholeSeconds(b.lastRefill - created), WholeSeconds(t - created));
  }

  /** The calls up to time `t`. */
  function Until(calls: seq<Call>, t: int): seq<Call> {
    if calls == [] || calls[|calls| - 1].now <= t then calls else Until(calls[..|calls| - 1], t)
  }

  lemma {:induction false} LaterCallsDoNotCount(b0: Bucket, created: int, calls: seq<Call>, s: int, t: int, least: int)
    requires Ordered(calls, created) && AllAtLeast(calls, least)
    ensures AllAtLeast(Until(calls, t), least)
    ensures Ordered(Until(calls, t), created) && (created <= t ==> Latest(Until(calls, t), created) <= t)
    ensures Until(calls, t) == [] || Latest(Until(calls, t), created) <= t
    ensures Total(RunBucket(b0, calls).1, s, t + 1) == Total(RunBucket(b0, Until(calls, t)).1, s, t + 1)
  {
    if calls != [] && calls[|calls| - 1].now > t {
      var front := calls[..|calls| - 1];
      LaterCallsDoNotCount(b0, created, front, s, t, least);
      TotalAppend(RunBucket(b0, front).1, calls[|calls| - 1], s, t + 1);
    }
  }

  /** Over any run without negative counts, the grants in any interval [s, t] are at most the capacity plus
      the refill of one second more than the whole seconds in it. */
  lemma TokenBucketBound(b0: Bucket, created: int, calls: seq<Call>, s: int, t: int)
    requires b0 == NewBucket(b0.capacity, b0.refillRate, created) && Ordered(calls, created) && AllAtLeast(calls, 0)
    requires s <= t
    ensures Total(RunBucket(b0, calls).1, s, t + 1)
         <= Pos(b0.capacity) + Pos(b0.refillRate) * (WholeSeconds(t - s) + 1)
  {
    LaterCallsDoNotCount(b0, created, calls, s, t, 0);
    var early := Until(calls, t);
    if early == [] {
      Wholes(0, t - s);
      TimesMonotone(Pos(b0.refillRate), 0, WholeSeconds(t - s) + 1);
    } else {
      BucketRuns(b0, created, early, s);
      var (b, grants) := RunBucket(b0, early);
      BoundAtEnd(b, grants, created, Latest(early, created), s, t);
    }
  }

  /** The bound is reached: empty the bucket a nanosecond before its first refill is
      due, and take the refill. */
  lemma TokenBucketBoundIsReached(capacity: nat, refillRate: nat)
    requires 1 <= refillRate <= capacity
    ensures var calls := [Call(SECOND - 1, capacity), Call(SECOND, refillRate)];
            && Ordered(calls, 0)
            && Total(RunBucket(NewBucket(capacity, refillRate, 0), calls).1, SECOND - 1, SECOND + 1)
               == capacity + refillRate * (WholeSeconds(SECOND - (SECOND - 1)) + 1)
  {
    var b0 := NewBucket(capacity, refillRate, 0);
    var first, second := Call(SECOND - 1, capacity), Call(SECOND, refillRate);
    var calls := [first, second];
    assert calls[..1] == [first] && [first][..0] == [];
    assert RunBucket(b0, []) == (b0, []);
    assert Take(b0, first) == (b0.(tokens := 0), true);
    assert [] + [first] == [first];
    assert RunBucket(b0, [first]) == (b0.(tokens := 0), [first]);
    assert TokensToAdd(b0.(tokens := 0), SECOND) == refillRate;
    assert RunBucket(b0, calls).1 == [first] + [second];
    TotalAppend([first], second, SECOND - 1, SECOND + 1);
    TotalAppend([], first, SECOND - 1, SECOND + 1);
  }

  /** Counted from the creation of the bucket the extra second is not there. */
  lemma TokenBucketBoundFromCreation(b0: Bucket, created: int, calls: seq<Call>, t: int)
    requires b0 == NewBucket(b0.capacity, b0.refillRate, created) && Ordered(calls, created) && AllAtLeast(calls, 0)
    requires created <= t
    ensures Total(RunBucket(b0, calls).1, created, t + 1)
         <= Pos(b0.capacity) + Pos(b0.refillRate) * WholeSeconds(t - created)
  {
    LaterCallsDoNotCount(b0, created, calls, created, t, 0);
    var early := Until(calls, t);
    BucketRuns(b0, created, early, created);
    var (b, grants) := RunBucket(b0, early);
    CreationBoundAtEnd(b, grants, created, Latest(early, created), t);
  }

  // ---------- negative counts ----------

  ghost predicate BoundHolds(capacity: int, refillRate: int, calls: seq<Call>, s: int, t: int) {
    Total(RunBucket(NewBucket(capacity, refillRate, 0), calls).1, s, t + 1)
    <= Pos(capacity) + Pos(refillRate) * (WholeSeconds(t - s) + 1)
  }

  /** The bound holds in every run whose counts are `least` or more. */
  ghost predicate AlwaysBounded(capacity: int, refillRate: int, least: int) {
    forall calls, s, t :: Ordered(calls, 0) && AllAtLeast(calls, least) && s <= t ==>
                            BoundHolds(capacity, refillRate, calls, s, t)
  }

  /** The same negative count `k` times at time 0. */
  function Refunds(least: int, k: nat): seq<Call> {
    seq(k, _ => Call(0, least))
  }

  function Refunded(least: int, k: nat): (sum: int)
    requires least < 0
    ensures sum >= k
  {
    if k == 0 then 0 else Refunded(least, k - 1) - least
  }

  lemma RefundStep(b0: Bucket, least: int)
    requires b0.lastRefill == 0 && b0.tokens >= least
    ensures Take(b0, Call(0, least)) == (b0.(tokens := b0.tokens - least), true)
  {
    assert TokensToAdd(b0, 0) == 0;
  }

  lemma {:induction false} RefundsFill(b0: Bucket, least: int, k: nat)
    requires least < 0 && least <= b0.tokens && b0.lastRefill == 0
    ensures var (b, grants) := RunBucket(b0, Refunds(least, k));
            b == b0.(tokens := b0.tokens + Refunded(least, k)) && Total(grants, 0, 1) == 0
  {
    if k > 0 {
      var front := Refunds(least, k - 1);
      assert Refunds(least, k)[..k - 1] == front;
      RefundsFill(b0, least, k - 1);
      RefundStep(RunBucket(b0, front).0, least);
      TotalAppend(RunBucket(b0, front).1, Call(0, least), 0, 1);
    }
  }

  lemma LastGrantCounts(b0: Bucket, calls: seq<Call>, last: Call, lo: int, hi: int)
    requires Take(RunBucket(b0, calls).0, last).1 && lo <= last.now < hi
    ensures Total(RunBucket(b0, calls + [last]).1, lo, hi) == Total(RunBucket(b0, calls).1, lo, hi) + Pos(last.n)
  {
    var all := calls + [last];
    assert all[..|all| - 1] == calls;
    TotalAppend(RunBucket(b0, calls).1, last, lo, hi);
  }

  lemma RefundsLeaveEnough(b0: Bucket, least: int, k: nat, n: int)
    requires least < 0 && least <= b0.tokens && b0.lastRefill == 0 && n == b0.tokens + Refunded(least, k)
    ensures Take(RunBucket(b0, Refunds(least, k)).0, Call(0, n)).1
  {
    RefundsFill(b0, least, k);
    RefundStep(b0.(tokens := n), n);
  }

  lemma RefundsGrant(b0: Bucket, least: int, k: nat, calls: seq<Call>, last: Call)
    requires least < 0 && least <= b0.tokens && b0.lastRefill == 0
    requires calls == Refunds(least, k) && last == Call(0, b0.tokens + Refunded(least, k))
    ensures Total(RunBucket(b0, calls + [last]).1, 0, 1) == Pos(last.n)
  {
    RefundsLeaveEnough(b0, least, k, last.n);
    LastGrantCounts(b0, calls, last, 0, 1);
    assert Total(RunBucket(b0, calls).1, 0, 1) == 0 by { RefundsFill(b0, least, k); }
  }

  lemma RefundsBreakBound(capacity: int, refillRate: int, least: int)
    requires least < 0 && least <= capacity
    ensures !AlwaysBounded(capacity, refillRate, least)
  {
    var k: nat := Pos(-capacity) + Pos(refillRate) + 1;
    var last := Call(0, capacity + Refunded(least, k));
    var calls := Refunds(least, k) + [last];
    RefundsGrant(NewBucket(capacity, refillRate, 0), least, k, Refunds(least, k), last);
    assert Pos(refillRate) * (WholeSeconds(0) + 1) == Pos(refillRate);
    assert Ordered(calls, 0) && AllAtLeast(calls, least) && !BoundHolds(capacity, refillRate, calls, 0, 0);
  }

  lemma {:induction false} NothingIsGranted(capacity: int, refillRate: int, least: int, calls: seq<Call>)
    requires capacity < least < 0 && AllAtLeast(calls, least)
    ensures var (b, grants) := RunBucket(NewBucket(capacity, refillRate, 0), calls);
            b.tokens <= b.capacity == capacity && grants == []
  {
    if calls != [] {
      NothingIsGranted(capacity, refillRate, least, calls[..|calls| - 1]);
    }
  }

  /** The bound is one for callers that pass no negative count: if counts may be as
      low as `least`, it holds in every run exactly when `least` is not negative or
      is above a negative capacity, which grants nothing at all. */
  lemma BoundedIffNoNegative(capacity: int, refillRate: int, least: int)
    ensures AlwaysBounded(capacity, refillRate, least) <==> least >= 0 || capacity < least
  {
    if least < 0 && least <= capacity {
      RefundsBreakBound(capacity, refillRate, least);
    } else {
      forall calls, s, t | Ordered(calls, 0) && AllAtLeast(calls, least) && s <= t
        ensures BoundHolds(capacity, refillRate, calls, s, t)
      {
        if least >= 0 {
          TokenBucketBound(NewBucket(capacity, refillRate, 0), 0, calls, s, t);
        } else {
          NothingIsGranted(capacity, refillRate, least, calls);
          Wholes(0, t - s);
          TimesMonotone(Pos(refillRate), 0, WholeSeconds(t - s) + 1);
        }
      }
    }
  }

  // ---------- conservation ----------

  /** Tokens added by the refills of a run, before capping. */
  function Refilled(b0: Bucket, calls: seq<Call>): int {
    if calls == [] then 0
    else
      var b := RunBucket(b0, calls[..|calls| - 1]).0;
      Refilled(b0, calls[..|calls| - 1]) + Pos(TokensToAdd(b, calls[|calls| - 1].now))
  }

  /** Tokens the cap has thrown away. */
  function Spilled(b0: Bucket, calls: seq<Call>): int {
    if calls == [] then 0
    else
      var b := RunBucket(b0, calls[..|calls| - 1]).0;
      var add := Pos(TokensToAdd(b, calls[|calls| - 1].now));
      Spilled(b0, calls[..|calls| - 1]) + if add > 0 then Pos(b.tokens + add - b.capacity) else 0
  }

  /** The counts granted, negative ones as they are. */
  function Sum(grants: seq<Call>): int {
    if grants == [] then 0 else Sum(grants[..|grants| - 1]) + grants[|grants| - 1].n
  }

  lemma SumAppend(grants: seq<Call>, g: Call)
    ensures Sum(grants + [g]) == Sum(grants) + g.n
  {
    assert (grants + [g])[..|grants|] == grants;
  }

  /** Conservation: what the bucket held and was given is in it, granted or
      spilled. */
  lemma {:induction false} TokensAreConserved(b0: Bucket, calls: seq<Call>)
    ensures var (b, grants) := RunBucket(b0, calls);
            && b0.tokens + Refilled(b0, calls) == b.tokens + Sum(grants) + Spilled(b0, calls)
            && b.capacity == b0.capacity && b.refillRate == b0.refillRate
  {
    if calls != [] {
      var front, call := calls[..|calls| - 1], calls[|calls| - 1];
      TokensAreConserved(b0, front);
      SumAppend(RunBucket(b0, front).1, call);
    }
  }

  /** A call is granted exactly when the initial tokens and all refills, up to its
      own, less what was granted and spilled, cover it. */
  lemma GrantedIffCovered(b0: Bucket, calls: seq<Call>, call: Call)
    ensures var (b, grants) := RunBucket(b0, calls);
            var all := calls + [call];
            Take(b, call).1 <==>
            b0.tokens + Refilled(b0, all) - Spilled(b0, all) - Sum(grants) >= call.n
  {
    var all := calls + [call];
    assert all[..|all| - 1] == calls;
    TokensAreConserved(b0, calls);
    TokensAreConserved(b0, all);
    SumAppend(RunBucket(b0, calls).1, call);
  }

  lemma HalfRateStep(p: nat, gap: int)
    requires gap >= SECOND
    ensures (p * WholeSeconds(gap)) * SECOND <= p * gap <= 2 * ((p * WholeSeconds(gap)) * SECOND)
  {
    var w := WholeSeconds(gap);
    Wholes(0, gap);
    TimesMonotone(p, gap, 2 * (w * SECOND));
    TimesMonotone(p, w * SECOND, gap);
    assert p * (w * SECOND) == (p * w) * SECOND;
    assert p * (2 * (w * SECOND)) == 2 * (p * (w * SECOND));
  }

  ghost predicate BetweenHalfAndFull(rate: nat, refilled: int, elapsed: int) {
    refilled * SECOND <= rate * elapsed <= 2 * (refilled * SECOND)
  }

  lemma HalfRateSum(rate: nat, refilled: int, elapsed: int, gap: int)
    requires BetweenHalfAndFull(rate, refilled, elapsed) && gap >= SECOND
    ensures BetweenHalfAndFull(rate, refilled + rate * WholeSeconds(gap), elapsed + gap)
  {
    HalfRateStep(rate, gap);
    TimesSum(rate, elapsed, gap);
    var add := rate * WholeSeconds(gap);
    assert (refilled + add) * SECOND == refilled * SECOND + add * SECOND;
  }

  lemma NextRefill(b: Bucket, created: int, now: int, refilled: int)
    requires b.lastRefill <= now
    requires BetweenHalfAndFull(Pos(b.refillRate), refilled, b.lastRefill - created)
    ensures BetweenHalfAndFull(Pos(b.refillRate), refilled + Pos(TokensToAdd(b, now)),
                               Refill(b, now).lastRefill - created)
  {
    RefillFacts(b, now);
    if Refill(b, now) != b {
      HalfRateSum(Pos(b.refillRate), refilled, b.lastRefill - created, now - b.lastRefill);
    } else {
      assert TokensToAdd(b, now) <= 0;
    }
  }

  lemma {:induction false} BucketClock(b0: Bucket, created: int, calls: seq<Call>)
    requires b0 == NewBucket(b0.capacity, b0.refillRate, created) && Ordered(calls, created)
    ensures var b := RunBucket(b0, calls).0;
            b.refillRate == b0.refillRate && created <= b.lastRefill <= Latest(calls, created)
  {
    if calls != [] {
      OrderedFront(calls, created);
      BucketClock(b0, created, calls[..|calls| - 1]);
    }
  }

  /** Although each refill drops the fraction of a second it waited, the tokens
      added never fall below half the nominal rate, nor rise above it. */
  lemma {:induction false} RefillsAtLeastHalfRate(b0: Bucket, created: int, calls: seq<Call>)
    requires b0 == NewBucket(b0.capacity, b0.refillRate, created) && Ordered(calls, created)
    ensures BetweenHalfAndFull(Pos(b0.refillRate), Refilled(b0, calls), RunBucket(b0, calls).0.lastRefill - created)
  {
    if calls != [] {
      var front, call := calls[..|calls| - 1], calls[|calls| - 1];
      OrderedFront(calls, created);
      RefillsAtLeastHalfRate(b0, created, front);
      BucketClock(b0, created, front);
      var b := RunBucket(b0, front).0;
      NextRefill(b, created, call.now, Refilled(b0, front));
      assert RunBucket(b0, calls).0.lastRefill == Refill(b, call.now).lastRefill;
    }
  }
}
