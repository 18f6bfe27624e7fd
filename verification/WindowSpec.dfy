/** The two window limiters as values and what each guarantees over every interval
    of every run. */
module WindowSpec {
  import opened LimitSpec

  // ---------- sliding window ----------

  /** One time stamp per unit granted and still remembered. */
  datatype Sliding = Sliding(limit: int, window: int, requests: seq<int>)

  /** The stamps after `cutoff`, in order. */
  function Keep(stamps: seq<int>, cutoff: int): seq<int> {
    if stamps == [] then []
    else
      var t := stamps[|stamps| - 1];
      Keep(stamps[..|stamps| - 1], cutoff) + if t > cutoff then [t] else []
  }

  function Repeat(t: int, n: nat): seq<int> {
    seq(n, _ => t)
  }

  /** One stamp for each unit of each grant. */
  function Stamps(grants: seq<Call>): seq<int> {
    if grants == [] then []
    else Stamps(grants[..|grants| - 1]) + Repeat(grants[|grants| - 1].now, Pos(grants[|grants| - 1].n))
  }

  function Admit(sw: Sliding, call: Call): (Sliding, bool) {
    var live := Keep(sw.requests, call.now - sw.window);
    if |live| + call.n <= sw.limit then (sw.(requests := live + Repeat(call.now, Pos(call.n))), true)
    else (sw.(requests := live), false)
  }

  function RunSliding(sw: Sliding, calls: seq<Call>): (Sliding, seq<Call>) {
    if calls == [] then (sw, [])
    else
      var (before, grants) := RunSliding(sw, calls[..|calls| - 1]);
      var call := calls[|calls| - 1];
      var (after, ok) := Admit(before, call);
      (after, if ok then grants + [call] else grants)
  }

  lemma {:induction false} KeepAppend(a: seq<int>, b: seq<int>, cutoff: int)
    ensures Keep(a + b, cutoff) == Keep(a, cutoff) + Keep(b, cutoff)
  {
    if b == [] {
      assert a + b == a;
    } else {
      var front := b[..|b| - 1];
      assert (a + b)[..|a + b| - 1] == a + front;
      KeepAppend(a, front, cutoff);
    }
  }

  lemma {:induction false} KeepKeep(s: seq<int>, lo: int, hi: int)
    requires lo <= hi
    ensures Keep(Keep(s, lo), hi) == Keep(s, hi)
  {
    if s != [] {
      var front, t := s[..|s| - 1], s[|s| - 1];
      KeepKeep(front, lo, hi);
      KeepAppend(Keep(front, lo), if t > lo then [t] else [], hi);
    }
  }

  lemma {:induction false} KeepRepeat(t: int, n: nat, cutoff: int)
    ensures Keep(Repeat(t, n), cutoff) == if t > cutoff then Repeat(t, n) else []
  {
    if n > 0 {
      assert Repeat(t, n)[..n - 1] == Repeat(t, n - 1);
      KeepRepeat(t, n - 1, cutoff);
      assert Repeat(t, n - 1) + [t] == Repeat(t, n);
    }
  }

  /** Counting the kept stamps counts the grants since the cutoff. */
  lemma {:induction false} KeptCount(grants: seq<Call>, cutoff: int, hi: int)
    requires AllBefore(grants, hi - 1)
    ensures |Keep(Stamps(grants), cutoff)| == Total(grants, cutoff + 1, hi)
  {
    if grants != [] {
      var front, g := grants[..|grants| - 1], grants[|grants| - 1];
      KeptCount(front, cutoff, hi);
      KeepAppend(Stamps(front), Repeat(g.now, Pos(g.n)), cutoff);
      KeepRepeat(g.now, Pos(g.n), cutoff);
    }
  }

  /** The limiter remembers exactly the grants that can still matter. */
  ghost predicate Remembers(sw: Sliding, grants: seq<Call>, time: int) {
    forall cutoff :: cutoff >= time - sw.window ==> Keep(sw.requests, cutoff) == Keep(Stamps(grants), cutoff)
  }

  lemma StampsAppend(grants: seq<Call>, call: Call, cutoff: int)
    ensures Keep(Stamps(grants + [call]), cutoff)
         == Keep(Stamps(grants), cutoff) + Keep(Repeat(call.now, Pos(call.n)), cutoff)
  {
    assert (grants + [call])[..|grants|] == grants;
    KeepAppend(Stamps(grants), Repeat(call.now, Pos(call.n)), cutoff);
  }

  lemma AdmitKeeps(sw: Sliding, grants: seq<Call>, call: Call, cutoff: int)
    requires cutoff >= call.now - sw.window && Keep(sw.requests, cutoff) == Keep(Stamps(grants), cutoff)
    ensures var (after, ok) := Admit(sw, call);
            Keep(after.requests, cutoff) == Keep(Stamps(if ok then grants + [call] else grants), cutoff)
  {
    var live := Keep(sw.requests, call.now - sw.window);
    KeepKeep(sw.requests, call.now - sw.window, cutoff);
    if Admit(sw, call).1 {
      KeepAppend(live, Repeat(call.now, Pos(call.n)), cutoff);
      StampsAppend(grants, call, cutoff);
    }
  }

  lemma AdmitRemembers(sw: Sliding, grants: seq<Call>, time: int, call: Call)
    requires Remembers(sw, grants, time) && time <= call.now
    ensures var (after, ok) := Admit(sw, call);
            Remembers(after, if ok then grants + [call] else grants, call.now)
  {
    var after := Admit(sw, call).0;
    var grants' := if Admit(sw, call).1 then grants + [call] else grants;
    forall cutoff | cutoff >= call.now - sw.window
      ensures Keep(after.requests, cutoff) == Keep(Stamps(grants'), cutoff)
    {
      AdmitKeeps(sw, grants, call, cutoff);
    }
  }

  lemma {:induction false} SlidingRuns(sw0: Sliding, created: int, calls: seq<Call>)
    requires sw0.requests == [] && Ordered(calls, created)
    ensures var (sw, grants) := RunSliding(sw0, calls);
            && sw.limit == sw0.limit && sw.window == sw0.window
            && Remembers(sw, grants, Latest(calls, created)) && AllBefore(grants, Latest(calls, created))
  {
    if calls != [] {
      var front := calls[..|calls| - 1];
      OrderedFront(calls, created);
      SlidingRuns(sw0, created, front);
      var (sw, grants) := RunSliding(sw0, front);
      AdmitRemembers(sw, grants, Latest(front, created), calls[|calls| - 1]);
    }
  }

  lemma AdmitIff(sw: Sliding, grants: seq<Call>, time: int, call: Call)
    requires Remembers(sw, grants, time) && AllBefore(grants, time) && time <= call.now
    ensures Admit(sw, call).1
       <==> Total(grants, call.now - sw.window + 1, call.now + 1) + call.n <= sw.limit
  {
    KeptCount(grants, call.now - sw.window, call.now + 1);
  }

  /** A call is granted exactly when, with it, the grants of the window that ends
      now stay within the limit. */
  lemma GrantedIffWithinLimit(sw0: Sliding, created: int, calls: seq<Call>, call: Call)
    requires sw0.requests == [] && Ordered(calls, created) && Latest(calls, created) <= call.now
    ensures var (sw, grants) := RunSliding(sw0, calls);
            Admit(sw, call).1 <==>
            Total(grants, call.now - sw0.window + 1, call.now + 1) + call.n <= sw0.limit
  {
    SlidingRuns(sw0, created, calls);
    var (sw, grants) := RunSliding(sw0, calls);
    AdmitIff(sw, grants, Latest(calls, created), call);
  }

  lemma AdmitKeepsBound(sw: Sliding, grants: seq<Call>, time: int, call: Call, x: int)
    requires Remembers(sw, grants, time) && AllBefore(grants, time) && time <= call.now
    requires Admit(sw, call).1
    requires Total(grants, x + 1, x + sw.window + 1) <= Pos(sw.limit)
    ensures Total(grants + [call], x + 1, x + sw.window + 1) <= Pos(sw.limit)
  {
    AdmitIff(sw, grants, time, call);
    TotalAppend(grants, call, x + 1, x + sw.window + 1);
    if x < call.now <= x + sw.window {
      TotalPast(grants, call.now, x + 1, call.now + 1, x + sw.window + 1);
      TotalWider(grants, x + 1, call.now + 1, call.now - sw.window + 1, call.now + 1);
    }
  }

  /** No interval (x, x + window] of any run sees more than the limit granted. */
  lemma {:induction false} SlidingWindowBound(sw0: Sliding, created: int, calls: seq<Call>, x: int)
    requires sw0.requests == [] && Ordered(calls, created)
    ensures Total(RunSliding(sw0, calls).1, x + 1, x + sw0.window + 1) <= Pos(sw0.limit)
  {
    if calls != [] {
      var front, call := calls[..|calls| - 1], calls[|calls| - 1];
      OrderedFront(calls, created);
      SlidingWindowBound(sw0, created, front, x);
      SlidingRuns(sw0, created, front);
      var (sw, grants) := RunSliding(sw0, front);
      if Admit(sw, call).1 {
        AdmitKeepsBound(sw, grants, Latest(front, created), call, x);
      }
    }
  }

  // ---------- fixed window ----------

  datatype Fixed = Fixed(limit: int, window: int, count: int, windowStart: int)

  function Roll(fw: Fixed, now: int): Fixed {
    if now - fw.windowStart >= fw.window then fw.(count := 0, windowStart := now) else fw
  }

  function Allow(fw: Fixed, call: Call): (Fixed, bool) {
    var r := Roll(fw, call.now);
    if r.count + call.n <= r.limit then (r.(count := r.count + call.n), true) else (r, false)
  }

  function RunFixed(fw: Fixed, calls: seq<Call>): (Fixed, seq<Call>) {
    if calls == [] then (fw, [])
    else
      var (before, grants) := RunFixed(fw, calls[..|calls| - 1]);
      var call := calls[|calls| - 1];
      var (after, ok) := Allow(before, call);
      (after, if ok then grants + [call] else grants)
  }

  /** Without negative counts, the count is what the current window granted, and no more than the limit was
      granted in the time of one window before it began. */
  ghost predicate Windowed(fw: Fixed, grants: seq<Call>, time: int) {
    && fw.windowStart <= time < fw.windowStart + fw.window && AllBefore(grants, time)
    && fw.count == Total(grants, fw.windowStart, time + 1) <= Pos(fw.limit)
    && forall a {:trigger Total(grants, a, fw.windowStart)} ::
         a > fw.windowStart - fw.window ==> Total(grants, a, fw.windowStart) <= Pos(fw.limit)
  }

  lemma RollIsWindowed(fw: Fixed, grants: seq<Call>, time: int, now: int)
    requires fw.window > 0 && time <= now && Windowed(fw, grants, time)
    ensures Windowed(Roll(fw, now), grants, now)
  {
    TotalPast(grants, time, fw.windowStart, time + 1, now + 1);
    if now - fw.windowStart >= fw.window {
      TotalPast(grants, time, now, now + 1, now + 1);
      forall a {:trigger Total(grants, a, now)} | a > now - fw.window ensures Total(grants, a, now) <= Pos(fw.limit) {
        TotalWider(grants, a, now, fw.windowStart, now + 1);
      }
    }
  }

  lemma AllowIsWindowed(fw: Fixed, grants: seq<Call>, time: int, call: Call)
    requires fw.window > 0 && time <= call.now && Windowed(fw, grants, time) && call.n >= 0
    ensures var (after, ok) := Allow(fw, call);
            Windowed(after, if ok then grants + [call] else grants, call.now)
  {
    RollIsWindowed(fw, grants, time, call.now);
    var r := Roll(fw, call.now);
    TotalAppend(grants, call, r.windowStart, call.now + 1);
    if Allow(fw, call).1 {
      forall a {:trigger Total(grants + [call], a, r.windowStart)} | a > r.windowStart - r.window
        ensures Total(grants + [call], a, r.windowStart) <= Pos(r.limit)
      {
        TotalAppend(grants, call, a, r.windowStart);
      }
    }
  }

  lemma {:induction false} FixedRuns(fw0: Fixed, created: int, calls: seq<Call>)
    requires fw0 == Fixed(fw0.limit, fw0.window, 0, created) && fw0.window > 0
    requires Ordered(calls, created) && AllAtLeast(calls, 0)
    ensures var (fw, grants) := RunFixed(fw0, calls);
            && fw.limit == fw0.limit && fw.window == fw0.window
            && Windowed(fw, grants, Latest(calls, created))
  {
    if calls != [] {
      var front := calls[..|calls| - 1];
      OrderedFront(calls, created);
      FixedRuns(fw0, created, front);
      var (fw, grants) := RunFixed(fw0, front);
      AllowIsWindowed(fw, grants, Latest(front, created), calls[|calls| - 1]);
    }
  }

  /** When the window of the last call began, from the call times alone: the creation
      time, moved to a call's time whenever that is a window or more after it. */
  function WindowStart(calls: seq<Call>, created: int, window: int): int {
    if calls == [] then created
    else
      var before, now := WindowStart(calls[..|calls| - 1], created, window), calls[|calls| - 1].now;
      if now - before >= window then now else before
  }

  lemma {:induction false} WindowStarts(fw0: Fixed, created: int, calls: seq<Call>)
    requires fw0.windowStart == created
    ensures var fw := RunFixed(fw0, calls).0;
            && fw.windowStart == WindowStart(calls, created, fw0.window)
            && fw.limit == fw0.limit && fw.window == fw0.window
  {
    if calls != [] {
      WindowStarts(fw0, created, calls[..|calls| - 1]);
    }
  }

  /** A call is granted exactly when, with it, the grants of its window stay within the
      limit; the windows begin at times decided by the calls' times alone. A window of
      no length begins anew with every call. */
  lemma GrantedIffWindowHasRoom(fw0: Fixed, created: int, calls: seq<Call>, call: Call)
    requires fw0 == Fixed(fw0.limit, fw0.window, 0, created)
    requires Ordered(calls + [call], created) && AllAtLeast(calls + [call], 0)
    ensures var (fw, grants) := RunFixed(fw0, calls);
            var start := WindowStart(calls + [call], created, fw0.window);
            Allow(fw, call).1 <==>
              (if fw0.window > 0 then Total(grants, start, call.now + 1) else 0) + call.n <= fw0.limit
  {
    var all := calls + [call];
    var (fw, grants) := RunFixed(fw0, calls);
    assert all[..|all| - 1] == calls && all[|calls|] == call;
    WindowStarts(fw0, created, calls);
    assert Ordered(calls, created) && AllAtLeast(calls, 0);
    LatestIsEarlier(calls, call, created);
    StartIsEarlier(calls, created, fw0.window);
    if fw0.window > 0 {
      FixedRuns(fw0, created, calls);
      RollIsWindowed(fw, grants, Latest(calls, created), call.now);
    }
  }

  lemma {:induction false} StartIsEarlier(calls: seq<Call>, created: int, window: int)
    requires Ordered(calls, created)
    ensures WindowStart(calls, created, window) <= Latest(calls, created)
  {
    if calls != [] {
      OrderedFront(calls, created);
      StartIsEarlier(calls[..|calls| - 1], created, window);
    }
  }

  lemma LatestIsEarlier(calls: seq<Call>, call: Call, created: int)
    requires Ordered(calls + [call], created)
    ensures Latest(calls, created) <= call.now
  {
    var all := calls + [call];
    assert all[|calls|] == call && (calls != [] ==> all[|calls| - 1] == calls[|calls| - 1]);
  }

  lemma EmptyInterval(grants: seq<Call>, lo: int, hi: int)
    requires hi <= lo
    ensures Total(grants, lo, hi) == 0
  {
  }

  /** No interval [a, a + window) of any run without negative counts sees more than
      twice the limit. */
  lemma {:induction false} FixedWindowBound(fw0: Fixed, created: int, calls: seq<Call>, a: int)
    requires fw0 == Fixed(fw0.limit, fw0.window, 0, created) && Ordered(calls, created) && AllAtLeast(calls, 0)
    ensures Total(RunFixed(fw0, calls).1, a, a + fw0.window) <= 2 * Pos(fw0.limit)
  {
    if fw0.window <= 0 {
      EmptyInterval(RunFixed(fw0, calls).1, a, a + fw0.window);
    } else if calls != [] {
      var front, call := calls[..|calls| - 1], calls[|calls| - 1];
      var end := a + fw0.window;
      OrderedFront(calls, created);
      FixedWindowBound(fw0, created, front, a);
      TotalAppend(RunFixed(fw0, front).1, call, a, end);
      if a <= call.now < end {
        FixedRuns(fw0, created, calls);
        var (fw, grants) := RunFixed(fw0, calls);
        TotalPast(grants, call.now, a, call.now + 1, end);
        if a <= fw.windowStart {
          TotalSplit(grants, a, fw.windowStart, call.now + 1);
        } else {
          TotalWider(grants, a, call.now + 1, fw.windowStart, call.now + 1);
        }
      }
    }
  }

  /** Twice the limit is reached: spend the limit just before the window ends and
      again when the next begins. */
  lemma TwiceTheLimitIsReached(limit: nat, window: int)
    requires window >= 2
    ensures var calls := [Call(window - 1, limit), Call(window, limit)];
            && Ordered(calls, 0)
            && Total(RunFixed(Fixed(limit, window, 0, 0), calls).1, window - 1, window - 1 + window) == 2 * limit
  {
    var fw0 := Fixed(limit, window, 0, 0);
    var first, second := Call(window - 1, limit), Call(window, limit);
    var calls := [first, second];
    assert calls[..1] == [first];
    assert [first][..0] == [];
    assert RunFixed(fw0, []) == (fw0, []);
    assert Allow(fw0, first) == (Fixed(limit, window, limit, 0), true);
    assert [] + [first] == [first];
    assert RunFixed(fw0, [first]) == (Fixed(limit, window, limit, 0), [first]);
    assert RunFixed(fw0, calls).1 == [first] + [second];
    TotalAppend([first], second, window - 1, window - 1 + window);
    TotalAppend([], first, window - 1, window - 1 + window);
  }

  ghost predicate FixedBoundHolds(limit: int, window: int, calls: seq<Call>, a: int) {
    Total(RunFixed(Fixed(limit, window, 0, 0), calls).1, a, a + window) <= 2 * Pos(limit)
  }

  ghost predicate AlwaysFixedBounded(limit: int, window: int, least: int) {
    forall calls, a :: Ordered(calls, 0) && AllAtLeast(calls, least) ==> FixedBoundHolds(limit, window, calls, a)
  }

  lemma {:induction false} RefundsLower(limit: int, window: int, least: int, k: nat)
    requires least < 0 && least <= limit && window > 0
    ensures var (fw, grants) := RunFixed(Fixed(limit, window, 0, 0), Refunds(least, k));
            fw == Fixed(limit, window, -Refunded(least, k), 0) && Total(grants, 0, window) == 0
  {
    if k > 0 {
      var front := Refunds(least, k - 1);
      assert Refunds(least, k)[..k - 1] == front;
      RefundsLower(limit, window, least, k - 1);
      TotalAppend(RunFixed(Fixed(limit, window, 0, 0), front).1, Call(0, least), 0, window);
    }
  }

  lemma RefundsAllow(limit: int, window: int, least: int, k: nat)
    requires least < 0 && least <= limit && window > 0
    ensures var last := Call(0, limit + Refunded(least, k));
            Total(RunFixed(Fixed(limit, window, 0, 0), Refunds(least, k) + [last]).1, 0, window) == Pos(last.n)
  {
    var last := Call(0, limit + Refunded(least, k));
    RefundsLower(limit, window, least, k);
    var all := Refunds(least, k) + [last];
    assert all[..|all| - 1] == Refunds(least, k);
    TotalAppend(RunFixed(Fixed(limit, window, 0, 0), Refunds(least, k)).1, last, 0, window);
  }

  lemma RefundsBreakFixedBound(limit: int, window: int, least: int)
    requires least < 0 && least <= limit && window > 0
    ensures !AlwaysFixedBounded(limit, window, least)
  {
    var k: nat := 2 * Pos(limit) + Pos(-limit) + 1;
    var calls := Refunds(least, k) + [Call(0, limit + Refunded(least, k))];
    RefundsAllow(limit, window, least, k);
    assert Ordered(calls, 0) && AllAtLeast(calls, least) && !FixedBoundHolds(limit, window, calls, 0);
  }

  lemma {:induction false} NothingIsAllowed(limit: int, window: int, least: int, calls: seq<Call>)
    requires limit < least < 0 && AllAtLeast(calls, least)
    ensures var (fw, grants) := RunFixed(Fixed(limit, window, 0, 0), calls);
            fw.count == 0 && fw.limit == limit && grants == []
  {
    if calls != [] {
      NothingIsAllowed(limit, window, least, calls[..|calls| - 1]);
    }
  }

  /** Like the token bucket's, the bound is one for callers that pass no negative
      count; the sliding window keeps its own whatever is passed. */
  lemma FixedBoundedIffNoNegative(limit: int, window: int, least: int)
    ensures AlwaysFixedBounded(limit, window, least) <==> least >= 0 || limit < least || window <= 0
  {
    if least < 0 && least <= limit && window > 0 {
      RefundsBreakFixedBound(limit, window, least);
    } else {
      forall calls, a | Ordered(calls, 0) && AllAtLeast(calls, least) ensures FixedBoundHolds(limit, window, calls, a) {
        if window <= 0 {
          EmptyInterval(RunFixed(Fixed(limit, window, 0, 0), calls).1, a, a + window);
        } else if least >= 0 {
          FixedWindowBound(Fixed(limit, window, 0, 0), 0, calls, a);
        } else {
          NothingIsAllowed(limit, window, least, calls);
        }
      }
    }
  }
}
