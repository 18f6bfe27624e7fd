/** The three rate limiters as objects whose fields each call updates. The clock
    reading of a call is a parameter. */
module Limiters {
  import opened LimitSpec
  import opened WindowSpec

  class TokenBucket {
    const capacity: int
    var tokens: int
    const refillRate: int
    var lastRefill: int

    ghost function View(): Bucket
      reads this
    {
      Bucket(capacity, tokens, refillRate, lastRefill)
    }

    constructor (capacity: int, refillRate: int, now: int)
      ensures View() == NewBucket(capacity, refillRate, now)
    {
      this.capacity, this.refillRate := capacity, refillRate;
      tokens, lastRefill := capacity, now;
    }

    method AddTokens(now: int)
      modifies this
      ensures View() == Refill(old(View()), now)
    {
      var elapsed := now - lastRefill;
      var tokensToAdd := WholeSeconds(elapsed) * refillRate;
      if tokensToAdd > 0 {
        tokens := tokens + tokensToAdd;
        if tokens > capacity {
          tokens := capacity;
        }
        lastRefill := now;
      }
    }

    method AllowN(n: int, now: int) returns (ok: bool)
      modifies this
      ensures (View(), ok) == Take(old(View()), Call(now, n))
    {
      AddTokens(now);
      if tokens >= n {
        tokens := tokens - n;
        return true;
      }
      return false;
    }

    method GetTokens(now: int) returns (available: int)
      modifies this
      ensures View() == Refill(old(View()), now) && available == tokens
    {
      AddTokens(now);
      available := tokens;
    }
  }

  class SlidingWindowLimiter {
    const limit: int
    const window: int
    var requests: seq<int>

    ghost function View(): Sliding
      reads this
    {
      Sliding(limit, window, requests)
    }

    constructor (limit: int, window: int)
      ensures View() == Sliding(limit, window, [])
    {
      this.limit, this.window := limit, window;
      requests := [];
    }

    /** Drops the stamps at or before now - window. */
    method Cleanup(now: int)
      modifies this
      ensures View() == old(View()).(requests := Keep(old(requests), now - window))
    {
      var cutoff := now - window;
      var valid := [];
      for i := 0 to |requests|
        invariant valid == Keep(requests[..i], cutoff)
      {
        assert requests[..i + 1][..i] == requests[..i];
        if requests[i] > cutoff {
          valid := valid + [requests[i]];
        }
      }
      assert requests[..|requests|] == requests;
      requests := valid;
    }

    method AllowN(n: int, now: int) returns (ok: bool)
      modifies this
      ensures (View(), ok) == Admit(old(View()), Call(now, n))
    {
      Cleanup(now);
      if |requests| + n <= limit {
        ghost var live := requests;
        var i := 0;
        while i < n
          invariant 0 <= i <= Pos(n) && requests == live + Repeat(now, i)
        {
          requests := requests + [now];
          i := i + 1;
        }
        return true;
      }
      return false;
    }

    method GetCurrentCount(now: int) returns (count: nat)
      modifies this
      ensures View() == old(View()).(requests := Keep(old(requests), now - window)) && count == |requests|
    {
      Cleanup(now);
      count := |requests|;
    }
  }

  class FixedWindowLimiter {
    const limit: int
    const window: int
    var count: int
    var windowStart: int

    ghost function View(): Fixed
      reads this
    {
      Fixed(limit, window, count, windowStart)
    }

    constructor (limit: int, window: int, now: int)
      ensures View() == Fixed(limit, window, 0, now)
    {
      this.limit, this.window := limit, window;
      count, windowStart := 0, now;
    }

    method AllowN(n: int, now: int) returns (ok: bool)
      modifies this
      ensures (View(), ok) == Allow(old(View()), Call(now, n))
    {
      if now - windowStart >= window {
        count := 0;
        windowStart := now;
      }
      if count + n <= limit {
        count := count + n;
        return true;
      }
      return false;
    }
  }
}
