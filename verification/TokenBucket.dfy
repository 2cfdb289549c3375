/** The token bucket of the connection admission, over real time in seconds. */
module TokenBucket {
  import opened Arith
  import opened Collections

  lemma Product(a: real, b: real)
    requires a >= 0.0 && b >= 0.0
    ensures a * b >= 0.0
  {
  }

  lemma ZeroTimes(x: real, rate: real)
    requires x == 0.0
    ensures x * rate == 0.0
  {
  }

  /** An unused bucket is full. */
  datatype Bucket = Unused | Bucket(tokens: real, last: real)

  /** What the bucket holds at time `now`: refilled at `rate` per second, up to one second's worth. */
  function Level(b: Bucket, rate: real, now: real): real {
    match b
    case Unused => rate
    case Bucket(tokens, last) => MinReal(rate, tokens + MaxReal(0.0, now - last) * rate)
  }

  function Refreshed(b: Bucket, rate: real, now: real): Bucket {
    Bucket(Level(b, rate, now), now)
  }

  function Spent(b: Bucket): Bucket
    requires b.Bucket?
  {
    b.(tokens := b.tokens - 1.0)
  }

  /** Looking at a bucket costs nothing: every later level is the same as if nobody had looked. */
  lemma LookingIsFree(b: Bucket, rate: real, now: real, later: real)
    requires rate > 0.0 && now <= later && (b.Bucket? ==> b.last <= now)
    ensures Level(Refreshed(b, rate, now), rate, later) == Level(b, rate, later)
  {
    if b.Bucket? {
      assert (now - b.last) * rate + (later - now) * rate == (later - b.last) * rate;
    }
    Product(later - now, rate);
  }

  /** Any `j - i + 1` consecutive admissions take at least the time the rate allows them. */
  ghost predicate RateBound(times: seq<real>, rate: real) {
    forall i, j :: 0 <= i <= j < |times| ==> Spaced(j - i + 1, rate, times[i], times[j])
  }

  /** From `from` to `to` the rate allows `n` admissions, a full bucket included. */
  ghost predicate Spaced(n: int, rate: real, from: real, to: real) { n as real <= rate * (1.0 + to - from) }

  /** The admissions between `a` and `a + t`, among those numbered `lo` to `hi`. */
  ghost function Within(times: seq<real>, a: real, t: real, lo: nat, hi: nat): set<nat>
    requires hi <= |times|
  {
    set k: nat | lo <= k < hi && a <= times[k] <= a + t
  }

  /** In any interval of length `t` there are at most `rate * (t + 1)` admissions. */
  lemma {:induction false} IntervalBound(times: seq<real>, rate: real, a: real, t: real, lo: nat, hi: nat)
    requires RateBound(times, rate) && rate >= 0.0 && t >= 0.0 && lo <= hi <= |times|
    ensures |Within(times, a, t, lo, hi)| as real <= rate * (t + 1.0)
    decreases hi - lo
  {
    var s := Within(times, a, t, lo, hi);
    Product(rate, t + 1.0);
    if lo == hi {
      assert s == {};
    } else if !(a <= times[lo] <= a + t) {
      assert s == Within(times, a, t, lo + 1, hi);
      IntervalBound(times, rate, a, t, lo + 1, hi);
    } else if !(a <= times[hi - 1] <= a + t) {
      assert s == Within(times, a, t, lo, hi - 1);
      IntervalBound(times, rate, a, t, lo, hi - 1);
    } else {
      RangeSize(s, lo, hi);
      Longer(rate, times[lo], times[hi - 1], t, (hi - lo) as real);
    }
  }

  lemma Longer(rate: real, from: real, to: real, t: real, n: real)
    requires rate >= 0.0 && to - from <= t && n <= rate * (1.0 + to - from)
    ensures n <= rate * (t + 1.0)
  {
    Product(rate, t - (to - from));
    assert rate * (t + 1.0) == rate * (1.0 + to - from) + rate * (t - (to - from));
  }

  /** A bucket that has paid for the admissions at `times`. */
  ghost predicate Paid(b: Bucket, rate: real, times: seq<real>) {
    && RateBound(times, rate)
    && match b
       case Unused => times == []
       case Bucket(tokens, last) =>
         && 0.0 <= tokens <= rate
         && (forall i :: 0 <= i < |times| ==> times[i] <= last)
         && (forall i :: 0 <= i < |times| ==> tokens + (|times| - i) as real <= rate + rate * (last - times[i]))
  }

  lemma PaidRefresh(b: Bucket, rate: real, times: seq<real>, now: real)
    requires rate > 0.0 && Paid(b, rate, times) && (b.Bucket? ==> b.last <= now)
    ensures Paid(Refreshed(b, rate, now), rate, times)
  {
    if b.Bucket? {
      Product(now - b.last, rate);
      forall i | 0 <= i < |times|
        ensures Level(b, rate, now) + (|times| - i) as real <= rate + rate * (now - times[i])
      {
        assert rate * (now - times[i]) == rate * (b.last - times[i]) + (now - b.last) * rate;
      }
    }
  }

  lemma RateBoundMore(b: Bucket, rate: real, times: seq<real>)
    requires b.Bucket? && Paid(b, rate, times) && b.tokens >= 1.0
    ensures RateBound(times + [b.last], rate)
  {
    hide Spaced;
    var more := times + [b.last];
    forall i, j | 0 <= i <= j < |more|
      ensures Spaced(j - i + 1, rate, more[i], more[j])
    {
      if j < |times| {
        assert Spaced(j - i + 1, rate, times[i], times[j]);
      } else if i < |times| {
        LastSpaced(b.tokens, |times| - i, rate, times[i], b.last);
      } else {
        LastSpaced(b.tokens, 0, rate, b.last, b.last);
      }
    }
  }

  /** A bucket that has paid for `n` admissions since `from` and has a token left can pay for one more. */
  lemma LastSpaced(tokens: real, n: nat, rate: real, from: real, to: real)
    requires tokens >= 1.0 && tokens + n as real <= rate + rate * (to - from)
    ensures Spaced(n + 1, rate, from, to)
  {
    var e := to - from;
    assert rate * (1.0 + e) == rate + rate * e;
    assert 1.0 + to - from == 1.0 + e;
  }

  /** Spending an available token pays for one more admission. */
  lemma PaidSpend(b: Bucket, rate: real, times: seq<real>)
    requires rate > 0.0 && b.Bucket? && Paid(b, rate, times) && b.tokens >= 1.0
    ensures Paid(Spent(b), rate, times + [b.last])
  {
    var more := times + [b.last];
    forall i | 0 <= i < |more|
      ensures Spent(b).tokens + (|more| - i) as real <= rate + rate * (b.last - more[i])
    {
      if i < |times| {
        assert more[i] == times[i];
      }
    }
    RateBoundMore(b, rate, times);
  }

  /**
   A bucket whose last spending is `idle` or longer ago has forgotten it.  `quiet` is a time no
   later than which every token was spent.
   */
  ghost predicate Rested(b: Bucket, rate: real, quiet: real) {
    b.Bucket? && 0.0 <= b.tokens <= rate && b.tokens >= MinReal(rate, (b.last - quiet) * rate)
  }

  /** Whatever is left right after spending counts as rested from that moment. */
  lemma JustSpent(b: Bucket, rate: real, now: real)
    requires rate >= 1.0 && Level(b, rate, now) >= 1.0
    ensures Rested(Spent(Refreshed(b, rate, now)), rate, now)
  {
    RestedNow(Level(b, rate, now) - 1.0, rate, now);
  }

  lemma RestedNow(tokens: real, rate: real, now: real)
    requires 0.0 <= tokens <= rate
    ensures Rested(Bucket(tokens, now), rate, now)
  {
    ZeroTimes(Bucket(tokens, now).last - now, rate);
  }

  lemma RestedRefresh(b: Bucket, rate: real, quiet: real, now: real)
    requires rate > 0.0 && Rested(b, rate, quiet) && b.last <= now
    ensures Rested(Refreshed(b, rate, now), rate, quiet)
  {
    Product(now - b.last, rate);
    assert (now - quiet) * rate == (b.last - quiet) * rate + (now - b.last) * rate;
  }

  lemma RestedLater(b: Bucket, rate: real, quiet: real, later: real)
    requires rate > 0.0 && Rested(b, rate, quiet) && quiet <= later
    ensures Rested(b, rate, later)
  {
    Product(later - quiet, rate);
    var x, y := (b.last - quiet) * rate, (later - quiet) * rate;
    assert (b.last - later) * rate == x - y;
    assert y >= 0.0;
  }

  /** After a second of rest the bucket is as good as new. */
  lemma RestedIsFull(b: Bucket, rate: real, quiet: real, now: real)
    requires rate > 0.0 && Rested(b, rate, quiet) && b.last <= now && quiet + 1.0 <= now
    ensures Level(b, rate, now) == Level(Unused, rate, now)
  {
    RestedRefresh(b, rate, quiet, now);
    Product(now - quiet - 1.0, rate);
    var x := (now - quiet - 1.0) * rate;
    assert (now - quiet) * rate == x + rate;
    assert Level(b, rate, now) >= MinReal(rate, x + rate);
  }

  /** A full bucket may be forgotten: these admissions do not weigh on what is admitted later. */
  ghost predicate Forgotten(times: seq<real>, rate: real, now: real) {
    && RateBound(times, rate)
    && forall i :: 0 <= i < |times| ==> times[i] <= now && (|times| - i) as real <= rate * (now - times[i])
  }

  lemma ForgetFull(b: Bucket, rate: real, times: seq<real>, now: real)
    requires rate > 0.0 && Paid(b, rate, times) && (b.Bucket? ==> b.last <= now) && Level(b, rate, now) == rate
    ensures Forgotten(times, rate, now)
  {
    PaidRefresh(b, rate, times, now);
  }

  lemma ForgottenLater(times: seq<real>, rate: real, now: real, later: real)
    requires rate > 0.0 && Forgotten(times, rate, now) && now <= later
    ensures Forgotten(times, rate, later)
  {
    forall i | 0 <= i < |times|
      ensures (|times| - i) as real <= rate * (later - times[i])
    {
      assert rate * (later - times[i]) == rate * (now - times[i]) + rate * (later - now);
    }
  }

  /** A new bucket has paid for everything that was forgotten. */
  lemma NewIsPaid(times: seq<real>, rate: real, now: real)
    requires rate > 0.0 && Forgotten(times, rate, now)
    ensures Paid(Bucket(rate, now), rate, times)
  {
  }
}
