/** Fixed windows anchored at the epoch, and the limiter that counts calls in them. */
module RateLimiting {
  import opened Base

  type Bucket = nat

  /** `EPOCH + ((now - EPOCH) // window) * window`: Python floors, and so does Dafny for a positive divisor. */
  function FixedWindowStart(now: Time, window: Time): Time
    requires window > 0
  {
    (now / window) * window
  }

  /** The window start is the one aligned instant w with w <= now < w + window. */
  lemma WindowCharacterised(now: Time, window: Time, w: Time)
    requires window > 0
    ensures (w % window == 0 && w <= now < w + window) <==> w == FixedWindowStart(now, window)
  {
    var q := now / window;
    assert now == q * window + now % window;
    assert FixedWindowStart(now, window) == q * window;
    MultipleIsAligned(q, window);
    if w % window == 0 && w <= now < w + window {
      assert w == w / window * window;
      OneMultipleAround(w / window, q, window, now);
    }
  }

  lemma OneMultipleAround(k: int, q: int, window: int, now: int)
    requires window > 0 && k * window <= now < k * window + window && q * window <= now < q * window + window
    ensures k == q
  {
    if k < q { MulMonotone(k + 1, q, window); }
    if k > q { MulMonotone(q + 1, k, window); }
  }

  lemma MultipleIsAligned(q: int, window: int)
    requires window > 0
    ensures (q * window) % window == 0
    ensures (q * window) / window == q
  {
    var r := (q * window) % window;
    var d := (q * window) / window;
    assert q * window == d * window + r;
    assert (q - d) * window == r;
    if q - d > 0 { MulMonotone(1, q - d, window); }
    if q - d < 0 { MulMonotone(q - d, -1, window); }
  }

  lemma MulMonotone(a: int, b: int, c: int)
    requires a <= b && c > 0
    ensures a * c <= b * c
  {
    assert (b - a) * c >= 0;
  }

  /** Aligning twice is aligning once, and alignment preserves order. */
  lemma AlignmentIdempotentAndMonotone(now: Time, later: Time, window: Time)
    requires window > 0 && now <= later
    ensures FixedWindowStart(FixedWindowStart(now, window), window) == FixedWindowStart(now, window)
    ensures FixedWindowStart(now, window) <= FixedWindowStart(later, window)
  {
    MultipleIsAligned(now / window, window);
    DivMonotone(now, later, window);
    MulMonotone(now / window, later / window, window);
  }

  lemma DivMonotone(now: Time, later: Time, window: Time)
    requires window > 0 && now <= later
    ensures now / window <= later / window
  {
    var p, q := now / window, later / window;
    assert p * window <= now && later < q * window + window;
    assert (q + 1) * window == q * window + window;
    if q < p {
      MulMonotone(q + 1, p, window);
    }
  }

  // ---------------------------------------------------------------- the limiter

  datatype Grant = Grant(bucket: Bucket, at: Time)

  /** The rows of rate_limit_windows, with the history of the calls that were allowed. */
  datatype Limiter = Limiter(counts: map<(Bucket, Time), nat>, grants: seq<Grant>)

  const EMPTY := Limiter(map[], [])

  /** The upsert's outcome: a missing row is inserted with count 1 whatever the limit is;
      an existing one is bumped only while it is below the limit. */
  predicate Allowed(l: Limiter, bucket: Bucket, limit: int, window: Time, now: Time)
    requires window > 0
  {
    var key := (bucket, FixedWindowStart(now, window));
    key in l.counts ==> l.counts[key] < limit
  }

  function Allow(l: Limiter, bucket: Bucket, limit: int, window: Time, now: Time): Limiter
    requires window > 0
  {
    var key := (bucket, FixedWindowStart(now, window));
    if !Allowed(l, bucket, limit, window, now) then l
    else Limiter(l.counts[key := if key in l.counts then l.counts[key] + 1 else 1],
                 l.grants + [Grant(bucket, now)])
  }

  function CountIn(grants: seq<Grant>, bucket: Bucket, from: Time, until: Time): nat {
    if grants == [] then 0
    else
      var g := grants[|grants| - 1];
      CountIn(grants[..|grants| - 1], bucket, from, until)
      + (if g.bucket == bucket && from <= g.at < until then 1 else 0)
  }

  /** How many grants a bucket received in the window starting at `w`. */
  function InWindow(grants: seq<Grant>, bucket: Bucket, w: Time, window: Time): nat {
    CountIn(grants, bucket, w, w + window)
  }

  lemma CountAppend(grants: seq<Grant>, g: Grant, bucket: Bucket, from: Time, until: Time)
    ensures CountIn(grants + [g], bucket, from, until)
         == CountIn(grants, bucket, from, until)
            + (if g.bucket == bucket && from <= g.at < until then 1 else 0)
  {
    assert (grants + [g])[..|grants|] == grants;
  }

  /** Every row counts exactly the grants of its window, and no row exceeds max(limit, 1). */
  ghost predicate Tallied(l: Limiter, limit: int, window: Time)
    requires window > 0
  {
    && (forall key :: key in l.counts ==> 1 <= l.counts[key] <= Max(limit, 1))
    && (forall b: Bucket, w: Time | w % window == 0 ::
          InWindow(l.grants, b, w, window) == if (b, w) in l.counts then l.counts[(b, w)] else 0)
  }

  lemma EmptyTallied(limit: int, window: Time)
    requires window > 0
    ensures Tallied(EMPTY, limit, window)
  {}

  lemma AllowKeepsTally(l: Limiter, bucket: Bucket, limit: int, window: Time, now: Time)
    requires window > 0 && Tallied(l, limit, window)
    ensures Tallied(Allow(l, bucket, limit, window, now), limit, window)
  {
    var l' := Allow(l, bucket, limit, window, now);
    if Allowed(l, bucket, limit, window, now) {
      forall b: Bucket, w: Time | w % window == 0
        ensures InWindow(l'.grants, b, w, window) == if (b, w) in l'.counts then l'.counts[(b, w)] else 0
      {
        assert InWindow(l.grants, b, w, window) == if (b, w) in l.counts then l.counts[(b, w)] else 0;
        CountAppend(l.grants, Grant(bucket, now), b, w, w + window);
        WindowCharacterised(now, window, w);
      }
    }
  }

  /** A call is granted exactly while its bucket has fewer grants in the current window than the larger of the limit
      and 1, and a grant is remembered with its bucket and time. */
  lemma AllowedIffBelowLimit(l: Limiter, bucket: Bucket, limit: int, window: Time, now: Time)
    requires window > 0 && Tallied(l, limit, window)
    ensures var allowed := InWindow(l.grants, bucket, FixedWindowStart(now, window), window) < Max(limit, 1);
            Allow(l, bucket, limit, window, now).grants == if allowed then l.grants + [Grant(bucket, now)] else l.grants
  {
    var w := FixedWindowStart(now, window);
    WindowCharacterised(now, window, w);
    assert InWindow(l.grants, bucket, w, window) == if (bucket, w) in l.counts then l.counts[(bucket, w)] else 0;
  }

  /** Any half-open interval one window long meets at most two windows. */
  lemma {:induction false} IntervalMeetsTwoWindows(grants: seq<Grant>, bucket: Bucket, from: Time, window: Time)
    requires window > 0
    ensures var w := FixedWindowStart(from, window);
            CountIn(grants, bucket, from, from + window)
            <= InWindow(grants, bucket, w, window) + InWindow(grants, bucket, w + window, window)
  {
    WindowCharacterised(from, window, FixedWindowStart(from, window));
    if grants != [] {
      IntervalMeetsTwoWindows(grants[..|grants| - 1], bucket, from, window);
    }
  }

  /** At most twice the limit in any interval of one window's length, wherever it starts. */
  lemma BurstBound(l: Limiter, limit: int, window: Time, bucket: Bucket, from: Time)
    requires window > 0 && Tallied(l, limit, window)
    ensures CountIn(l.grants, bucket, from, from + window) <= 2 * Max(limit, 1)
  {
    var w := FixedWindowStart(from, window);
    IntervalMeetsTwoWindows(l.grants, bucket, from, window);
    WindowCharacterised(from, window, w);
    assert (w + window) % window == 0 by {
      MultipleIsAligned(from / window + 1, window);
      assert (from / window + 1) * window == w + window;
    }
    assert InWindow(l.grants, bucket, w, window) <= Max(limit, 1);
    assert InWindow(l.grants, bucket, w + window, window) <= Max(limit, 1);
  }

  /** The places in the history of the grants that CountIn counts. */
  function PlacesIn(grants: seq<Grant>, bucket: Bucket, from: Time, until: Time): (places: set<nat>)
    ensures forall k: nat :: k in places <==> k < |grants| && grants[k].bucket == bucket && from <= grants[k].at < until
  {
    if grants == [] then {}
    else
      var n := |grants| - 1;
      PlacesIn(grants[..n], bucket, from, until) + (if grants[n].bucket == bucket && from <= grants[n].at < until then {n} else {})
  }

  lemma {:induction false} CountsPlaces(grants: seq<Grant>, bucket: Bucket, from: Time, until: Time)
    ensures |PlacesIn(grants, bucket, from, until)| == CountIn(grants, bucket, from, until)
  {
    if grants != [] { CountsPlaces(grants[..|grants| - 1], bucket, from, until); }
  }

  /** The limiter after any history of calls `(bucket, time)`, all made under one limit. */
  function Replay(calls: seq<Grant>, limit: int, window: Time): (l: Limiter)
    requires window > 0
    ensures Tallied(l, limit, window)
  {
    if calls == [] then EmptyTallied(limit, window); EMPTY
    else
      var before := Replay(calls[..|calls| - 1], limit, window);
      var c := calls[|calls| - 1];
      AllowKeepsTally(before, c.bucket, limit, window, c.at);
      Allow(before, c.bucket, limit, window, c.at)
  }

  /** "At most `limit` calls per window" is kept by the upsert exactly when the limit is at least
      one: with a limit of zero or less the first call of a window is still granted. */
  lemma LimitKeptIffPositive(limit: int, window: Time)
    requires window > 0
    ensures (forall calls: seq<Grant>, b: Bucket, w: Time | w % window == 0 ::
               InWindow(Replay(calls, limit, window).grants, b, w, window) <= limit)
            <==> limit >= 1
  {
    if limit >= 1 {
      forall calls: seq<Grant>, b: Bucket, w: Time | w % window == 0
        ensures InWindow(Replay(calls, limit, window).grants, b, w, window) <= limit
      {
        assert Tallied(Replay(calls, limit, window), limit, window);
      }
    } else {
      var calls := [Grant(0, 0)];
      assert calls[..0] == [];
      assert FixedWindowStart(0, window) == 0 by { WindowCharacterised(0, window, 0); }
      assert Replay(calls, limit, window).grants == [Grant(0, 0)];
      CountAppend([], Grant(0, 0), 0, 0, window);
      assert [] + [Grant(0, 0)] == [Grant(0, 0)];
      assert InWindow(Replay(calls, limit, window).grants, 0, 0, window) == 1;
    }
  }
}
