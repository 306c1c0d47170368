/** Token buckets: the refill that avoids overflow, and how much a bucket lets through. */
module TokenBuckets {
  import opened Bytes

  /** One direction of struct ev_token_bucket_cfg. */
  datatype Rate = Rate(rate: nat, maximum: nat) {
    /** What ev_token_bucket_cfg_new lets through. */
    predicate Valid() {
      1 <= rate <= maximum <= SSIZE_MAX
    }
  }

  /** Conversion of a 64-bit unsigned value to ev_ssize_t. */
  function ToSsize(x: int): (r: int)
    ensures SSIZE_MIN <= r <= SSIZE_MAX
    ensures SSIZE_MIN <= x <= SSIZE_MAX ==> r == x
  {
    var u := x % TWO64;
    if u <= SSIZE_MAX then u else u - TWO64
  }

  /** What a number of ticks adds to a bucket. */
  function Worth(ticks: nat, rate: nat): nat {
    ticks * rate
  }

  /** The two branches of ev_token_bucket_update_ for one direction. The subtraction and the
      comparison are unsigned and 64 bits wide. */
  function Refill(limit: int, r: Rate, ticks: nat): int
    requires ticks > 0
  {
    if (r.maximum - limit) % TWO64 / ticks < r.rate then r.maximum else ToSsize(limit + Worth(ticks, r.rate))
  }

  /** What the comment in the source would naively say. */
  function NaiveRefill(limit: int, r: Rate, ticks: nat): int {
    if limit + Worth(ticks, r.rate) > r.maximum then r.maximum else limit + Worth(ticks, r.rate)
  }

  lemma DivBelow(d: nat, n: nat, rate: nat)
    requires n > 0
    ensures d / n < rate <==> d < Worth(n, rate)
  {
    var q := d / n;
    assert n * q <= d < n * q + n;
    if q < rate {
      MulMonotone(n, q + 1, rate);
    } else {
      MulMonotone(n, rate, q);
    }
  }

  lemma MulMonotone(n: nat, a: nat, b: nat)
    requires a <= b
    ensures n * a <= n * b
  {
  }

  /** How far the limit is below the maximum, as the unsigned subtraction gives it. */
  function Gap(limit: int, r: Rate): (d: nat)
    ensures d < TWO64
  {
    (r.maximum - limit) % TWO64
  }

  lemma GapExact(limit: int, r: Rate)
    requires r.Valid() && SSIZE_MIN <= limit <= SSIZE_MAX
    ensures Gap(limit, r) == if limit <= r.maximum then r.maximum - limit else TWO64 - (limit - r.maximum)
  {
  }

  lemma RefillByGap(limit: int, r: Rate, ticks: nat)
    requires ticks > 0
    ensures Refill(limit, r, ticks) ==
      if Gap(limit, r) < Worth(ticks, r.rate) then r.maximum else ToSsize(limit + Worth(ticks, r.rate))
  {
    hide Worth, ToSsize;
    DivBelow(Gap(limit, r), ticks, r.rate);
  }

  lemma WorthPositive(ticks: nat, rate: nat)
    requires ticks > 0 && rate > 0
    ensures Worth(ticks, rate) > 0
  {
    MulMonotone(ticks, 1, rate);
  }

  /** The overflow-avoiding refill does what the naive one would do without overflow, exactly when
      the limit is not above the maximum or the excess wraps to less than the ticks are worth. */
  lemma RefillIsNaive(limit: int, r: Rate, ticks: nat)
    requires r.Valid() && SSIZE_MIN <= limit <= SSIZE_MAX && 0 < ticks <= INT_MAX
    ensures Refill(limit, r, ticks) == NaiveRefill(limit, r, ticks)
            <==> limit <= r.maximum || TWO64 - (limit - r.maximum) <= Worth(ticks, r.rate)
    ensures limit <= r.maximum ==> Refill(limit, r, ticks) == NaiveRefill(limit, r, ticks) <= r.maximum
  {
    hide Refill, Worth, Gap;
    RefillByGap(limit, r, ticks);
    GapExact(limit, r);
    WorthPositive(ticks, r.rate);
    var w, d := Worth(ticks, r.rate), Gap(limit, r);
    if d >= w {
      SsizeSum(limit, r, w);
    }
  }

  /** The sum does not overflow, or wraps to something else than the maximum. */
  lemma SsizeSum(limit: int, r: Rate, w: nat)
    requires r.Valid() && SSIZE_MIN <= limit <= SSIZE_MAX && w > 0 && w <= Gap(limit, r)
    ensures limit <= r.maximum ==> ToSsize(limit + w) == limit + w <= r.maximum
    ensures limit > r.maximum ==> (ToSsize(limit + w) == r.maximum <==> limit + w == TWO64 + r.maximum)
  {
    GapExact(limit, r);
  }

  /** A bucket above its maximum, which only a negative decrement can produce, is not clipped. */
  lemma RefillAboveMaximum()
    ensures var r := Rate(10, 100); Refill(150, r, 1) == 160 && NaiveRefill(150, r, 1) == 100
  {
  }

  // ---- one direction over time

  /** One direction of struct ev_token_bucket; `last` is a 32-bit tick. */
  datatype Bucket = Bucket(limit: int, last: nat)

  /** Ticks since the last update, as the 32-bit subtraction gives them. */
  function TicksSince(last: nat, tick: nat): (n: nat)
    ensures n < TWO32
  {
    (tick - last) % TWO32
  }

  /** ev_token_bucket_update_ for one direction. */
  function Updated(b: Bucket, r: Rate, tick: nat): Bucket {
    var n := TicksSince(b.last, tick);
    if n == 0 || n > INT_MAX then b else Bucket(Refill(b.limit, r, n), tick % TWO32)
  }

  /** The result of bufferevent_get_rlim_max_ for a bufferevent with its own bucket, and a share of
      a group's bucket if it is in a group. */
  function Allowed(limit: int, share: int): (m: nat)
    ensures limit < 0 || share < 0 ==> m == 0
    ensures limit >= 0 && share >= 0 ==> m <= limit && m <= share && (m == limit || m == share)
  {
    var x := if limit > share then share else limit;
    if x < 0 then 0 else x
  }

  /** At true tick `now`, which the code sees modulo 2^32, the bucket is updated and `bytes` bytes,
      at most the maximum just returned, are transferred. */
  datatype Turn = Turn(now: nat, share: int, bytes: nat)

  function Take(b: Bucket, r: Rate, turn: Turn): Bucket {
    var u := Updated(b, r, turn.now);
    u.(limit := u.limit - turn.bytes)
  }

  /** The turns come in order, from true tick `t` on, and keep to the limits they are given. */
  predicate Keeping(b: Bucket, r: Rate, t: nat, turns: seq<Turn>)
    decreases |turns|
  {
    turns != [] ==>
      && t <= turns[0].now
      && turns[0].bytes <= Allowed(Updated(b, r, turns[0].now).limit, turns[0].share)
      && Keeping(Take(b, r, turns[0]), r, turns[0].now, turns[1..])
  }

  function Transferred(turns: seq<Turn>): nat {
    if turns == [] then 0 else turns[0].bytes + Transferred(turns[1..])
  }

  function EndTime(t: nat, turns: seq<Turn>): nat {
    if turns == [] then t else turns[|turns| - 1].now
  }

  predicate BucketOk(b: Bucket, r: Rate) {
    r.Valid() && SSIZE_MIN <= b.limit <= r.maximum
  }

  /** An update keeps the bucket in range and never takes anything away. */
  lemma UpdateKeeps(b: Bucket, r: Rate, t: nat)
    requires BucketOk(b, r)
    ensures BucketOk(Updated(b, r, t), r) && b.limit <= Updated(b, r, t).limit
    ensures var n := TicksSince(b.last, t); n <= INT_MAX ==> Updated(b, r, t).limit == NaiveRefill(b.limit, r, n)
    ensures b.limit <= 0 || Updated(b, r, t).limit > 0
  {
    var n := TicksSince(b.last, t);
    MulMonotone(n, 0, r.rate);
    if 0 < n <= INT_MAX {
      RefillIsNaive(b.limit, r, n);
    }
  }

  /** What an update would yield grows by at most the rate per tick, also across a wrap-around. */
  lemma Growth(b: Bucket, r: Rate, t: nat, t': nat)
    requires BucketOk(b, r) && t <= t'
    ensures Updated(b, r, t').limit <= Updated(b, r, t).limit + Worth(t' - t, r.rate)
  {
    hide NaiveRefill, Refill, Updated, Worth;
    var n, n', d := TicksSince(b.last, t), TicksSince(b.last, t'), t' - t;
    UpdateKeeps(b, r, t);
    UpdateKeeps(b, r, t');
    if n' <= INT_MAX {
      assert n' <= n + d;
      if n <= INT_MAX && n' == n + d {
        NaiveGrowth(b.limit, r, n, d);
      } else {
        Wrapped(b.last, t, t');
        NaiveGrowth(b.limit, r, 0, n');
        WorthMonotone(n', d, r.rate);
      }
    } else {
      NotUpdated(b, r, t');
    }
  }

  lemma NotUpdated(b: Bucket, r: Rate, t: nat)
    requires TicksSince(b.last, t) > INT_MAX
    ensures Updated(b, r, t) == b
  {
  }

  /** Unless the tick count just went on, more ticks have passed than it shows. */
  lemma Wrapped(last: nat, t: nat, t': nat)
    requires t <= t'
    requires TicksSince(last, t) > INT_MAX || TicksSince(last, t') != TicksSince(last, t) + (t' - t)
    requires TicksSince(last, t') <= INT_MAX
    ensures TicksSince(last, t') <= t' - t
  {
  }

  lemma WorthMonotone(a: nat, b: nat, rate: nat)
    requires a <= b
    ensures Worth(a, rate) <= Worth(b, rate)
  {
    MulMonotone(rate, a, b);
  }

  lemma NaiveGrowth(limit: int, r: Rate, n: nat, d: nat)
    requires limit <= r.maximum
    ensures NaiveRefill(limit, r, n + d) <= NaiveRefill(limit, r, n) + Worth(d, r.rate)
    ensures NaiveRefill(limit, r, 0) == limit
  {
    assert (n + d) * r.rate == n * r.rate + d * r.rate;
    MulMonotone(d, 0, r.rate);
  }

  /** A turn uses up what it transfers, and cannot go below zero by it. */
  lemma TurnTakes(b: Bucket, r: Rate, turn: Turn)
    requires BucketOk(b, r) && turn.bytes <= Allowed(Updated(b, r, turn.now).limit, turn.share)
    ensures var c := Take(b, r, turn);
      && BucketOk(c, r)
      && Updated(c, r, turn.now).limit == Updated(b, r, turn.now).limit - turn.bytes
      && (turn.bytes > 0 || b.limit >= 0 ==> c.limit >= 0)
  {
    hide Refill;
    UpdateKeeps(b, r, turn.now);
    var u := Updated(b, r, turn.now);
    var c := Take(b, r, turn);
    assert TicksSince(c.last, turn.now) == 0 || TicksSince(c.last, turn.now) > INT_MAX;
  }

  lemma Spread(a: nat, b: nat, rate: nat)
    ensures Worth(a + b, rate) == Worth(a, rate) + Worth(b, rate)
  {
  }

  /** Conservation: what has been transferred and what is left never exceed what there was and what
      the time since has added. */
  lemma {:induction false} Conserved(b: Bucket, r: Rate, t: nat, turns: seq<Turn>)
    requires BucketOk(b, r) && Keeping(b, r, t, turns)
    ensures EndTime(t, turns) >= t
    ensures Transferred(turns) > 0 || b.limit >= 0 ==>
      Transferred(turns) <= Updated(b, r, t).limit + Worth(EndTime(t, turns) - t, r.rate)
    decreases |turns|
  {
    if turns == [] {
      UpdateKeeps(b, r, t);
    } else {
      hide Updated, Allowed, Take, Worth, BucketOk;
      var c, now := Take(b, r, turns[0]), turns[0].now;
      Growth(b, r, t, now);
      TurnTakes(b, r, turns[0]);
      Conserved(c, r, now, turns[1..]);
      var d1, d2 := now - t, EndTime(now, turns[1..]) - now;
      Spread(d1, d2, r.rate);
      assert EndTime(t, turns) == EndTime(now, turns[1..]);
    }
  }

  /** A bufferevent limited by its own configuration transfers at most its maximum and its rate per
      tick, from whatever tick on, with the tick count wrapping around as it likes. */
  lemma RunBound(b: Bucket, r: Rate, t: nat, turns: seq<Turn>)
    requires BucketOk(b, r) && Keeping(b, r, t, turns)
    ensures EndTime(t, turns) >= t
    ensures Transferred(turns) <= r.maximum + Worth(EndTime(t, turns) - t, r.rate)
  {
    hide Updated, Keeping, Transferred, EndTime, NaiveRefill, Worth;
    Conserved(b, r, t, turns);
    UpdateKeeps(b, r, t);
  }

  // ---- nothing is lost

  /** Updates lose no time: one at true tick t and one at t' add what all ticks since true tick `since` are
      worth, however far the two go together. */
  lemma UpdatedTwice(b: Bucket, r: Rate, since: nat, t: nat, t': nat)
    requires BucketOk(b, r) && b.last == since % TWO32
    requires since <= t <= t' && t - since <= INT_MAX && t' - t <= INT_MAX
    ensures var u := Updated(Updated(b, r, t), r, t');
      && u.last == t' % TWO32
      && u.limit == if b.limit + (t' - since) * r.rate > r.maximum then r.maximum else b.limit + (t' - since) * r.rate
  {
    hide NaiveRefill, Updated;
    UpdatedOnce(b, r, since, t);
    UpdatedOnce(Updated(b, r, t), r, t, t');
    NaiveTwice(b.limit, r, t - since, t' - t);
  }

  /** An update within INT_MAX ticks of the last one adds what the ticks are worth and is the last one now. */
  lemma UpdatedOnce(b: Bucket, r: Rate, since: nat, t: nat)
    requires BucketOk(b, r) && b.last == since % TWO32 && since <= t && t - since <= INT_MAX
    ensures var u := Updated(b, r, t);
      BucketOk(u, r) && u.last == t % TWO32 && u.limit == NaiveRefill(b.limit, r, t - since)
  {
    hide NaiveRefill, Refill;
    UpdateKeeps(b, r, t);
    TicksExact(since, t);
  }

  lemma TicksExact(since: nat, t: nat)
    requires since <= t && t - since <= INT_MAX
    ensures TicksSince(since % TWO32, t) == t - since
    ensures t == since ==> t % TWO32 == since % TWO32
  {
  }

  lemma NaiveTwice(limit: int, r: Rate, n: nat, d: nat)
    requires limit <= r.maximum
    ensures NaiveRefill(NaiveRefill(limit, r, n), r, d) ==
      if limit + (n + d) * r.rate > r.maximum then r.maximum else limit + (n + d) * r.rate
  {
    assert (n + d) * r.rate == n * r.rate + d * r.rate;
    MulMonotone(d, 0, r.rate);
  }

  /** The turns come no more than INT_MAX ticks apart. */
  predicate Frequent(t: nat, turns: seq<Turn>)
    decreases |turns|
  {
    turns != [] ==> t <= turns[0].now <= t + INT_MAX && Frequent(turns[0].now, turns[1..])
  }

  function TakeAll(b: Bucket, r: Rate, turns: seq<Turn>): Bucket
    decreases |turns|
  {
    if turns == [] then b else TakeAll(Take(b, r, turns[0]), r, turns[1..])
  }

  /** What a bucket that holds `limit` at true tick `t` cannot take up because it is full. */
  function Spilled(limit: int, r: Rate, t: nat, turns: seq<Turn>): (lost: nat)
    decreases |turns|
  {
    if turns == [] then 0
    else
      var full := limit + (turns[0].now - t) * r.rate;
      var over := if full > r.maximum then full - r.maximum else 0;
      over + Spilled(full - over - turns[0].bytes, r, turns[0].now, turns[1..])
  }

  /** Conservation, exactly: what has been transferred, what is left and what a full bucket could not take up
      are together what there was and what the time since has added. */
  lemma {:induction false} Balance(b: Bucket, r: Rate, t: nat, turns: seq<Turn>)
    requires BucketOk(b, r) && b.last == t % TWO32 && Keeping(b, r, t, turns) && Frequent(t, turns)
    ensures EndTime(t, turns) >= t
    ensures TakeAll(b, r, turns).limit + Transferred(turns) + Spilled(b.limit, r, t, turns) ==
      b.limit + (EndTime(t, turns) - t) * r.rate
    decreases |turns|
  {
    if turns != [] {
      hide Updated, Allowed, BucketOk, Take, Spilled;
      var turn, rest := turns[0], turns[1..];
      TurnTakes(b, r, turn);
      SpilledFirst(b, r, t, turns);
      Balance(Take(b, r, turn), r, turn.now, rest);
      assert EndTime(t, turns) == EndTime(turn.now, rest);
      Later(t, turn.now, EndTime(turn.now, rest), r.rate);
    } else {
      assert Spilled(b.limit, r, t, turns) == 0;
    }
  }

  lemma Later(t: int, now: int, end: int, rate: int)
    ensures (end - t) * rate == (now - t) * rate + (end - now) * rate
  {
  }

  /** The balance of the first turn. */
  lemma SpilledFirst(b: Bucket, r: Rate, t: nat, turns: seq<Turn>)
    requires turns != [] && BucketOk(b, r) && b.last == t % TWO32 && t <= turns[0].now <= t + INT_MAX
    ensures var turn := turns[0]; var c := Take(b, r, turn);
      && c.last == turn.now % TWO32
      && Spilled(b.limit, r, t, turns) + c.limit + turn.bytes ==
        b.limit + (turn.now - t) * r.rate + Spilled(c.limit, r, turn.now, turns[1..])
  {
    hide Updated;
    UpdatedOnce(b, r, t, turns[0].now);
  }

  /** A bucket spills nothing exactly when no turn finds it above its maximum. */
  lemma {:induction false} SpillsNothing(limit: int, r: Rate, t: nat, turns: seq<Turn>)
    ensures Spilled(limit, r, t, turns) == 0 <==>
      forall k :: 0 <= k < |turns| ==> limit + (turns[k].now - t) * r.rate - Transferred(turns[..k]) <= r.maximum
    decreases |turns|
  {
    if turns != [] {
      var turn, rest := turns[0], turns[1..];
      var left := limit + (turn.now - t) * r.rate - turn.bytes;
      SpillsNothing(left, r, turn.now, rest);
      forall k | 0 <= k < |rest|
        ensures limit + (turns[k + 1].now - t) * r.rate - Transferred(turns[..k + 1]) ==
          left + (rest[k].now - turn.now) * r.rate - Transferred(rest[..k])
      {
        assert turns[..k + 1] == [turn] + rest[..k] && turns[..k + 1][1..] == rest[..k];
        Later(t, turn.now, rest[k].now, r.rate);
      }
      assert turns[..0] == [] && Transferred([]) == 0;
    }
  }

  /** A bucket that is asked often enough and never overflows lets through, or keeps, exactly what there was
      and its rate per tick. */
  lemma FullRate(b: Bucket, r: Rate, t: nat, turns: seq<Turn>)
    requires BucketOk(b, r) && b.last == t % TWO32 && Keeping(b, r, t, turns) && Frequent(t, turns)
    requires forall k :: 0 <= k < |turns| ==>
      b.limit + (turns[k].now - t) * r.rate - Transferred(turns[..k]) <= r.maximum
    ensures TakeAll(b, r, turns).limit + Transferred(turns) == b.limit + (EndTime(t, turns) - t) * r.rate
  {
    Balance(b, r, t, turns);
    SpillsNothing(b.limit, r, t, turns);
  }
}
