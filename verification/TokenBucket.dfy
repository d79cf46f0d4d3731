/** The token bucket shared by the disk and io stress workers, and the ramp that retunes it.
    Products are Go int64 products; stamps and durations are nanoseconds. */
module TokenBuckets {
  import opened Base

  const SECOND := 1_000_000_000
  const REFILL_INTERVAL := 10_000_000

  datatype Bucket = Bucket(tokens: int, rate: int, capacity: int, minCap: int, lastTick: int)

  function Capacity(rate: int, minCap: int): int {
    var perTick := TruncDiv(Wrap64(rate * REFILL_INTERVAL), SECOND);
    var cap := 2 * if perTick < 1 then 1 else perTick;
    if cap < minCap then minCap else cap
  }

  function NewBucket(rate: int, minCap: int, now: int): Bucket {
    Bucket(Capacity(rate, minCap), rate, Capacity(rate, minCap), minCap, now)
  }

  function Clip(b: Bucket): Bucket {
    if b.tokens > b.capacity then b.(tokens := b.capacity) else b
  }

  /** Tokens credited for an elapsed time; the fraction of a token is discarded. */
  function Added(rate: int, elapsed: int): int {
    TruncDiv(Wrap64(rate * elapsed), SECOND)
  }

  function Refill(b: Bucket, now: int): Bucket {
    if now <= b.lastTick then b
    else Clip(b.(lastTick := now, tokens := b.tokens + Added(b.rate, now - b.lastTick)))
  }

  /** SetRate does not refill first: time already elapsed is credited at the new rate. */
  function SetRate(b: Bucket, rate: int): Bucket {
    Clip(b.(rate := rate, capacity := Capacity(rate, b.minCap)))
  }

  // ---------------------------------------------------------------- every schedule

  /** One critical section: a poll of acquire(n) by some worker, or a retuning by the ramp. */
  datatype Event = Poll(now: int, n: nat) | Retune(rate: int)

  datatype Shared = Shared(b: Bucket, granted: nat)

  function Step(s: Shared, e: Event): Shared {
    match e
    case Retune(rate) => s.(b := SetRate(s.b, rate))
    case Poll(now, n) =>
      var b := Refill(s.b, now);
      if b.tokens >= n then Shared(b.(tokens := b.tokens - n), s.granted + n) else s.(b := b)
  }

  function Run(s: Shared, events: seq<Event>): Shared {
    if events == [] then s
    else Step(Run(s, events[..|events| - 1]), events[|events| - 1])
  }

  /** Ramped rates stay within the target, and polls happen no later than `until`. */
  ghost predicate Schedule(events: seq<Event>, target: int, until: int) {
    forall e :: e in events ==> (e.Retune? ==> 1 <= e.rate <= target) && (e.Poll? ==> e.now <= until)
  }

  lemma MulLe(a: int, b: int, x: int)
    requires 0 <= x && a <= b
    ensures a * x <= b * x
  {
  }

  lemma WrapNeverAbove(p: int)
    requires p >= 0
    ensures Wrap64(p) <= p
    ensures p <= MAX_INT64 ==> Wrap64(p) == p
    ensures p > MAX_INT64 ==> Wrap64(p) <= p - TWO_64
  {
  }

  /** Wrap-around can only lose tokens, never create them. */
  lemma AddedBounds(rate: int, target: int, elapsed: int)
    requires 1 <= rate <= target && elapsed >= 0
    ensures Added(rate, elapsed) * SECOND <= target * elapsed
    ensures InInt64(rate * elapsed) ==> 0 <= Added(rate, elapsed) == rate * elapsed / SECOND
  {
    MulLe(rate, target, elapsed);
    MulLe(0, rate, elapsed);
    WrapNeverAbove(rate * elapsed);
  }

  lemma CapacityMonotone(rate: int, target: int, minCap: int)
    requires 1 <= rate <= target && InInt64(target * REFILL_INTERVAL)
    ensures 2 <= Capacity(rate, minCap) <= Capacity(target, minCap)
    ensures minCap <= Capacity(rate, minCap)
  {
  }

  /** Within int64 the capacity is twice what one interval earns, at least 2 and at least minCap. */
  lemma CapacityValue(rate: int, minCap: int)
    requires rate >= 1 && InInt64(rate * REFILL_INTERVAL)
    ensures var twice := if rate < 200 then 2 else 2 * (rate / 100);
            Capacity(rate, minCap) == if twice < minCap then minCap else twice
  {
    WrapInRange(rate * REFILL_INTERVAL);
  }

  /** granted + tokens never exceeds the initial capacity plus what the target rate earns. */
  ghost predicate Bounded(s: Shared, target: int, minCap: int, start: int) {
    && 1 <= s.b.rate <= target && s.b.minCap == minCap
    && s.b.capacity == Capacity(s.b.rate, minCap)
    && s.b.tokens <= s.b.capacity
    && start <= s.b.lastTick
    && (s.granted + s.b.tokens - Capacity(target, minCap)) * SECOND <= target * (s.b.lastTick - start)
    && (s.granted - Capacity(target, minCap)) * SECOND <= target * (s.b.lastTick - start)
  }

  lemma Earned(target: int, start: int, last: int, now: int, added: int, before: int, after: int)
    requires before * SECOND <= target * (last - start)
    requires added * SECOND <= target * (now - last) && after <= before + added
    ensures after * SECOND <= target * (now - start)
  {
  }

  lemma RefillBounded(s: Shared, now: int, target: int, minCap: int, start: int)
    requires Bounded(s, target, minCap, start)
    ensures Bounded(s.(b := Refill(s.b, now)), target, minCap, start)
  {
    if now > s.b.lastTick {
      var last, c := s.b.lastTick, Capacity(target, minCap);
      var added, b := Added(s.b.rate, now - last), Refill(s.b, now);
      AddedBounds(s.b.rate, target, now - last);
      Earned(target, start, last, now, added, s.granted + s.b.tokens - c, s.granted + b.tokens - c);
      MulLe(0, target, now - last);
      Earned(target, start, last, now, 0, s.granted - c, s.granted - c);
    }
  }

  lemma StepBounded(s: Shared, e: Event, target: int, minCap: int, start: int)
    requires Bounded(s, target, minCap, start) && InInt64(target * REFILL_INTERVAL)
    requires e.Retune? ==> 1 <= e.rate <= target
    ensures Bounded(Step(s, e), target, minCap, start)
  {
    match e
    case Poll(now, n) => RefillBounded(s, now, target, minCap, start);
    case Retune(rate) => CapacityMonotone(rate, target, minCap);
  }

  lemma {:induction false} RunBounded(events: seq<Event>, target: int, minCap: int, start: int, until: int)
    requires target >= 1 && InInt64(target * REFILL_INTERVAL) && start <= until
    requires Schedule(events, target, until)
    ensures var s := Run(Shared(NewBucket(target, minCap, start), 0), events);
            Bounded(s, target, minCap, start) && s.b.lastTick <= until
  {
    if events != [] {
      var init, e := events[..|events| - 1], events[|events| - 1];
      assert forall x :: x in init ==> x in events;
      assert e in events;
      RunBounded(init, target, minCap, start, until);
      StepBounded(Run(Shared(NewBucket(target, minCap, start), 0), init), e, target, minCap, start);
    }
  }

  /** Whatever the interleaving of workers and ramp, no more than the initial capacity plus
      target * T / 1s tokens are granted by time T. */
  lemma ThroughputBound(events: seq<Event>, target: int, minCap: int, start: int, until: int)
    requires target >= 1 && InInt64(target * REFILL_INTERVAL) && start <= until
    requires Schedule(events, target, until)
    ensures Run(Shared(NewBucket(target, minCap, start), 0), events).granted
            <= Capacity(target, minCap) + target * (until - start) / SECOND
  {
    RunBounded(events, target, minCap, start, until);
    var s := Run(Shared(NewBucket(target, minCap, start), 0), events);
    LeMul(target, s.b.lastTick - start, until - start);
    DivBound(s.granted - Capacity(target, minCap), target * (until - start));
  }

  lemma DivBound(g: int, y: int)
    requires g * SECOND <= y
    ensures g <= y / SECOND
  {
  }

  /** No poll's rate * elapsed leaves int64. */
  predicate NoOverflow(s: Shared, events: seq<Event>) {
    events == [] ||
    var init, e := events[..|events| - 1], events[|events| - 1];
    && NoOverflow(s, init)
    && (e.Poll? ==> var b := Run(s, init).b; e.now > b.lastTick ==> InInt64(b.rate * (e.now - b.lastTick)))
  }

  lemma StepTokens(s: Shared, e: Event, target: int)
    requires 1 <= s.b.rate <= target && InInt64(target * REFILL_INTERVAL)
    requires 0 <= s.b.tokens <= s.b.capacity
    requires e.Retune? ==> 1 <= e.rate <= target
    requires e.Poll? && e.now > s.b.lastTick ==> InInt64(s.b.rate * (e.now - s.b.lastTick))
    ensures 0 <= Step(s, e).b.tokens
  {
    if e.Retune? {
      CapacityMonotone(e.rate, target, s.b.minCap);
    } else if e.now > s.b.lastTick {
      AddedBounds(s.b.rate, target, e.now - s.b.lastTick);
    }
  }

  /** Without overflow, 0 <= tokens <= capacity in every reachable state. */
  lemma {:induction false} TokensWithinCapacity(events: seq<Event>, target: int, minCap: int, start: int, until: int)
    requires target >= 1 && InInt64(target * REFILL_INTERVAL) && start <= until
    requires Schedule(events, target, until)
    requires NoOverflow(Shared(NewBucket(target, minCap, start), 0), events)
    ensures var b := Run(Shared(NewBucket(target, minCap, start), 0), events).b;
            0 <= b.tokens <= b.capacity
  {
    RunBounded(events, target, minCap, start, until);
    if events == [] {
      CapacityMonotone(target, target, minCap);
    } else {
      var init, e := events[..|events| - 1], events[|events| - 1];
      assert e in events && forall x :: x in init ==> x in events;
      TokensWithinCapacity(init, target, minCap, start, until);
      RunBounded(init, target, minCap, start, until);
      StepTokens(Run(Shared(NewBucket(target, minCap, start), 0), init), e, target);
    }
  }

  /** A refill credits the true floor exactly when rate * elapsed fits int64. */
  lemma OverflowIsExact(rate: int, elapsed: int)
    requires rate >= 1 && elapsed >= 0
    ensures Added(rate, elapsed) == rate * elapsed / SECOND <==> InInt64(rate * elapsed)
  {
  }

  /** The first gap too long for int64 wraps to nearly the most negative credit. */
  lemma FirstOverflow(rate: int, gap: int)
    requires 1 <= rate <= MAX_INT64 && gap == MAX_INT64 / rate + 1
    ensures MAX_INT64 < rate * gap <= MAX_INT64 + rate
    ensures Added(rate, gap) <= -((MAX_INT64 - rate) / SECOND)
  {
    assert MAX_INT64 == rate * (MAX_INT64 / rate) + MAX_INT64 % rate;
    assert rate * gap == rate * (MAX_INT64 / rate) + rate;
    WrappedCredit(rate * gap, rate);
  }

  lemma WrappedCredit(product: int, rate: int)
    requires MAX_INT64 < product <= MAX_INT64 + rate && 1 <= rate <= MAX_INT64
    ensures TruncDiv(Wrap64(product), SECOND) <= -((MAX_INT64 - rate) / SECOND)
  {
    assert Wrap64(product) == product - TWO_64;
  }

  lemma GapBound(rate: int, gap: int)
    requires rate >= 1 && rate * gap > MAX_INT64
    ensures gap >= MAX_INT64 / rate + 1
  {
    assert MAX_INT64 == rate * (MAX_INT64 / rate) + MAX_INT64 % rate;
    if gap <= MAX_INT64 / rate {
      LeMul(rate, gap, MAX_INT64 / rate);
    }
  }

  /** No refill after a gap of at most G takes the count below zero if and only if rate * G fits int64,
      for a count below what half the range of int64 earns. */
  lemma RefillKeepsSignIff(b: Bucket, G: int)
    requires 1 <= b.rate <= MAX_INT64 && G >= 0
    requires 0 <= b.tokens <= b.capacity && b.tokens < (MAX_INT64 - b.rate) / SECOND
    ensures (forall now :: b.lastTick < now <= b.lastTick + G ==> Refill(b, now).tokens >= 0)
            <==> b.rate * G <= MAX_INT64
  {
    if b.rate * G <= MAX_INT64 {
      forall now | b.lastTick < now <= b.lastTick + G ensures Refill(b, now).tokens >= 0 {
        LeMul(b.rate, now - b.lastTick, G);
        MulLe(0, b.rate, now - b.lastTick);
        AddedBounds(b.rate, b.rate, now - b.lastTick);
      }
    } else {
      var gap := MAX_INT64 / b.rate + 1;
      GapBound(b.rate, G);
      FirstOverflow(b.rate, gap);
      assert Refill(b, b.lastTick + gap).tokens < 0;
    }
  }

  // ---------------------------------------------------------------- the sign of the count, over schedules

  /** The latest stamp of a schedule begun at `start`. */
  function Last(start: int, events: seq<Event>): int {
    if events == [] then start
    else
      var before, e := Last(start, events[..|events| - 1]), events[|events| - 1];
      if e.Poll? && e.now > before then e.now else before
  }

  /** Ramped rates stay within the target, and no poll comes more than G after the latest one. */
  predicate Regularly(events: seq<Event>, target: int, start: int, G: int) {
    events == [] ||
    var init, e := events[..|events| - 1], events[|events| - 1];
    && Regularly(init, target, start, G)
    && (if e.Retune? then 1 <= e.rate <= target else e.now <= Last(start, init) + G)
  }

  lemma {:induction false} LastIsTick(s: Shared, events: seq<Event>)
    ensures Run(s, events).b.lastTick == Last(s.b.lastTick, events)
  {
    if events != [] { LastIsTick(s, events[..|events| - 1]); }
  }

  /** Such a schedule keeps to the target and to its own last stamp. */
  lemma {:induction false} RegularlyScheduled(events: seq<Event>, target: int, start: int, G: int)
    requires Regularly(events, target, start, G)
    ensures Schedule(events, target, Last(start, events)) && start <= Last(start, events)
  {
    if events != [] {
      var init, e := events[..|events| - 1], events[|events| - 1];
      RegularlyScheduled(init, target, start, G);
      forall x | x in events ensures x in init || x == e {
        assert events == init + [e];
      }
    }
  }

  lemma {:induction false} RegularlyNoOverflow(events: seq<Event>, target: int, minCap: int, start: int, G: int)
    requires target >= 1 && InInt64(target * REFILL_INTERVAL) && target * G <= MAX_INT64
    requires Regularly(events, target, start, G)
    ensures NoOverflow(Shared(NewBucket(target, minCap, start), 0), events)
  {
    if events != [] {
      var init, e := events[..|events| - 1], events[|events| - 1];
      var s := Shared(NewBucket(target, minCap, start), 0);
      RegularlyNoOverflow(init, target, minCap, start, G);
      RegularlyScheduled(init, target, start, G);
      RunBounded(init, target, minCap, start, Last(start, init));
      LastIsTick(s, init);
      var b := Run(s, init).b;
      if e.Poll? && e.now > b.lastTick {
        MulLe(b.rate, target, e.now - b.lastTick);
        LeMul(target, e.now - b.lastTick, G);
        MulLe(0, b.rate, e.now - b.lastTick);
      }
    }
  }

  /** The count after a schedule, on a bucket new at `start`, is within its range. */
  ghost predicate CountInRange(events: seq<Event>, target: int, minCap: int, start: int) {
    var b := Run(Shared(NewBucket(target, minCap, start), 0), events).b;
    0 <= b.tokens <= b.capacity
  }

  lemma OverflowingPoll(target: int, minCap: int, start: int, G: int) returns (events: seq<Event>)
    requires target >= 1 && InInt64(target * REFILL_INTERVAL) && target * G > MAX_INT64
    requires Capacity(target, minCap) < (MAX_INT64 - target) / SECOND
    ensures Regularly(events, target, start, G) && !CountInRange(events, target, minCap, start)
  {
    var s, gap := Shared(NewBucket(target, minCap, start), 0), MAX_INT64 / target + 1;
    GapBound(target, G);
    FirstOverflow(target, gap);
    events := [Poll(start + gap, 0)];
    assert events[..0] == [];
    assert Regularly([], target, start, G) && Last(start, []) == start;
    assert Run(s, []) == s && Run(s, events) == Step(s, Poll(start + gap, 0));
    PollOverflows(s.b, gap);
  }

  /** Over every interleaving of workers and ramp whose gaps are at most G, 0 <= tokens <= capacity holds
      in every reachable state if and only if the target rate times G fits int64. */
  lemma TokensInRangeIff(target: int, minCap: int, start: int, G: int)
    requires target >= 1 && InInt64(target * REFILL_INTERVAL) && G >= 0
    requires Capacity(target, minCap) < (MAX_INT64 - target) / SECOND
    ensures (forall events :: Regularly(events, target, start, G) ==> CountInRange(events, target, minCap, start))
            <==> target * G <= MAX_INT64
  {
    if target * G <= MAX_INT64 {
      forall events | Regularly(events, target, start, G) ensures CountInRange(events, target, minCap, start) {
        RegularlyScheduled(events, target, start, G);
        RegularlyNoOverflow(events, target, minCap, start, G);
        TokensWithinCapacity(events, target, minCap, start, Last(start, events));
      }
    } else {
      var events := OverflowingPoll(target, minCap, start, G);
    }
  }

  lemma PollOverflows(b: Bucket, gap: int)
    requires gap > 0 && Added(b.rate, gap) <= -((MAX_INT64 - b.rate) / SECOND)
    requires b.tokens < (MAX_INT64 - b.rate) / SECOND
    ensures Step(Shared(b, 0), Poll(b.lastTick + gap, 0)).b.tokens < 0
  {
  }

  lemma TenGigabytesPerSecondOverflows()
    ensures var s := Shared(NewBucket(10_000_000_000, 4096, 0), 0);
            Run(s, [Poll(1_000_000_000, 4096)]).b.tokens < 0
  {
  }

  // ---------------------------------------------------------------- what one step does

  /** A new bucket is full, at its rate. */
  lemma NewBucketLaw(rate: int, minCap: int, now: int)
    ensures var b := NewBucket(rate, minCap, now);
            && b.tokens == b.capacity == Capacity(rate, minCap)
            && b.rate == rate && b.minCap == minCap && b.lastTick == now
  {
  }

  /** A retuning sets the rate and the capacity that goes with it, cuts the count down to that capacity,
      and leaves the clock alone. */
  lemma RetuneLaw(s: Shared, rate: int)
    requires rate >= 1 && InInt64(rate * REFILL_INTERVAL)
    ensures var s' := Step(s, Retune(rate));
            var twice := if rate < 200 then 2 else 2 * (rate / 100);
            var capacity := if twice < s.b.minCap then s.b.minCap else twice;
            && s'.granted == s.granted && s'.b.rate == rate && s'.b.capacity == capacity
            && s'.b.tokens == (if s.b.tokens <= capacity then s.b.tokens else capacity)
            && s'.b.lastTick == s.b.lastTick && s'.b.minCap == s.b.minCap
  {
    CapacityValue(rate, s.b.minCap);
  }

  /** A poll first earns the whole tokens of the gap, up to the capacity, then hands over n or none: what
      is granted is what leaves the bucket. */
  lemma PollLaw(s: Shared, now: int, n: nat)
    requires s.b.rate >= 1 && s.b.tokens <= s.b.capacity
    requires now > s.b.lastTick ==> InInt64(s.b.rate * (now - s.b.lastTick))
    ensures var s' := Step(s, Poll(now, n));
            var earned := if now > s.b.lastTick then s.b.rate * (now - s.b.lastTick) / SECOND else 0;
            var held := if s.b.tokens + earned <= s.b.capacity then s.b.tokens + earned else s.b.capacity;
            && s'.b.rate == s.b.rate && s'.b.capacity == s.b.capacity && s'.b.minCap == s.b.minCap
            && s'.b.lastTick == (if now > s.b.lastTick then now else s.b.lastTick)
            && if held >= n then s'.granted == s.granted + n && s'.b.tokens == held - n
               else s'.granted == s.granted && s'.b.tokens == held
  {
    if now > s.b.lastTick {
      AddedBounds(s.b.rate, s.b.rate, now - s.b.lastTick);
    }
  }

  /** Event i is the last retuning. */
  ghost predicate LastRetune(events: seq<Event>, i: nat) {
    i < |events| && events[i].Retune? && forall j :: i < j < |events| ==> events[j].Poll?
  }

  /** Over runs the rate is that of the last retuning, or else the initial one, and the capacity goes
      with it. */
  lemma {:induction false} RateIsLastRetune(s: Shared, events: seq<Event>) returns (i: nat)
    requires s.b.capacity == Capacity(s.b.rate, s.b.minCap)
    ensures LastRetune(events, i) || forall j :: 0 <= j < |events| ==> events[j].Poll?
    ensures var b := Run(s, events).b;
            && b.rate == (if LastRetune(events, i) then events[i].rate else s.b.rate)
            && b.minCap == s.b.minCap && b.capacity == Capacity(b.rate, b.minCap)
  {
    i := 0;
    if events != [] {
      var n := |events| - 1;
      i := RateIsLastRetune(s, events[..n]);
      if events[n].Retune? {
        i := n;
      } else {
        assert forall j :: 0 <= j < n ==> events[..n][j] == events[j];
        assert LastRetune(events, i) <==> LastRetune(events[..n], i);
      }
    }
  }

  // ---------------------------------------------------------------- the ramp

  /** Duration and ramp times of a fault, as FaultConfig.Validate accepts them. */
  datatype Ramp = Ramp(duration: int, up: int, down: int)

  predicate Validate(r: Ramp) {
    && r.duration > 0
    && 0 <= r.up < r.duration
    && 0 <= r.down < r.duration
    && r.up + r.down < r.duration
  }

  /** 2^-52, the spacing of float64 numbers relative to their size. */
  const EPS: real := 0.0000000000000002220446049250313080847263336181640625

  const TWO_53: int := 0x20_0000_0000_0000

  /** y is within a relative error of x. */
  ghost predicate Near(y: real, x: real) { y - x <= EPS * x && x - y <= EPS * x }

  ghost predicate Keeps(fl: real -> real, x: real, y: real) { x <= y ==> fl(x) <= fl(y) }

  ghost predicate Settles(fl: real -> real, x: real) { fl(fl(x)) == fl(x) }

  ghost predicate Exact(fl: real -> real, n: int) { fl(n as real) == n as real }

  ghost predicate Close(fl: real -> real, x: real) { x >= 0.0 ==> Near(fl(x), x) }

  /** Rounding to float64 in whatever direction (section 4.3 of IEEE 754), over the numbers met here:
      monotone, leaving float64 numbers alone, integers up to 2^53 among them, and near its argument. */
  ghost predicate IsRounding(fl: real -> real) {
    && (forall x, y :: Keeps(fl, x, y)) && (forall x :: Settles(fl, x))
    && (forall n :: 0 <= n <= TWO_53 ==> Exact(fl, n)) && (forall x :: Close(fl, x))
  }

  type Rounding = fl: real -> real | IsRounding(fl) ghost witness (x: real) => x

  lemma RoundLe(fl: Rounding, x: real, y: real)
    requires x <= y
    ensures fl(x) <= fl(y)
  {
    assert Keeps(fl, x, y);
  }

  lemma Rounded(fl: Rounding)
    ensures fl(0.0) == 0.0 && fl(1.0) == 1.0
  {
    assert Exact(fl, 0) && Exact(fl, 1);
  }

  /** float64 of a duration. */
  function Span(fl: Rounding, d: int): (x: real)
    ensures d > 0 ==> x > 0.0
  {
    Rounded(fl);
    RoundLe(fl, if d > 0 then 1.0 else d as real, d as real);
    fl(d as real)
  }

  /** The share of the target at a given elapsed time, every operation rounded. */
  function Share(fl: Rounding, r: Ramp, elapsed: int): real {
    var downStart := r.duration - r.down;
    if r.up > 0 && elapsed < r.up then
      fl(Span(fl, elapsed) / Span(fl, r.up))
    else if r.down > 0 && elapsed >= downStart then
      var progress := fl(Span(fl, elapsed - downStart) / Span(fl, r.down));
      fl(1.0 - if progress > 1.0 then 1.0 else progress)
    else
      1.0
  }

  /** The rate before truncation. */
  function RawRate(fl: Rounding, target: int, share: real): real { fl(Times(fl(target as real), share)) }

  function Times(x: real, y: real): real { x * y }

  function RateOf(fl: Rounding, target: int, share: real): int {
    var rate := RawRate(fl, target, share).Floor;
    if rate < 1 then 1 else rate
  }

  /** The rate rampLoop sets. */
  function RampedRate(fl: Rounding, target: int, r: Ramp, elapsed: int): int {
    RateOf(fl, target, Share(fl, r, elapsed))
  }

  lemma DivLe(a: real, b: real, d: real)
    requires d > 0.0 && a <= b
    ensures a / d <= b / d
  {
  }

  lemma ScaleLe(t: real, a: real, b: real)
    requires t >= 0.0 && a <= b
    ensures t * a <= t * b
  {
  }

  lemma FloorLe(x: real, y: real)
    requires x <= y
    ensures x.Floor <= y.Floor
  {
  }

  lemma RawRateMonotone(fl: Rounding, target: int, a: real, b: real)
    requires target >= 1 && a <= b
    ensures RawRate(fl, target, a) <= RawRate(fl, target, b)
  {
    Rounded(fl);
    RoundLe(fl, 0.0, target as real);
    ScaleLe(fl(target as real), a, b);
    RoundLe(fl, Times(fl(target as real), a), Times(fl(target as real), b));
  }

  lemma RateOfMonotone(fl: Rounding, target: int, a: real, b: real)
    requires target >= 1 && a <= b
    ensures RateOf(fl, target, a) <= RateOf(fl, target, b)
  {
    RawRateMonotone(fl, target, a, b);
    FloorLe(RawRate(fl, target, a), RawRate(fl, target, b));
  }

  /** Go's int64 of the rounded target is defined: it does not round up to 2^63. */
  predicate Converts(fl: Rounding, target: int) { InInt64(fl(target as real).Floor) }

  lemma SmallTargetConverts(fl: Rounding, target: int)
    requires 0 <= target <= TWO_53
    ensures Converts(fl, target) && fl(target as real).Floor == target
  {
    assert Exact(fl, target);
  }

  /** The whole target, as float64 has it: exactly the target up to 2^53. */
  lemma FullRate(fl: Rounding, target: int)
    requires target >= 1 && Converts(fl, target)
    ensures RateOf(fl, target, 1.0) == fl(target as real).Floor >= 1
    ensures target <= TWO_53 ==> RateOf(fl, target, 1.0) == target
  {
    Rounded(fl);
    Rounded(fl);
    RoundLe(fl, 1.0, target as real);
    assert Times(fl(target as real), 1.0) == fl(target as real) && Settles(fl, target as real);
    assert target <= TWO_53 ==> Exact(fl, target);
  }

  lemma ShareAtMostOne(fl: Rounding, r: Ramp, elapsed: int)
    ensures Share(fl, r, elapsed) <= 1.0
  {
    Rounded(fl);
    var downStart := r.duration - r.down;
    if r.up > 0 && elapsed < r.up {
      RoundLe(fl, elapsed as real, r.up as real);
      DivLe(Span(fl, elapsed), Span(fl, r.up), Span(fl, r.up));
      RoundLe(fl, Span(fl, elapsed) / Span(fl, r.up), 1.0);
    } else if r.down > 0 && elapsed >= downStart {
      RoundLe(fl, 0.0, (elapsed - downStart) as real);
      DivLe(0.0, Span(fl, elapsed - downStart), Span(fl, r.down));
      RoundLe(fl, 0.0, Span(fl, elapsed - downStart) / Span(fl, r.down));
      var progress := fl(Span(fl, elapsed - downStart) / Span(fl, r.down));
      RoundLe(fl, 1.0 - if progress > 1.0 then 1.0 else progress, 1.0);
    }
  }

  /** Every ramped rate lies between 1 and the target as float64 has it. */
  lemma RampInRange(fl: Rounding, target: int, r: Ramp, elapsed: int)
    requires target >= 1 && Converts(fl, target)
    ensures 1 <= RampedRate(fl, target, r, elapsed) <= fl(target as real).Floor
    ensures target <= TWO_53 ==> RampedRate(fl, target, r, elapsed) <= target
  {
    ShareAtMostOne(fl, r, elapsed);
    RateOfMonotone(fl, target, Share(fl, r, elapsed), 1.0);
    FullRate(fl, target);
  }

  /** So no ramped rate exceeds the target if and only if float64 does not round the target up. */
  lemma RampWithinTargetIff(fl: Rounding, target: int, r: Ramp)
    requires target >= 1 && Converts(fl, target) && Validate(r)
    ensures (forall elapsed :: RampedRate(fl, target, r, elapsed) <= target) <==> fl(target as real).Floor <= target
  {
    FullRate(fl, target);
    assert RampedRate(fl, target, r, r.up) == fl(target as real).Floor;
    forall elapsed ensures RampedRate(fl, target, r, elapsed) <= fl(target as real).Floor {
      RampInRange(fl, target, r, elapsed);
    }
  }

  lemma SharesUp(fl: Rounding, r: Ramp, a: int, b: int)
    requires Validate(r) && 0 <= a <= b < r.up
    ensures Share(fl, r, a) <= Share(fl, r, b)
  {
    RoundLe(fl, a as real, b as real);
    DivLe(Span(fl, a), Span(fl, b), Span(fl, r.up));
    RoundLe(fl, Span(fl, a) / Span(fl, r.up), Span(fl, b) / Span(fl, r.up));
  }

  lemma SharesDown(fl: Rounding, r: Ramp, a: int, b: int)
    requires Validate(r) && r.down > 0 && r.duration - r.down <= a <= b
    ensures Share(fl, r, b) <= Share(fl, r, a)
  {
    var start := r.duration - r.down;
    RoundLe(fl, (a - start) as real, (b - start) as real);
    DivLe(Span(fl, a - start), Span(fl, b - start), Span(fl, r.down));
    RoundLe(fl, Span(fl, a - start) / Span(fl, r.down), Span(fl, b - start) / Span(fl, r.down));
    var pa, pb := fl(Span(fl, a - start) / Span(fl, r.down)), fl(Span(fl, b - start) / Span(fl, r.down));
    RoundLe(fl, 1.0 - (if pb > 1.0 then 1.0 else pb), 1.0 - if pa > 1.0 then 1.0 else pa);
  }

  /** Up, steady, down: the shape of a validated ramp. */
  lemma RampShape(fl: Rounding, target: int, r: Ramp, a: int, b: int)
    requires target >= 1 && Converts(fl, target) && Validate(r) && 0 <= a <= b
    ensures b < r.up ==> RampedRate(fl, target, r, a) <= RampedRate(fl, target, r, b)
    ensures r.up <= a < r.duration - r.down ==> RampedRate(fl, target, r, a) == fl(target as real).Floor
    ensures r.up <= a < r.duration - r.down && target <= TWO_53 ==> RampedRate(fl, target, r, a) == target
    ensures r.down > 0 && r.duration - r.down <= a ==> RampedRate(fl, target, r, b) <= RampedRate(fl, target, r, a)
  {
    FullRate(fl, target);
    if b < r.up {
      SharesUp(fl, r, a, b);
      RateOfMonotone(fl, target, Share(fl, r, a), Share(fl, r, b));
    } else if r.down > 0 && r.duration - r.down <= a {
      SharesDown(fl, r, a, b);
      RateOfMonotone(fl, target, Share(fl, r, b), Share(fl, r, a));
    }
  }

  /** y is within an absolute error. */
  predicate Within(y: real, x: real, error: real) { y - x <= error && x - y <= error }

  lemma CancelLe(x: real, y: real, d: real)
    requires d > 0.0 && x * d <= y * d
    ensures x <= y
  {
    DivLe(x * d, y * d, d);
    assert x == (x * d) / d && y == (y * d) / d;
  }

  /** A quotient of rounded numbers. */
  lemma QuotientNear(e: real, u: real, e': real, u': real)
    requires e >= 0.0 && u > 0.0 && u' > 0.0 && Near(e', e) && Near(u', u)
    ensures Within(e' / u', e / u, 3.0 * EPS * (e / u))
  {
    var q, q' := e / u, e' / u';
    assert q * u == e && q' * u' == e';
    assert q >= 0.0 by { DivLe(0.0, e, u); }
    ScaleLe(q, u', (1.0 + EPS) * u);
    ScaleLe(q, (1.0 - EPS) * u, u');
    var qu, qu' := q * u, q * u';
    assert q * ((1.0 + EPS) * u) == (1.0 + EPS) * qu && q * ((1.0 - EPS) * u) == (1.0 - EPS) * qu;
    assert qu >= 0.0;
    assert (1.0 + 3.0 * EPS) * qu' >= e' by { assert (1.0 + 3.0 * EPS) * (1.0 - EPS) >= 1.0 + EPS; }
    assert (1.0 - 3.0 * EPS) * qu' <= e' by { assert (1.0 - 3.0 * EPS) * (1.0 + EPS) <= 1.0 - EPS; }
    assert ((1.0 + 3.0 * EPS) * q) * u' == (1.0 + 3.0 * EPS) * qu';
    assert ((1.0 - 3.0 * EPS) * q) * u' == (1.0 - 3.0 * EPS) * qu';
    CancelLe(q', (1.0 + 3.0 * EPS) * q, u');
    CancelLe((1.0 - 3.0 * EPS) * q, q', u');
  }

  /** Rounding once more. */
  lemma RoundNear(fl: Rounding, y: real, q: real)
    requires y >= 0.0 && 0.0 <= q <= 1.0 && Within(y, q, 3.0 * EPS * q)
    ensures fl(y) >= 0.0 && Within(fl(y), q, 5.0 * EPS)
  {
    Rounded(fl);
    RoundLe(fl, 0.0, y);
    assert Close(fl, y);
    assert EPS * y <= 2.0 * EPS && 3.0 * EPS * q <= 3.0 * EPS;
  }

  /** A rounded quotient of two durations, the first not the longer. */
  lemma FractionNear(fl: Rounding, x: int, d: int)
    requires 0 <= x <= d && d > 0
    ensures var q, q' := x as real / d as real, fl(Span(fl, x) / Span(fl, d));
            0.0 <= q <= 1.0 && q' >= 0.0 && Within(q', q, 5.0 * EPS)
  {
    UnitFraction(x, d);
    SpanNear(fl, x);
    SpanNear(fl, d);
    QuotientNear(x as real, d as real, Span(fl, x), Span(fl, d));
    DivLe(0.0, Span(fl, x), Span(fl, d));
    RoundNear(fl, Span(fl, x) / Span(fl, d), x as real / d as real);
  }

  lemma SpanNear(fl: Rounding, d: int)
    requires d >= 0
    ensures Near(Span(fl, d), d as real) && Span(fl, d) >= 0.0
  {
    assert Close(fl, d as real);
    Rounded(fl);
    RoundLe(fl, 0.0, d as real);
  }

  lemma UnitFraction(x: int, d: int)
    requires 0 <= x <= d && d > 0
    ensures 0.0 <= x as real / d as real <= 1.0
  {
    DivLe(0.0, x as real, d as real);
    DivLe(x as real, d as real, d as real);
  }

  /** The share of the target in exact arithmetic, in the two ramp phases. */
  function ExactShare(r: Ramp, elapsed: int): real
    requires Validate(r) && 0 <= elapsed <= r.duration && (elapsed < r.up || r.duration - r.down <= elapsed)
  {
    if elapsed < r.up then elapsed as real / r.up as real
    else if r.down == 0 then 0.0
    else (r.duration - elapsed) as real / r.down as real
  }

  lemma ShareNear(fl: Rounding, r: Ramp, elapsed: int)
    requires Validate(r) && 0 <= elapsed <= r.duration
    requires elapsed < r.up || (r.down > 0 && r.duration - r.down <= elapsed)
    ensures var s, e := Share(fl, r, elapsed), ExactShare(r, elapsed);
            0.0 <= s && 0.0 <= e <= 1.0 && Within(s, e, 6.0 * EPS)
  {
    if elapsed < r.up {
      FractionNear(fl, elapsed, r.up);
    } else {
      var x := elapsed - (r.duration - r.down);
      FractionNear(fl, x, r.down);
      OneMinus(x, r.down);
      var p := fl(Span(fl, x) / Span(fl, r.down));
      var s := 1.0 - if p > 1.0 then 1.0 else p;
      Rounded(fl);
      RoundLe(fl, 0.0, s);
      assert Close(fl, s);
    }
  }

  lemma OneMinus(x: int, d: int)
    requires d > 0
    ensures 1.0 - x as real / d as real == (d - x) as real / d as real
  {
    var f := x as real / d as real;
    assert f * d as real == x as real;
    assert (1.0 - f) * d as real == (d - x) as real;
    CancelDiv(1.0 - f, (d - x) as real, d as real);
  }

  lemma CancelDiv(y: real, x: real, d: real)
    requires d > 0.0 && y * d == x
    ensures y == x / d
  {
    assert (y * d) / d == y;
  }

  const TWO_49: int := 0x2_0000_0000_0000

  lemma RawRateNear(fl: Rounding, target: int, share: real, exact: real)
    requires 1 <= target <= TWO_49
    requires 0.0 <= share <= 1.0 && 0.0 <= exact <= 1.0 && Within(share, exact, 6.0 * EPS)
    ensures Within(RawRate(fl, target, share), Times(target as real, exact), 0.875)
  {
    TimesNear(target as real, share, exact);
    var p := Times(target as real, share);
    assert Exact(fl, target) && RawRate(fl, target, share) == fl(p);
    assert Close(fl, p);
    NearWithin(fl(p), p, 0.125);
    WithinSum(fl(p), p, Times(target as real, exact), 0.125, 0.75);
  }

  lemma NearWithin(y: real, x: real, error: real)
    requires Near(y, x) && EPS * x <= error
    ensures Within(y, x, error)
  {
  }

  lemma WithinSum(a: real, b: real, c: real, e: real, e': real)
    requires Within(a, b, e) && Within(b, c, e')
    ensures Within(a, c, e + e')
  {
  }

  lemma TimesNear(t: real, share: real, exact: real)
    requires 0.0 <= t <= TWO_49 as real && 0.0 <= share <= 1.0 && Within(share, exact, 6.0 * EPS)
    ensures 0.0 <= Times(t, share)
    ensures Within(Times(t, share), Times(t, exact), 0.75) && EPS * Times(t, share) <= 0.125
  {
    TimesLe(t, 0.0, share);
    TimesLe(t, share, 1.0);
    TimesSum(t, exact, 6.0 * EPS);
    TimesSum(t, share, 6.0 * EPS);
    TimesLe(t, share, exact + 6.0 * EPS);
    TimesLe(t, exact, share + 6.0 * EPS);
    assert Times(t, 6.0 * EPS) == 6.0 * EPS * t <= 0.75;
    assert Times(t, 0.0) == 0.0 && Times(t, 1.0) == t;
  }

  lemma TimesLe(t: real, a: real, b: real)
    requires t >= 0.0 && a <= b
    ensures Times(t, a) <= Times(t, b)
  {
    ScaleLe(t, a, b);
  }

  lemma TimesSum(t: real, a: real, b: real)
    ensures Times(t, a + b) == Times(t, a) + Times(t, b)
  {
  }

  lemma FloorIsDivision(x: int, d: int)
    requires d > 0
    ensures (x as real / d as real).Floor == x / d
  {
    var q, r := x / d, x % d;
    assert x == q * d + r;
    var f := r as real / d as real;
    assert 0.0 <= f < 1.0 by { DivLe(0.0, r as real, d as real); }
    assert x as real == q as real * d as real + r as real;
    assert x as real / d as real == q as real + f;
  }

  lemma ScaledQuotient(t: int, x: int, d: int)
    requires d > 0
    ensures Times(t as real, x as real / d as real).Floor == t * x / d
  {
    FloorIsDivision(t * x, d);
    assert (t * x) as real == t as real * x as real;
    assert t as real * (x as real / d as real) == (t as real * x as real) / d as real;
  }

  /** rate is n, or 1 for want of that, give or take one. */
  predicate NextTo(rate: int, n: int) {
    var m := if n < 1 then 1 else n;
    m - 1 <= rate <= m + 1
  }

  /** In both phases the rate is linear in the elapsed time to within one unit, which is what rounding
      and truncation can come to together. */
  lemma RampNearlyLinear(fl: Rounding, target: int, r: Ramp, elapsed: int)
    requires 1 <= target <= TWO_49 && Validate(r) && 0 <= elapsed <= r.duration
    ensures elapsed < r.up ==> NextTo(RampedRate(fl, target, r, elapsed), target * elapsed / r.up)
    ensures r.down > 0 && r.duration - r.down <= elapsed ==>
              NextTo(RampedRate(fl, target, r, elapsed), target * (r.duration - elapsed) / r.down)
  {
    if elapsed < r.up || (r.down > 0 && r.duration - r.down <= elapsed) {
      ShareNear(fl, r, elapsed);
      ShareAtMostOne(fl, r, elapsed);
      RawRateNear(fl, target, Share(fl, r, elapsed), ExactShare(r, elapsed));
      if elapsed < r.up {
        ScaledQuotient(target, elapsed, r.up);
      } else {
        ScaledQuotient(target, r.duration - elapsed, r.down);
      }
    }
  }

  /** What float64 makes of 1/49, rounding to nearest. */
  const ROUNDED_49TH: real := 0.0204081632653061208204636756136096664704382419586181640625

  /** And it does come to one: at 98 a second, 1 s into a 49 s ramp, two roundings to nearest leave the
      rate a hair below 2, and truncation sets 1. */
  lemma RoundingCostsOne(fl: Rounding, r: Ramp)
    requires Validate(r) && r.up == 49 * SECOND
    requires fl(1.0 / 49.0) == ROUNDED_49TH && fl(98.0 * ROUNDED_49TH) == 2.0 - EPS
    ensures RampedRate(fl, 98, r, SECOND) == 1 && 98 * SECOND / r.up == 2
  {
    assert Exact(fl, 98) && Exact(fl, SECOND) && Exact(fl, 49 * SECOND);
    assert Span(fl, SECOND) / Span(fl, r.up) == 1.0 / 49.0;
    assert Share(fl, r, SECOND) == ROUNDED_49TH;
    assert Times(fl(98 as real), ROUNDED_49TH) == 98.0 * ROUNDED_49TH;
    assert RawRate(fl, 98, ROUNDED_49TH) == 2.0 - EPS;
  }

  // ---------------------------------------------------------------- waiting for tokens

  /** One turn of acquire's loop: whether the context is done, and the clock. */
  datatype Turn = Turn(now: int, cancelled: bool)

  datatype Wait = Granted(turns: nat) | Cancelled | Waiting

  /** The bucket after acquire(n) has seen these turns, and how it ended. */
  function Acquire(b: Bucket, turns: seq<Turn>, n: int): (Bucket, Wait)
    decreases |turns|
  {
    if turns == [] then (b, Waiting)
    else if turns[0].cancelled then (b, Cancelled)
    else
      var b' := Refill(b, turns[0].now);
      if b'.tokens >= n then (b'.(tokens := b'.tokens - n), Granted(1))
      else
        var (b'', w) := Acquire(b', turns[1..], n);
        (b'', if w.Granted? then Granted(w.turns + 1) else w)
  }

  /** No turn is cancelled and the clock does not run backwards. */
  predicate Waits(last: int, turns: seq<Turn>)
    decreases |turns|
  {
    turns == [] || (!turns[0].cancelled && turns[0].now >= last && Waits(turns[0].now, turns[1..]))
  }

  /** Every gap is at least one refill interval. */
  predicate Gaps(last: int, turns: seq<Turn>)
    decreases |turns|
  {
    turns == [] || (turns[0].now >= last + REFILL_INTERVAL && Gaps(turns[0].now, turns[1..]))
  }

  /** acquire polls at once, and its timer runs for an interval before each further poll. */
  predicate Spaced(turns: seq<Turn>) { turns == [] || Gaps(turns[0].now, turns[1..]) }

  /** Stamps for which rate * elapsed stays in range. */
  predicate ShortGaps(rate: int, last: int, turns: seq<Turn>)
    decreases |turns|
  {
    turns == [] || (InInt64(rate * (turns[0].now - last)) && ShortGaps(rate, turns[0].now, turns[1..]))
  }

  /** Whole tokens earned between one poll and the next; the fractions are thrown away. */
  function Earnings(rate: int, last: int, turns: seq<Turn>): int
    decreases |turns|
  {
    if turns == [] then 0
    else rate * (turns[0].now - last) / SECOND + Earnings(rate, turns[0].now, turns[1..])
  }

  lemma {:induction false} EarningsNat(rate: int, last: int, turns: seq<Turn>)
    requires rate >= 0 && Waits(last, turns)
    ensures Earnings(rate, last, turns) >= 0
    decreases |turns|
  {
    if turns != [] {
      MulLe(0, rate, turns[0].now - last);
      EarningsNat(rate, turns[0].now, turns[1..]);
    }
  }

  lemma PollEarns(b: Bucket, now: int)
    requires b.rate >= 1 && b.tokens <= b.capacity && now >= b.lastTick && InInt64(b.rate * (now - b.lastTick))
    ensures var earned, b' := b.rate * (now - b.lastTick) / SECOND, Refill(b, now);
            && earned >= 0 && b' == b.(lastTick := now, tokens := b'.tokens)
            && b'.tokens == if b.tokens + earned > b.capacity then b.capacity else b.tokens + earned
  {
    AddedBounds(b.rate, b.rate, now - b.lastTick);
  }

  /** A lone waiter at a fixed rate is granted its n tokens if and only if what it held and what its
      gaps have earned come to n, whatever the gaps. */
  lemma {:induction false} GrantedIffEarned(b: Bucket, turns: seq<Turn>, n: int)
    requires b.rate >= 1 && b.tokens <= b.capacity && n <= b.capacity
    requires Waits(b.lastTick, turns) && ShortGaps(b.rate, b.lastTick, turns)
    ensures Acquire(b, turns, n).1.Granted? <==> turns != [] && b.tokens + Earnings(b.rate, b.lastTick, turns) >= n
    ensures Acquire(b, turns, n).1.Granted? ==> 0 < Acquire(b, turns, n).1.turns <= |turns|
    decreases |turns|
  {
    if turns != [] {
      PollEarns(b, turns[0].now);
      var b' := Refill(b, turns[0].now);
      EarningsNat(b.rate, turns[0].now, turns[1..]);
      if b'.tokens < n {
        GrantedIffEarned(b', turns[1..], n);
      }
    }
  }

  /** And at the first poll at which it does, with the rest left in the bucket. */
  lemma {:induction false} GrantedAtFirst(b: Bucket, turns: seq<Turn>, n: int)
    requires b.rate >= 1 && b.tokens <= b.capacity && n <= b.capacity
    requires Waits(b.lastTick, turns) && ShortGaps(b.rate, b.lastTick, turns)
    requires Acquire(b, turns, n).1.Granted?
    ensures var (b', w) := Acquire(b, turns, n);
            && 0 < w.turns <= |turns|
            && b.tokens + Earnings(b.rate, b.lastTick, turns[..w.turns]) >= n
            && (w.turns > 1 ==> b.tokens + Earnings(b.rate, b.lastTick, turns[..w.turns - 1]) < n)
            && b'.lastTick == turns[w.turns - 1].now && b'.rate == b.rate
            && b'.tokens == var held := b.tokens + Earnings(b.rate, b.lastTick, turns[..w.turns]);
                            (if held <= b.capacity then held else b.capacity) - n
    decreases |turns|
  {
    PollEarns(b, turns[0].now);
    var b1 := Refill(b, turns[0].now);
    assert turns[..1][1..] == [];
    if b1.tokens < n {
      GrantedAtFirst(b1, turns[1..], n);
      var k := Acquire(b, turns, n).1.turns;
      assert turns[..k][1..] == turns[1..][..k - 1];
      assert k > 2 ==> turns[..k - 1][1..] == turns[1..][..k - 2];
    }
  }

  /** A waiter not served before its context is done stops there, taking nothing. */
  lemma {:induction false} CancelStops(b: Bucket, turns: seq<Turn>, n: int, k: nat)
    requires k < |turns| && turns[k].cancelled && forall j :: 0 <= j < k ==> !turns[j].cancelled
    requires !Acquire(b, turns[..k], n).1.Granted?
    ensures Acquire(b, turns, n) == (Acquire(b, turns[..k], n).0, Cancelled)
    decreases k
  {
    if k > 0 {
      assert turns[..k][1..] == turns[1..][..k - 1] && turns[1..][k - 1] == turns[k];
      assert forall j :: 0 <= j < k - 1 ==> turns[1..][j] == turns[j + 1];
      if Refill(b, turns[0].now).tokens < n {
        CancelStops(Refill(b, turns[0].now), turns[1..], n, k - 1);
      }
    }
  }

  /** And waiting leaves in the bucket all that was earned. */
  lemma {:induction false} WaitingKeeps(b: Bucket, turns: seq<Turn>, n: int)
    requires b.rate >= 1 && b.tokens <= b.capacity && n <= b.capacity
    requires Waits(b.lastTick, turns) && ShortGaps(b.rate, b.lastTick, turns)
    requires !Acquire(b, turns, n).1.Granted?
    ensures Acquire(b, turns, n).1 == Waiting
    ensures Acquire(b, turns, n).0.tokens == b.tokens + Earnings(b.rate, b.lastTick, turns)
    decreases |turns|
  {
    if turns != [] {
      PollEarns(b, turns[0].now);
      WaitingKeeps(Refill(b, turns[0].now), turns[1..], n);
    }
  }

  lemma PerInterval(rate: int, elapsed: int)
    requires rate >= 1 && elapsed >= REFILL_INTERVAL
    ensures rate * elapsed / SECOND >= rate / 100
  {
    MulLe(REFILL_INTERVAL, elapsed, rate);
    assert rate * REFILL_INTERVAL / SECOND == rate / 100;
  }

  lemma {:induction false} GapsEarn(rate: int, last: int, turns: seq<Turn>)
    requires rate >= 1 && Gaps(last, turns)
    ensures Earnings(rate, last, turns) >= |turns| * (rate / 100)
    decreases |turns|
  {
    if turns != [] {
      PerInterval(rate, turns[0].now - last);
      GapsEarn(rate, turns[0].now, turns[1..]);
      assert |turns| * (rate / 100) == rate / 100 + (|turns| - 1) * (rate / 100);
    }
  }

  /** A lone waiter, polling at once and then after every interval or later, is granted its tokens once
      the polls after the first have earned them at floor(rate / 100) apiece. */
  lemma AcquireSucceeds(b: Bucket, turns: seq<Turn>, n: int)
    requires b.rate >= 1 && b.tokens <= b.capacity && n <= b.capacity
    requires Waits(b.lastTick, turns) && Spaced(turns) && ShortGaps(b.rate, b.lastTick, turns)
    requires turns != [] && b.tokens + (|turns| - 1) * (b.rate / 100) >= n
    ensures Acquire(b, turns, n).1.Granted? && Acquire(b, turns, n).1.turns <= |turns|
  {
    GapsEarn(b.rate, turns[0].now, turns[1..]);
    MulLe(0, b.rate, turns[0].now - b.lastTick);
    GrantedIffEarned(b, turns, n);
  }

  /** Each gap earns less than one token. */
  predicate Short(rate: int, last: int, turns: seq<Turn>)
    decreases |turns|
  {
    turns == [] || (rate * (turns[0].now - last) < SECOND && Short(rate, turns[0].now, turns[1..]))
  }

  /** Nothing at all is earned exactly when every single gap is short of a token. */
  lemma {:induction false} NothingEarnedIff(rate: int, last: int, turns: seq<Turn>)
    requires rate >= 1 && Waits(last, turns)
    ensures Earnings(rate, last, turns) == 0 <==> Short(rate, last, turns)
    decreases |turns|
  {
    if turns != [] {
      MulLe(0, rate, turns[0].now - last);
      EarningsNat(rate, turns[0].now, turns[1..]);
      NothingEarnedIff(rate, turns[0].now, turns[1..]);
    }
  }

  lemma {:induction false} ShortInRange(rate: int, last: int, turns: seq<Turn>)
    requires rate >= 1 && Waits(last, turns) && Short(rate, last, turns)
    ensures ShortGaps(rate, last, turns)
    decreases |turns|
  {
    if turns != [] {
      MulLe(0, rate, turns[0].now - last);
      ShortInRange(rate, turns[0].now, turns[1..]);
    }
  }

  /** A waiter short of tokens, every gap of which earns less than one token, is never served however
      long it waits: each poll throws its fraction away. */
  lemma SlowRateStarves(b: Bucket, turns: seq<Turn>, n: int)
    requires b.rate >= 1 && b.tokens < n <= b.capacity
    requires Waits(b.lastTick, turns) && Short(b.rate, b.lastTick, turns)
    ensures !Acquire(b, turns, n).1.Granted?
  {
    NothingEarnedIff(b.rate, b.lastTick, turns);
    ShortInRange(b.rate, b.lastTick, turns);
    GrantedIffEarned(b, turns, n);
  }

  /** k polls, each exactly one interval after the one before. */
  function Regular(last: int, k: nat): seq<Turn>
    decreases k
  {
    if k == 0 then []
    else [Turn(last + REFILL_INTERVAL, false)] + Regular(last + REFILL_INTERVAL, k - 1)
  }

  lemma {:induction false} RegularFacts(rate: int, last: int, k: nat)
    requires 1 <= rate < 100
    ensures var turns := Regular(last, k);
            |turns| == k && Waits(last, turns) && Gaps(last, turns) && Short(rate, last, turns)
    decreases k
  {
    if k > 0 {
      RegularFacts(rate, last + REFILL_INTERVAL, k - 1);
      assert Regular(last, k)[1..] == Regular(last + REFILL_INTERVAL, k - 1);
    }
  }

  /** The schedules acquire can produce, with more polls than the tokens asked for. */
  predicate LongWait(b: Bucket, turns: seq<Turn>, n: int) {
    Waits(b.lastTick, turns) && Spaced(turns) && ShortGaps(b.rate, b.lastTick, turns) && |turns| > n
  }

  /** So a waiter short of tokens is served on every long enough schedule if and only if the rate is at
      least 100. */
  lemma ServedIffHundred(b: Bucket, n: int)
    requires b.rate >= 1 && 0 <= b.tokens < n <= b.capacity
    ensures (forall turns :: LongWait(b, turns, n) ==> Acquire(b, turns, n).1.Granted?) <==> b.rate >= 100
  {
    if b.rate >= 100 {
      forall turns | LongWait(b, turns, n) ensures Acquire(b, turns, n).1.Granted? {
        MulLe(1, b.rate / 100, |turns| - 1);
        AcquireSucceeds(b, turns, n);
      }
    } else {
      var turns := Regular(b.lastTick, n + 1);
      RegularFacts(b.rate, b.lastTick, n + 1);
      ShortInRange(b.rate, b.lastTick, turns);
      SlowRateStarves(b, turns, n);
      assert LongWait(b, turns, n);
    }
  }

  /** One poll of acquire: a refill, and n tokens gone if they were there. */
  predicate Took(b: Bucket, now: int, n: int, ok: bool, b': Bucket) {
    var r := Refill(b, now);
    ok == (r.tokens >= n) && b' == if ok then r.(tokens := r.tokens - n) else r
  }

  // ---------------------------------------------------------------- the object and its loops

  class TokenBucket {
    var tokens: int
    var rate: int
    var capacity: int
    const minCap: int
    var lastTick: int

    function View(): Bucket
      reads this
    {
      Bucket(tokens, rate, capacity, minCap, lastTick)
    }

    constructor (rate: int, minCap: int, now: int)
      ensures View() == NewBucket(rate, minCap, now) && tokens == capacity && this.rate == rate
    {
      this.rate, this.minCap, lastTick := rate, minCap, now;
      tokens, capacity := Capacity(rate, minCap), Capacity(rate, minCap);
    }

    method DoRefill(now: int)
      modifies this
      ensures View() == Refill(old(View()), now)
    {
      var elapsed := now - lastTick;
      if elapsed <= 0 {
        return;
      }
      lastTick := now;
      var added := TruncDiv(Wrap64(rate * elapsed), SECOND);
      tokens := tokens + added;
      if tokens > capacity {
        tokens := capacity;
      }
    }

    method DoSetRate(newRate: int)
      modifies this
      ensures View() == SetRate(old(View()), newRate)
      ensures rate == newRate && lastTick == old(lastTick)
    {
      rate := newRate;
      capacity := Capacity(newRate, minCap);
      if tokens > capacity {
        tokens := capacity;
      }
    }

    /** One poll of acquire: refill, and take n tokens if they are there. */
    method Take(now: int, n: int) returns (ok: bool)
      modifies this
      ensures Took(old(View()), now, n, ok, View())
    {
      DoRefill(now);
      ok := tokens >= n;
      if ok {
        tokens := tokens - n;
      }
    }

    /** acquire: poll, then wait one interval, until served or cancelled. */
    method DoAcquire(turns: seq<Turn>, n: int) returns (w: Wait)
      modifies this
      ensures (View(), w) == Acquire(old(View()), turns, n)
    {
      var i := 0;
      while i < |turns|
        invariant 0 <= i <= |turns|
        invariant Acquire(old(View()), turns, n)
                  == var (b, r) := Acquire(View(), turns[i..], n); (b, if r.Granted? then Granted(i + r.turns) else r)
      {
        if turns[i].cancelled {
          return Cancelled;
        }
        var ok := Take(turns[i].now, n);
        if ok {
          return Granted(i + 1);
        }
        assert turns[i..][1..] == turns[i + 1..];
        i := i + 1;
      }
      return Waiting;
    }

    /** rampLoop over the elapsed times at which its ticker fires, until the context is done. */
    method RampLoop(fl: Rounding, target: int, r: Ramp, ticks: seq<int>)
      requires target >= 1 && Converts(fl, target)
      modifies this
      ensures r.up == 0 && r.down == 0 ==> View() == old(View())
      ensures (r.up != 0 || r.down != 0) && ticks != [] ==> rate == RampedRate(fl, target, r, ticks[|ticks| - 1])
      ensures r.up != 0 || r.down != 0 ==>
                Shared(View(), 0) == Run(Shared(old(View()), 0), Retunes(fl, target, r, ticks))
    {
      if r.up == 0 && r.down == 0 {
        return;
      }
      for i := 0 to |ticks|
        invariant Shared(View(), 0) == Run(Shared(old(View()), 0), Retunes(fl, target, r, ticks[..i]))
        invariant i > 0 ==> rate == RampedRate(fl, target, r, ticks[i - 1])
      {
        RampTick(fl, target, r, ticks, i, Shared(old(View()), 0), View());
        DoSetRate(RampedRate(fl, target, r, ticks[i]));
      }
      assert ticks[..|ticks|] == ticks;
    }
  }

  function Retunes(fl: Rounding, target: int, r: Ramp, ticks: seq<int>): seq<Event> {
    if ticks == [] then []
    else Retunes(fl, target, r, ticks[..|ticks| - 1]) + [Retune(RampedRate(fl, target, r, ticks[|ticks| - 1]))]
  }

  lemma RampTick(fl: Rounding, target: int, r: Ramp, ticks: seq<int>, i: nat, s: Shared, b: Bucket)
    requires i < |ticks| && Shared(b, 0) == Run(s, Retunes(fl, target, r, ticks[..i]))
    ensures Shared(SetRate(b, RampedRate(fl, target, r, ticks[i])), 0) == Run(s, Retunes(fl, target, r, ticks[..i + 1]))
  {
    assert ticks[..i + 1][..i] == ticks[..i];
    var evs, e := Retunes(fl, target, r, ticks[..i]), Retune(RampedRate(fl, target, r, ticks[i]));
    assert (evs + [e])[..|evs|] == evs;
  }

  /** One setting per tick, at the tick's ramped rate. */
  lemma {:induction false} RetunesLaw(fl: Rounding, target: int, r: Ramp, ticks: seq<int>)
    ensures |Retunes(fl, target, r, ticks)| == |ticks|
    ensures forall i :: 0 <= i < |ticks| ==>
              Retunes(fl, target, r, ticks)[i] == Retune(RampedRate(fl, target, r, ticks[i]))
  {
    if ticks != [] {
      var init := ticks[..|ticks| - 1];
      RetunesLaw(fl, target, r, init);
      assert forall i :: 0 <= i < |init| ==> init[i] == ticks[i];
    }
  }

  /** What the ramp does is a schedule the throughput bound covers, unless float64 rounds the target up. */
  lemma {:induction false} RampIsSchedule(fl: Rounding, target: int, r: Ramp, ticks: seq<int>, until: int)
    requires target >= 1 && Converts(fl, target) && fl(target as real).Floor <= target
    ensures Schedule(Retunes(fl, target, r, ticks), target, until)
  {
    if ticks != [] {
      RampIsSchedule(fl, target, r, ticks[..|ticks| - 1], until);
      RampInRange(fl, target, r, ticks[|ticks| - 1]);
    }
  }

  /** Any interleaving of polls with settings of this ramp keeps to the throughput bound. */
  lemma RampedThroughput(fl: Rounding, events: seq<Event>, target: int, r: Ramp, minCap: int, start: int, until: int)
    requires target >= 1 && InInt64(target * REFILL_INTERVAL) && start <= until
    requires forall e :: e in events && e.Poll? ==> e.now <= until
    requires forall e :: e in events && e.Retune? ==> exists elapsed :: e.rate == RampedRate(fl, target, r, elapsed)
    ensures Run(Shared(NewBucket(target, minCap, start), 0), events).granted
            <= Capacity(target, minCap) + target * (until - start) / SECOND
  {
    SmallTargetConverts(fl, target);
    forall e | e in events && e.Retune? ensures 1 <= e.rate <= target {
      var elapsed :| e.rate == RampedRate(fl, target, r, elapsed);
      RampInRange(fl, target, r, elapsed);
    }
    ThroughputBound(events, target, minCap, start, until);
  }

  /** The offset and the length a file of chunks can have. */
  predicate FileOk(fileSize: int, size: int, ops: nat, chunkSize: int, maxDisk: int) {
    && 0 <= fileSize <= size && (ops == 0 ==> size == 0)
    && (ops > 0 ==> if chunkSize <= maxDisk then size <= maxDisk else size == chunkSize == fileSize)
    && (ops > 0 ==> size >= chunkSize)
  }

  function Bytes(ops: nat, chunkSize: int): int {
    if ops == 0 then 0 else Bytes(ops - 1, chunkSize) + chunkSize
  }

  lemma {:induction false} BytesIsProduct(ops: nat, chunkSize: int)
    ensures Bytes(ops, chunkSize) == ops * chunkSize
  {
    if ops > 0 {
      BytesIsProduct(ops - 1, chunkSize);
      assert ops * chunkSize == (ops - 1) * chunkSize + chunkSize;
    }
  }

  /** The single disk writer: acquire tokens for a chunk, append it, and start over at offset 0 when the
      next one would pass maxDisk.  `events` are its polls with the ramp's settings between them, `writes`
      says which writes succeed, size is the length the file reaches.  Started on a new bucket at
      `start`, it has written by `until` no more than the capacity and what the target rate earns. */
  method WriteWorker(bucket: TokenBucket, maxDisk: int, chunkSize: int, events: seq<Event>, writes: seq<bool>,
                     ghost target: int, ghost start: int, ghost until: int)
    returns (size: int, written: int, ops: nat, failed: bool, used: nat)
    requires maxDisk > 0 && chunkSize > 0
    requires forall e :: e in events && e.Poll? ==> e.n == chunkSize
    modifies bucket
    ensures used <= |events|
    ensures if failed then ops < |writes| && !writes[ops] else used == |events|
    ensures forall i :: 0 <= i < ops && i < |writes| ==> writes[i]
    ensures written == ops * chunkSize
    ensures Run(Shared(old(bucket.View()), 0), events[..used])
            == Shared(bucket.View(), written + if failed then chunkSize else 0)
    ensures size <= maxDisk <==> ops == 0 || chunkSize <= maxDisk
    ensures chunkSize > maxDisk && ops > 0 ==> size == chunkSize
    ensures NewAt(old(bucket.View()), events, target, chunkSize, start, until) ==>
              WithinThroughput(written, target, chunkSize, start, until)
  {
    ghost var s := Shared(bucket.View(), 0);
    size, written, ops, failed, used := WriteLoop(bucket, maxDisk, chunkSize, events, writes);
    BytesIsProduct(ops, chunkSize);
    PrefixBound(s, events, used, target, chunkSize, start, until);
  }

  method WriteLoop(bucket: TokenBucket, maxDisk: int, chunkSize: int, events: seq<Event>, writes: seq<bool>)
    returns (size: int, written: int, ops: nat, failed: bool, used: nat)
    requires maxDisk > 0 && chunkSize > 0
    requires forall e :: e in events && e.Poll? ==> e.n == chunkSize
    modifies bucket
    ensures used <= |events|
    ensures if failed then ops < |writes| && !writes[ops] else used == |events|
    ensures forall i :: 0 <= i < ops && i < |writes| ==> writes[i]
    ensures 0 <= written == Bytes(ops, chunkSize)
    ensures Run(Shared(old(bucket.View()), 0), events[..used])
            == Shared(bucket.View(), written + if failed then chunkSize else 0)
    ensures exists offset :: FileOk(offset, size, ops, chunkSize, maxDisk)
  {
    ghost var s := Shared(bucket.View(), 0);
    var fileSize := 0;
    size, written, ops, failed, used := 0, 0, 0, false, 0;
    while used < |events|
      invariant FileOk(fileSize, size, ops, chunkSize, maxDisk) && used <= |events|
      invariant 0 <= written == Bytes(ops, chunkSize)
      invariant Run(s, events[..used]) == Shared(bucket.View(), written)
      invariant forall i :: 0 <= i < ops && i < |writes| ==> writes[i]
    {
      var e := events[used];
      ghost var before := bucket.View();
      match e
      case Retune(rate) =>
        RetuneIsStep(s, events, used, before, written);
        bucket.DoSetRate(rate);
        used := used + 1;
      case Poll(now, n) =>
        assert e in events && n == chunkSize;
        var ok := bucket.Take(now, chunkSize);
        TakeIsStep(s, events, used, before, written, ok, bucket.View());
        used := used + 1;
        if ok {
          if fileSize + chunkSize > maxDisk {
            fileSize := 0;
          }
          if ops < |writes| && !writes[ops] {
            failed := true;
            return;
          }
          fileSize := fileSize + chunkSize;
          if fileSize > size { size := fileSize; }
          written := written + chunkSize;
          ops := ops + 1;
        }
    }
  }

  /** The throughput bound for a prefix of a schedule, on a bucket new at `start`. */
  ghost predicate WithinThroughput(granted: nat, target: int, minCap: int, start: int, until: int) {
    granted <= Capacity(target, minCap) + target * (until - start) / SECOND
  }

  ghost predicate NewAt(b: Bucket, events: seq<Event>, target: int, minCap: int, start: int, until: int) {
    && target >= 1 && InInt64(target * REFILL_INTERVAL) && start <= until
    && b == NewBucket(target, minCap, start) && Schedule(events, target, until)
  }

  lemma PrefixBound(s: Shared, events: seq<Event>, k: nat, target: int, minCap: int, start: int, until: int)
    requires k <= |events| && s.granted == 0
    ensures NewAt(s.b, events, target, minCap, start, until) ==>
              WithinThroughput(Run(s, events[..k]).granted, target, minCap, start, until)
  {
    if NewAt(s.b, events, target, minCap, start, until) {
      ThroughputBound(events[..k], target, minCap, start, until);
    }
  }

  lemma TakeIsStep(s: Shared, events: seq<Event>, k: nat, b: Bucket, granted: nat, ok: bool, b': Bucket)
    requires k < |events| && Run(s, events[..k]) == Shared(b, granted)
    requires events[k].Poll? && Took(b, events[k].now, events[k].n, ok, b')
    ensures Run(s, events[..k + 1]) == Shared(b', if ok then granted + events[k].n else granted)
  {
    RunSnoc(s, events, k);
  }

  lemma RetuneIsStep(s: Shared, events: seq<Event>, k: nat, b: Bucket, granted: nat)
    requires k < |events| && Run(s, events[..k]) == Shared(b, granted) && events[k].Retune?
    ensures Run(s, events[..k + 1]) == Shared(SetRate(b, events[k].rate), granted)
  {
    RunSnoc(s, events, k);
  }

  lemma RunSnoc(s: Shared, events: seq<Event>, k: nat)
    requires k < |events|
    ensures Run(s, events[..k + 1]) == Step(Run(s, events[..k]), events[k])
  {
    assert events[..k + 1][..k] == events[..k];
  }
}
