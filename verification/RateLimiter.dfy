/** Rate limits over real time: token buckets, several of them at once, and the sliding window. */
module RateLimiter {
  import opened Options

  datatype LimitError = BadRate | BadCapacity | BadAmount | OverCapacity | BadWindow | BadMaximum

  // ------------------------------------------------------------- buckets and their histories

  datatype Bucket = Bucket(rate: real, capacity: real, tokens: real, last: real) {
    predicate Sane() {
      rate > 0.0 && capacity > 0.0 && tokens >= 0.0
    }
  }

  /** What a rate adds over a stretch of time. */
  function Accrued(rate: real, elapsed: real): real {
    elapsed * rate
  }

  lemma AccruedGrows(rate: real, x: real, y: real)
    requires rate > 0.0 && x <= y
    ensures Accrued(rate, x) <= Accrued(rate, y)
    ensures x >= 0.0 ==> Accrued(rate, x) >= 0.0
  {
  }

  lemma AccruedIs(rate: real, elapsed: real)
    ensures Accrued(rate, elapsed) == elapsed * rate
  {
  }

  lemma AccruedAdds(rate: real, x: real, y: real)
    ensures Accrued(rate, x) + Accrued(rate, y) == Accrued(rate, x + y)
  {
  }

  function Refill(b: Bucket, now: real): Bucket {
    if now - b.last > 0.0 then
      var more := b.tokens + Accrued(b.rate, now - b.last);
      b.(tokens := if more < b.capacity then more else b.capacity, last := now)
    else b
  }

  lemma RefillSane(b: Bucket, now: real)
    requires b.Sane()
    ensures Refill(b, now).Sane() && Refill(b, now).last >= now
  {
    hide Accrued;
    if now - b.last > 0.0 {
      AccruedGrows(b.rate, 0.0, now - b.last);
    }
  }

  /** One look at a bucket: when, how much was asked for, and whether that much was taken. */
  datatype Visit = Visit(time: real, amount: real, taken: bool)

  function Use(b: Bucket, v: Visit): Bucket {
    var r := Refill(b, v.time);
    if v.taken then r.(tokens := r.tokens - v.amount) else r
  }

  predicate Covered(b: Bucket, v: Visit) {
    v.taken ==> Refill(b, v.time).tokens >= v.amount
  }

  /** Nothing was ever taken that was not there. */
  predicate Lawful(b: Bucket, run: seq<Visit>)
    decreases |run|
  {
    run == [] || (Covered(b, run[0]) && Lawful(Use(b, run[0]), run[1..]))
  }

  function After(b: Bucket, run: seq<Visit>): Bucket
    decreases |run|
  {
    if run == [] then b else After(Use(b, run[0]), run[1..])
  }

  lemma {:induction false} LawfulAppend(b: Bucket, run: seq<Visit>, v: Visit)
    ensures After(b, run + [v]) == Use(After(b, run), v)
    ensures Lawful(b, run + [v]) <==> Lawful(b, run) && Covered(After(b, run), v)
    decreases |run|
  {
    if run == [] {
      assert [v][1..] == [];
    } else {
      assert (run + [v])[1..] == run[1..] + [v];
      LawfulAppend(Use(b, run[0]), run[1..], v);
    }
  }

  /** What the visits at times from s to t moved out of the bucket, what was put into it deducted. */
  function Net(run: seq<Visit>, s: real, t: real): real {
    if run == [] then 0.0
    else (if run[0].taken && s <= run[0].time <= t then run[0].amount else 0.0) + Net(run[1..], s, t)
  }

  /** What was taken out at times from s to t; what a negative amount put in is not deducted. */
  function Taken(run: seq<Visit>, s: real, t: real): real {
    if run == [] then 0.0
    else
      (if run[0].taken && s <= run[0].time <= t && run[0].amount > 0.0 then run[0].amount else 0.0) + Taken(run[1..], s, t)
  }

  /** No negative amount was ever taken. */
  predicate NonNegative(run: seq<Visit>) {
    forall v | v in run :: v.taken ==> v.amount >= 0.0
  }

  lemma {:induction false} NetIsTaken(run: seq<Visit>, s: real, t: real)
    requires NonNegative(run)
    ensures Net(run, s, t) == Taken(run, s, t)
  {
    if run != [] {
      assert run[0] in run;
      NetIsTaken(run[1..], s, t);
    }
  }

  /** A clock that starts at a time and never goes back. */
  predicate Steady(from: real, run: seq<Visit>)
    decreases |run|
  {
    run == [] || (from <= run[0].time && Steady(run[0].time, run[1..]))
  }

  function Budget(b: Bucket, s: real, t: real): real {
    if b.last > t then 0.0
    else if b.last < s then b.capacity + Accrued(b.rate, t - s)
    else b.tokens + Accrued(b.rate, t - b.last)
  }

  /** Within the interval a visit moves at most what it takes out of the budget. */
  lemma BudgetStep(b: Bucket, v: Visit, s: real, t: real)
    requires b.Sane() && Covered(b, v) && b.last <= v.time && s <= t
    ensures Use(b, v).Sane() && Use(b, v).last == v.time
    ensures (if v.taken && s <= v.time <= t then v.amount else 0.0) + Budget(Use(b, v), s, t) <= Budget(b, s, t)
  {
    hide Accrued;
    AccruedGrows(b.rate, 0.0, 0.0);
    AccruedGrows(b.rate, 0.0, v.time - b.last);
    AccruedGrows(b.rate, 0.0, t - s);
    if v.time > t {
      BudgetPositive(b, s, t);
    } else if v.time >= s {
      if b.last < s {
        AccruedGrows(b.rate, t - v.time, t - s);
      } else {
        AccruedAdds(b.rate, t - v.time, v.time - b.last);
        assert t - v.time + (v.time - b.last) == t - b.last;
      }
    }
  }

  lemma BudgetPositive(b: Bucket, s: real, t: real)
    requires b.Sane() && s <= t
    ensures Budget(b, s, t) >= 0.0
  {
    hide Accrued;
    AccruedGrows(b.rate, 0.0, t - s);
    if b.last <= t {
      AccruedGrows(b.rate, 0.0, t - b.last);
    }
  }

  lemma {:induction false} WithinBudget(b: Bucket, run: seq<Visit>, s: real, t: real)
    requires b.Sane() && Lawful(b, run) && Steady(b.last, run) && s <= t
    ensures Net(run, s, t) <= Budget(b, s, t)
    decreases |run|
  {
    hide Budget, Use, Covered;
    if run == [] {
      BudgetPositive(b, s, t);
    } else {
      BudgetStep(b, run[0], s, t);
      WithinBudget(Use(b, run[0]), run[1..], s, t);
    }
  }

  lemma WithinAccrued(b: Bucket, run: seq<Visit>, s: real, t: real)
    requires b.Sane() && b.tokens == b.capacity && Lawful(b, run) && Steady(b.last, run) && s <= t
    ensures Net(run, s, t) <= b.capacity + Accrued(b.rate, t - s)
  {
    hide Accrued, Lawful, Steady, Net;
    WithinBudget(b, run, s, t);
    AccruedGrows(b.rate, 0.0, t - s);
    if s <= b.last <= t {
      AccruedGrows(b.rate, t - b.last, t - s);
    }
  }

  /** In any interval a bucket that started full yields, on balance, at most its capacity and what the rate adds
      meanwhile; if no negative amount was taken, this bounds what was taken. */
  lemma RateBound(b: Bucket, run: seq<Visit>, s: real, t: real)
    requires b.Sane() && b.tokens == b.capacity && Lawful(b, run) && Steady(b.last, run) && s <= t
    ensures Net(run, s, t) <= b.capacity + (t - s) * b.rate
    ensures NonNegative(run) ==> Taken(run, s, t) <= b.capacity + (t - s) * b.rate
  {
    hide *;
    WithinAccrued(b, run, s, t);
    AccruedIs(b.rate, t - s);
    if NonNegative(run) {
      NetIsTaken(run, s, t);
    }
  }

  /** Without negative amounts a bucket never holds more than its capacity, whatever its clock does. */
  lemma {:induction false} NeverOverfull(b: Bucket, run: seq<Visit>)
    requires b.tokens <= b.capacity && NonNegative(run)
    ensures After(b, run).tokens <= b.capacity
    decreases |run|
  {
    if run != [] {
      assert run[0] in run;
      NeverOverfull(Use(b, run[0]), run[1..]);
    }
  }

  /** Two amounts taken from a bucket one right after the other. */
  function Twice(b: Bucket, a: real, x: real): seq<Visit> {
    [Visit(b.last, a, true), Visit(b.last, x, true)]
  }

  lemma TwiceLawful(b: Bucket, a: real, x: real)
    ensures Lawful(b, Twice(b, a, x)) <==> a <= b.tokens && x <= b.tokens - a
  {
    var v, w := Visit(b.last, a, true), Visit(b.last, x, true);
    assert [v, w][1..] == [w] && [w][1..] == [];
    assert Lawful(b, [v, w]) <==> Covered(b, v) && Lawful(Use(b, v), [w]);
    assert Lawful(Use(b, v), [w]) <==> Covered(Use(b, v), w) && Lawful(Use(Use(b, v), w), []);
  }

  /** Exactly the negative amounts break the limit: after one, and only then, a full bucket yields more than its
      capacity at the same instant. The multi-tier limiter takes them, since it does not look at the amount. */
  lemma NegativeAmountsOverfill(b: Bucket, a: real)
    requires b.Sane() && b.tokens == b.capacity
    ensures (exists x: real :: x > b.capacity && Lawful(b, Twice(b, a, x))) <==> a < 0.0
  {
    forall x: real ensures Lawful(b, Twice(b, a, x)) <==> a <= b.tokens && x <= b.tokens - a {
      TwiceLawful(b, a, x);
    }
    if a < 0.0 {
      assert Lawful(b, Twice(b, a, b.capacity - a));
    }
  }

  lemma TimesRate(rate: real, x: real, y: real)
    requires rate > 0.0
    ensures x * rate >= y * rate <==> x >= y
  {
    if x >= y {
      assert (x - y) * rate >= 0.0;
    } else {
      assert (y - x) * rate > 0.0;
    }
  }

  /** A refused request is served, with nobody else taking, as soon as its deficit has been refilled at the rate, and no
      sooner. */
  lemma WaitSuffices(b: Bucket, amount: real, later: real)
    requires b.Sane() && b.tokens < amount <= b.capacity
    ensures Refill(b, later).tokens >= amount <==> later >= b.last + (amount - b.tokens) / b.rate
    ensures (amount - b.tokens) / b.rate > 0.0
  {
    var wait := (amount - b.tokens) / b.rate;
    assert wait * b.rate == amount - b.tokens;
    TimesRate(b.rate, later - b.last, wait);
    TimesRate(b.rate, 0.0, wait);
    AccruedIs(b.rate, later - b.last);
  }

  class TokenBucketLimiter {
    const rate: real
    const capacity: real
    var tokens: real
    var last: real
    ghost const born: real
    ghost var history: seq<Visit>

    function State(): Bucket
      reads this
    {
      Bucket(rate, capacity, tokens, last)
    }

    ghost function Initial(): Bucket {
      Bucket(rate, capacity, capacity, born)
    }

    ghost predicate Valid()
      reads this
    {
      && State().Sane()
      && Lawful(Initial(), history) && State() == After(Initial(), history)
    }

    constructor (rate: real, capacity: real, now: real)
      requires rate > 0.0 && capacity > 0.0
      ensures Valid() && history == [] && this.rate == rate && this.capacity == capacity && born == now
    {
      this.rate, this.capacity := rate, capacity;
      tokens, last, born := capacity, now, now;
      history := [];
    }

    method RefillAt(now: real)
      requires Valid()
      modifies this
      ensures Valid() && State() == Refill(old(State()), now)
      ensures history == old(history) + [Visit(now, 0.0, false)]
    {
      hide Lawful, After, Accrued, Bucket.Sane;
      var elapsed := now - last;
      LawfulAppend(Initial(), history, Visit(now, 0.0, false));
      RefillSane(State(), now);
      if elapsed > 0.0 {
        var more := tokens + Accrued(rate, elapsed);
        tokens := if more < capacity then more else capacity;
        last := now;
      }
      history := history + [Visit(now, 0.0, false)];
    }

    method Deduct(amount: real, ghost now: real)
      requires Valid() && tokens >= amount && now <= last
      modifies this
      ensures Valid() && State() == old(State()).(tokens := old(tokens) - amount)
      ensures history == old(history) + [Visit(now, amount, true)]
    {
      LawfulAppend(Initial(), history, Visit(now, amount, true));
      tokens := tokens - amount;
      history := history + [Visit(now, amount, true)];
    }

    /** One attempt: malformed amounts are refused outright; otherwise the amount is taken exactly if it is there. */
    method Acquire(amount: real, now: real) returns (r: Result<bool, LimitError>)
      requires Valid()
      modifies this
      ensures Valid()
      ensures r.Err? <==> amount <= 0.0 || amount > capacity
      ensures r.Err? ==> State() == old(State()) && history == old(history)
      ensures r.Ok? ==> var b := Refill(old(State()), now);
                && (r.value <==> b.tokens >= amount)
                && State() == if r.value then b.(tokens := b.tokens - amount) else b
      ensures r == Ok(true) ==> history == old(history) + [Visit(now, 0.0, false), Visit(now, amount, true)]
      ensures r == Ok(false) ==> history == old(history) + [Visit(now, 0.0, false)]
      ensures NonNegative(old(history)) ==> NonNegative(history)
    {
      if amount <= 0.0 {
        return Err(BadAmount);
      }
      if amount > capacity {
        return Err(OverCapacity);
      }
      RefillAt(now);
      if tokens >= amount {
        Deduct(amount, now);
        return Ok(true);
      }
      return Ok(false);
    }

    /** A limiter that has only been asked for amounts that are not negative holds no more than its capacity. */
    lemma Capped()
      requires Valid() && NonNegative(history)
      ensures tokens <= capacity
    {
      NeverOverfull(Initial(), history);
    }

    /** Whatever calls a limiter has served, as long as its clock never went back. */
    lemma Bounded(s: real, t: real)
      requires Valid() && Steady(born, history) && s <= t
      ensures Net(history, s, t) <= capacity + (t - s) * rate
      ensures NonNegative(history) ==> Taken(history, s, t) <= capacity + (t - s) * rate
    {
      hide *;
      StartedFull();
      RateBound(Initial(), history, s, t);
    }

    lemma StartedFull()
      requires Valid()
      ensures Initial() == Bucket(rate, capacity, capacity, born) && Initial().Sane() && Lawful(Initial(), history)
    {
    }
  }

  method NewTokenBucket(rate: real, capacity: real, now: real) returns (r: Result<TokenBucketLimiter, LimitError>)
    ensures r.Ok? <==> rate > 0.0 && capacity > 0.0
    ensures r.Ok? ==> r.value.Valid() && fresh(r.value) && r.value.history == [] && r.value.born == now
    ensures r.Ok? ==> r.value.rate == rate && r.value.capacity == capacity
  {
    if rate <= 0.0 {
      return Err(BadRate);
    }
    if capacity <= 0.0 {
      return Err(BadCapacity);
    }
    var b := new TokenBucketLimiter(rate, capacity, now);
    return Ok(b);
  }

  // ------------------------------------------------------------- several tiers at once

  /** The buckets of the tiers, in the order of the rules. */
  class MultiTierRateLimiter {
    const buckets: seq<TokenBucketLimiter>

    ghost predicate Valid()
      reads this, buckets
    {
      AllDistinct(buckets) && forall b | b in buckets :: b.Valid()
    }

    constructor (buckets: seq<TokenBucketLimiter>)
      requires AllDistinct(buckets) && forall b | b in buckets :: b.Valid()
      ensures Valid() && this.buckets == buckets
    {
      this.buckets := buckets;
    }

    /** The amount is taken from every tier if every tier, refilled at its own clock reading, holds it; otherwise
        from none: the tiers up to the first that lacks it are refilled, the later ones untouched. */
    method Acquire(amount: real, clock: seq<real>) returns (ok: bool)
      requires Valid() && |clock| == |buckets|
      modifies buckets
      ensures Valid()
      ensures ok <==> forall i: nat | i < |buckets| :: Refill(old(buckets[i].State()), clock[i]).tokens >= amount
      ensures ok ==> forall i: nat | i < |buckets| :: Charged(buckets[i], clock[i], amount)
      ensures amount >= 0.0 ==> forall i: nat | i < |buckets| && NonNegative(old(buckets[i].history)) ::
                NonNegative(buckets[i].history)
      ensures !ok ==> exists k: nat :: k < |buckets| && RefilledUpTo(buckets, clock, k)
                        && buckets[k].State().tokens < amount
    {
      hide Refill;
      ok := CheckAll(amount, clock);
      label Checked:
      if ok {
        forall i: nat | i < |buckets| ensures clock[i] <= buckets[i].last {
          assert Refilled(buckets[i], clock[i]);
          assert buckets[i] in buckets;
          RefillSane(old(buckets[i].State()), clock[i]);
        }
        DeductAll(amount, clock);
        forall i: nat | i < |buckets| ensures Charged(buckets[i], clock[i], amount) {
          assert Deducted@Checked(buckets[i], clock[i], amount);
          assert old@Checked(buckets[i].State()) == Refill(old(buckets[i].State()), clock[i]);
        }
      }
      forall i: nat | i < |buckets| && amount >= 0.0 && NonNegative(old(buckets[i].history))
        ensures NonNegative(buckets[i].history)
      {
        if ok {
          assert Charged(buckets[i], clock[i], amount);
        } else {
          assert Untouched(buckets[i]) || Refilled(buckets[i], clock[i]);
        }
      }
    }

    /** The first pass. */
    method CheckAll(amount: real, clock: seq<real>) returns (ok: bool)
      requires Valid() && |clock| == |buckets|
      modifies buckets
      ensures Valid()
      ensures ok <==> forall i: nat | i < |buckets| :: Refill(old(buckets[i].State()), clock[i]).tokens >= amount
      ensures ok ==> forall i: nat | i < |buckets| :: Refilled(buckets[i], clock[i]) && buckets[i].tokens >= amount
      ensures !ok ==> exists k: nat :: k < |buckets| && RefilledUpTo(buckets, clock, k)
                        && buckets[k].State().tokens < amount
    {
      hide TokenBucketLimiter.Valid, Refill;
      for i := 0 to |buckets|
        invariant Valid()
        invariant forall j: nat | j < i :: Refilled(buckets[j], clock[j]) && buckets[j].tokens >= amount
        invariant forall j: nat | i <= j < |buckets| :: Untouched(buckets[j])
      {
        assert Untouched(buckets[i]);
        label Before:
        buckets[i].RefillAt(clock[i]);
        assert Refilled(buckets[i], clock[i]);
        forall j: nat | j < |buckets| && j != i ensures unchanged@Before(buckets[j]) {
          assert buckets[j] != buckets[i];
        }
        if buckets[i].tokens < amount {
          assert RefilledUpTo(buckets, clock, i) && buckets[i].State().tokens < amount;
          return false;
        }
      }
      return true;
    }

    /** The second pass. */
    method DeductAll(amount: real, clock: seq<real>)
      requires Valid() && |clock| == |buckets|
      requires forall i: nat | i < |buckets| :: buckets[i].tokens >= amount && clock[i] <= buckets[i].last
      modifies buckets
      ensures Valid()
      ensures forall i: nat | i < |buckets| :: Deducted(buckets[i], clock[i], amount)
    {
      hide TokenBucketLimiter.Valid;
      for i := 0 to |buckets|
        invariant Valid()
        invariant forall j: nat | j < i :: Deducted(buckets[j], clock[j], amount)
        invariant forall j: nat | i <= j < |buckets| :: Untouched(buckets[j])
      {
        assert Untouched(buckets[i]);
        buckets[i].Deduct(amount, clock[i]);
      }
    }
  }

  ghost predicate AllDistinct(buckets: seq<TokenBucketLimiter>) {
    forall i: nat, j: nat | i < j < |buckets| :: buckets[i] != buckets[j]
  }

  twostate predicate Untouched(b: TokenBucketLimiter)
    reads b
  {
    b.State() == old(b.State()) && b.history == old(b.history)
  }

  twostate predicate Refilled(b: TokenBucketLimiter, now: real)
    reads b
  {
    b.State() == Refill(old(b.State()), now) && b.history == old(b.history) + [Visit(now, 0.0, false)]
  }

  twostate predicate Deducted(b: TokenBucketLimiter, now: real, amount: real)
    reads b
  {
    && b.State() == old(b.State()).(tokens := old(b.tokens) - amount)
    && b.history == old(b.history) + [Visit(now, amount, true)]
  }

  twostate predicate Charged(b: TokenBucketLimiter, now: real, amount: real)
    reads b
  {
    && b.State() == Use(old(b.State()), Visit(now, amount, true))
    && b.history == old(b.history) + [Visit(now, 0.0, false), Visit(now, amount, true)]
  }

  twostate predicate RefilledUpTo(buckets: seq<TokenBucketLimiter>, clock: seq<real>, k: nat)
    requires k < |buckets| == |clock|
    reads buckets
  {
    && (forall i: nat | i <= k :: Refilled(buckets[i], clock[i]))
    && (forall i: nat | k < i < |buckets| :: Untouched(buckets[i]))
  }

  // ------------------------------------------------------------- the sliding window

  predicate NonDecreasing(s: seq<real>) {
    forall i: nat, j: nat | i < j < |s| :: s[i] <= s[j]
  }

  /** How many times lie after a cutoff. */
  function CountAfter(s: seq<real>, cutoff: real): nat {
    if s == [] then 0 else CountAfter(s[..|s| - 1], cutoff) + if s[|s| - 1] > cutoff then 1 else 0
  }

  lemma {:induction false} CountSplit(s: seq<real>, k: nat, cutoff: real)
    requires k <= |s|
    requires forall i: nat | i < k :: s[i] <= cutoff
    requires forall i: nat | k <= i < |s| :: s[i] > cutoff
    ensures CountAfter(s, cutoff) == |s| - k
  {
    if s != [] {
      CountSplit(s[..|s| - 1], if k < |s| then k else k - 1, cutoff);
    }
  }

  /** All but the last n lie at or before a cutoff. */
  predicate Expired(accepted: seq<real>, n: nat, cutoff: real) {
    n <= |accepted| && forall i: nat | i < |accepted| - n :: accepted[i] <= cutoff
  }

  /** Of any maximum + 1 consecutive acceptances the last comes at least a window after the first. */
  predicate Apart(accepted: seq<real>, maximum: nat, window: real) {
    forall i: nat, j: nat | j == i + maximum && j < |accepted| :: accepted[j] >= accepted[i] + window
  }

  lemma AcceptOne(accepted: seq<real>, n: nat, maximum: nat, window: real, now: real)
    requires n < maximum && Expired(accepted, n, now - window) && Apart(accepted, maximum, window)
    requires NonDecreasing(accepted) && (accepted != [] ==> accepted[|accepted| - 1] <= now)
    ensures Apart(accepted + [now], maximum, window) && NonDecreasing(accepted + [now])
    ensures Expired(accepted + [now], n + 1, now - window)
  {
    var longer := accepted + [now];
    forall i: nat, j: nat | j == i + maximum && j < |longer| ensures longer[j] >= longer[i] + window {
      if j == |accepted| && i < |accepted| {
        assert i < |accepted| - n;
      }
    }
  }

  predicate IsTail(tail: seq<real>, all: seq<real>) {
    |tail| <= |all| && tail == all[|all| - |tail|..]
  }

  predicate UpTo(s: seq<real>, now: real) {
    s == [] || s[|s| - 1] <= now
  }

  /** What a clock that never goes back ensures, n being the acceptances still remembered. */
  predicate InWindow(readings: seq<real>, accepted: seq<real>, n: nat, maximum: nat, window: real) {
    && NonDecreasing(accepted) && Apart(accepted, maximum, window)
    && if readings == [] then accepted == []
       else UpTo(accepted, readings[|readings| - 1]) && Expired(accepted, n, readings[|readings| - 1] - window)
  }

  lemma LaterReading(readings: seq<real>, accepted: seq<real>, n: nat, maximum: nat, window: real, now: real)
    requires NonDecreasing(readings + [now])
    requires NonDecreasing(readings) ==> InWindow(readings, accepted, n, maximum, window)
    requires n <= |accepted|
    ensures NonDecreasing(accepted) && Apart(accepted, maximum, window)
    ensures UpTo(accepted, now) && Expired(accepted, n, now - window)
  {
    hide Apart;
    var longer := readings + [now];
    forall i: nat, j: nat | i < j < |readings| ensures readings[i] <= readings[j] {
      assert longer[i] <= longer[j];
    }
    assert readings != [] ==> longer[|readings| - 1] <= longer[|readings|];
  }

  /** The same after the reading, whether or not the request is accepted. */
  lemma NextReading(readings: seq<real>, accepted: seq<real>, n: nat, maximum: nat, window: real, now: real)
    requires NonDecreasing(accepted) && Apart(accepted, maximum, window)
    requires UpTo(accepted, now) && Expired(accepted, n, now - window)
    ensures InWindow(readings + [now], accepted, n, maximum, window)
    ensures n < maximum ==> InWindow(readings + [now], accepted + [now], n + 1, maximum, window)
  {
    hide NonDecreasing, Apart, Expired;
    if n < maximum {
      AcceptOne(accepted, n, maximum, window, now);
    }
  }

  lemma TailLength(tail: seq<real>, all: seq<real>)
    ensures IsTail(tail, all) ==> |tail| <= |all|
  {
  }

  lemma TailAppend(tail: seq<real>, all: seq<real>, now: real)
    requires IsTail(tail, all)
    ensures IsTail(tail + [now], all + [now])
  {
  }

  class SlidingWindowLimiter {
    const window: real
    const maximum: nat
    var timestamps: seq<real>
    /** All clock readings so far, and those at which a request was accepted. */
    ghost var readings: seq<real>
    ghost var accepted: seq<real>

    ghost predicate Valid()
      reads this
    {
      && window > 0.0 && maximum > 0 && |timestamps| <= maximum
      && IsTail(timestamps, accepted)
      && (NonDecreasing(readings) ==> InWindow(readings, accepted, |timestamps|, maximum, window))
    }

    constructor (window: real, maximum: nat)
      requires window > 0.0 && maximum > 0
      ensures Valid() && this.window == window && this.maximum == maximum && accepted == [] && readings == []
    {
      this.window, this.maximum := window, maximum;
      timestamps, accepted, readings := [], [], [];
    }

    /** Drops the timestamps that have left the window. */
    method Expire(cutoff: real)
      requires IsTail(timestamps, accepted)
      modifies this`timestamps
      ensures |timestamps| <= |old(timestamps)| && IsTail(timestamps, accepted)
      ensures Expired(accepted, |old(timestamps)|, cutoff) ==> Expired(accepted, |timestamps|, cutoff)
      ensures timestamps == [] || timestamps[0] > cutoff
    {
      while timestamps != [] && timestamps[0] <= cutoff
        invariant |timestamps| <= |old(timestamps)| && IsTail(timestamps, accepted)
        invariant Expired(accepted, |old(timestamps)|, cutoff) ==> Expired(accepted, |timestamps|, cutoff)
      {
        assert timestamps[0] == accepted[|accepted| - |timestamps|];
        timestamps := timestamps[1..];
      }
    }

    /** With a clock that never goes back, a request is accepted exactly if fewer than the maximum were accepted in
        the window that ends now. */
    method AllowRequest(now: real) returns (ok: bool)
      requires Valid()
      modifies this
      ensures Valid()
      ensures readings == old(readings) + [now]
      ensures accepted == if ok then old(accepted) + [now] else old(accepted)
      ensures NonDecreasing(readings) ==> (ok <==> CountAfter(old(accepted), now - window) < maximum)
      ensures NonDecreasing(readings) ==>
                (ok <==> |old(accepted)| < maximum || old(accepted)[|old(accepted)| - maximum] <= now - window)
    {
      hide NonDecreasing, Apart, Expired, CountAfter, InWindow, IsTail, UpTo;
      assert IsTail(timestamps, accepted);
      TailLength(timestamps, accepted);
      ghost var steady := NonDecreasing(readings + [now]);
      if steady {
        LaterReading(readings, accepted, |timestamps|, maximum, window, now);
      }
      Expire(now - window);
      if steady {
        Remaining(accepted, timestamps, now - window, maximum);
        NextReading(readings, accepted, |timestamps|, maximum, window, now);
      }
      TailAppend(timestamps, accepted, now);
      readings := readings + [now];
      ok := |timestamps| < maximum;
      if ok {
        timestamps := timestamps + [now];
        accepted := accepted + [now];
      }
    }

    /** The (i + maximum)-th acceptance comes at least a window after the i-th. */
    lemma WindowBound(i: nat)
      requires Valid() && NonDecreasing(readings) && i + maximum < |accepted|
      ensures accepted[i + maximum] >= accepted[i] + window
    {
    }
  }

  /** What is kept are the acceptances after the cutoff; there is room for one more exactly if the maximum-th last is
      not among them. */
  lemma Remaining(accepted: seq<real>, kept: seq<real>, cutoff: real, maximum: nat)
    requires IsTail(kept, accepted) && Expired(accepted, |kept|, cutoff) && NonDecreasing(accepted)
    requires kept == [] || kept[0] > cutoff
    ensures CountAfter(accepted, cutoff) == |kept|
    ensures maximum > 0 ==> (|kept| < maximum <==> |accepted| < maximum || accepted[|accepted| - maximum] <= cutoff)
  {
    CountSplit(accepted, |accepted| - |kept|, cutoff);
  }

  method NewSlidingWindow(window: real, maximum: int) returns (r: Result<SlidingWindowLimiter, LimitError>)
    ensures r.Ok? <==> window > 0.0 && maximum > 0
    ensures r.Ok? ==> r.value.Valid() && fresh(r.value) && r.value.accepted == r.value.readings == []
    ensures r.Ok? ==> r.value.window == window && r.value.maximum == maximum
  {
    if window <= 0.0 {
      return Err(BadWindow);
    }
    if maximum <= 0 {
      return Err(BadMaximum);
    }
    var w := new SlidingWindowLimiter(window, maximum);
    return Ok(w);
  }
}
