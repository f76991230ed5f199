// failureRate and rpcAverage of client/v2/hostqueue.go. Floats are reals and times are nanoseconds.
module FailureRates {
  const HALF_LIFE := 60_000_000_000
  const ZERO_THRESHOLD := 0.01

  datatype Rate = Rate(value: real, init: bool, lastDecay: int)

  function Halved(v: real, k: nat): real {
    if k == 0 then v else Halved(v, k - 1) / 2.0
  }

  // decay at the given time: one halving for every half-life that passed in full.
  function Decayed(r: Rate, now: int): Rate
    requires r.init ==> r.lastDecay <= now
  {
    if !r.init then r
    else
      var k := (now - r.lastDecay) / HALF_LIFE;
      r.(value := Halved(r.value, k), lastDecay := r.lastDecay + k * HALF_LIFE)
  }

  // The reference: a clock that halves the rate at the very moment each half-life ends.
  function Eager(r: Rate, now: int): Rate
    requires r.init ==> r.lastDecay <= now
    decreases if r.init then now - r.lastDecay else 0
  {
    if !r.init || now < r.lastDecay + HALF_LIFE then r
    else Eager(r.(value := r.value / 2.0, lastDecay := r.lastDecay + HALF_LIFE), now)
  }

  function Sampled(r: Rate, success: bool, now: int): Rate
    requires r.init ==> r.lastDecay <= now
  {
    var sample := if success then 0.0 else 1.0;
    if !r.init then Rate(sample, true, now)
    else
      var d := Decayed(r, now);
      d.(value := 0.2 * sample + 0.8 * d.value)
  }

  // What Value reports for a decayed rate.
  function Shown(v: real): real {
    if v < ZERO_THRESHOLD then 0.0 else v
  }

  // --- lazy decay is eager decay ---

  lemma {:induction false} HalvedTwice(v: real, j: nat, k: nat)
    ensures Halved(Halved(v, j), k) == Halved(v, j + k)
  {
    if k > 0 {
      HalvedTwice(v, j, k - 1);
    }
  }

  lemma {:induction false} LazyIsEager(r: Rate, now: int)
    requires r.init ==> r.lastDecay <= now
    ensures Decayed(r, now) == Eager(r, now)
    decreases if r.init then now - r.lastDecay else 0
  {
    if r.init && r.lastDecay + HALF_LIFE <= now {
      var next := r.(value := r.value / 2.0, lastDecay := r.lastDecay + HALF_LIFE);
      LazyIsEager(next, now);
      var k := (now - next.lastDecay) / HALF_LIFE;
      assert (now - r.lastDecay) / HALF_LIFE == k + 1;
      HalvedTwice(r.value, 1, k);
      assert Halved(r.value, 1) == r.value / 2.0;
    }
  }

  // An extra decay on the way changes nothing later.
  lemma DecayIsIdempotent(r: Rate, middle: int, now: int)
    requires r.init ==> r.lastDecay <= middle
    requires middle <= now
    ensures r.init ==> Decayed(r, middle).lastDecay <= middle
    ensures Decayed(Decayed(r, middle), now) == Decayed(r, now)
  {
    if r.init {
      var j := (middle - r.lastDecay) / HALF_LIFE;
      var k := (now - (r.lastDecay + j * HALF_LIFE)) / HALF_LIFE;
      assert (now - r.lastDecay) / HALF_LIFE == j + k;
      HalvedTwice(r.value, j, k);
    }
  }

  datatype Event = Sample(success: bool, at: int) | Read(at: int)

  // The time of the last event.
  function Last(events: seq<Event>, from: int): int {
    if events == [] then from else events[|events| - 1].at
  }

  // No event is earlier than the one before it, nor than from.
  predicate InOrder(events: seq<Event>, from: int) {
    events != [] ==> InOrder(events[..|events| - 1], from) && Last(events[..|events| - 1], from) <= events[|events| - 1].at
  }

  function SamplesOnly(events: seq<Event>): seq<Event> {
    if events == [] then []
    else
      var n := |events| - 1;
      if events[n].Sample? then SamplesOnly(events[..n]) + [events[n]] else SamplesOnly(events[..n])
  }

  // The rate after some events, all no earlier than the last decay.
  function After(r: Rate, events: seq<Event>, from: int): (a: Rate)
    requires InOrder(events, from) && (r.init ==> r.lastDecay <= from)
    ensures a.init ==> a.lastDecay <= Last(events, from)
    decreases |events|
  {
    if events == [] then r
    else
      var n := |events| - 1;
      var before := After(r, events[..n], from);
      match events[n] {
        case Sample(success, at) => Sampled(before, success, at)
        case Read(at) => Decayed(before, at)
      }
  }

  lemma {:induction false} SamplesInOrder(events: seq<Event>, from: int)
    requires InOrder(events, from)
    ensures InOrder(SamplesOnly(events), from) && from <= Last(SamplesOnly(events), from) <= Last(events, from)
    decreases |events|
  {
    if events != [] {
      var n := |events| - 1;
      SamplesInOrder(events[..n], from);
      if events[n].Sample? {
        assert (SamplesOnly(events[..n]) + [events[n]])[..|SamplesOnly(events[..n])|] == SamplesOnly(events[..n]);
      }
    }
  }

  lemma EqualOnceDecayed(a: Rate, b: Rate, at: int, now: int)
    requires (a.init ==> a.lastDecay <= at) && (b.init ==> b.lastDecay <= at) && at <= now
    requires Decayed(a, at) == Decayed(b, at)
    ensures Decayed(a, now) == Decayed(b, now) == Decayed(Decayed(a, at), now)
    ensures forall success :: Sampled(a, success, at) == Sampled(b, success, at)
  {
    DecayIsIdempotent(a, at, now);
    DecayIsIdempotent(b, at, now);
  }

  // Reads at any instants in between never change what is seen later.
  lemma {:induction false} ReadsDoNotMatter(r: Rate, events: seq<Event>, from: int, now: int)
    requires InOrder(events, from) && (r.init ==> r.lastDecay <= from) && Last(events, from) <= now
    ensures InOrder(SamplesOnly(events), from) && from <= Last(SamplesOnly(events), from) <= now
    ensures Decayed(After(r, events, from), now) == Decayed(After(r, SamplesOnly(events), from), now)
    decreases |events|
  {
    SamplesInOrder(events, from);
    if events != [] {
      var n := |events| - 1;
      var e := events[n];
      var fewer := SamplesOnly(events[..n]);
      SamplesInOrder(events[..n], from);
      ReadsDoNotMatter(r, events[..n], from, e.at);
      EqualOnceDecayed(After(r, events[..n], from), After(r, fewer, from), e.at, now);
      if e.Sample? {
        assert (fewer + [e])[..|fewer|] == fewer;
        assert After(r, fewer + [e], from) == Sampled(After(r, fewer, from), e.success, e.at);
      }
    }
  }

  // --- range ---

  lemma {:induction false} HalvedInRange(v: real, k: nat)
    requires 0.0 <= v <= 1.0
    ensures 0.0 <= Halved(v, k) <= v
  {
    if k > 0 {
      HalvedInRange(v, k - 1);
    }
  }

  // The rate stays in [0, 1] under any samples and reads.
  lemma {:induction false} RateInRange(r: Rate, events: seq<Event>, from: int)
    requires InOrder(events, from) && (r.init ==> r.lastDecay <= from) && 0.0 <= r.value <= 1.0
    ensures 0.0 <= After(r, events, from).value <= 1.0
    decreases |events|
  {
    if events != [] {
      var n := |events| - 1;
      var before := After(r, events[..n], from);
      RateInRange(r, events[..n], from);
      if before.init {
        HalvedInRange(before.value, (events[n].at - before.lastDecay) / HALF_LIFE);
      }
    }
  }

  lemma {:induction false} HalvedMonotone(v: real, w: real, j: nat, k: nat)
    requires 0.0 <= v <= w <= 1.0 && j <= k
    ensures Halved(v, k) <= Halved(w, j)
    decreases k
  {
    if j > 0 {
      HalvedMonotone(v, w, j - 1, k - 1);
    } else if k > 0 {
      HalvedMonotone(v, w, 0, k - 1);
      HalvedInRange(v, k - 1);
    }
  }

  // After a lone failure among successes a host counts as failure-free exactly 5 half-lives later, an
  // all-failing one exactly 7 later.
  lemma ClearsAfter(v: real, k: nat)
    ensures v == 0.2 ==> (Shown(Halved(v, k)) == 0.0 <==> k >= 5)
    ensures v == 1.0 ==> (Shown(Halved(v, k)) == 0.0 <==> k >= 7)
  {
    if v == 0.2 {
      if k >= 5 { HalvedMonotone(v, v, 5, k); } else { HalvedMonotone(v, v, k, 4); }
      assert Halved(0.2, 2) == 0.05 && Halved(0.05, 2) == 0.0125;
      HalvedTwice(0.2, 2, 2);
    }
    if v == 1.0 {
      if k >= 7 { HalvedMonotone(v, v, 7, k); } else { HalvedMonotone(v, v, k, 6); }
      assert Halved(1.0, 3) == 0.125 && Halved(0.125, 3) == 0.015625;
      HalvedTwice(1.0, 3, 3);
    }
  }

  // The methods are given the time they read from the clock, which never runs backwards.
  class FailureRate {
    var value: real
    var init: bool
    var lastDecay: int

    constructor ()
      ensures View() == Rate(0.0, false, 0)
    {
      value, init, lastDecay := 0.0, false, 0;
    }

    function View(): Rate
      reads this
    {
      Rate(value, init, lastDecay)
    }

    predicate NotAfter(now: int)
      reads this
    {
      init ==> lastDecay <= now
    }

    method AddSample(success: bool, now: int)
      requires NotAfter(now)
      modifies this
      ensures View() == Sampled(old(View()), success, now) && NotAfter(now)
    {
      var sample := 1.0;
      if success {
        sample := 0.0;
      }
      if !init {
        value, init, lastDecay := sample, true, now;
        return;
      }
      Decay(now);
      value := 0.2 * sample + (1.0 - 0.2) * value;
    }

    // What is shown is what the eager clock would show.
    method Value(now: int) returns (v: real)
      requires NotAfter(now)
      modifies this
      ensures View() == Eager(old(View()), now) && NotAfter(now)
      ensures v == Shown(Eager(old(View()), now).value)
    {
      LazyIsEager(View(), now);
      Decay(now);
      if value < ZERO_THRESHOLD {
        return 0.0;
      }
      return value;
    }

    method Decay(now: int)
      requires NotAfter(now)
      modifies this
      ensures View() == Decayed(old(View()), now) && NotAfter(now)
    {
      if !init {
        return;
      }
      var halfLives := (now - lastDecay) / HALF_LIFE;
      value := Halved(value, halfLives);
      lastDecay := lastDecay + halfLives * HALF_LIFE;
    }
  }

  // --- throughput averages ---

  datatype Average = Average(value: real, init: bool)

  function Averaged(samples: seq<real>): Average {
    if samples == [] then Average(0.0, false)
    else
      var n := |samples| - 1;
      var before := Averaged(samples[..n]);
      if before.init then Average(0.2 * samples[n] + 0.8 * before.value, true) else Average(samples[n], true)
  }

  function Smallest(samples: seq<real>): (m: real)
    requires samples != []
    ensures m in samples && forall x :: x in samples ==> m <= x
  {
    var n := |samples| - 1;
    assert samples == samples[..n] + [samples[n]];
    if n == 0 then samples[0]
    else if Smallest(samples[..n]) <= samples[n] then Smallest(samples[..n]) else samples[n]
  }

  function Largest(samples: seq<real>): (m: real)
    requires samples != []
    ensures m in samples && forall x :: x in samples ==> x <= m
  {
    var n := |samples| - 1;
    assert samples == samples[..n] + [samples[n]];
    if n == 0 then samples[0]
    else if Largest(samples[..n]) >= samples[n] then Largest(samples[..n]) else samples[n]
  }

  // An average that has samples lies between the smallest and the largest of them.
  lemma {:induction false} AverageIsBetween(samples: seq<real>)
    requires samples != []
    ensures Averaged(samples).init && Smallest(samples) <= Averaged(samples).value <= Largest(samples)
  {
    var n := |samples| - 1;
    if n > 0 {
      AverageIsBetween(samples[..n]);
    } else {
      assert samples[..0] == [];
    }
  }

  class RpcAverage {
    var value: real
    var init: bool
    ghost var samples: seq<real>

    ghost predicate Valid()
      reads this
    {
      Average(value, init) == Averaged(samples)
    }

    constructor ()
      ensures Valid() && samples == []
    {
      value, init, samples := 0.0, false, [];
    }

    method AddSample(v: real)
      requires Valid()
      modifies this
      ensures Valid() && samples == old(samples) + [v]
      ensures init && Smallest(samples) <= value <= Largest(samples)
    {
      assert (samples + [v])[..|samples|] == samples;
      if !init {
        value, init := v, true;
      } else {
        value := 0.2 * v + (1.0 - 0.2) * value;
      }
      samples := samples + [v];
      AverageIsBetween(samples);
    }
  }
}
