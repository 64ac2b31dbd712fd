/**
 What the clock gives to the flood control: exact accounts of tokens, and the
 rate at which a queue that waits is served.
 */
module TokenRates {
  import opened Ascii
  import opened FloodControl

  function Least(a: int, b: int): int {
    if a <= b then a else b
  }

  /** A line costs one token, and one more if it comes out of the queue and
      begins with MODE. */
  lemma CostOfLine(x: Sent)
    ensures Cost(x) == if x.queued && "MODE" <= x.line.text then 2 else 1
  {
    var t := x.line.text;
    if 4 <= |t| && IsMode(t) {
      assert t[..4] == "MODE";
    }
  }

  // ------------------------------------------------------------------
  // Tokens are neither lost nor made but by a refill.

  predicate IsRefill(s: State, e: Event) {
    && e.Tick? && s.oldtime < e.now
    && e.limits.floodtimer <= e.now - s.floodtime && s.msgtimer < e.limits.burstsize
  }

  lemma StepSpends(s: State, e: Event)
    requires !IsRefill(s, e)
    ensures TotalCost(Emission(s, e)) + Step(s, e).msgtimer == s.msgtimer
    ensures Step(s, e).floodtime == s.floodtime
  {
    if e.Write? && s.msgtimer > 1 {
      assert Emission(s, e)[1..] == [];
    }
  }

  predicate NoRefill(s: State, es: seq<Event>)
    decreases es
  {
    es == [] || (!IsRefill(s, es[0]) && NoRefill(Step(s, es[0]), es[1..]))
  }

  lemma {:induction false} SpentWithoutRefill(s: State, es: seq<Event>)
    requires NoRefill(s, es)
    ensures TotalCost(Emissions(s, es)) + Run(s, es).msgtimer == s.msgtimer
    ensures Run(s, es).floodtime == s.floodtime
    decreases es
  {
    if es != [] {
      StepSpends(s, es[0]);
      SpentWithoutRefill(Step(s, es[0]), es[1..]);
      TotalCostAppend(Emission(s, es[0]), Emissions(Step(s, es[0]), es[1..]));
    }
  }

  /** `k` is the number of whole periods of length f in `elapsed`. */
  predicate WholePeriods(k: int, elapsed: int, f: int) {
    f * k <= elapsed < f * k + f
  }

  lemma WholePeriodsIs(k: int, elapsed: int, f: int)
    requires 0 < f && WholePeriods(k, elapsed, f)
    ensures elapsed / f == k
  {
    QuotientBelow(elapsed, f, k);
    if k < elapsed / f {
      PeriodsGrow(f, k + 1, elapsed / f);
    }
  }

  lemma PeriodsGrow(f: int, a: int, b: int)
    requires 0 <= f && a <= b
    ensures f * a <= f * b
  {
  }

  /** With one refill, what is spent on it and what is left is the bucket before
      and a token for each whole period since the last refill, up to a bucketful. */
  lemma OneRefillGives(s: State, now: int, limits: Limits, k: int)
    requires Inv(s) && IsRefill(s, Tick(now, limits))
    requires 0 < limits.floodtimer ==> WholePeriods(k, now - s.floodtime, limits.floodtimer)
    ensures var t := Step(s, Tick(now, limits));
            && t.floodtime == now
            && TotalCost(Emission(s, Tick(now, limits))) + t.msgtimer
               == if limits.floodtimer == 0 then limits.burstsize else Least(limits.burstsize, s.msgtimer + k)
  {
    RefillTick(s, now, limits);
    if 0 < limits.floodtimer {
      WholePeriodsIs(k, now - s.floodtime, limits.floodtimer);
    }
  }

  /** From one refill to the next: the tokens spent in between and by the second,
      with those held after it, are those held after the first and one for each
      whole floodtimer since, up to a bucketful beside what was spent in between;
      with floodtimer 0 they are a whole bucket beside that. */
  lemma {:induction false} RefillGives(s: State, es: seq<Event>, now: int, limits: Limits, k: int)
    requires Inv(s) && NoRefill(s, es) && IsRefill(Run(s, es), Tick(now, limits))
    requires 0 < limits.floodtimer ==> WholePeriods(k, now - s.floodtime, limits.floodtimer)
    ensures var b, between := limits.burstsize, TotalCost(Emissions(s, es));
            var r := Run(s, es + [Tick(now, limits)]);
            && r.floodtime == now
            && TotalCost(Emissions(s, es + [Tick(now, limits)])) + r.msgtimer
               == if limits.floodtimer == 0 then b + between else Least(b + between, s.msgtimer + k)
  {
    var tick := Tick(now, limits);
    var s1 := Run(s, es);
    SpentWithoutRefill(s, es);
    RunKeepsInv(s, es);
    OneRefillGives(s1, now, limits, k);
    RunAppend(s, es, [tick]);
    assert [tick][1..] == [] && Emissions(s1, [tick]) == Emission(s1, tick) + [] == Emission(s1, tick);
    assert Run(s1, [tick]) == Run(Step(s1, tick), []);
    TotalCostAppend(Emissions(s, es), Emission(s1, tick));
  }

  // ------------------------------------------------------------------
  // The clock.

  /** The latest time among that given and the ticks. */
  function Latest(es: seq<Event>, t: int): int {
    if es == [] then t
    else Latest(es[1..], if es[0].Tick? && t < es[0].now then es[0].now else t)
  }

  /** However the clock jumps, the time remembered is the latest ever seen. */
  lemma {:induction false} ClockIsLatest(s: State, es: seq<Event>)
    ensures Run(s, es).oldtime == Latest(es, s.oldtime)
    decreases es
  {
    if es != [] {
      ClockIsLatest(Step(s, es[0]), es[1..]);
    }
  }

  // ------------------------------------------------------------------
  // The rate of service.

  /** A line waits before and after each event. */
  predicate Waiting(s: State, es: seq<Event>)
    decreases es
  {
    s.queue != [] && (es == [] || Waiting(Step(s, es[0]), es[1..]))
  }

  /** The clock ticks every second, from t on. */
  predicate EverySecond(es: seq<Event>, t: int)
    decreases es
  {
    es == [] || if es[0].Tick? then es[0].now == t + 1 && EverySecond(es[1..], t + 1) else EverySecond(es[1..], t)
  }

  lemma FixedRest(es: seq<Event>, limits: Limits)
    requires es != [] && FixedLimits(es, limits)
    ensures FixedLimits(es[1..], limits) && (es[0].Tick? ==> es[0].limits == limits)
  {
    forall i | 0 <= i < |es[1..]| ensures es[1..][i] == es[i + 1] {}
  }

  lemma LatestGrows(es: seq<Event>, t: int)
    ensures t <= Latest(es, t)
  {
  }

  lemma OnePeriodMore(t: int, since: int, f: int)
    requires 0 < f && since + f <= t
    ensures (t - since) / f == 1 + (t - (since + f)) / f
  {
    var elapsed := t - since;
    var q := (elapsed - f) / f;
    assert f * q <= elapsed - f < f * q + f;
    assert f * (1 + q) == f + f * q;
    WholePeriodsIs(1 + q, elapsed, f);
  }

  /** What one event adds to what is given up to time t. */
  lemma StepServes(s: State, e: Event, limits: Limits, t: int)
    requires Inv(s) && s.queue != [] && 0 < limits.floodtimer && 2 <= limits.burstsize
        && (e.Tick? ==> e.limits == limits)
    requires e.Tick? ==> e.now == s.oldtime + 1 <= t
    requires s.oldtime - s.floodtime < limits.floodtimer
    ensures var s1, f := Step(s, e), limits.floodtimer;
            && s1.oldtime - s1.floodtime < f
            && TotalCost(Emission(s, e)) + s1.msgtimer + (t - s1.floodtime) / f == s.msgtimer + (t - s.floodtime) / f
  {
    var f := limits.floodtimer;
    if IsRefill(s, e) {
      assert WholePeriods(1, f, f);
      OneRefillGives(s, e.now, limits, 1);
      OnePeriodMore(t, s.floodtime, f);
    } else {
      StepSpends(s, e);
    }
  }

  lemma FirstServes(s: State, es: seq<Event>, limits: Limits)
    requires Inv(s) && FixedLimits(es, limits) && 0 < limits.floodtimer && 2 <= limits.burstsize && es != []
    requires Waiting(s, es) && EverySecond(es, s.oldtime) && s.oldtime - s.floodtime < limits.floodtimer
    ensures var s1, rest, f, t := Step(s, es[0]), es[1..], limits.floodtimer, Latest(es, s.oldtime);
            && Inv(s1) && FixedLimits(rest, limits) && Waiting(s1, rest) && EverySecond(rest, s1.oldtime)
            && s1.oldtime - s1.floodtime < f && Latest(rest, s1.oldtime) == t
            && TotalCost(Emission(s, es[0])) + s1.msgtimer + (t - s1.floodtime) / f
                == s.msgtimer + (t - s.floodtime) / f
  {
    FixedRest(es, limits);
    StepKeepsInv(s, es[0]);
    LatestGrows(es[1..], Step(s, es[0]).oldtime);
    StepServes(s, es[0], limits, Latest(es, s.oldtime));
  }

  /** While a line waits, and the clock ticks every second, the server is sent one
      token's worth per floodtimer: no less and no more. */
  lemma {:induction false} ServiceRate(s: State, es: seq<Event>, limits: Limits)
    requires Inv(s) && FixedLimits(es, limits) && 0 < limits.floodtimer && 2 <= limits.burstsize
    requires Waiting(s, es) && EverySecond(es, s.oldtime) && s.oldtime - s.floodtime < limits.floodtimer
    ensures TotalCost(Emissions(s, es)) + Run(s, es).msgtimer
         == s.msgtimer + (Latest(es, s.oldtime) - s.floodtime) / limits.floodtimer
    decreases es
  {
    if es == [] {
      WholePeriodsIs(0, s.oldtime - s.floodtime, limits.floodtimer);
    } else {
      var s1, rest := Step(s, es[0]), es[1..];
      FirstServes(s, es, limits);
      ServiceRate(s1, rest, limits);
      TotalCostAppend(Emission(s, es[0]), Emissions(s1, rest));
    }
  }

  function RefillsIn(s: State, es: seq<Event>): nat
    decreases es
  {
    if es == [] then 0 else (if IsRefill(s, es[0]) then 1 else 0) + RefillsIn(Step(s, es[0]), es[1..])
  }

  /** Whenever the bucket is refilled a line waits, and the last refill is not a
      whole bucket's time ago. */
  predicate Busy(s: State, es: seq<Event>, limits: Limits)
    decreases es
  {
    es == [] ||
    ((IsRefill(s, es[0]) ==> s.queue != [] && es[0].now - s.floodtime < limits.floodtimer * limits.burstsize)
     && Busy(Step(s, es[0]), es[1..], limits))
  }

  /** A token for every f seconds of the time, but for less than f seconds at each
      of n refills. */
  predicate IsFair(f: int, given: int, time: int, n: int) {
    time - (f - 1) * n <= f * given <= time
  }

  lemma FairInAll(f: int, given1: int, time1: int, n1: int, given2: int, time2: int, n2: int,
                  given: int, time: int, n: int)
    requires IsFair(f, given1, time1, n1) && IsFair(f, given2, time2, n2)
    requires given == given1 + given2 && time == time1 + time2 && n == n1 + n2
    ensures IsFair(f, given, time, n)
  {
    assert f * (given1 + given2) == f * given1 + f * given2;
    assert (f - 1) * (n1 + n2) == (f - 1) * n1 + (f - 1) * n2;
  }

  /** The tokens given from one state to another, with what was sent in between. */
  function Given(s: State, sent: seq<Sent>, r: State): int {
    TotalCost(sent) + r.msgtimer - s.msgtimer
  }

  lemma GivenByStep(s: State, e: Event, limits: Limits)
    requires Inv(s) && 0 < limits.floodtimer && 2 <= limits.burstsize && (e.Tick? ==> e.limits == limits)
    requires IsRefill(s, e) ==> s.queue != [] && e.now - s.floodtime < limits.floodtimer * limits.burstsize
    ensures IsFair(limits.floodtimer, Given(s, Emission(s, e), Step(s, e)), Step(s, e).floodtime - s.floodtime,
                   if IsRefill(s, e) then 1 else 0)
  {
    if IsRefill(s, e) {
      TokensOfOne(s, e.now, limits);
    } else {
      StepSpends(s, e);
    }
  }

  lemma GivenByRun(s: State, e: Event, rest: seq<Event>)
    ensures var s1, r := Step(s, e), Run(Step(s, e), rest);
            && Run(s, [e] + rest) == r
            && Given(s, Emissions(s, [e] + rest), r) == Given(s, Emission(s, e), s1) + Given(s1, Emissions(s1, rest), r)
            && RefillsIn(s, [e] + rest) == (if IsRefill(s, e) then 1 else 0) + RefillsIn(s1, rest)
  {
    assert ([e] + rest)[0] == e && ([e] + rest)[1..] == rest;
    TotalCostAppend(Emission(s, e), Emissions(Step(s, e), rest));
  }

  lemma FairRun(s: State, e: Event, rest: seq<Event>, f: int)
    requires IsFair(f, Given(s, Emission(s, e), Step(s, e)), Step(s, e).floodtime - s.floodtime, if IsRefill(s,
        e) then 1 else 0)
    requires var s1, r := Step(s, e), Run(Step(s, e), rest);
             IsFair(f, Given(s1, Emissions(s1, rest), r), r.floodtime - s1.floodtime, RefillsIn(s1, rest))
    ensures var all, r := [e] + rest, Run(s, [e] + rest);
            IsFair(f, Given(s, Emissions(s, all), r), r.floodtime - s.floodtime, RefillsIn(s, all))
  {
    var s1, r := Step(s, e), Run(Step(s, e), rest);
    GivenByRun(s, e, rest);
    FairInAll(f, Given(s, Emission(s, e), s1), s1.floodtime - s.floodtime, if IsRefill(s, e) then 1 else 0,
              Given(s1, Emissions(s1, rest), r), r.floodtime - s1.floodtime, RefillsIn(s1, rest),
              Given(s, Emissions(s, [e] + rest), r), r.floodtime - s.floodtime, RefillsIn(s, [e] + rest));
  }

  /** However unevenly the clock ticks: a busy queue is given a token for every
      floodtimer between first and last refill, but for what is left over at
      each refill, which is less than one floodtimer. */
  lemma {:induction false} TokensForTime(s: State, es: seq<Event>, limits: Limits)
    requires Inv(s) && FixedLimits(es, limits) && 0 < limits.floodtimer && 2 <= limits.burstsize
    requires Busy(s, es, limits)
    ensures IsFair(limits.floodtimer, Given(s, Emissions(s, es), Run(s, es)), Run(s, es).floodtime - s.floodtime,
                   RefillsIn(s, es))
    decreases es
  {
    if es != [] {
      var e, s1, rest := es[0], Step(s, es[0]), es[1..];
      FixedRest(es, limits);
      StepKeepsInv(s, e);
      GivenByStep(s, e, limits);
      TokensForTime(s1, rest, limits);
      assert es == [e] + rest;
      FairRun(s, e, rest, limits.floodtimer);
    }
  }

  lemma TokensOfOne(s: State, now: int, limits: Limits)
    requires Inv(s) && IsRefill(s, Tick(now, limits)) && s.queue != []
    requires 0 < limits.floodtimer && 2 <= limits.burstsize
    requires now - s.floodtime < limits.floodtimer * limits.burstsize
    ensures var f, e := limits.floodtimer, Tick(now, limits);
            var given := TotalCost(Emission(s, e)) + Step(s, e).msgtimer - s.msgtimer;
            && Step(s, e).floodtime == now
            && now - s.floodtime - (f - 1) <= f * given <= now - s.floodtime
  {
    var f, elapsed := limits.floodtimer, now - s.floodtime;
    var k := elapsed / f;
    assert f * k <= elapsed < f * k + f;
    OneRefillGives(s, now, limits, k);
    if limits.burstsize <= k {
      PeriodsGrow(f, limits.burstsize, k);
    }
  }
}
