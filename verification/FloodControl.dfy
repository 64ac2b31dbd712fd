/**
 The outgoing flood control of miau: a token bucket (`msgtimer`) in front of a
 queue of lines bound for the server (src/irc.c, refilled from src/miau.c).

 A line is sent at once while the bucket holds more than one token; otherwise
 it joins the queue, at the tail or (PONGs, automatic modes) at the head. The
 clock refills the bucket and drains the queue; a queued MODE line costs two.
 */
module FloodControl {
  import opened Ascii
  import opened Messages
  import opened Sequences

  datatype Place = Head | Tail

  /** A formatted line. `place` records which end its caller asked for; no
      decision below reads it once the line is in the queue. */
  datatype Line = Line(text: string, place: Place)

  /** The two configuration values; the parser forces burstsize to be at least 1. */
  datatype LimitValues = Limits(floodtimer: nat, burstsize: nat)
  type Limits = l: LimitValues | 1 <= l.burstsize witness Limits(2, 5)

  /** A transmitted line, and whether it came out of the queue. */
  datatype Sent = Sent(line: Line, queued: bool)

  datatype State = State(msgtimer: int, queue: seq<Line>, floodtime: int, oldtime: int)

  datatype Event =
    | Write(line: Line)
    | Tick(now: int, limits: Limits)
    | Clear

  const INITIAL := State(0, [], 0, 0)

  predicate IsMode(text: string) {
    4 <= |text| && text[0] == 'M' && text[1] == 'O' && text[2] == 'D' && text[3] == 'E'
  }

  /** Tokens that sending `line` from the queue takes. */
  function QueueCost(line: Line): nat {
    if IsMode(line.text) then 2 else 1
  }

  function Cost(x: Sent): nat {
    if x.queued then QueueCost(x.line) else 1
  }

  function TotalCost(xs: seq<Sent>): nat {
    if xs == [] then 0 else Cost(xs[0]) + TotalCost(xs[1..])
  }

  function Lines(xs: seq<Sent>): seq<Line> {
    if xs == [] then [] else [xs[0].line] + Lines(xs[1..])
  }

  /** What the processing loop sends, what it leaves, and the tokens it leaves. */
  datatype Drained = Drained(sent: seq<Sent>, rest: seq<Line>, timer: int)

  function Drain(timer: int, q: seq<Line>): Drained {
    if q == [] || timer <= 0 then Drained([], q, timer)
    else
      var d := Drain(timer - QueueCost(q[0]), q[1..]);
      d.(sent := [Sent(q[0], true)] + d.sent)
  }

  predicate RefillDue(s: State, now: int, limits: Limits) {
    s.oldtime < now && limits.floodtimer <= now - s.floodtime && s.msgtimer < limits.burstsize
  }

  function Refilled(timer: int, elapsed: int, limits: Limits): int {
    if limits.floodtimer == 0 then limits.burstsize
    else
      var t := timer + elapsed / limits.floodtimer;
      if t > limits.burstsize then limits.burstsize else t
  }

  function RefillDrain(s: State, now: int, limits: Limits): Drained {
    Drain(Refilled(s.msgtimer, now - s.floodtime, limits), s.queue)
  }

  function Step(s: State, e: Event): State {
    match e
    case Write(line) =>
      if s.msgtimer > 1 then s.(msgtimer := s.msgtimer - 1)
      else if line.place == Tail then s.(queue := s.queue + [line])
      else s.(queue := [line] + s.queue)
    case Tick(now, limits) =>
      if now <= s.oldtime then s
      else if !RefillDue(s, now, limits) then s.(oldtime := now)
      else
        var d := RefillDrain(s, now, limits);
        State(d.timer, d.rest, now, now)
    case Clear => s.(queue := [])
  }

  /** What a step puts on the wire. */
  function Emission(s: State, e: Event): seq<Sent> {
    match e
    case Write(line) => if s.msgtimer > 1 then [Sent(line, false)] else []
    case Tick(now, limits) =>
      if RefillDue(s, now, limits) then RefillDrain(s, now, limits).sent else []
    case Clear => []
  }

  function Run(s: State, es: seq<Event>): State
    decreases es
  {
    if es == [] then s else Run(Step(s, es[0]), es[1..])
  }

  function Emissions(s: State, es: seq<Event>): seq<Sent>
    decreases es
  {
    if es == [] then [] else Emission(s, es[0]) + Emissions(Step(s, es[0]), es[1..])
  }

  lemma DrainTurn(timer: int, q: seq<Line>, sent: seq<Sent>)
    requires q != [] && 0 < timer
    ensures var d, d1 := Drain(timer, q), Drain(timer - QueueCost(q[0]), q[1..]);
            d.(sent := sent + d.sent) == d1.(sent := sent + [Sent(q[0], true)] + d1.sent)
  {
    var d1 := Drain(timer - QueueCost(q[0]), q[1..]);
    assert sent + ([Sent(q[0], true)] + d1.sent) == sent + [Sent(q[0], true)] + d1.sent;
  }

  // ------------------------------------------------------------------
  // The code's own form: globals updated by loops.

  class Sender {
    var msgtimer: int
    var queue: seq<Line>
    var floodtime: int
    var oldtime: int
    ghost var wire: seq<Sent>

    ghost function Now(): State
      reads this
    {
      State(msgtimer, queue, floodtime, oldtime)
    }

    constructor ()
      ensures Now() == INITIAL && wire == []
    {
      msgtimer, queue, floodtime, oldtime, wire := 0, [], 0, 0, [];
    }

    /** The text is cut to the buffer, then sent or queued. */
    method WriteSmart(text: CString, place: Place)
      modifies this
      ensures Now() == Step(old(Now()), Write(Line(Formatted(text), place)))
      ensures wire == old(wire) + Emission(old(Now()), Write(Line(Formatted(text), place)))
    {
      var line := Line(Formatted(text), place);
      if msgtimer > 1 {
        msgtimer := msgtimer - 1;
        wire := wire + [Sent(line, false)];
      } else if line.place == Tail {
        queue := queue + [line];
      } else {
        queue := [line] + queue;
      }
    }

    method ProcessQueue()
      modifies this`msgtimer, this`queue, this`wire
      ensures var d := Drain(old(msgtimer), old(queue));
              msgtimer == d.timer && queue == d.rest && wire == old(wire) + d.sent
    {
      ghost var sent := [];
      while queue != [] && msgtimer > 0
        invariant wire == old(wire) + sent
        invariant var d := Drain(msgtimer, queue);
                  Drain(old(msgtimer), old(queue)) == d.(sent := sent + d.sent)
        decreases |queue|
      {
        var line := queue[0];
        DrainTurn(msgtimer, queue, sent);
        wire := wire + [Sent(line, true)];
        if IsMode(line.text) {
          msgtimer := msgtimer - 1;
        }
        queue := queue[1..];
        msgtimer := msgtimer - 1;
        sent := sent + [Sent(line, true)];
      }
    }

    method ClearQueue()
      modifies this`queue
      ensures Now() == Step(old(Now()), Clear)
    {
      while queue != []
        decreases |queue|
      {
        queue := queue[1..];
      }
    }

    method CheckTimers(now: int, limits: Limits)
      modifies this
      ensures Now() == Step(old(Now()), Tick(now, limits))
      ensures wire == old(wire) + Emission(old(Now()), Tick(now, limits))
    {
      if now <= oldtime {
        return;
      }
      oldtime := now;
      if now - floodtime >= limits.floodtimer && msgtimer < limits.burstsize {
        if limits.floodtimer != 0 {
          msgtimer := msgtimer + (now - floodtime) / limits.floodtimer;
          if msgtimer > limits.burstsize {
            msgtimer := limits.burstsize;
          }
        } else {
          msgtimer := limits.burstsize;
        }
        floodtime := now;
        ProcessQueue();
      }
    }
  }

  // ------------------------------------------------------------------
  // What every step keeps.

  /** The bucket is never more than one token in debt, and whenever a line
      waits, the bucket is too low for anything to be sent past it. */
  predicate Inv(s: State) {
    && -1 <= s.msgtimer
    && (s.queue != [] ==> s.msgtimer <= 1)
    && s.floodtime <= s.oldtime
  }

  lemma {:induction false} DrainConserves(timer: int, q: seq<Line>)
    ensures var d := Drain(timer, q);
            Lines(d.sent) + d.rest == q && TotalCost(d.sent) == timer - d.timer
  {
    if q != [] && 0 < timer {
      DrainConserves(timer - QueueCost(q[0]), q[1..]);
      var d := Drain(timer - QueueCost(q[0]), q[1..]);
      assert ([Sent(q[0], true)] + d.sent)[1..] == d.sent;
      assert [q[0]] + Lines(d.sent) + d.rest == q;
    }
  }

  lemma {:induction false} DrainStops(timer: int, q: seq<Line>)
    requires -1 <= timer
    ensures var d := Drain(timer, q);
            && -1 <= d.timer <= timer
            && (d.rest == [] || d.timer <= 0)
            && (0 < timer && q != [] ==> d.sent != [])
            && (2 <= timer && |d.sent| == 1 ==> 0 <= d.timer)
  {
    if q != [] && 0 < timer {
      DrainStops(timer - QueueCost(q[0]), q[1..]);
    }
  }

  lemma RefilledGrows(timer: int, elapsed: int, limits: Limits)
    requires timer < limits.burstsize && limits.floodtimer <= elapsed
    ensures timer + 1 <= Refilled(timer, elapsed, limits) <= limits.burstsize
    ensures 0 < limits.floodtimer ==>
              Refilled(timer, elapsed, limits) <= timer + elapsed / limits.floodtimer
  {
    if limits.floodtimer != 0 {
      QuotientBelow(elapsed, limits.floodtimer, 1);
    }
  }

  /** All there is to know of a tick that refills the bucket. */
  lemma RefillTick(s: State, now: int, limits: Limits)
    requires Inv(s) && RefillDue(s, now, limits)
    ensures var timer, d := Refilled(s.msgtimer, now - s.floodtime, limits), RefillDrain(s, now, limits);
            && s.msgtimer + 1 <= timer <= limits.burstsize
            && (0 < limits.floodtimer ==> timer <= s.msgtimer + (now - s.floodtime) / limits.floodtimer)
            && TotalCost(d.sent) == timer - d.timer
            && Lines(d.sent) + d.rest == s.queue
            && -1 <= d.timer <= timer
            && (d.rest == [] || d.timer <= 0)
            && (0 < timer && s.queue != [] ==> d.sent != [])
            && (2 <= timer && |d.sent| == 1 ==> 0 <= d.timer)
  {
    var timer := Refilled(s.msgtimer, now - s.floodtime, limits);
    RefilledGrows(s.msgtimer, now - s.floodtime, limits);
    DrainConserves(timer, s.queue);
    DrainStops(timer, s.queue);
  }

  lemma StepKeepsInv(s: State, e: Event)
    requires Inv(s)
    ensures Inv(Step(s, e))
  {
    if e.Tick? && RefillDue(s, e.now, e.limits) {
      RefillTick(s, e.now, e.limits);
    }
  }

  lemma {:induction false} RunKeepsInv(s: State, es: seq<Event>)
    requires Inv(s)
    ensures Inv(Run(s, es))
    decreases es
  {
    if es != [] {
      StepKeepsInv(s, es[0]);
      RunKeepsInv(Step(s, es[0]), es[1..]);
    }
  }

  // ------------------------------------------------------------------
  // No overtaking.

  function Tails(ls: seq<Line>): seq<Line> {
    if ls == [] then [] else (if ls[0].place == Tail then [ls[0]] else []) + Tails(ls[1..])
  }

  lemma {:induction false} TailsAppend(a: seq<Line>, b: seq<Line>)
    ensures Tails(a + b) == Tails(a) + Tails(b)
  {
    if a == [] {
      assert a + b == b;
    } else {
      TailsAppend(a[1..], b);
      assert (a + b)[0] == a[0] && (a + b)[1..] == a[1..] + b;
      Regroup(if a[0].place == Tail then [a[0]] else [], Tails(a[1..]), Tails(b));
    }
  }

  /** The lines handed in for the tail of the queue, in the order of the calls. */
  function Submitted(es: seq<Event>): seq<Line> {
    if es == [] then []
    else (if es[0].Write? && es[0].line.place == Tail then [es[0].line] else []) + Submitted(es[1..])
  }

  lemma StepTailOrder(s: State, e: Event)
    requires Inv(s) && !e.Clear?
    ensures Tails(s.queue) + Submitted([e])
         == Tails(Lines(Emission(s, e))) + Tails(Step(s, e).queue)
  {
    assert Submitted([e][1..]) == [];
    match e
    case Write(line) =>
      if s.msgtimer > 1 {
        assert s.queue == [];
        assert Lines([Sent(line, false)][1..]) == [];
      } else if line.place == Tail {
        TailsAppend(s.queue, [line]);
      } else {
        TailsAppend([line], s.queue);
      }
    case Tick(now, limits) =>
      if RefillDue(s, now, limits) {
        RefillTick(s, now, limits);
        TailsAppend(Lines(Emission(s, e)), Step(s, e).queue);
      }
  }

  lemma {:induction false} LinesAppend(a: seq<Sent>, b: seq<Sent>)
    ensures Lines(a + b) == Lines(a) + Lines(b)
  {
    if a == [] {
      assert a + b == b;
    } else {
      LinesAppend(a[1..], b);
      assert (a + b)[0] == a[0] && (a + b)[1..] == a[1..] + b;
    }
  }

  lemma Balance<T>(q: seq<T>, in1: seq<T>, out1: seq<T>, q1: seq<T>, in2: seq<T>, out2: seq<T>, q2: seq<T>)
    requires q + in1 == out1 + q1 && q1 + in2 == out2 + q2
    ensures q + (in1 + in2) == (out1 + out2) + q2
  {
    assert q + (in1 + in2) == (q + in1) + in2 == out1 + (q1 + in2) == (out1 + out2) + q2;
  }

  lemma SubmittedSplit(es: seq<Event>)
    requires es != []
    ensures Submitted(es) == Submitted([es[0]]) + Submitted(es[1..])
  {
    assert [es[0]][1..] == [];
  }

  lemma SentTailsAppend(a: seq<Sent>, b: seq<Sent>)
    ensures Tails(Lines(a + b)) == Tails(Lines(a)) + Tails(Lines(b))
  {
    LinesAppend(a, b);
    TailsAppend(Lines(a), Lines(b));
  }

  lemma {:induction false} RunTailOrder(s: State, es: seq<Event>)
    requires Inv(s) && Clear !in es
    ensures Tails(s.queue) + Submitted(es)
         == Tails(Lines(Emissions(s, es))) + Tails(Run(s, es).queue)
    decreases es
  {
    if es == [] {
      assert Tails(s.queue) + [] == [] + Tails(s.queue);
    } else {
      var e, s1, rest := es[0], Step(s, es[0]), es[1..];
      assert Inv(s1) by { StepKeepsInv(s, e); }
      StepTailOrder(s, e);
      RunTailOrder(s1, rest);
      SubmittedSplit(es);
      SentTailsAppend(Emission(s, e), Emissions(s1, rest));
      assert Run(s, es) == Run(s1, rest);
      Balance(Tails(s.queue), Submitted([e]), Tails(Lines(Emission(s, e))), Tails(s1.queue),
              Submitted(rest), Tails(Lines(Emissions(s1, rest))), Tails(Run(s1, rest).queue));
    }
  }

  lemma {:induction false} RunAppend(s: State, a: seq<Event>, b: seq<Event>)
    ensures Run(s, a + b) == Run(Run(s, a), b)
    ensures Emissions(s, a + b) == Emissions(s, a) + Emissions(Run(s, a), b)
    decreases a
  {
    if a == [] {
      assert a + b == b;
    } else {
      assert (a + b)[0] == a[0] && (a + b)[1..] == a[1..] + b;
      RunAppend(Step(s, a[0]), a[1..], b);
    }
  }

  /** In every run, since the last clear, the tail lines transmitted followed by
      the tail lines still waiting are the tail submissions, in order. The
      limits may change at any tick and head lines may be mixed in at will. */
  lemma {:induction false} NoOvertaking(before: seq<Event>, since: seq<Event>)
    requires before == [] || before[|before| - 1] == Clear
    requires Clear !in since
    ensures var s := Run(INITIAL, before);
            Tails(Lines(Emissions(s, since))) + Tails(Run(s, since).queue) == Submitted(since)
  {
    RunKeepsInv(INITIAL, before);
    if before != [] {
      var k := |before| - 1;
      assert before == before[..k] + [Clear];
      RunAppend(INITIAL, before[..k], [Clear]);
      assert Run(Run(INITIAL, before[..k]), [Clear]).queue == [];
    }
    RunTailOrder(Run(INITIAL, before), since);
  }

  /** A line written to the head is on the wire at once, or next in line. */
  lemma HeadLineIsNext(s: State, line: Line)
    requires Inv(s) && line.place == Head
    ensures var s1 := Step(s, Write(line));
            || (s.queue == [] && Emission(s, Write(line)) == [Sent(line, false)] && s1.queue == [])
            || (Emission(s, Write(line)) == [] && s1.queue == [line] + s.queue)
  {
  }

  /** A line written to the tail is on the wire at once, or last in line. */
  lemma TailLineIsLast(s: State, line: Line)
    requires Inv(s) && line.place == Tail
    ensures var s1 := Step(s, Write(line));
            || (s.queue == [] && Emission(s, Write(line)) == [Sent(line, false)] && s1.queue == [])
            || (Emission(s, Write(line)) == [] && s1.queue == s.queue + [line])
  {
  }

  // ------------------------------------------------------------------
  // The rate bound.

  predicate FixedLimits(es: seq<Event>, limits: Limits) {
    forall i :: 0 <= i < |es| && es[i].Tick? ==> es[i].limits == limits
  }

  predicate TicksWithin(es: seq<Event>, t0: int, t1: int) {
    forall i :: 0 <= i < |es| && es[i].Tick? ==> t0 <= es[i].now <= t1
  }

  lemma QuotientSum(a: int, b: int, f: int)
    requires 0 < f && 0 <= a && 0 <= b
    ensures a / f + b / f <= (a + b) / f
  {
    var q := a / f + b / f;
    assert f * q == f * (a / f) + f * (b / f) <= a + b;
    QuotientBelow(a + b, f, q);
  }

  lemma PositiveFactor(f: int, x: int)
    requires 0 < f && 0 < f * x
    ensures 0 < x
  {
  }

  lemma QuotientBelow(a: int, f: int, q: int)
    requires 0 < f && f * q <= a
    ensures q <= a / f
  {
    assert a < f * (a / f) + f;
    assert f * (a / f + 1 - q) == f * (a / f) + f - f * q;
    PositiveFactor(f, a / f + 1 - q);
  }

  lemma {:induction false} TotalCostAppend(a: seq<Sent>, b: seq<Sent>)
    ensures TotalCost(a + b) == TotalCost(a) + TotalCost(b)
  {
    if a == [] {
      assert a + b == b;
    } else {
      assert (a + b)[0] == a[0] && (a + b)[1..] == a[1..] + b;
      TotalCostAppend(a[1..], b);
    }
  }

  lemma StepKeepsCap(s: State, e: Event, limits: Limits)
    requires Inv(s) && s.msgtimer <= limits.burstsize && FixedLimits([e], limits)
    ensures Inv(Step(s, e)) && Step(s, e).msgtimer <= limits.burstsize
  {
    StepKeepsInv(s, e);
    assert [e][0] == e;
    if e.Tick? && RefillDue(s, e.now, e.limits) {
      RefillTick(s, e.now, e.limits);
    }
  }

  /** With fixed limits the bucket always holds between -1 and burstsize tokens. */
  lemma {:induction false} TimerStaysInRange(es: seq<Event>, limits: Limits)
    requires FixedLimits(es, limits)
    ensures -1 <= Run(INITIAL, es).msgtimer <= limits.burstsize
  {
    if es != [] {
      var k := |es| - 1;
      assert es == es[..k] + [es[k]];
      RunAppend(INITIAL, es[..k], [es[k]]);
      TimerStaysInRange(es[..k], limits);
      RunKeepsInv(INITIAL, es[..k]);
      StepKeepsCap(Run(INITIAL, es[..k]), es[k], limits);
    }
  }

  /** From a state whose last refill was at `floodtime`, spending up to t1 is
      what the bucket holds, one token of debt, and the refills since. */
  lemma {:induction false} SpendSinceRefill(s: State, es: seq<Event>, limits: Limits, t1: int)
    requires Inv(s) && 0 < limits.floodtimer && FixedLimits(es, limits)
    requires s.floodtime <= t1 && forall i :: 0 <= i < |es| && es[i].Tick? ==> es[i].now <= t1
    ensures TotalCost(Emissions(s, es)) <= s.msgtimer + 1 + (t1 - s.floodtime) / limits.floodtimer
    decreases es
  {
    var f := limits.floodtimer;
    if es == [] {
      QuotientBelow(t1 - s.floodtime, f, 0);
    } else {
      var e, s1 := es[0], Step(s, es[0]);
      StepKeepsInv(s, e);
      TotalCostAppend(Emission(s, e), Emissions(s1, es[1..]));
      SpendSinceRefill(s1, es[1..], limits, t1);
      if e.Tick? && RefillDue(s, e.now, e.limits) {
        RefillTick(s, e.now, e.limits);
        QuotientSum(e.now - s.floodtime, t1 - e.now, f);
      }
    }
  }

  /** The refill that opens a window may be worth a whole bucket. */
  lemma SpendFromFirstRefill(s: State, es: seq<Event>, limits: Limits, t0: int, t1: int)
    requires Inv(s) && 0 < limits.floodtimer && FixedLimits(es, limits) && TicksWithin(es, t0, t1)
    requires es != [] && es[0].Tick? && RefillDue(s, es[0].now, limits)
    ensures TotalCost(Emissions(s, es)) <= limits.burstsize + 1 + (t1 - t0) / limits.floodtimer
  {
    var e, s1 := es[0], Step(s, es[0]);
    var later := (t1 - e.now) / limits.floodtimer;
    assert later <= (t1 - t0) / limits.floodtimer by {
      QuotientBelow(e.now - t0, limits.floodtimer, 0);
      QuotientSum(e.now - t0, t1 - e.now, limits.floodtimer);
    }
    assert TotalCost(Emissions(s1, es[1..])) <= s1.msgtimer + 1 + later by {
      StepKeepsInv(s, e);
      SpendSinceRefill(s1, es[1..], limits, t1);
    }
    RefillTick(s, e.now, limits);
    TotalCostAppend(Emission(s, e), Emissions(s1, es[1..]));
  }

  lemma {:induction false} SpendInWindow(s: State, es: seq<Event>, limits: Limits, t0: int, t1: int)
    requires Inv(s) && s.msgtimer <= limits.burstsize
    requires 0 < limits.floodtimer && FixedLimits(es, limits)
    requires t0 <= t1 && TicksWithin(es, t0, t1)
    ensures TotalCost(Emissions(s, es)) <= (if s.msgtimer > 1 then s.msgtimer - 1 else 0)
                                         + limits.burstsize + 1 + (t1 - t0) / limits.floodtimer
    decreases es
  {
    QuotientBelow(t1 - t0, limits.floodtimer, 0);
    if es != [] {
      var e, s1 := es[0], Step(s, es[0]);
      if e.Tick? && RefillDue(s, e.now, limits) {
        SpendFromFirstRefill(s, es, limits, t0, t1);
      } else {
        StepKeepsInv(s, e);
        TotalCostAppend(Emission(s, e), Emissions(s1, es[1..]));
        SpendInWindow(s1, es[1..], limits, t0, t1);
        if e.Write? && s.msgtimer > 1 {
          assert Emission(s, e)[1..] == [];
        }
      }
    }
  }

  /** In every window of every run the lines sent, queued MODE lines counted
      twice, are at most two bursts plus one line per floodtimer seconds. */
  lemma RateBound(before: seq<Event>, window: seq<Event>, limits: Limits, t0: int, t1: int)
    requires FixedLimits(before, limits) && FixedLimits(window, limits) && 0 < limits.floodtimer
    requires t0 <= t1 && TicksWithin(window, t0, t1)
    ensures TotalCost(Emissions(Run(INITIAL, before), window))
         <= 2 * limits.burstsize + (t1 - t0) / limits.floodtimer
  {
    RunKeepsInv(INITIAL, before);
    TimerStaysInRange(before, limits);
    SpendInWindow(Run(INITIAL, before), window, limits, t0, t1);
  }

  // The bound is sharp: an idle period leaves a full bucket and an old
  // floodtime, and then two bursts go out in the same second.

  const PLAIN := Line("PRIVMSG #c :x", Tail)
  const MODE_LINE := Line("MODE #c +o x", Tail)

  function Repeat<T>(x: T, n: nat): seq<T> {
    if n == 0 then [] else [x] + Repeat(x, n - 1)
  }

  lemma {:induction false} DirectBurst(s: State, n: nat)
    requires s.queue == [] && n < s.msgtimer
    ensures Run(s, Repeat(Write(PLAIN), n)) == s.(msgtimer := s.msgtimer - n)
    ensures TotalCost(Emissions(s, Repeat(Write(PLAIN), n))) == n
    decreases n
  {
    if n != 0 {
      var es := Repeat(Write(PLAIN), n);
      assert es[1..] == Repeat(Write(PLAIN), n - 1);
      DirectBurst(Step(s, Write(PLAIN)), n - 1);
      TotalCostAppend(Emission(s, Write(PLAIN)), Emissions(Step(s, es[0]), es[1..]));
    }
  }

  lemma {:induction false} QueueUp(s: State, n: nat)
    requires s.msgtimer <= 1
    ensures Run(s, Repeat(Write(PLAIN), n)) == s.(queue := s.queue + Repeat(PLAIN, n))
    ensures Emissions(s, Repeat(Write(PLAIN), n)) == []
    decreases n
  {
    if n == 0 {
      assert s.queue + [] == s.queue;
    } else {
      var es := Repeat(Write(PLAIN), n);
      assert es[1..] == Repeat(Write(PLAIN), n - 1);
      QueueUp(Step(s, Write(PLAIN)), n - 1);
      assert s.queue + [PLAIN] + Repeat(PLAIN, n - 1) == s.queue + Repeat(PLAIN, n);
    }
  }

  lemma {:induction false} DrainBurst(n: nat)
    ensures var d := Drain(n + 1, Repeat(PLAIN, n) + [MODE_LINE]); d.timer == -1 && d.rest == []
  {
    var q := Repeat(PLAIN, n) + [MODE_LINE];
    if n == 0 {
      assert q == [MODE_LINE] && q[1..] == [];
    } else {
      DrainBurst(n - 1);
      assert q[0] == PLAIN && q[1..] == Repeat(PLAIN, n - 1) + [MODE_LINE];
    }
  }

  lemma {:induction false} DrainPlain(b: nat, more: seq<Line>)
    ensures var d := Drain(b, Repeat(PLAIN, b) + more); d.timer == 0 && d.rest == more
  {
    var q := Repeat(PLAIN, b) + more;
    if b == 0 {
      assert q == more;
    } else {
      DrainPlain(b - 1, more);
      assert q[0] == PLAIN && q[1..] == Repeat(PLAIN, b - 1) + more;
    }
  }

  lemma {:induction false} RepeatSplit(a: nat, b: nat, more: seq<Line>)
    ensures Repeat(PLAIN, a + b) + more == Repeat(PLAIN, a) + (Repeat(PLAIN, b) + more)
  {
    if a == 0 {
      assert [] + (Repeat(PLAIN, b) + more) == Repeat(PLAIN, b) + more;
    } else {
      RepeatSplit(a - 1, b, more);
      Regroup([PLAIN], Repeat(PLAIN, a - 1 + b), more);
      Regroup([PLAIN], Repeat(PLAIN, a - 1), Repeat(PLAIN, b) + more);
    }
  }

  /** A refill of one token every floodtimer seconds, k times after t. */
  function Ticking(t: int, k: nat, limits: Limits): seq<Event>
    decreases k
  {
    if k == 0 then [] else [Tick(t + limits.floodtimer, limits)] + Ticking(t + limits.floodtimer, k - 1, limits)
  }

  lemma {:induction false} TickingWithin(t: int, k: nat, limits: Limits)
    ensures FixedLimits(Ticking(t, k, limits), limits)
    ensures TicksWithin(Ticking(t, k, limits), t, t + limits.floodtimer * k)
    decreases k
  {
    if k != 0 {
      TickingWithin(t + limits.floodtimer, k - 1, limits);
      var es, rest := Ticking(t, k, limits), Ticking(t + limits.floodtimer, k - 1, limits);
      assert limits.floodtimer * k == limits.floodtimer + limits.floodtimer * (k - 1);
      forall i | 0 <= i < |es| && es[i].Tick?
        ensures es[i].limits == limits && t <= es[i].now <= t + limits.floodtimer * k
      {
        if i != 0 { assert es[i] == rest[i - 1]; } else { FactorGrows(limits.floodtimer, k); }
      }
    }
  }

  lemma FactorGrows(f: nat, k: nat)
    requires 1 <= k
    ensures f <= f * k
  {
    assert f * k == f + f * (k - 1);
  }

  /** A refill of one token sends one line. */
  lemma OneRefill(s: State, k: nat, limits: Limits)
    requires Inv(s) && s.msgtimer == 0 < limits.floodtimer && 1 <= k && s.floodtime == s.oldtime
    requires s.queue == Repeat(PLAIN, k - 1) + [MODE_LINE]
    ensures var t := s.floodtime + limits.floodtimer;
            var e := Tick(t, limits);
            && Inv(Step(s, e))
            && (if k == 1 then TotalCost(Emission(s, e)) == 2
                else TotalCost(Emission(s, e)) == 1 && Step(s, e) == State(0, Repeat(PLAIN, k - 2) + [MODE_LINE], t, t))
  {
    var t := s.floodtime + limits.floodtimer;
    StepKeepsInv(s, Tick(t, limits));
    RefillTick(s, t, limits);
    TimesExact(limits.floodtimer, 1);
    assert Refilled(0, limits.floodtimer, limits) == 1;
    if k == 1 {
      assert s.queue == [MODE_LINE];
      DrainBurst(0);
      assert Repeat(PLAIN, 0) + [MODE_LINE] == [MODE_LINE];
    } else {
      RepeatSplit(1, k - 2, [MODE_LINE]);
      DrainPlain(1, Repeat(PLAIN, k - 2) + [MODE_LINE]);
    }
  }

  /** One token at a time, and a MODE line for the last. */
  lemma {:induction false} SlowDrain(s: State, k: nat, limits: Limits)
    requires Inv(s) && s.msgtimer == 0 < limits.floodtimer && 1 <= k && s.floodtime == s.oldtime
    requires s.queue == Repeat(PLAIN, k - 1) + [MODE_LINE]
    ensures TotalCost(Emissions(s, Ticking(s.floodtime, k, limits))) == k + 1
    decreases k
  {
    var t := s.floodtime + limits.floodtimer;
    var e, rest := Tick(t, limits), Ticking(t, k - 1, limits);
    OneRefill(s, k, limits);
    EmissionsAfter(s, e, rest);
    var s1 := Step(s, e);
    assert Ticking(s.floodtime, k, limits) == [e] + rest;
    if k == 1 {
      assert Emissions(s1, rest) == [];
    } else {
      assert s1 == State(0, Repeat(PLAIN, k - 2) + [MODE_LINE], t, t);
      SlowDrain(s1, k - 1, limits);
    }
  }

  lemma EmissionsAfter(s: State, e: Event, rest: seq<Event>)
    ensures Emissions(s, [e] + rest) == Emission(s, e) + Emissions(Step(s, e), rest)
    ensures TotalCost(Emissions(s, [e] + rest)) == TotalCost(Emission(s, e)) + TotalCost(Emissions(Step(s, e), rest))
  {
    assert ([e] + rest)[0] == e && ([e] + rest)[1..] == rest;
    TotalCostAppend(Emission(s, e), Emissions(Step(s, e), rest));
  }

  /** A burst and n lines more, a MODE line last, and time for all to go out. */
  function LateBurst(n: nat, t: int, limits: Limits): seq<Event> {
    Repeat(Write(PLAIN), limits.burstsize - 1 + n) + ([Write(MODE_LINE)] + ([Tick(t, limits)] + Ticking(t, n, limits)))
  }

  /** A tick at t refills the whole bucket. */
  predicate FillsUp(s: State, t: int, limits: Limits) {
    0 < limits.floodtimer && RefillDue(s, t, limits) && Refilled(s.msgtimer, t - s.floodtime, limits) == limits.burstsize
  }

  /** Refilled after idling, the bucket takes the lines waiting with it. */
  lemma SpendWaiting(s: State, n: nat, t: int, limits: Limits)
    requires Inv(s) && FillsUp(s, t, limits)
    requires s.queue == Repeat(PLAIN, limits.burstsize - 1 + n) + [MODE_LINE]
    ensures TotalCost(Emissions(s, [Tick(t, limits)] + Ticking(t, n, limits))) == limits.burstsize + n + 1
  {
    EmissionsAfter(s, Tick(t, limits), Ticking(t, n, limits));
    FirstRefill(s, n, t, limits);
    if n == 0 {
      assert Emissions(Step(s, Tick(t, limits)), []) == [];
    } else {
      SlowDrain(Step(s, Tick(t, limits)), n, limits);
    }
  }

  lemma FirstRefill(s: State, n: nat, t: int, limits: Limits)
    requires Inv(s) && FillsUp(s, t, limits)
    requires s.queue == Repeat(PLAIN, limits.burstsize - 1 + n) + [MODE_LINE]
    ensures var b, e := limits.burstsize, Tick(t, limits);
            && Inv(Step(s, e))
            && (if n == 0 then TotalCost(Emission(s, e)) == b + 1
                else TotalCost(Emission(s, e)) == b && Step(s, e) == State(0, Repeat(PLAIN, n - 1) + [MODE_LINE], t, t))
  {
    var b := limits.burstsize;
    StepKeepsInv(s, Tick(t, limits));
    RefillTick(s, t, limits);
    if n == 0 {
      DrainBurst(b - 1);
    } else {
      RepeatSplit(b, n - 1, [MODE_LINE]);
      DrainPlain(b, Repeat(PLAIN, n - 1) + [MODE_LINE]);
    }
  }

  lemma QueuedFirst(s: State, k: nat, more: seq<Event>)
    requires s.msgtimer <= 1 && s.queue == []
    ensures Emissions(s, Repeat(Write(PLAIN), k) + more) == Emissions(s.(queue := Repeat(PLAIN, k)), more)
  {
    QueueUp(s, k);
    assert s.queue + Repeat(PLAIN, k) == Repeat(PLAIN, k);
    RunAppend(s, Repeat(Write(PLAIN), k), more);
    assert [] + Emissions(s.(queue := Repeat(PLAIN, k)), more) == Emissions(s.(queue := Repeat(PLAIN, k)), more);
  }

  lemma CostOfLateBurst(s: State, n: nat, t: int, limits: Limits)
    requires Inv(s) && s.msgtimer <= 1 && s.queue == [] && FillsUp(s, t, limits)
    ensures TotalCost(Emissions(s, LateBurst(n, t, limits))) == limits.burstsize + n + 1
  {
    var k, ticks := limits.burstsize - 1 + n, [Tick(t, limits)] + Ticking(t, n, limits);
    var s1 := s.(queue := Repeat(PLAIN, k));
    assert Emissions(s, LateBurst(n, t, limits)) == Emissions(s1, [Write(MODE_LINE)] + ticks) by {
      QueuedFirst(s, k, [Write(MODE_LINE)] + ticks);
    }
    CostOfWaiting(s1, n, t, limits);
  }

  lemma CostOfWaiting(s: State, n: nat, t: int, limits: Limits)
    requires Inv(s) && s.msgtimer <= 1 && s.queue == Repeat(PLAIN, limits.burstsize - 1 + n) && FillsUp(s, t, limits)
    ensures TotalCost(Emissions(s, [Write(MODE_LINE)] + ([Tick(t, limits)] + Ticking(t, n, limits))))
         == limits.burstsize + n + 1
  {
    EmissionsAfter(s, Write(MODE_LINE), [Tick(t, limits)] + Ticking(t, n, limits));
    SpendWaiting(Step(s, Write(MODE_LINE)), n, t, limits);
  }

  lemma TimesExact(f: int, b: int)
    requires 0 < f && 0 <= b
    ensures f * b / f == b
  {
    var q := f * b / f;
    QuotientBelow(f * b, f, b);
    assert f * q <= f * b;
    assert f * (b - q + 1) == f * b - f * q + f;
    PositiveFactor(f, b - q + 1);
  }

  lemma AfterIdling(t: int, limits: Limits)
    requires 0 < limits.floodtimer && 0 < t && limits.burstsize <= t / limits.floodtimer && limits.floodtimer <= t
    ensures Run(INITIAL, [Tick(t, limits)]) == State(limits.burstsize, [], t, t)
  {
    var es := [Tick(t, limits)];
    assert es[1..] == [];
    assert Run(INITIAL, es) == Run(Step(INITIAL, es[0]), []);
  }

  lemma LateBurstWithin(n: nat, t: int, limits: Limits)
    ensures FixedLimits(LateBurst(n, t, limits), limits)
    ensures TicksWithin(LateBurst(n, t, limits), t, t + limits.floodtimer * n)
  {
    var k, ticking := limits.burstsize - 1 + n, Ticking(t, n, limits);
    RepeatWrites(k);
    TickingWithin(t, n, limits);
    assert 0 <= limits.floodtimer * n;
    forall e | e in LateBurst(n, t, limits) && e.Tick?
      ensures e.limits == limits && t <= e.now <= t + limits.floodtimer * n
    {
      if e !in Repeat(Write(PLAIN), k) && e != Tick(t, limits) {
        var i :| 0 <= i < |ticking| && ticking[i] == e;
      }
    }
  }

  /** From a full bucket, the burst that is sent at once goes before. */
  lemma CostFromFull(s: State, n: nat, t: int, limits: Limits)
    requires Inv(s) && 2 <= limits.burstsize && s.msgtimer == limits.burstsize && s.queue == []
    requires 0 < limits.floodtimer && s.oldtime < t
    requires limits.burstsize <= (t - s.floodtime) / limits.floodtimer && limits.floodtimer <= t - s.floodtime
    ensures TotalCost(Emissions(s, Repeat(Write(PLAIN), limits.burstsize - 1) + LateBurst(n, t, limits)))
         == 2 * limits.burstsize + n
  {
    var k := limits.burstsize - 1;
    var writes, s1 := Repeat(Write(PLAIN), k), s.(msgtimer := 1);
    DirectBurst(s, k);
    RunAppend(s, writes, LateBurst(n, t, limits));
    TotalCostAppend(Emissions(s, writes), Emissions(s1, LateBurst(n, t, limits)));
    CostOfLateBurst(s1, n, t, limits);
  }

  lemma WritesThenWithin(k: nat, es: seq<Event>, limits: Limits, t0: int, t1: int)
    requires FixedLimits(es, limits) && TicksWithin(es, t0, t1)
    ensures FixedLimits(Repeat(Write(PLAIN), k) + es, limits) && TicksWithin(Repeat(Write(PLAIN), k) + es, t0, t1)
  {
    RepeatWrites(k);
    forall e | e in Repeat(Write(PLAIN), k) + es && e.Tick?
      ensures e.limits == limits && t0 <= e.now <= t1
    {
      var i :| 0 <= i < |es| && es[i] == e;
    }
  }

  lemma QuotientWithin(a: nat, f: nat)
    requires 0 < f
    ensures f * (a / f) <= a
  {
  }

  /** For all limits and every length of time, a run attains the bound. */
  lemma {:induction false} RateBoundIsSharp(limits: Limits, length: nat)
    returns (before: seq<Event>, window: seq<Event>, t: int)
    requires 0 < limits.floodtimer
    ensures FixedLimits(before, limits) && FixedLimits(window, limits) && TicksWithin(window, t, t + length)
    ensures TotalCost(Emissions(Run(INITIAL, before), window)) == 2 * limits.burstsize + length / limits.floodtimer
  {
    var f, b, n := limits.floodtimer, limits.burstsize, length / limits.floodtimer;
    var t0 := f * b;
    TimesExact(f, b);
    FactorGrows(f, b);
    QuotientWithin(length, f);
    t := t0 + t0;
    LateBurstWithin(n, t, limits);
    if b == 1 {
      before, window := [], LateBurst(n, t, limits);
      QuotientBelow(t, f, b);
      CostOfLateBurst(INITIAL, n, t, limits);
    } else {
      before, window := [Tick(t0, limits)], Repeat(Write(PLAIN), b - 1) + LateBurst(n, t, limits);
      AfterIdling(t0, limits);
      CostFromFull(Run(INITIAL, before), n, t, limits);
      WritesThenWithin(b - 1, LateBurst(n, t, limits), limits, t, t + f * n);
    }
  }

  lemma {:induction false} RepeatWrites(n: nat)
    ensures forall e :: e in Repeat(Write(PLAIN), n) ==> e == Write(PLAIN)
  {
    if n != 0 { RepeatWrites(n - 1); }
  }

  // ------------------------------------------------------------------
  // No starvation, and exactly when.

  function Refills(s: State, es: seq<Event>): nat
    decreases es
  {
    if es == [] then 0 else
      (if es[0].Tick? && RefillDue(s, es[0].now, es[0].limits) then 1 else 0) + Refills(Step(s, es[0]), es[1..])
  }

  /** Only tail writes and ticks, and every tick allows more tokens than `timer`. */
  predicate Serves(es: seq<Event>, timer: int) {
    forall i :: 0 <= i < |es| ==>
      match es[i]
      case Write(line) => line.place == Tail
      case Tick(now, limits) => timer < limits.burstsize
      case Clear => false
  }

  function RefillsNeeded(n: nat, timer: int): int {
    if n == 1 && timer == 1 then 1 else 2 * n - 1 - timer
  }

  lemma PrefixOfBoth<T>(q: seq<T>, n: nat, sent: seq<T>, q1: seq<T>, more: seq<T>)
    requires n <= |q| && sent + q1 == q
    requires |sent| < n ==> q1[..n - |sent|] <= more
    ensures q[..n] <= sent + more
  {
    if |sent| < n {
      assert q[..n] == sent + q1[..n - |sent|];
    } else {
      assert q[..n] == sent[..n];
    }
  }

  /** What a refill leaves of the first n lines needs fewer refills. */
  lemma RefillCountsDown(s: State, e: Event, rest: seq<Event>, n: nat)
    requires Inv(s) && 1 <= n <= |s.queue| && Serves([e] + rest, s.msgtimer)
    requires e.Tick? && RefillDue(s, e.now, e.limits)
    ensures var s1, sent := Step(s, e), Lines(Emission(s, e));
            && Inv(s1) && sent + s1.queue == s.queue
            && (|sent| < n ==> Serves(rest, s1.msgtimer))
            && (|sent| < n ==> RefillsNeeded(n - |sent|, s1.msgtimer) < RefillsNeeded(n, s.msgtimer))
  {
    StepKeepsInv(s, e);
    RefillTick(s, e.now, e.limits);
    LinesLength(Emission(s, e));
    assert ([e] + rest)[0] == e;
    forall i | 0 <= i < |rest| ensures rest[i] == ([e] + rest)[i + 1] {}
  }

  lemma QueueOnlyGrows(s: State, e: Event, rest: seq<Event>)
    requires Inv(s) && s.queue != [] && Serves([e] + rest, s.msgtimer)
    requires !(e.Tick? && RefillDue(s, e.now, e.limits))
    ensures Inv(Step(s, e)) && s.queue <= Step(s, e).queue && Emission(s, e) == []
    ensures Serves(rest, Step(s, e).msgtimer) && Step(s, e).msgtimer == s.msgtimer
  {
    StepKeepsInv(s, e);
    assert ([e] + rest)[0] == e;
    forall i | 0 <= i < |rest| ensures rest[i] == ([e] + rest)[i + 1] {}
  }

  lemma {:induction false} ServedAfter(s: State, es: seq<Event>, n: nat)
    requires Inv(s) && 1 <= n <= |s.queue| && Serves(es, s.msgtimer)
    requires RefillsNeeded(n, s.msgtimer) <= Refills(s, es)
    ensures s.queue[..n] <= Lines(Emissions(s, es))
    decreases es
  {
    var e, s1, rest := es[0], Step(s, es[0]), es[1..];
    LinesAppend(Emission(s, e), Emissions(s1, rest));
    assert es == [e] + rest;
    if e.Tick? && RefillDue(s, e.now, e.limits) {
      RefillCountsDown(s, e, rest, n);
      var sent := Lines(Emission(s, e));
      if |sent| < n {
        ServedAfter(s1, rest, n - |sent|);
      }
      PrefixOfBoth(s.queue, n, sent, s1.queue, Lines(Emissions(s1, rest)));
    } else {
      QueueOnlyGrows(s, e, rest);
      ServedAfter(s1, rest, n);
      assert s1.queue[..n] == s.queue[..n];
    }
  }

  lemma {:induction false} LinesLength(xs: seq<Sent>)
    ensures |Lines(xs)| == |xs|
  {
    if xs != [] {
      LinesLength(xs[1..]);
    }
  }

  /** The first n lines of the queue are the first n sent, after at most 2n
      refills, when nothing is put in front of them. */
  lemma {:induction false} NoStarvation(s: State, es: seq<Event>, n: nat)
    requires Inv(s) && n <= |s.queue| && Serves(es, s.msgtimer)
    requires 2 * n <= Refills(s, es)
    ensures s.queue[..n] <= Lines(Emissions(s, es))
  {
    if n != 0 {
      ServedAfter(s, es, n);
    }
  }

  /** A full bucket of one token is never refilled, so nothing is ever sent again. */
  lemma {:induction false} StuckForever(s: State, es: seq<Event>, limits: Limits)
    requires FixedLimits(es, limits) && limits.burstsize <= s.msgtimer <= 1
    ensures Emissions(s, es) == [] && Run(s, es).msgtimer == s.msgtimer
    decreases es
  {
    if es != [] {
      StuckForever(Step(s, es[0]), es[1..], limits);
    }
  }

  ghost predicate CanBeServed(s: State, limits: Limits) {
    exists es :: FixedLimits(es, limits) && Serves(es, s.msgtimer) && Emissions(s, es) != []
  }

  /** A waiting queue is ever served if and only if the refill guard is open;
      with burstsize 2 or more it always is. */
  lemma ServedIffBelowBurst(s: State, limits: Limits)
    requires Inv(s) && s.queue != []
    ensures CanBeServed(s, limits) <==> s.msgtimer < limits.burstsize
    ensures 2 <= limits.burstsize ==> CanBeServed(s, limits)
  {
    if s.msgtimer < limits.burstsize {
      var t := s.oldtime + limits.floodtimer + 1;
      var es := [Tick(t, limits), Tick(t + limits.floodtimer + 1, limits)];
      var s1 := Step(s, es[0]);
      assert es[1..] == [es[1]];
      RefillTick(s, t, limits);
      StepKeepsInv(s, es[0]);
      assert Emissions(s, es) == Emission(s, es[0]) + Emissions(s1, es[1..]);
      assert Emissions(s1, [es[1]]) == Emission(s1, es[1]) + [];
      if Emission(s, es[0]) == [] {
        RefillTick(s1, es[1].now, limits);
      }
      assert FixedLimits(es, limits) && Serves(es, s.msgtimer);
    } else {
      forall es | FixedLimits(es, limits)
        ensures Emissions(s, es) == []
      {
        StuckForever(s, es, limits);
      }
    }
  }

  /** With burstsize 1 the closed guard is reached by one refill on an empty queue. */
  lemma BurstOfOneStarves(line: Line, later: seq<Event>)
    requires FixedLimits(later, Limits(2, 1)) && line.place == Tail
    ensures var s := Run(INITIAL, [Tick(2, Limits(2, 1)), Write(line)]);
            s.queue == [line] && Emissions(s, later) == []
  {
    var es := [Tick(2, Limits(2, 1)), Write(line)];
    var s1 := Step(INITIAL, es[0]);
    assert s1 == State(1, [], 2, 2);
    assert es[1..] == [es[1]];
    assert Run(INITIAL, es) == Run(s1, [es[1]]) == Run(Step(s1, es[1]), []);
    StuckForever(Run(INITIAL, es), later, Limits(2, 1));
  }
}
