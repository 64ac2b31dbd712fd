/**
 Automatic modes (src/automode.c): per channel, a queue of nicks to be given
 operator or voice status, without repeats, sent three at a time.
 */
module Automode {
  import opened Ascii
  import opened Sequences
  import opened Wrappers

  datatype Action = Action(nick: CString, mode: char)

  const ANY_MODE := '\0'

  /** Whether dropping `nick` and `mode`, either of which may be left open, concerns `a`. */
  predicate Concerns(a: Action, nick: Option<CString>, mode: char) {
    (nick.None? || SameName(nick.value, a.nick)) && (mode == ANY_MODE || mode == a.mode)
  }

  function Dropped(q: seq<Action>, nick: Option<CString>, mode: char): (r: seq<Action>)
    ensures |r| <= |q|
    ensures forall a :: a in r <==> a in q && !Concerns(a, nick, mode)
  {
    if q == [] then []
    else (if Concerns(q[0], nick, mode) then [] else [q[0]]) + Dropped(q[1..], nick, mode)
  }

  /** automode_lookup: the nick is compared without regard to case. */
  predicate IsQueued(q: seq<Action>, nick: CString, mode: char) {
    exists i :: 0 <= i < |q| && SameName(nick, q[i].nick) && q[i].mode == mode
  }

  function Greeted1(q: seq<Action>, nick: CString, mode: char, permitted: bool): seq<Action> {
    if permitted && !IsQueued(q, nick, mode) then q + [Action(nick, mode)] else q
  }

  /** The queue after someone joined who may be given `o`, or `v`, or both. */
  function Greeted(q: seq<Action>, nick: CString, o: bool, v: bool): seq<Action> {
    Greeted1(Greeted1(q, nick, 'o', o), nick, 'v', v)
  }

  /** No nick, in any case, waits twice for the same mode. */
  predicate NoRepeats(q: seq<Action>) {
    forall i, j :: 0 <= i < j < |q| ==> !(SameName(q[i].nick, q[j].nick) && q[i].mode == q[j].mode)
  }

  lemma Greeted1KeepsNoRepeats(q: seq<Action>, nick: CString, mode: char, permitted: bool)
    requires NoRepeats(q)
    ensures NoRepeats(Greeted1(q, nick, mode, permitted))
  {
    if permitted && !IsQueued(q, nick, mode) {
      forall i | 0 <= i < |q|
        ensures !(SameName(q[i].nick, nick) && q[i].mode == mode)
      {
        assert !(SameName(nick, q[i].nick) && q[i].mode == mode);
      }
    }
  }

  lemma GreetedKeepsNoRepeats(q: seq<Action>, nick: CString, o: bool, v: bool)
    requires NoRepeats(q)
    ensures NoRepeats(Greeted(q, nick, o, v))
  {
    Greeted1KeepsNoRepeats(q, nick, 'o', o);
    Greeted1KeepsNoRepeats(Greeted1(q, nick, 'o', o), nick, 'v', v);
  }

  lemma {:induction false} DroppedKeepsNoRepeats(q: seq<Action>, nick: Option<CString>, mode: char)
    requires NoRepeats(q)
    ensures NoRepeats(Dropped(q, nick, mode))
  {
    if q != [] {
      DroppedKeepsNoRepeats(q[1..], nick, mode);
      var rest := Dropped(q[1..], nick, mode);
      forall i | 0 <= i < |rest|
        ensures !(SameName(q[0].nick, rest[i].nick) && q[0].mode == rest[i].mode)
      {
        assert rest[i] in q[1..];
        var j :| 0 <= j < |q[1..]| && q[1..][j] == rest[i];
        assert q[j + 1] == rest[i];
      }
    }
  }

  /** Whether a mode waits for a nick, in any case, after a greeting: it did, or it
      is operator status or voice and was permitted. What waited stays in front. */
  lemma GreetedMeans(q: seq<Action>, nick: CString, o: bool, v: bool, n: CString, m: char)
    ensures IsQueued(Greeted(q, nick, o, v), n, m) <==>
            IsQueued(q, n, m) || (SameName(n, nick) && ((m == 'o' && o) || (m == 'v' && v)))
    ensures q <= Greeted(q, nick, o, v)
  {
    var q1 := Greeted1(q, nick, 'o', o);
    Greeted1Means(q, nick, 'o', o, n, m);
    Greeted1Means(q1, nick, 'v', v, n, m);
  }

  lemma Greeted1Means(q: seq<Action>, nick: CString, mode: char, permitted: bool, n: CString, m: char)
    ensures IsQueued(Greeted1(q, nick, mode, permitted), n, m) <==>
            IsQueued(q, n, m) || (permitted && SameName(n, nick) && m == mode)
  {
    var r := Greeted1(q, nick, mode, permitted);
    if IsQueued(q, n, m) {
      var i :| 0 <= i < |q| && SameName(n, q[i].nick) && q[i].mode == m;
      assert r[i] == q[i];
    }
    if permitted && SameName(n, nick) && m == mode {
      if IsQueued(q, nick, mode) {
        var i :| 0 <= i < |q| && SameName(nick, q[i].nick) && q[i].mode == mode;
        assert SameName(n, q[i].nick);
      } else {
        assert r[|q|] == Action(nick, mode);
      }
    }
  }

  /** Dropping goes through the queue from front to back: what is left of two
      parts is what is left of each, in order. */
  lemma {:induction false} DroppedAppend(a: seq<Action>, b: seq<Action>, nick: Option<CString>, mode: char)
    ensures Dropped(a + b, nick, mode) == Dropped(a, nick, mode) + Dropped(b, nick, mode)
  {
    if a == [] {
      assert a + b == b;
    } else {
      assert (a + b)[0] == a[0] && (a + b)[1..] == a[1..] + b;
      DroppedAppend(a[1..], b, nick, mode);
      Regroup(if Concerns(a[0], nick, mode) then [] else [a[0]], Dropped(a[1..], nick, mode), Dropped(b, nick, mode));
    }
  }

  /** After a nick is dropped no mode waits for it, in any case, and the others
      wait as before. */
  lemma DroppedMeans(q: seq<Action>, nick: CString, n: CString, m: char)
    ensures IsQueued(Dropped(q, Some(nick), ANY_MODE), n, m) <==> IsQueued(q, n, m) && !SameName(n, nick)
  {
    var r := Dropped(q, Some(nick), ANY_MODE);
    if IsQueued(r, n, m) {
      var i :| 0 <= i < |r| && SameName(n, r[i].nick) && r[i].mode == m;
      assert r[i] in r && r[i] in q;
    }
    if IsQueued(q, n, m) && !SameName(n, nick) {
      var i :| 0 <= i < |q| && SameName(n, q[i].nick) && q[i].mode == m;
      assert q[i] in q && !Concerns(q[i], Some(nick), ANY_MODE);
      assert q[i] in r;
    }
  }

  // ------------------------------------------------------------------
  // Batches.

  /** The queue cut into threes from the front. */
  function Batches(q: seq<Action>): seq<seq<Action>> {
    if q == [] then []
    else if |q| <= 3 then [q]
    else [q[..3]] + Batches(q[3..])
  }

  function Flatten(bs: seq<seq<Action>>): seq<Action> {
    if bs == [] then [] else bs[0] + Flatten(bs[1..])
  }

  /** The batches in order are the queue; each has one to three modes, and all
      but the last have three. */
  lemma {:induction false} BatchesAreTheQueue(q: seq<Action>)
    ensures Flatten(Batches(q)) == q
    ensures forall i :: 0 <= i < |Batches(q)| ==> 1 <= |Batches(q)[i]| <= 3
    ensures forall i :: 0 <= i < |Batches(q)| - 1 ==> |Batches(q)[i]| == 3
  {
    if 3 < |q| {
      BatchesAreTheQueue(q[3..]);
    } else if q != [] {
      assert Flatten([q][1..]) == [];
    }
  }

  function Modes(batch: seq<Action>): string {
    seq(|batch|, i requires 0 <= i < |batch| => batch[i].mode)
  }

  function Nicks(batch: seq<Action>): CString {
    if batch == [] then [] else Nicks(batch[..|batch| - 1]) + [' '] + batch[|batch| - 1].nick
  }

  /** The line that carries a batch to the server. */
  function ModeLine(channel: CString, batch: seq<Action>): (line: string)
    ensures (forall a :: a in batch ==> a.mode != '\0') ==> '\0' !in line
  {
    "MODE " + channel + " +" + Modes(batch) + Nicks(batch)
  }

  function ModeLines(channel: CString, bs: seq<seq<Action>>): seq<string> {
    seq(|bs|, i requires 0 <= i < |bs| => ModeLine(channel, bs[i]))
  }

  lemma {:induction false} BatchesAppend(q: seq<Action>, batch: seq<Action>)
    requires |q| % 3 == 0 && 1 <= |batch| <= 3
    ensures Batches(q + batch) == Batches(q) + [batch]
  {
    if q == [] {
      assert q + batch == batch;
    } else {
      assert (q + batch)[..3] == q[..3] && (q + batch)[3..] == q[3..] + batch;
      BatchesAppend(q[3..], batch);
      if |q| == 3 {
        assert q[..3] == q && q[3..] == [];
      }
    }
  }

  lemma CommittedAppend(channel: CString, q: seq<Action>, batch: seq<Action>)
    requires |q| % 3 == 0 && 1 <= |batch| <= 3
    ensures ModeLines(channel, Batches(q + batch)) == ModeLines(channel, Batches(q)) + [ModeLine(channel, batch)]
  {
    BatchesAppend(q, batch);
  }

  lemma BuffersGrow(batch: seq<Action>, a: Action)
    ensures Modes(batch + [a]) == Modes(batch) + [a.mode]
    ensures Nicks(batch + [a]) == Nicks(batch) + [' '] + a.nick
  {
    assert (batch + [a])[..|batch|] == batch;
  }

  /** The loop over one channel's queue: buffers for modes and nicks, committed
      at every third entry and once more at the end. */
  method CommitQueue(channel: CString, queue: seq<Action>) returns (lines: seq<string>)
    ensures lines == ModeLines(channel, Batches(queue))
  {
    lines := [];
    var modes, nicks, count, node := "", "", 0, 0;
    ghost var done, batch: seq<Action> := [], [];
    while node < |queue|
      invariant node <= |queue| && done + batch == queue[..node]
      invariant |done| % 3 == 0 && |batch| == count < 3
      invariant modes == Modes(batch) && nicks == Nicks(batch)
      invariant lines == ModeLines(channel, Batches(done))
    {
      var data := queue[node];
      BuffersGrow(batch, data);
      Regroup(done, batch, [data]);
      assert queue[..node + 1] == queue[..node] + [data];
      modes := modes + [data.mode];
      nicks := nicks + [' '] + data.nick;
      batch := batch + [data];
      count := count + 1;
      if count == 3 {
        lines := lines + ["MODE " + channel + " +" + modes + nicks];
        CommittedAppend(channel, done, batch);
        done, batch := done + batch, [];
        modes, nicks, count := "", "", 0;
      }
      node := node + 1;
    }
    assert queue[..node] == queue;
    if count > 0 {
      lines := lines + ["MODE " + channel + " +" + modes + nicks];
      CommittedAppend(channel, done, batch);
    }
  }
}
