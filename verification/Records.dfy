/**
 What each operation does to each channel record, field by field, whatever
 list the record is on.
 */
module Records {
  import opened Ascii
  import opened Sequences
  import opened Wrappers
  import opened Automode
  import Quicklog
  import Modes
  import opened Channels
  import opened ChannelRuns
  import opened Rosters
  import Sessions

  /** Our JOIN brings the record to the active list. */
  predicate IsJoined(s: Lists, op: Op, id: nat) {
    op.Join? && IsMeant(s, op.name, id)
  }

  /** The lost connection turns the active record away, to come back. */
  predicate IsDropped(s: Lists, op: Op, id: nat) {
    op.Drop? && op.rejoin && IsOn(s.active, id)
  }

  predicate IsLeft(s: Lists, op: Op, id: nat) {
    op.Detach? && op.leave && op.rejoin && IsOn(s.active, id)
  }

  /** The operation names the active record. */
  predicate IsNamed(s: Lists, op: Op, id: nat) {
    (op.Mode? || op.Meet? || op.Part? || op.Names? || op.Leave?) && Finds(s.active, op.name, id)
  }

  predicate IsPerformed(s: Lists, op: Op, c: Chan) {
    op.Perform? && c in s.active && c.oper == 1
  }

  /** The log is looked through: by itself, or because we left a channel. */
  predicate LooksAtLog(s: Lists, op: Op) {
    op.CheckLog? || (op.Leave? && FindIn(s.active, op.name) != -1)
  }

  /** Names: the server's name is taken once, its short form once, and only a lost
      connection takes the name back to its short form. */
  predicate NamesAfter(s: Lists, op: Op, c: Chan, d: Chan) {
    && d.id == c.id
    && d.name == (if IsJoined(s, op, c.id) && !c.nameSet then op.name
                  else if IsDropped(s, op, c.id) then Simplify(c.name) else c.name)
    && d.nameSet == (if IsJoined(s, op, c.id) then true else if IsDropped(s, op, c.id) then false else c.nameSet)
    && d.simple == (if IsJoined(s, op, c.id) && !c.simpleSet then Simplify(d.name) else c.simple)
    && d.simpleSet == (c.simpleSet || IsJoined(s, op, c.id))
  }

  /** The key changes by a MODE line for the channel only; the operator status by
      such a line, by a list of names while it is unknown, and by leaving; the
      tries by a welcome and a retry only; the log flag by looking at the log. */
  predicate StatusAfter(s: Lists, op: Op, c: Chan, d: Chan) {
    && (!(op.Mode? && IsNamed(s, op, c.id)) ==> d.key == c.key)
    && (!(op.Mode? && IsNamed(s, op, c.id)) ==>
          d.oper == if IsDropped(s, op, c.id) || IsLeft(s, op, c.id) then -1
                     else if op.Names? && IsNamed(s, op, c.id) && c.oper == -1 then (if op.alone then 1 else 0)
                     else c.oper)
    && (!op.Retry? ==> d.jointries == if op.Welcome? && c in s.passive then JOINTRIES_UNSET else c.jointries)
    && d.hasqlog == (if LooksAtLog(s, op) && c !in s.passive then IsLogged(s, op.log, op.oldest, c.id) else c.hasqlog)
  }

  /** A queue grows by a greeting on its channel; it is emptied when the channel is
      left or its modes are sent; somebody's going and a MODE line take modes off. */
  ghost predicate QueueAfter(s: Lists, op: Op, c: Chan, d: Chan) {
    if op.Meet? && IsNamed(s, op, c.id) then
      && c.queue <= d.queue
      && forall n: CString, m :: IsQueued(d.queue, n, m) <==>
           IsQueued(c.queue, n, m) || (SameName(n, op.nick) && ((m == 'o' && op.o) || (m == 'v' && op.v)))
    else if (op.Part? && IsNamed(s, op, c.id)) || (op.Quit? && c in s.active) then
      && |d.queue| <= |c.queue|
      && forall n: CString, m :: IsQueued(d.queue, n, m) <==> IsQueued(c.queue, n, m) && !SameName(n, op.nick)
    else if (op.Leave? && IsNamed(s, op, c.id)) || IsPerformed(s, op, c) then
      d.queue == []
    else
      !(op.Mode? && IsNamed(s, op, c.id)) ==> d.queue == c.queue
  }

  ghost predicate Becomes(s: Lists, op: Op, c: Chan, d: Chan) {
    NamesAfter(s, op, c, d) && StatusAfter(s, op, c, d) && QueueAfter(s, op, c, d)
  }

  // ------------------------------------------------------------------
  // Who is concerned.

  lemma ActiveFacts(s: Lists, i: nat)
    requires Inv(s) && i < |s.active|
    ensures var id := s.active[i].id;
            && IsOn(s.active, id) && !IsOn(s.passive, id) && !IsOn(s.former, id) && id < s.next
            && s.active[i] in s.active && s.active[i] !in s.passive
            && (forall name: CString :: Finds(s.active, name, id) <==> FindIn(s.active, name) == i)
            && (forall name: CString :: !IsMeant(s, name, id))
  {
    var id := s.active[i].id;
    assert s.active[i] in s.active;
    OnOneList(s, id);
    forall name: CString
      ensures Finds(s.active, name, id) <==> FindIn(s.active, name) == i
      ensures !IsMeant(s, name, id)
    {
      var k, p, f := FindIn(s.active, name), FindIn(s.passive, name), FindIn(s.former, name);
      if k != -1 && k != i {
        IdsDiffer(s, s.active, i, k);
      }
      assert p != -1 ==> s.passive[p] in s.passive;
      assert f != -1 ==> s.former[f] in s.former;
    }
  }

  lemma PassiveFacts(s: Lists, i: nat)
    requires Inv(s) && i < |s.passive|
    ensures var id := s.passive[i].id;
            && !IsOn(s.active, id) && IsOn(s.passive, id) && !IsOn(s.former, id) && id < s.next
            && s.passive[i] !in s.active && s.passive[i] in s.passive
            && (forall name: CString :: !Finds(s.active, name, id))
            && (forall name: CString :: IsMeant(s, name, id) <==>
                  FindIn(s.active, name) == -1 && FindIn(s.passive, name) == i)
  {
    var id := s.passive[i].id;
    assert s.passive[i] in s.passive;
    OnOneList(s, id);
    forall name: CString
      ensures !Finds(s.active, name, id)
      ensures IsMeant(s, name, id) <==> FindIn(s.active, name) == -1 && FindIn(s.passive, name) == i
    {
      var k, p, f := FindIn(s.active, name), FindIn(s.passive, name), FindIn(s.former, name);
      assert k != -1 ==> s.active[k] in s.active;
      if p != -1 && p != i {
        IdsDiffer(s, s.passive, i, p);
      }
      assert f != -1 ==> s.former[f] in s.former;
    }
  }

  lemma FormerFacts(s: Lists, i: nat)
    requires Inv(s) && i < |s.former|
    ensures var id := s.former[i].id;
            && !IsOn(s.active, id) && !IsOn(s.passive, id) && id < s.next
            && s.former[i] !in s.active && s.former[i] !in s.passive
            && (forall name: CString :: !Finds(s.active, name, id))
            && (forall name: CString :: IsMeant(s, name, id) <==>
                  FindIn(s.active, name) == FindIn(s.passive, name) == -1 && FindIn(s.former, name) == i)
            && (forall name: CString :: Finds(s.former, name, id) <==> FindIn(s.former, name) == i)
  {
    var id := s.former[i].id;
    assert s.former[i] in s.former;
    OnOneList(s, id);
    forall name: CString
      ensures !Finds(s.active, name, id)
      ensures Finds(s.former, name, id) <==> FindIn(s.former, name) == i
      ensures IsMeant(s, name, id) <==>
              FindIn(s.active, name) == FindIn(s.passive, name) == -1 && FindIn(s.former, name) == i
    {
      var k, p, f := FindIn(s.active, name), FindIn(s.passive, name), FindIn(s.former, name);
      assert k != -1 ==> s.active[k] in s.active;
      assert p != -1 ==> s.passive[p] in s.passive;
      if f != -1 && f != i {
        IdsDiffer(s, s.former, i, f);
      }
    }
  }

  /** A record that the operation does not concern stays as it is. */
  lemma Unconcerned(s: Lists, op: Op, c: Chan)
    requires !IsJoined(s, op, c.id) && !IsDropped(s, op, c.id) && !IsLeft(s, op, c.id) && !IsNamed(s, op, c.id)
    requires !(op.Welcome? && c in s.passive) && !(op.Quit? && c in s.active) && !IsPerformed(s, op, c)
    requires !LooksAtLog(s, op) || c in s.passive
    ensures Becomes(s, op, c, c)
  {
  }

  // ------------------------------------------------------------------
  // The operations that move no record.

  /** The record changes in its queue only. */
  predicate QueueOnly(s: Lists, op: Op, c: Chan, d: Chan) {
    d == c.(queue := d.queue) && (op.Meet? || op.Part? || op.Quit? || op.Perform?)
  }

  lemma QueueBecomes(s: Lists, op: Op, c: Chan, d: Chan)
    requires QueueOnly(s, op, c, d) && QueueAfter(s, op, c, d)
    ensures Becomes(s, op, c, d)
  {
  }

  lemma MetBecomes(s: Lists, op: Op, i: nat)
    requires Inv(s) && op.Meet? && i < |s.active| && FindIn(s.active, op.name) == i
    ensures Becomes(s, op, s.active[i], Step(s, op).active[i])
  {
    var c, d := s.active[i], Step(s, op).active[i];
    ActiveFacts(s, i);
    assert d == c.(queue := Greeted(c.queue, op.nick, op.o, op.v));
    GreetingMeans(c.queue, op.nick, op.o, op.v);
    QueueBecomes(s, op, c, d);
  }

  lemma GreetingMeans(q: seq<Action>, nick: CString, o: bool, v: bool)
    ensures q <= Greeted(q, nick, o, v)
    ensures forall n: CString, m :: IsQueued(Greeted(q, nick, o, v), n, m) <==>
              IsQueued(q, n, m) || (SameName(n, nick) && ((m == 'o' && o) || (m == 'v' && v)))
  {
    GreetedMeans(q, nick, o, v, nick, 'o');
    forall n: CString, m: char
      ensures IsQueued(Greeted(q, nick, o, v), n, m) <==>
              IsQueued(q, n, m) || (SameName(n, nick) && ((m == 'o' && o) || (m == 'v' && v)))
    {
      GreetedMeans(q, nick, o, v, n, m);
    }
  }

  lemma GoneBecomes(s: Lists, op: Op, i: nat)
    requires Inv(s) && i < |s.active| && (op.Quit? || (op.Part? && FindIn(s.active, op.name) == i))
    ensures Becomes(s, op, s.active[i], Step(s, op).active[i])
  {
    var c, d := s.active[i], Step(s, op).active[i];
    ActiveFacts(s, i);
    assert d == Forgetting(c, op.nick);
    ForgettingMeans(c, op.nick);
    QueueBecomes(s, op, c, d);
  }

  lemma PerformBecomes(s: Lists, i: nat)
    requires Inv(s) && i < |s.active|
    ensures Becomes(s, Perform, s.active[i], Step(s, Perform).active[i])
  {
    var c, d := s.active[i], Step(s, Perform).active[i];
    ActiveFacts(s, i);
    assert d == Cleared(c);
    QueueBecomes(s, Perform, c, d);
  }

  lemma ModeBecomes(s: Lists, op: Op, i: nat)
    requires Inv(s) && i < |s.active| && op.Mode? && FindIn(s.active, op.name) == i
    ensures Becomes(s, op, s.active[i], Step(s, op).active[i])
  {
    var d := Step(s, op).active[i];
    ActiveFacts(s, i);
    assert d == s.active[i].(oper := d.oper, key := d.key, queue := d.queue);
  }

  lemma CountedBecomes(s: Lists, op: Op, i: nat)
    requires Inv(s) && i < |s.active| && op.Names? && FindIn(s.active, op.name) == i
    ensures Becomes(s, op, s.active[i], Step(s, op).active[i])
  {
    var c, d := s.active[i], Step(s, op).active[i];
    ActiveFacts(s, i);
    OperBecomes(s, op, c, d);
  }

  lemma OperBecomes(s: Lists, op: Op, c: Chan, d: Chan)
    requires op.Names? && IsNamed(s, op, c.id)
    requires d == c.(oper := if c.oper == -1 then (if op.alone then 1 else 0) else c.oper)
    ensures Becomes(s, op, c, d)
  {
  }

  lemma CheckBecomes(s: Lists, op: Op, i: nat)
    requires Inv(s) && op.CheckLog? && i < |s.active|
    ensures Becomes(s, op, s.active[i], Step(s, op).active[i])
  {
    ActiveFacts(s, i);
    LeftIsLogged(s, i, op.log, op.oldest);
  }

  lemma ActiveBecomes(s: Lists, op: Op, i: nat)
    requires Inv(s) && IsStill(op) && i < |s.active|
    ensures |Step(s, op).active| == |s.active| && Becomes(s, op, s.active[i], Step(s, op).active[i])
  {
    match op
    case CheckLog(_, _) => CheckBecomes(s, op, i);
    case Quit(_) => GoneBecomes(s, op, i);
    case Perform => PerformBecomes(s, i);
    case Welcome => UnnamedBecomes(s, op, i);
    case Mode(name, _, _) =>
      if FindIn(s.active, name) == i { ModeBecomes(s, op, i); } else { UnnamedBecomes(s, op, i); }
    case Names(name, _) =>
      if FindIn(s.active, name) == i { CountedBecomes(s, op, i); } else { UnnamedBecomes(s, op, i); }
    case Meet(name, _, _, _) =>
      if FindIn(s.active, name) == i { MetBecomes(s, op, i); } else { UnnamedBecomes(s, op, i); }
    case Part(name, _) =>
      if FindIn(s.active, name) == i { GoneBecomes(s, op, i); } else { UnnamedBecomes(s, op, i); }
  }

  lemma UnnamedBecomes(s: Lists, op: Op, i: nat)
    requires Inv(s) && i < |s.active|
    requires op.Welcome? || ((op.Mode? || op.Meet? || op.Part? || op.Names?) && FindIn(s.active, op.name) != i)
    ensures |Step(s, op).active| == |s.active| && Becomes(s, op, s.active[i], Step(s, op).active[i])
  {
    ActiveFacts(s, i);
    assert Step(s, op).active[i] == s.active[i];
    Unconcerned(s, op, s.active[i]);
  }

  lemma ForgettingMeans(c: Chan, nick: CString)
    ensures forall n: CString, m ::
              IsQueued(Forgetting(c, nick).queue, n, m) <==> IsQueued(c.queue, n, m) && !SameName(n, nick)
  {
    forall n: CString, m: char
      ensures IsQueued(Forgetting(c, nick).queue, n, m) <==> IsQueued(c.queue, n, m) && !SameName(n, nick)
    {
      DroppedMeans(c.queue, nick, n, m);
    }
  }

  lemma PassiveBecomes(s: Lists, op: Op, i: nat)
    requires Inv(s) && IsStill(op) && i < |s.passive|
    ensures |Step(s, op).passive| == |s.passive| && Becomes(s, op, s.passive[i], Step(s, op).passive[i])
  {
    var c, d := s.passive[i], Step(s, op).passive[i];
    PassiveFacts(s, i);
    if op.Welcome? {
      WelcomedBecomes(s, c);
    } else {
      assert Step(s, op).passive == s.passive;
      Unconcerned(s, op, c);
    }
  }

  lemma WelcomedBecomes(s: Lists, c: Chan)
    requires c in s.passive && c !in s.active
    ensures Becomes(s, Welcome, c, c.(jointries := JOINTRIES_UNSET))
  {
  }

  // Old channels.

  lemma SpeaksOfFormer(s: Lists, e: Quicklog.Entry, oldest: int, k: nat)
    requires Inv(s) && k < |s.former|
    ensures SpeaksOf(s, e, oldest, s.former[k].id) <==>
            Counts(e, oldest) && FindIn(s.active, Quicklog.Target(e.text).value) == -1
            && FindIn(s.former, Quicklog.Target(e.text).value) == k
  {
    FormerFacts(s, k);
  }

  lemma LoggedByOneMore(s: Lists, init: seq<Quicklog.Entry>, e: Quicklog.Entry, oldest: int, id: nat)
    ensures IsLogged(s, init + [e], oldest, id) <==> IsLogged(s, init, oldest, id) || SpeaksOf(s, e, oldest, id)
  {
    var log := init + [e];
    assert log[|init|] == e && forall i :: 0 <= i < |init| ==> log[i] == init[i];
    if IsLogged(s, init, oldest, id) {
      var i :| 0 <= i < |init| && SpeaksOf(s, init[i], oldest, id);
      assert SpeaksOf(s, log[i], oldest, id);
    }
    if SpeaksOf(s, e, oldest, id) {
      assert SpeaksOf(s, log[|init|], oldest, id);
    }
  }

  lemma MarkedFormer(s1: Lists, s: Lists, e: Quicklog.Entry, oldest: int, k: nat)
    requires |s1.active| == |s.active| && |s1.former| == |s.former| && k < |s.former|
    requires forall i :: 0 <= i < |s.active| ==> s1.active[i] == s.active[i].(hasqlog := s1.active[i].hasqlog)
    requires forall i :: 0 <= i < |s.former| ==> s1.former[i] == s.former[i].(hasqlog := s1.former[i].hasqlog)
    ensures Marked(s1, e, oldest).former[k].hasqlog <==>
            || s1.former[k].hasqlog
            || (Counts(e, oldest) && FindIn(s.active, Quicklog.Target(e.text).value) == -1
                && FindIn(s.former, Quicklog.Target(e.text).value) == k)
  {
    if Counts(e, oldest) {
      Sessions.FindIgnoresLog(s1.active, s.active, Quicklog.Target(e.text).value);
      Sessions.FindIgnoresLog(s1.former, s.former, Quicklog.Target(e.text).value);
    }
  }

  /** qlog_check finds exactly the old channels that a line in the window speaks of. */
  lemma {:induction false} FormerIsLogged(s: Lists, log: seq<Quicklog.Entry>, oldest: int, k: nat)
    requires Inv(s) && k < |s.former|
    ensures Checked(s, log, oldest).former[k].hasqlog <==> IsLogged(s, log, oldest, s.former[k].id)
    decreases |log|
  {
    if log != [] {
      var n := |log| - 1;
      var init, e := log[..n], log[n];
      FormerIsLogged(s, init, oldest, k);
      MarkedFormer(Checked(s, init, oldest), s, e, oldest, k);
      SpeaksOfFormer(s, e, oldest, k);
      LoggedByOneMore(s, init, e, oldest, s.former[k].id);
      assert log == init + [e];
    }
  }

  lemma FormerBecomes(s: Lists, op: Op, i: nat)
    requires Inv(s) && IsStill(op) && i < |s.former|
    ensures |Step(s, op).former| == |s.former| && Becomes(s, op, s.former[i], Step(s, op).former[i])
  {
    FormerFacts(s, i);
    if op.CheckLog? {
      OldOneChecked(s, op, i);
    } else {
      assert Step(s, op).former == s.former;
      Unconcerned(s, op, s.former[i]);
    }
  }

  lemma OldOneChecked(s: Lists, op: Op, i: nat)
    requires Inv(s) && op.CheckLog? && i < |s.former|
    ensures Becomes(s, op, s.former[i], Checked(s, op.log, op.oldest).former[i])
  {
    FormerFacts(s, i);
    FormerIsLogged(s, op.log, op.oldest, i);
  }

  // ------------------------------------------------------------------
  // Every record after the step comes from one before it, or is new.

  ghost predicate Comes(s: Lists, op: Op, d: Chan) {
    d.id == s.next || exists c :: c in Everyone(s) && Becomes(s, op, c, d)
  }

  ghost predicate AllCome(s: Lists, op: Op, ds: seq<Chan>) {
    forall d :: d in ds ==> Comes(s, op, d)
  }

  lemma ComesFrom(s: Lists, op: Op, c: Chan, d: Chan)
    requires c in Everyone(s) && Becomes(s, op, c, d)
    ensures Comes(s, op, d)
  {
  }

  lemma StillSizes(s: Lists, op: Op)
    requires IsStill(op)
    ensures var t := Step(s, op);
            |t.active| == |s.active| && |t.passive| == |s.passive| && |t.former| == |s.former|
  {
    StillIds(s, op);
    var t := Step(s, op);
    assert |t.active| == |Ids(t.active)| && |t.passive| == |Ids(t.passive)| && |t.former| == |Ids(t.former)|;
    assert |s.active| == |Ids(s.active)| && |s.passive| == |Ids(s.passive)| && |s.former| == |Ids(s.former)|;
  }

  /** The lists match place by place. */
  lemma InPlace(s: Lists, op: Op, cs: seq<Chan>, ds: seq<Chan>)
    requires |cs| == |ds| && forall i :: 0 <= i < |ds| ==> Becomes(s, op, cs[i], ds[i])
    requires forall c :: c in cs ==> c in Everyone(s)
    ensures AllCome(s, op, ds)
  {
    forall d | d in ds ensures Comes(s, op, d) {
      var i :| 0 <= i < |ds| && ds[i] == d;
      assert cs[i] in cs;
      ComesFrom(s, op, cs[i], d);
    }
  }

  lemma StillCome(s: Lists, op: Op)
    requires Inv(s) && IsStill(op)
    ensures AllCome(s, op, Step(s, op).active) && AllCome(s, op, Step(s, op).passive)
        && AllCome(s, op, Step(s, op).former)
  {
    var t := Step(s, op);
    StillSizes(s, op);
    forall i | 0 <= i < |t.active| ensures Becomes(s, op, s.active[i], t.active[i]) {
      ActiveBecomes(s, op, i);
    }
    InPlace(s, op, s.active, t.active);
    forall i | 0 <= i < |t.passive| ensures Becomes(s, op, s.passive[i], t.passive[i]) {
      PassiveBecomes(s, op, i);
    }
    InPlace(s, op, s.passive, t.passive);
    forall i | 0 <= i < |t.former| ensures Becomes(s, op, s.former[i], t.former[i]) {
      FormerBecomes(s, op, i);
    }
    InPlace(s, op, s.former, t.former);
  }

  // ------------------------------------------------------------------
  // The operations that move records.

  predicate SparesActive(s: Lists, op: Op) {
    || op.Join? || op.Enqueue? || op.PartPassive? || op.PartAll? || op.Attach? || op.Retry?
    || (op.Leave? && FindIn(s.active, op.name) == -1) || (op.Detach? && !op.leave)
  }

  lemma SparedActive(s: Lists, op: Op, i: nat)
    requires Inv(s) && SparesActive(s, op) && i < |s.active|
    ensures Comes(s, op, s.active[i])
  {
    ActiveFacts(s, i);
    assert !IsNamed(s, op, s.active[i].id);
    Unconcerned(s, op, s.active[i]);
    ComesFrom(s, op, s.active[i], s.active[i]);
  }

  /** Records that no operation of this kind concerns come as they are. */
  lemma ActiveStay(s: Lists, op: Op)
    requires Inv(s) && SparesActive(s, op)
    ensures AllCome(s, op, s.active)
  {
    forall c | c in s.active ensures Comes(s, op, c) {
      var i :| 0 <= i < |s.active| && s.active[i] == c;
      SparedActive(s, op, i);
    }
  }

  lemma PassiveStay(s: Lists, op: Op, ds: seq<Chan>)
    requires Inv(s) && !op.Welcome?
    requires forall d :: d in ds ==> d in s.passive && !IsJoined(s, op, d.id)
    ensures AllCome(s, op, ds)
  {
    forall c | c in ds ensures Comes(s, op, c) {
      var i :| 0 <= i < |s.passive| && s.passive[i] == c;
      PassiveFacts(s, i);
      Unconcerned(s, op, c);
      ComesFrom(s, op, c, c);
    }
  }

  lemma FormerStay(s: Lists, op: Op, ds: seq<Chan>)
    requires Inv(s) && !LooksAtLog(s, op)
    requires forall d :: d in ds ==> d in s.former && !IsJoined(s, op, d.id)
    ensures AllCome(s, op, ds)
  {
    forall c | c in ds ensures Comes(s, op, c) {
      var i :| 0 <= i < |s.former| && s.former[i] == c;
      FormerFacts(s, i);
      Unconcerned(s, op, c);
      ComesFrom(s, op, c, c);
    }
  }

  lemma JoinedBecomes(s: Lists, op: Op, c: Chan)
    requires op.Join? && IsMeant(s, op.name, c.id) && c !in s.active
    ensures Becomes(s, op, c, Activated(c, op.name))
  {
  }

  lemma AppendCome(s: Lists, op: Op, cs: seq<Chan>, ds: seq<Chan>)
    requires AllCome(s, op, cs) && AllCome(s, op, ds)
    ensures AllCome(s, op, cs + ds)
  {
  }

  lemma JoinedComes(s: Lists, op: Op, c: Chan)
    requires op.Join? && IsMeant(s, op.name, c.id) && c !in s.active && c in Everyone(s)
    ensures AllCome(s, op, [Activated(c, op.name)])
  {
    JoinedBecomes(s, op, c);
    ComesFrom(s, op, c, Activated(c, op.name));
  }

  lemma PassiveJoins(s: Lists, op: Op, p: nat)
    requires Inv(s) && op.Join? && FindIn(s.active, op.name) == -1 && FindIn(s.passive, op.name) == p
    ensures var t := Step(s, op); AllCome(s, op, t.active) && AllCome(s, op, t.passive) && AllCome(s, op, t.former)
  {
    var c := s.passive[p];
    assert Step(s, op) == FromPassive(s, p, op.name);
    PassiveFacts(s, p);
    JoinedComes(s, op, c);
    ActiveStay(s, op);
    AppendCome(s, op, s.active, [Activated(c, op.name)]);
    OthersOfPassive(s, op, p);
  }

  lemma OthersOfPassive(s: Lists, op: Op, p: nat)
    requires Inv(s) && op.Join? && FindIn(s.active, op.name) == -1 && FindIn(s.passive, op.name) == p
    ensures AllCome(s, op, Without(s.passive, p)) && AllCome(s, op, s.former)
  {
    forall d | d in Without(s.passive, p) ensures d in s.passive && !IsJoined(s, op, d.id) {
      InWithoutDiffers(s, s.passive, p, d);
    }
    PassiveStay(s, op, Without(s.passive, p));
    forall d | d in s.former ensures !IsJoined(s, op, d.id) {
      FormerIsNotMeant(s, op, d);
    }
    FormerStay(s, op, s.former);
  }

  lemma FormerIsNotMeant(s: Lists, op: Op, d: Chan)
    requires Inv(s) && op.Join? && FindIn(s.passive, op.name) != -1 && d in s.former
    ensures !IsJoined(s, op, d.id)
  {
    var i :| 0 <= i < |s.former| && s.former[i] == d;
    FormerFacts(s, i);
  }

  lemma PassiveIsNotMeant(s: Lists, op: Op, d: Chan)
    requires Inv(s) && op.Join? && FindIn(s.passive, op.name) == -1 && d in s.passive
    ensures !IsJoined(s, op, d.id)
  {
    var i :| 0 <= i < |s.passive| && s.passive[i] == d;
    PassiveFacts(s, i);
  }

  lemma InWithoutDiffers(s: Lists, cs: seq<Chan>, k: nat, d: Chan)
    requires Inv(s) && (cs == s.active || cs == s.passive || cs == s.former) && k < |cs| && d in Without(cs, k)
    ensures d in cs && d.id != cs[k].id
  {
    var j :| 0 <= j < |Without(cs, k)| && Without(cs, k)[j] == d;
    var i := if j < k then j else j + 1;
    assert cs[i] == d;
    IdsDiffer(s, cs, i, k);
  }

  lemma FormerJoins(s: Lists, op: Op, f: nat)
    requires Inv(s) && op.Join? && FindIn(s.active, op.name) == FindIn(s.passive, op.name) == -1
    requires FindIn(s.former, op.name) == f
    ensures var t := Step(s, op); AllCome(s, op, t.active) && AllCome(s, op, t.passive) && AllCome(s, op, t.former)
  {
    var c := s.former[f];
    assert Step(s, op) == FromFormer(s, f, op.name);
    FormerFacts(s, f);
    JoinedComes(s, op, c);
    ActiveStay(s, op);
    AppendCome(s, op, s.active, [Activated(c, op.name)]);
    OthersOfFormer(s, op, f);
  }

  lemma OthersOfFormer(s: Lists, op: Op, f: nat)
    requires Inv(s) && op.Join? && FindIn(s.active, op.name) == FindIn(s.passive, op.name) == -1
    requires FindIn(s.former, op.name) == f
    ensures AllCome(s, op, s.passive) && AllCome(s, op, Without(s.former, f))
  {
    forall d | d in s.passive ensures !IsJoined(s, op, d.id) {
      PassiveIsNotMeant(s, op, d);
    }
    PassiveStay(s, op, s.passive);
    forall d | d in Without(s.former, f) ensures d in s.former && !IsJoined(s, op, d.id) {
      InWithoutDiffers(s, s.former, f, d);
    }
    FormerStay(s, op, Without(s.former, f));
  }

  lemma NobodyJoins(s: Lists, op: Op)
    requires Inv(s) && (!op.Join? || FindIn(s.active, op.name) != -1
                        || FindIn(s.passive, op.name) == FindIn(s.former, op.name) == -1)
    ensures forall d :: d in s.passive || d in s.former ==> !IsJoined(s, op, d.id)
  {
    forall d | d in s.passive || d in s.former ensures !IsJoined(s, op, d.id) {
      if d in s.passive {
        var i :| 0 <= i < |s.passive| && s.passive[i] == d;
        PassiveFacts(s, i);
      } else {
        var i :| 0 <= i < |s.former| && s.former[i] == d;
        FormerFacts(s, i);
      }
    }
  }

  lemma JoinCome(s: Lists, op: Op)
    requires Inv(s) && op.Join?
    ensures var t := Step(s, op); AllCome(s, op, t.active) && AllCome(s, op, t.passive) && AllCome(s, op, t.former)
  {
    var a, p, f := FindIn(s.active, op.name), FindIn(s.passive, op.name), FindIn(s.former, op.name);
    if a == -1 && p != -1 {
      PassiveJoins(s, op, p);
    } else if a == -1 && f != -1 {
      FormerJoins(s, op, f);
    } else {
      NobodyJoins(s, op);
      ActiveStay(s, op);
      PassiveStay(s, op, s.passive);
      FormerStay(s, op, s.former);
      AppendCome(s, op, s.active, Created(s, op));
    }
  }

  /** Queueing, and leaving the passive list or the old one. */
  lemma SparingCome(s: Lists, op: Op)
    requires Inv(s) && (op.Enqueue? || op.PartPassive? || op.PartAll? || op.Attach?)
    ensures var t := Step(s, op); AllCome(s, op, t.active) && AllCome(s, op, t.passive) && AllCome(s, op, t.former)
  {
    var t := Step(s, op);
    ActiveStay(s, op);
    PassiveStay(s, op, s.passive);
    StemsWithLog(s.former);
    FormerStay(s, op, t.former);
    AppendCome(s, op, s.passive, Created(s, op));
  }

  /** The active channels turned away, or left to be joined again. */
  lemma DropCome(s: Lists, op: Op)
    requires Inv(s) && (op.Drop? || op.Detach?)
    ensures var t := Step(s, op); AllCome(s, op, t.active) && AllCome(s, op, t.passive) && AllCome(s, op, t.former)
  {
    var t := Step(s, op);
    PassiveStay(s, op, s.passive);
    FormerStay(s, op, s.former);
    if op.Detach? && !op.leave {
      ActiveStay(s, op);
    } else {
      var moved := if !op.rejoin then [] else if op.Drop? then RevertedAll(s.active) else DeoppedAll(s.active);
      forall d | d in moved ensures Comes(s, op, d) {
        var i :| 0 <= i < |moved| && moved[i] == d;
        ActiveFacts(s, i);
        ComesFrom(s, op, s.active[i], d);
      }
      AppendCome(s, op, s.passive, moved);
    }
  }

  lemma LeaveCome(s: Lists, op: Op, k: nat)
    requires Inv(s) && op.Leave? && FindIn(s.active, op.name) == k
    ensures var t := Step(s, op); AllCome(s, op, t.active) && AllCome(s, op, t.passive) && AllCome(s, op, t.former)
  {
    var s1 := Checked(s, op.log, op.oldest);
    var c := s1.active[k].(queue := []);
    PassiveStay(s, op, s.passive);
    OthersLookedAt(s, op, k);
    OldLookedAt(s, op);
    LeftComes(s, op, k);
    AppendCome(s, op, s1.former, if c.hasqlog then [c] else []);
  }

  lemma OthersLookedAt(s: Lists, op: Op, k: nat)
    requires Inv(s) && op.Leave? && FindIn(s.active, op.name) == k
    ensures AllCome(s, op, Without(Checked(s, op.log, op.oldest).active, k))
  {
    var cs := Checked(s, op.log, op.oldest).active;
    forall d | d in Without(cs, k) ensures Comes(s, op, d) {
      var j :| 0 <= j < |cs| - 1 && Without(cs, k)[j] == d;
      LookedAt(s, op, if j < k then j else j + 1);
    }
  }

  lemma OldLookedAt(s: Lists, op: Op)
    requires Inv(s) && op.Leave? && FindIn(s.active, op.name) != -1
    ensures AllCome(s, op, Checked(s, op.log, op.oldest).former)
  {
    var cs := Checked(s, op.log, op.oldest).former;
    forall d | d in cs ensures Comes(s, op, d) {
      var j :| 0 <= j < |cs| && cs[j] == d;
      OldOneLookedAt(s, op, j);
    }
  }

  lemma OldOneLookedAt(s: Lists, op: Op, j: nat)
    requires Inv(s) && op.Leave? && FindIn(s.active, op.name) != -1 && j < |s.former|
    ensures Comes(s, op, Checked(s, op.log, op.oldest).former[j])
  {
    FormerFacts(s, j);
    FormerIsLogged(s, op.log, op.oldest, j);
    ComesFrom(s, op, s.former[j], Checked(s, op.log, op.oldest).former[j]);
  }

  /** The channel that is left. */
  lemma LeftComes(s: Lists, op: Op, k: nat)
    requires Inv(s) && op.Leave? && FindIn(s.active, op.name) == k
    ensures Comes(s, op, Checked(s, op.log, op.oldest).active[k].(queue := []))
  {
    ActiveFacts(s, k);
    LeftIsLogged(s, k, op.log, op.oldest);
    ComesFrom(s, op, s.active[k], Checked(s, op.log, op.oldest).active[k].(queue := []));
  }

  /** Another active channel when one is left. */
  lemma LookedAt(s: Lists, op: Op, i: nat)
    requires Inv(s) && op.Leave? && FindIn(s.active, op.name) != -1 && i < |s.active| && FindIn(s.active, op.name) != i
    ensures Comes(s, op, Checked(s, op.log, op.oldest).active[i])
  {
    ActiveFacts(s, i);
    LeftIsLogged(s, i, op.log, op.oldest);
    ComesFrom(s, op, s.active[i], Checked(s, op.log, op.oldest).active[i]);
  }

  predicate SameButTries(c: Chan, d: Chan) {
    d == c.(jointries := d.jointries)
  }

  /** Each of `ds` is one of `cs`, but for its tries. */
  predicate TriesOnly(cs: seq<Chan>, ds: seq<Chan>) {
    forall d :: d in ds ==> exists c :: c in cs && SameButTries(c, d)
  }

  lemma TriesOnlyChain(cs: seq<Chan>, ds: seq<Chan>, es: seq<Chan>)
    requires TriesOnly(cs, ds) && TriesOnly(ds, es)
    ensures TriesOnly(cs, es)
  {
    forall e | e in es ensures exists c :: c in cs && SameButTries(c, e) {
      var d :| d in ds && SameButTries(d, e);
      var c :| c in cs && SameButTries(c, d);
      assert SameButTries(c, e);
    }
  }

  lemma TurnChangesTries(cs: seq<Chan>, k: nat, ds: seq<Chan>, k1: nat)
    requires k < |cs| && IsTurn(cs, k, ds, k1)
    ensures TriesOnly(cs, ds)
  {
    forall d | d in ds ensures exists c :: c in cs && SameButTries(c, d) {
      var j :| 0 <= j < |ds| && ds[j] == d;
      var i := if k1 == k + 1 || j < FindIn(cs, cs[k].name) then j else j + 1;
      assert cs[i] in cs && SameButTries(cs[i], d);
    }
  }

  /** A retry changes tries only. */
  lemma {:induction false} WalkChangesTries(cs: seq<Chan>, k: nat, cfg: JoinConfig, rejoin: bool)
    requires k <= |cs|
    ensures TriesOnly(cs, JoinFrom(cs, k, cfg, rejoin).0)
    decreases |cs| - k
  {
    if k == |cs| {
      assert forall d :: SameButTries(d, d);
    } else {
      var ds, k1 := WalkTurns(cs, k, cfg, rejoin);
      TurnChangesTries(cs, k, ds, k1);
      WalkChangesTries(ds, k1, cfg, rejoin);
      TriesOnlyChain(cs, ds, JoinFrom(ds, k1, cfg, rejoin).0);
    }
  }

  lemma RetryCome(s: Lists, op: Op)
    requires Inv(s) && op.Retry?
    ensures var t := Step(s, op); AllCome(s, op, t.active) && AllCome(s, op, t.passive) && AllCome(s, op, t.former)
  {
    var t := Step(s, op);
    ActiveStay(s, op);
    FormerStay(s, op, s.former);
    WalkChangesTries(s.passive, 0, op.cfg, op.force);
    forall d | d in t.passive ensures Comes(s, op, d) {
      var c :| c in s.passive && SameButTries(c, d);
      var i :| 0 <= i < |s.passive| && s.passive[i] == c;
      PassiveFacts(s, i);
      ComesFrom(s, op, c, d);
    }
  }

  lemma EveryoneComes(s: Lists, op: Op)
    requires Inv(s)
    ensures var t := Step(s, op); AllCome(s, op, t.active) && AllCome(s, op, t.passive) && AllCome(s, op, t.former)
  {
    match op
    case Join(_, _) => JoinCome(s, op);
    case Leave(name, _, _) =>
      if FindIn(s.active, name) == -1 {
        ActiveStay(s, op);
        PassiveStay(s, op, s.passive);
        FormerStay(s, op, s.former);
      } else {
        LeaveCome(s, op, FindIn(s.active, name));
      }
    case Drop(_) => DropCome(s, op);
    case Detach(_, _) => DropCome(s, op);
    case Retry(_, _) => RetryCome(s, op);
    case Enqueue(_, _) => SparingCome(s, op);
    case PartPassive(_) => SparingCome(s, op);
    case PartAll => SparingCome(s, op);
    case Attach => SparingCome(s, op);
    case _ => StillCome(s, op);
  }

  /** Two records with one identity are one. */
  lemma OneRecord(s: Lists, c: Chan, d: Chan)
    requires Inv(s) && c in Everyone(s) && d in Everyone(s) && c.id == d.id
    ensures c == d && c.id < s.next
  {
    OnOneList(s, c.id);
    OneOnList(s, s.active, c, d);
    OneOnList(s, s.passive, c, d);
    OneOnList(s, s.former, c, d);
  }

  lemma OneOnList(s: Lists, cs: seq<Chan>, c: Chan, d: Chan)
    requires Inv(s) && c.id == d.id && (cs == s.active || cs == s.passive || cs == s.former)
    ensures c in cs && d in cs ==> c == d
  {
    if c in cs && d in cs {
      var i :| 0 <= i < |cs| && cs[i] == c;
      var j :| 0 <= j < |cs| && cs[j] == d;
      if i != j {
        IdsDiffer(s, cs, i, j);
      }
    }
  }

  /** In every reachable state, whatever the operation, a record that is listed
      before and after it has the names, the status and the queue that the three
      tables give: each field changes by the operations named there, on the
      channels named there, and by nothing else. */
  lemma FieldsAfterStep(s: Lists, op: Op, c: Chan, d: Chan)
    requires Inv(s) && c in Everyone(s) && d in Everyone(Step(s, op)) && c.id == d.id
    ensures NamesAfter(s, op, c, d) && StatusAfter(s, op, c, d) && QueueAfter(s, op, c, d)
  {
    EveryoneComes(s, op);
    OneRecord(s, c, c);
    assert Comes(s, op, d);
    var c0 :| c0 in Everyone(s) && Becomes(s, op, c0, d);
    OneRecord(s, c, c0);
  }

  // ------------------------------------------------------------------
  // What a MODE line does, and what a new record is.

  /** After a MODE line the operator status of the channel named is that of the
      last change of ours, its key the last key set, and a mode stays queued
      unless somebody was given it. */
  lemma ModeLineMeans(s: Lists, op: Op, c: Chan, d: Chan)
    requires Inv(s) && op.Mode? && c in s.active && d in Step(s, op).active && c.id == d.id && IsNamed(s, op, c.id)
    ensures var xs, me := op.changes, op.me;
            && (forall i :: 0 <= i < |xs| && Modes.SetsOper(xs[i], me)
                            && (forall j :: i < j < |xs| ==> !Modes.SetsOper(xs[j], me))
                  ==> d.oper == if xs[i].change.plus then 1 else 0)
            && ((forall i :: 0 <= i < |xs| ==> !Modes.SetsOper(xs[i], me)) ==> d.oper == c.oper)
            && (forall i :: 0 <= i < |xs| && Modes.SetsKey(xs[i])
                            && (forall j :: i < j < |xs| ==> !Modes.SetsKey(xs[j]))
                  ==> d.key == xs[i].arg.value)
            && ((forall i :: 0 <= i < |xs| ==> !Modes.SetsKey(xs[i])) ==> d.key == c.key)
    ensures forall x :: x in d.queue <==>
              x in c.queue && forall i :: 0 <= i < |op.changes| ==> !Modes.Fulfils(op.changes[i], op.me, x)
  {
    TunedAsNamed(s, op, c, d);
    Modes.EffectsMean(Modes.Setting(c.oper, c.key, c.queue), op.changes, op.me);
  }

  lemma TunedAsNamed(s: Lists, op: Op, c: Chan, d: Chan)
    requires Inv(s) && op.Mode? && c in s.active && d in Step(s, op).active && c.id == d.id && IsNamed(s, op, c.id)
    ensures d == Tuned(c, op.changes, op.me)
  {
    var k, t := FindIn(s.active, op.name), Step(s, op);
    var i :| 0 <= i < |s.active| && s.active[i] == c;
    var j :| 0 <= j < |t.active| && t.active[j] == d;
    ActiveFacts(s, i);
    if j != k {
      IdsDiffer(s, s.active, j, k);
    }
  }

  /** A channel that is made has the key given, or "-", no tries counted, nothing
      queued and no log; if it is made by our JOIN, it has the server's name. */
  lemma NewRecordIs(s: Lists, op: Op, d: Chan)
    requires Inv(s) && d in Everyone(Step(s, op)) && d.id == s.next
    ensures op.Join? || op.Enqueue?
    ensures d.name == op.name && d.key == (if op.key.None? then "-" else op.key.value)
    ensures d.jointries == JOINTRIES_UNSET && d.oper == -1 && d.queue == [] && !d.hasqlog
    ensures d.nameSet == d.simpleSet == op.Join?
    ensures d.simple == if op.Join? then Simplify(op.name) else op.name
  {
    NewIsMade(s, op, d);
  }

  lemma IdsAreBelow(s: Lists)
    requires Inv(s)
    ensures forall c :: c in Everyone(s) ==> c.id < s.next
  {
    forall c | c in Everyone(s) ensures c.id < s.next {
      OneRecord(s, c, c);
    }
  }

  /** Without a record made, no new identity is listed. */
  lemma NoneIsNew(s: Lists, op: Op, d: Chan)
    requires Inv(s) && d in Everyone(Step(s, op)) && Created(s, op) == []
    ensures d.id != s.next
  {
    StepKeepsInv(s, op);
    IdsAreBelow(Step(s, op));
  }

  lemma NewIsMade(s: Lists, op: Op, d: Chan)
    requires Inv(s) && d in Everyone(Step(s, op)) && d.id == s.next
    ensures Created(s, op) == [d]
  {
    IdsAreBelow(s);
    if Created(s, op) == [] {
      NoneIsNew(s, op, d);
    } else if op.Join? {
      assert Step(s, op) == FromNothing(s, op.name, op.key);
    } else {
      assert Step(s, op) == Queued(s, op.name, op.key);
    }
  }

  /** After our JOIN under an ordinary name, that name finds an active channel: the
      one it found before, else the passive one, else the old one, else a new one. */
  lemma JoinedIsFound(s: Lists, op: Op)
    requires Inv(s) && op.Join? && IsOrdinary(op.name)
    ensures var t := Step(s, op);
            var k := FindIn(t.active, op.name);
            && k != -1
            && (Finds(s.active, op.name, t.active[k].id) || IsMeant(s, op.name, t.active[k].id))
  {
    var t, a := Step(s, op), FindIn(s.active, op.name);
    if a == -1 {
      var n := |s.active|;
      assert |t.active| == n + 1;
      var d := t.active[n];
      JoinedRecord(s, op, d);
      FoundLast(s.active, d, op.name);
    }
  }

  lemma FoundLast(cs: seq<Chan>, d: Chan, name: CString)
    requires FindIn(cs, name) == -1 && IsName(name) && Exact(d, name)
    ensures FindIn(cs + [d], name) == |cs|
  {
    var ds := cs + [d];
    assert forall j :: 0 <= j < |cs| ==> ds[j] == cs[j] && !Matches(cs[j], name);
    assert Exact(ds[|cs|], name);
  }

  /** The record that our JOIN adds to the active list. */
  lemma JoinedRecord(s: Lists, op: Op, d: Chan)
    requires Inv(s) && op.Join? && IsOrdinary(op.name) && FindIn(s.active, op.name) == -1
    requires d == Step(s, op).active[|s.active|]
    ensures Exact(d, op.name) && IsMeant(s, op.name, d.id)
  {
    var p, f := FindIn(s.passive, op.name), FindIn(s.former, op.name);
    if p != -1 {
      assert s.passive[p] in s.passive;
      SafeMatch(s.passive[p], op.name);
    } else if f != -1 {
      assert s.former[f] in s.former;
      SafeMatch(s.former[f], op.name);
    }
  }

  // ------------------------------------------------------------------
  // The counter of automatic modes.

  /** The counter rises by what a greeting queues and falls by what is sent, and
      nothing else changes it. */
  lemma CounterAfterStep(s: Lists, op: Op)
    ensures Step(s, op).automodes - s.automodes
         == if op.Meet? || op.Perform? then Total(Pending, Step(s, op)) - Total(Pending, s) else 0
  {
    if op.Meet? {
      var k := FindIn(s.active, op.name);
      if k != -1 {
        SumUpdate(Pending, s.active, k, s.active[k].(queue := Greeted(s.active[k].queue, op.nick, op.o, op.v)));
      }
    } else if op.Perform? {
      PendingAfterPerformed(s);
    }
  }

  /** The modes that leave the queues of a run unsent. */
  function Discarded(s: Lists, ops: seq<Op>): int
    decreases ops
  {
    if ops == [] then 0
    else
      var now := if ops[0].Meet? || ops[0].Perform? then 0 else Total(Pending, s) - Total(Pending, Step(s, ops[0]));
      now + Discarded(Step(s, ops[0]), ops[1..])
  }

  /** In every run the counter is what waits and what was discarded. */
  lemma {:induction false} CounterIsExact(s: Lists, ops: seq<Op>)
    ensures Run(s, ops).automodes - s.automodes == Total(Pending, Run(s, ops)) - Total(Pending, s) + Discarded(s, ops)
    decreases ops
  {
    if ops != [] {
      CounterAfterStep(s, ops[0]);
      CounterIsExact(Step(s, ops[0]), ops[1..]);
    }
  }
}
