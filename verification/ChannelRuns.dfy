/**
 Runs of registry operations: what every sequence of joins, parts, drops,
 detaches and retries keeps, and what a session gets back after a drop.
 */
module ChannelRuns {
  import opened Ascii
  import opened Sequences
  import opened Wrappers
  import opened Automode
  import opened Quicklog
  import opened Channels
  import Modes

  // ------------------------------------------------------------------
  // Runs of operations.

  datatype Op =
    | Join(name: CString, key: Option<CString>)
    | Enqueue(name: CString, key: Option<CString>)
    | Leave(name: CString, log: seq<Entry>, oldest: int)
    | PartPassive(name: CString)
    | PartAll
    | Drop(rejoin: bool)
    | Detach(leave: bool, rejoin: bool)
    | Attach
    | CheckLog(log: seq<Entry>, oldest: int)
    | Welcome
    | Retry(cfg: JoinConfig, force: bool)
    | Mode(name: CString, changes: seq<Modes.Applied>, me: CString)
    | Meet(name: CString, nick: CString, o: bool, v: bool)
    | Part(name: CString, nick: CString)
    | Quit(nick: CString)
    | Names(name: CString, alone: bool)
    | Perform

  function Step(s: Lists, op: Op): Lists {
    match op
    case Join(name, key) => Joined(s, name, key)
    case Enqueue(name, key) => Queued(s, name, key)
    case Leave(name, log, oldest) => Left(s, name, log, oldest)
    case PartPassive(name) => PartedPassive(s, name)
    case PartAll => s.(passive := [])
    case Drop(rejoin) => Disconnected(s, rejoin)
    case Detach(leave, rejoin) => Detached(s, leave, rejoin)
    case Attach => Pruned(s)
    case CheckLog(log, oldest) => Checked(s, log, oldest)
    case Welcome => Welcomed(s)
    case Retry(cfg, force) => Retried(s, cfg, force)
    case Mode(name, changes, me) => Retuned(s, name, changes, me)
    case Meet(name, nick, o, v) => Met(s, name, nick, o, v)
    case Part(name, nick) => GoneFrom(s, name, nick)
    case Quit(nick) => Gone(s, nick)
    case Names(name, alone) => Counted(s, name, alone)
    case Perform => Performed(s)
  }

  function Run(s: Lists, ops: seq<Op>): Lists
    decreases ops
  {
    if ops == [] then s else Run(Step(s, ops[0]), ops[1..])
  }

  /** The record an operation allocates, if it does. */
  function Created(s: Lists, op: Op): seq<Chan> {
    if Step(s, op).next == s.next then []
    else match op
      case Join(name, key) => [Activated(NewChan(s.next, name, key), name)]
      case Enqueue(name, key) => [NewChan(s.next, name, key)]
      case _ => []
  }

  // How each operation moves the sums.

  lemma SumsAfterJoin(m: Measure, s: Lists, name: CString, key: Option<CString>)
    requires AllConsistent(s)
    ensures Total(m, Joined(s, name, key)) <= Total(m, s) + Sum(m, Created(s, Join(name, key)))
  {
    var p, o := FindIn(s.passive, name), FindIn(s.former, name);
    if FindIn(s.active, name) != -1 {
    } else if p != -1 {
      SumWithout(m, s.passive, p);
      SumAppend(m, s.active, [Activated(s.passive[p], name)]);
      SumOne(m, Activated(s.passive[p], name));
      ActivatedAmount(m, s.passive[p], name);
    } else if o != -1 {
      SumWithout(m, s.former, o);
      SumAppend(m, s.active, [Activated(s.former[o], name)]);
      SumOne(m, Activated(s.former[o], name));
      ActivatedAmount(m, s.former[o], name);
    } else {
      SumAppend(m, s.active, Created(s, Join(name, key)));
    }
  }

  lemma SumsAfterChecked(m: Measure, s: Lists, log: seq<Entry>, oldest: int)
    ensures Total(m, Checked(s, log, oldest)) <= Total(m, s)
  {
    SumPointwise(m, Checked(s, log, oldest).active, s.active);
    SumPointwise(m, Checked(s, log, oldest).former, s.former);
  }

  lemma SumsAfterRemoved(m: Measure, s: Lists, k: nat, log: seq<Entry>, oldest: int)
    requires k < |s.active|
    ensures Total(m, Removed(s, k, log, oldest)) <= Total(m, s)
  {
    var s1 := Checked(s, log, oldest);
    var c := s1.active[k].(queue := []);
    SumsAfterChecked(m, s, log, oldest);
    SumWithout(m, s1.active, k);
    SumAppend(m, s1.former, if c.hasqlog then [c] else []);
    SumOne(m, c);
  }

  lemma SumsAfterMoving(m: Measure, s: Lists, moved: seq<Chan>)
    requires |moved| == |s.active| && forall i :: 0 <= i < |moved| ==> Amount(m, moved[i]) <= Amount(m, s.active[i])
    ensures Total(m, s.(active := [], passive := s.passive + moved)) <= Total(m, s)
    ensures Total(m, s.(active := [], passive := s.passive + [])) <= Total(m, s)
  {
    SumPointwise(m, moved, s.active);
    SumAppend(m, s.passive, moved);
    assert s.passive + [] == s.passive;
  }

  /** Asking for a channel uses up one of its tries. */
  lemma {:induction false} SumsAfterJoinFrom(id: nat, cs: seq<Chan>, k: nat, cfg: JoinConfig, rejoin: bool)
    requires k <= |cs|
    ensures var (rest, asked) := JoinFrom(cs, k, cfg, rejoin);
            && Sum(Tries(id, cfg.jointries), rest) + Sum(Copies(id), asked) <= Sum(Tries(id, cfg.jointries), cs)
            && Sum(Copies(id), rest) <= Sum(Copies(id), cs)
            && Sum(Pending, rest) <= Sum(Pending, cs)
    decreases |cs| - k
  {
    if k < |cs| {
      var c, t := cs[k], TriesNow(cs[k], cfg, rejoin);
      if 0 < t {
        var c1 := c.(jointries := t - 1);
        SumUpdate(Tries(id, cfg.jointries), cs, k, c1);
        SumUpdate(Copies(id), cs, k, c1);
        SumUpdate(Pending, cs, k, c1);
        SumsAfterJoinFrom(id, cs[k := c1], k + 1, cfg, rejoin);
        var asked := JoinFrom(cs[k := c1], k + 1, cfg, rejoin).1;
        assert ([c] + asked)[1..] == asked;
      } else if t == 0 && FindIn(cs, c.name) != -1 {
        var f := FindIn(cs, c.name);
        FoundAtOrBefore(cs, k);
        SumWithout(Tries(id, cfg.jointries), cs, f);
        SumWithout(Copies(id), cs, f);
        SumWithout(Pending, cs, f);
        SumsAfterJoinFrom(id, Without(cs, f), k, cfg, rejoin);
      } else {
        SumsAfterJoinFrom(id, cs, k + 1, cfg, rejoin);
      }
    }
  }

  lemma ActivatedAmount(m: Measure, c: Chan, name: CString)
    requires Consistent(c) && Matches(c, name)
    ensures Amount(m, Activated(c, name)) == Amount(m, c)
  {
    SafeMatch(c, name);
  }

  // ------------------------------------------------------------------
  // Names and short names.

  /** A channel's short name is safe when its name is, is else the same name, and is
      never shorter than its name made short. */
  predicate Consistent(c: Chan) {
    && (IsSafe(c.name) <==> IsSafe(c.simple)) && (!IsSafe(c.name) ==> SameName(c.name, c.simple))
    && |Simplify(c.name)| <= |c.simple|
  }

  predicate AllConsistent(s: Lists) {
    && (forall c :: c in s.active ==> Consistent(c))
    && (forall c :: c in s.passive ==> Consistent(c))
    && (forall c :: c in s.former ==> Consistent(c))
  }

  lemma SafeFold(a: CString, b: CString)
    requires SameName(a, b)
    ensures IsSafe(a) <==> IsSafe(b)
  {
    assert |Fold(a)| == |a| && |Fold(b)| == |b|;
    if a != [] && b != [] {
      assert Fold(a)[0] == Lower(a[0]) && Fold(b)[0] == Lower(b[0]);
    }
  }

  lemma SafeSimplify(name: CString)
    ensures IsSafe(Simplify(name)) <==> IsSafe(name)
  {
  }

  /** A name finds safe channels if it is safe, and others by their very name. */
  lemma SafeMatch(c: Chan, name: CString)
    requires Consistent(c) && Matches(c, name)
    ensures IsSafe(c.name) <==> IsSafe(name)
    ensures !IsSafe(name) ==> Exact(c, name)
  {
    SafeSimplify(name);
    if Exact(c, name) {
      SafeFold(c.name, name);
    } else {
      SafeFold(c.simple, Simplify(name));
    }
  }

  lemma OrdinaryFold(a: CString, b: CString)
    requires SameName(a, b) && IsOrdinary(a)
    ensures IsOrdinary(b)
  {
    assert |Fold(a)| == |a| && |Fold(b)| == |b|;
    assert Fold(a)[0] == Lower(a[0]) && Fold(b)[0] == Lower(b[0]);
  }

  // ------------------------------------------------------------------
  // The invariant.

  /** Every channel is on one of the lists, once. */
  ghost predicate Partition(s: Lists) {
    && (forall id: nat :: Total(Copies(id), s) <= 1)
    && (forall id: nat :: s.next <= id ==> Total(Copies(id), s) == 0)
  }

  /** The channels miau is or will be on. */
  function Wanted(s: Lists): seq<Chan> {
    s.active + s.passive
  }

  /** Ordinary names are unique among them, without regard to case. */
  predicate UniqueNames(s: Lists) {
    forall c, d :: c in Wanted(s) && d in Wanted(s) && c.id != d.id && IsOrdinary(c.name)
                   ==> !SameName(c.name, d.name)
  }

  /** No automatic mode waits twice, and the tries are a number or unset. */
  predicate Clean(c: Chan) {
    NoRepeats(c.queue) && JOINTRIES_UNSET <= c.jointries
  }

  predicate AllClean(s: Lists) {
    && (forall c :: c in s.active ==> Clean(c))
    && (forall c :: c in s.passive ==> Clean(c))
    && (forall c :: c in s.former ==> Clean(c))
  }

  ghost predicate Inv(s: Lists) {
    && Partition(s) && AllConsistent(s) && UniqueNames(s)
    && (forall c :: c in s.active ==> c.simpleSet)
    && AllClean(s) && Total(Pending, s) <= s.automodes
  }

  lemma {:induction false} CountMember(c: Chan, cs: seq<Chan>)
    requires c in cs
    ensures 1 <= Sum(Copies(c.id), cs)
  {
    if c != cs[0] {
      CountMember(c, cs[1..]);
    }
  }

  /** What a step may make of a channel that it does not rename. */
  predicate Kin(c: Chan, d: Chan) {
    && c.id == d.id
    && (c.name == d.name || (IsSafe(c.name) && IsSafe(d.name)))
    && (Consistent(c) ==> Consistent(d))
    && (Clean(c) ==> Clean(d))
    && c.simpleSet == d.simpleSet
  }

  predicate Stems(cs: seq<Chan>, ds: seq<Chan>) {
    forall d :: d in ds ==> exists c :: c in cs && Kin(c, d)
  }

  lemma StemsPointwise(cs: seq<Chan>, ds: seq<Chan>)
    requires |cs| == |ds| && forall i :: 0 <= i < |ds| ==> Kin(cs[i], ds[i])
    ensures Stems(cs, ds)
  {
    forall d | d in ds
      ensures exists c :: c in cs && Kin(c, d)
    {
      var i :| 0 <= i < |ds| && ds[i] == d;
      assert cs[i] in cs;
    }
  }

  lemma StemsPart(cs: seq<Chan>, ds: seq<Chan>)
    requires forall d :: d in ds ==> d in cs
    ensures Stems(cs, ds)
  {
    forall d | d in ds
      ensures exists c :: c in cs && Kin(c, d)
    {
      assert d in cs && Kin(d, d);
    }
  }

  lemma KinTransitive(c: Chan, d: Chan, e: Chan)
    requires Kin(c, d) && Kin(d, e)
    ensures Kin(c, e)
  {
  }

  lemma {:induction false} StemsJoinFrom(cs: seq<Chan>, k: nat, cfg: JoinConfig, rejoin: bool)
    requires k <= |cs|
    ensures Stems(cs, JoinFrom(cs, k, cfg, rejoin).0)
    decreases |cs| - k
  {
    var rest := JoinFrom(cs, k, cfg, rejoin).0;
    if k == |cs| {
      StemsPart(cs, rest);
    } else {
      var c, t := cs[k], TriesNow(cs[k], cfg, rejoin);
      if 0 < t {
        var ds := cs[k := c.(jointries := t - 1)];
        StemsJoinFrom(ds, k + 1, cfg, rejoin);
        StemsPointwise(cs, ds);
        StemsChain(cs, ds, rest);
      } else if t == 0 && FindIn(cs, c.name) != -1 {
        FoundAtOrBefore(cs, k);
        var ds := Without(cs, FindIn(cs, c.name));
        StemsJoinFrom(ds, k, cfg, rejoin);
        StemsPart(cs, ds);
        StemsChain(cs, ds, rest);
      } else {
        StemsJoinFrom(cs, k + 1, cfg, rejoin);
      }
    }
  }

  lemma StemsChain(cs: seq<Chan>, ds: seq<Chan>, es: seq<Chan>)
    requires Stems(cs, ds) && Stems(ds, es)
    ensures Stems(cs, es)
  {
    forall e | e in es
      ensures exists c :: c in cs && Kin(c, e)
    {
      var d :| d in ds && Kin(d, e);
      var c :| c in cs && Kin(c, d);
      KinTransitive(c, d, e);
    }
  }

  lemma StemsAppend(cs: seq<Chan>, ds: seq<Chan>, es: seq<Chan>)
    requires Stems(cs, ds) && Stems(cs, es)
    ensures Stems(cs, ds + es)
  {
  }

  lemma StemsWider(cs: seq<Chan>, cs': seq<Chan>, ds: seq<Chan>)
    requires Stems(cs, ds) && forall c :: c in cs ==> c in cs'
    ensures Stems(cs', ds)
  {
    forall d | d in ds
      ensures exists c :: c in cs' && Kin(c, d)
    {
      var c :| c in cs && Kin(c, d);
    }
  }

  /** A step that renames nothing keeps names unique. */
  lemma UniqueWhereStemmed(s: Lists, t: Lists)
    requires UniqueNames(s) && Stems(Wanted(s), Wanted(t))
    ensures UniqueNames(t)
  {
    forall c, d | c in Wanted(t) && d in Wanted(t) && c.id != d.id && IsOrdinary(c.name)
      ensures !SameName(c.name, d.name)
    {
      var c0 :| c0 in Wanted(s) && Kin(c0, c);
      var d0 :| d0 in Wanted(s) && Kin(d0, d);
      if SameName(c.name, d.name) {
        OrdinaryFold(c.name, d.name);
      }
    }
  }

  function Everyone(s: Lists): seq<Chan> {
    s.active + s.passive + s.former
  }

  lemma CleanWhereStemmed(s: Lists, t: Lists)
    requires AllConsistent(s) && AllClean(s)
    requires Stems(Everyone(s), t.active) && Stems(Everyone(s), t.passive) && Stems(Everyone(s), t.former)
    ensures AllConsistent(t) && AllClean(t)
  {
  }

  lemma StemsChecked(s: Lists, log: seq<Entry>, oldest: int)
    ensures Stems(s.active, Checked(s, log, oldest).active)
    ensures Stems(s.former, Checked(s, log, oldest).former)
  {
    StemsPointwise(s.active, Checked(s, log, oldest).active);
    StemsPointwise(s.former, Checked(s, log, oldest).former);
  }

  lemma StemsRemoved(s: Lists, k: nat, log: seq<Entry>, oldest: int)
    requires k < |s.active|
    ensures Stems(s.active, Removed(s, k, log, oldest).active)
    ensures Stems(s.active + s.former, Removed(s, k, log, oldest).former)
  {
    var s1 := Checked(s, log, oldest);
    var c := s1.active[k].(queue := []);
    StemsChecked(s, log, oldest);
    StemsPart(s1.active, Without(s1.active, k));
    StemsChain(s.active, s1.active, Without(s1.active, k));
    assert Kin(s.active[k], c) && s.active[k] in s.active + s.former;
    StemsWider(s.former, s.active + s.former, s1.former);
    StemsAppend(s.active + s.former, s1.former, if c.hasqlog then [c] else []);
  }

  lemma {:induction false} StemsWithLog(cs: seq<Chan>)
    ensures forall c :: c in WithLog(cs) ==> c in cs
  {
    if cs != [] {
      StemsWithLog(cs[1..]);
    }
  }

  lemma StemsUpdate(cs: seq<Chan>, k: nat, d: Chan)
    requires k < |cs| && Kin(cs[k], d)
    ensures Stems(cs, cs[k := d])
  {
    assert forall c :: Kin(c, c);
    StemsPointwise(cs, cs[k := d]);
  }

  predicate NamesOne(op: Op) {
    op.Join? || op.Enqueue?
  }

  /** The operations by which channels leave the lists they are on. */
  predicate Leaves(op: Op) {
    op.Leave? || op.PartPassive? || op.PartAll? || op.Drop? || op.Detach? || op.Attach?
  }

  predicate StepStems(s: Lists, t: Lists) {
    Stems(s.active, t.active) && Stems(Wanted(s), t.passive) && Stems(s.active + s.former, t.former)
  }

  lemma StemsSelf(s: Lists)
    ensures StepStems(s, s)
  {
    StemsPart(s.active, s.active);
    StemsPart(Wanted(s), s.passive);
    StemsPart(s.active + s.former, s.former);
  }

  lemma StemLeaving(s: Lists, op: Op)
    requires Leaves(op)
    ensures StepStems(s, Step(s, op))
  {
    var t := Step(s, op);
    StemsSelf(s);
    match op
    case Leave(name, log, oldest) =>
      if FindIn(s.active, name) != -1 {
        StemsRemoved(s, FindIn(s.active, name), log, oldest);
      }
    case PartPassive(name) => StemsPart(Wanted(s), t.passive);
    case Drop(rejoin) =>
      StemsPointwise(s.active, RevertedAll(s.active));
      StemsWider(s.active, Wanted(s), RevertedAll(s.active));
    case Detach(leave, rejoin) =>
      StemsPointwise(s.active, DeoppedAll(s.active));
      StemsWider(s.active, Wanted(s), DeoppedAll(s.active));
    case Attach =>
      StemsWithLog(s.former);
      StemsPart(s.active + s.former, t.former);
    case _ =>
  }

  /** Steps that rename nothing leave channels that stem from those before. */
  lemma StemStep(s: Lists, op: Op)
    requires !NamesOne(op)
    ensures StepStems(s, Step(s, op))
  {
    if Leaves(op) {
      StemLeaving(s, op);
      return;
    }
    var t := Step(s, op);
    StemsSelf(s);
    match op
    case CheckLog(log, oldest) =>
      StemsChecked(s, log, oldest);
      StemsWider(s.former, s.active + s.former, t.former);
    case Welcome =>
      StemsPointwise(s.passive, UnsetAll(s.passive));
      StemsWider(s.passive, Wanted(s), t.passive);
    case Retry(cfg, force) =>
      StemsJoinFrom(s.passive, 0, cfg, force);
      StemsWider(s.passive, Wanted(s), t.passive);
    case Mode(name, changes, me) =>
      var k := FindIn(s.active, name);
      if k != -1 {
        TunedIsKin(s.active[k], changes, me);
        StemsUpdate(s.active, k, Tuned(s.active[k], changes, me));
      }
    case Meet(name, nick, o, v) =>
      var k := FindIn(s.active, name);
      if k != -1 {
        MetIsKin(s.active[k], nick, o, v);
        StemsUpdate(s.active, k, s.active[k].(queue := Greeted(s.active[k].queue, nick, o, v)));
      }
    case Part(name, nick) =>
      var k := FindIn(s.active, name);
      if k != -1 {
        ForgettingIsKin(s.active[k], nick);
        StemsUpdate(s.active, k, Forgetting(s.active[k], nick));
      }
    case Quit(nick) =>
      forall i | 0 <= i < |s.active| ensures Kin(s.active[i], t.active[i]) {
        ForgettingIsKin(s.active[i], nick);
      }
      StemsPointwise(s.active, t.active);
    case Names(name, alone) =>
      var k := FindIn(s.active, name);
      if k != -1 {
        StemsUpdate(s.active, k, t.active[k]);
      }
    case Perform => StemsPointwise(s.active, ClearedAll(s.active));
    case _ =>
  }

  lemma TunedIsKin(c: Chan, xs: seq<Modes.Applied>, me: CString)
    ensures Kin(c, Tuned(c, xs, me))
  {
    if NoRepeats(c.queue) {
      Modes.EffectsShrinkQueue(Modes.Setting(c.oper, c.key, c.queue), xs, me);
    }
  }

  lemma ForgettingIsKin(c: Chan, nick: CString)
    ensures Kin(c, Forgetting(c, nick))
  {
    if NoRepeats(c.queue) {
      DroppedKeepsNoRepeats(c.queue, Some(nick), ANY_MODE);
    }
  }

  lemma MetIsKin(c: Chan, nick: CString, o: bool, v: bool)
    ensures Kin(c, c.(queue := Greeted(c.queue, nick, o, v)))
  {
    if NoRepeats(c.queue) {
      GreetedKeepsNoRepeats(c.queue, nick, o, v);
    }
  }

  // The sums, for every operation.

  lemma SumsAfterTuned(m: Measure, s: Lists, k: nat, xs: seq<Modes.Applied>, me: CString)
    requires k < |s.active| && NoRepeats(s.active[k].queue)
    ensures Total(m, s.(active := s.active[k := Tuned(s.active[k], xs, me)])) <= Total(m, s)
  {
    Modes.EffectsShrinkQueue(Modes.Setting(s.active[k].oper, s.active[k].key, s.active[k].queue), xs, me);
    SumUpdate(m, s.active, k, Tuned(s.active[k], xs, me));
  }

  lemma SumsAfterLeaving(m: Measure, s: Lists, op: Op)
    requires Leaves(op)
    ensures Total(m, Step(s, op)) <= Total(m, s)
  {
    match op
    case Leave(name, log, oldest) =>
      if FindIn(s.active, name) != -1 {
        SumsAfterRemoved(m, s, FindIn(s.active, name), log, oldest);
      }
    case PartPassive(name) =>
      if FindIn(s.passive, name) != -1 {
        SumWithout(m, s.passive, FindIn(s.passive, name));
      }
    case Drop(rejoin) => SumsAfterMoving(m, s, RevertedAll(s.active));
    case Detach(leave, rejoin) => SumsAfterMoving(m, s, DeoppedAll(s.active));
    case Attach => SumFilter(m, s.former);
    case _ =>
  }

  lemma SumsAfterMet(m: Measure, s: Lists, name: CString, nick: CString, o: bool, v: bool)
    ensures var t := Met(s, name, nick, o, v);
            Total(m, t) <= Total(m, s) + if m.Pending? then t.automodes - s.automodes else 0
  {
    var k := FindIn(s.active, name);
    if k != -1 {
      SumUpdate(m, s.active, k, s.active[k].(queue := Greeted(s.active[k].queue, nick, o, v)));
    }
  }

  /** The operations that change active channels where they are. */
  predicate Touches(op: Op) {
    op.Mode? || op.Meet? || op.Part? || op.Quit? || op.Names?
  }

  lemma SumsAfterTouching(m: Measure, s: Lists, op: Op)
    requires Touches(op) && AllClean(s) && (m.Pending? ==> !op.Meet?)
    ensures Total(m, Step(s, op)) <= Total(m, s)
  {
    if op.Mode? {
      assert Step(s, op) == Retuned(s, op.name, op.changes, op.me);
      SumsAfterRetuned(m, s, op.name, op.changes, op.me);
    } else if op.Meet? {
      assert Step(s, op) == Met(s, op.name, op.nick, op.o, op.v);
      SumsAfterMet(m, s, op.name, op.nick, op.o, op.v);
    } else if op.Part? {
      assert Step(s, op) == GoneFrom(s, op.name, op.nick);
      SumsAfterGone(m, s, op.name, op.nick);
    } else if op.Quit? {
      assert Step(s, op) == Gone(s, op.nick);
      SumsAfterQuit(m, s, op.nick);
    } else {
      assert Step(s, op) == Counted(s, op.name, op.alone);
      SumsAfterCounted(m, s, op.name, op.alone);
    }
  }

  lemma SumsAfterRetuned(m: Measure, s: Lists, name: CString, changes: seq<Modes.Applied>, me: CString)
    requires AllClean(s)
    ensures Total(m, Retuned(s, name, changes, me)) <= Total(m, s)
  {
    var k := FindIn(s.active, name);
    if k != -1 {
      assert s.active[k] in s.active;
      SumsAfterTuned(m, s, k, changes, me);
    }
  }

  lemma SumsAfterQuit(m: Measure, s: Lists, nick: CString)
    ensures Total(m, Gone(s, nick)) <= Total(m, s)
  {
    SumPointwise(m, ForgettingAll(s.active, nick), s.active);
  }

  lemma SumsAfterGone(m: Measure, s: Lists, name: CString, nick: CString)
    ensures Total(m, GoneFrom(s, name, nick)) <= Total(m, s)
  {
    var k := FindIn(s.active, name);
    if k != -1 {
      SumUpdate(m, s.active, k, Forgetting(s.active[k], nick));
    }
  }

  lemma SumsAfterCounted(m: Measure, s: Lists, name: CString, alone: bool)
    ensures Total(m, Counted(s, name, alone)) <= Total(m, s)
  {
    var k := FindIn(s.active, name);
    if k != -1 {
      SumUpdate(m, s.active, k, Counted(s, name, alone).active[k]);
    }
  }

  /** No operation raises a sum but by the channel it creates; save that a
      welcome or a retry sets the tries, and a greeting queues modes. */
  lemma SumsAfterStep(m: Measure, s: Lists, op: Op)
    requires AllConsistent(s) && AllClean(s)
    requires m.Tries? ==> !op.Welcome? && !op.Retry?
    requires m.Pending? ==> !op.Meet?
    ensures Total(m, Step(s, op)) <= Total(m, s) + Sum(m, Created(s, op))
  {
    if Leaves(op) {
      SumsAfterLeaving(m, s, op);
      return;
    } else if Touches(op) {
      SumsAfterTouching(m, s, op);
      return;
    }
    match op
    case Join(name, key) => SumsAfterJoin(m, s, name, key);
    case Enqueue(name, key) => SumAppend(m, s.passive, [NewChan(s.next, name, key)]);
    case CheckLog(log, oldest) => SumsAfterChecked(m, s, log, oldest);
    case Welcome => SumPointwise(m, UnsetAll(s.passive), s.passive);
    case Retry(cfg, force) => SumsAfterJoinFrom(if m.Copies? then m.id else 0, s.passive, 0, cfg, force);
    case Perform => SumPointwise(m, ClearedAll(s.active), s.active);
    case _ =>
  }

  /** What is created is new: one record, with the next identity and no modes. */
  lemma CreatedIsNew(s: Lists, op: Op)
    ensures var made := Created(s, op);
            && Step(s, op).next == s.next + |made|
            && |made| <= 1 && forall c :: c in made ==> c.id == s.next && c.queue == []
  {
  }

  lemma SumCreated(m: Measure, s: Lists, op: Op)
    ensures m.Pending? || m.id != s.next ==> Sum(m, Created(s, op)) == 0
    ensures m.Copies? && m.id == s.next ==> Sum(m, Created(s, op)) == |Created(s, op)|
  {
    CreatedIsNew(s, op);
    var made := Created(s, op);
    if made != [] {
      assert made[0] in made && made == [made[0]];
      SumOne(m, made[0]);
    }
  }

  // ------------------------------------------------------------------
  // Every step keeps the invariant.

  lemma StepKeepsPartition(s: Lists, op: Op)
    requires Inv(s)
    ensures Partition(Step(s, op))
  {
    CreatedIsNew(s, op);
    forall id: nat
      ensures Total(Copies(id), Step(s, op)) <= 1
      ensures Step(s, op).next <= id ==> Total(Copies(id), Step(s, op)) == 0
    {
      SumsAfterStep(Copies(id), s, op);
      SumCreated(Copies(id), s, op);
    }
  }

  lemma StepKeepsPending(s: Lists, op: Op)
    requires Inv(s)
    ensures Total(Pending, Step(s, op)) <= Step(s, op).automodes
  {
    if op.Meet? {
      assert Step(s, op) == Met(s, op.name, op.nick, op.o, op.v);
      SumsAfterMet(Pending, s, op.name, op.nick, op.o, op.v);
    } else if op.Perform? {
      PendingAfterPerformed(s);
      assert Step(s, op) == Performed(s);
    } else {
      assert Step(s, op).automodes == s.automodes;
      SumsAfterStep(Pending, s, op);
      SumCreated(Pending, s, op);
    }
  }

  lemma PendingAfterPerformed(s: Lists)
    ensures Total(Pending, Performed(s)) - Performed(s).automodes == Total(Pending, s) - s.automodes
  {
  }

  /** Of the channels listed, only the one at place k has its identity. */
  lemma OthersDiffer(s: Lists, cs: seq<Chan>, rest: seq<Chan>, k: nat)
    requires k < |cs| && Total(Copies(cs[k].id), s) <= 1
    requires Sum(Copies(cs[k].id), cs) + Sum(Copies(cs[k].id), rest) <= Total(Copies(cs[k].id), s)
    ensures forall d :: d in Without(cs, k) || d in rest ==> d.id != cs[k].id
  {
    var id := cs[k].id;
    SumWithout(Copies(id), cs, k);
    forall d | (d in Without(cs, k) || d in rest) && d.id == id
      ensures false
    {
      if d in rest {
        CountMember(d, rest);
      } else {
        CountMember(d, Without(cs, k));
      }
    }
  }

  /** Taking up `d` beside channels whose names differ from its own. */
  lemma UniqueWithOneMore(s: Lists, t: Lists, d: Chan)
    requires UniqueNames(s)
    requires forall x :: x in Wanted(t) ==> x == d || (x in Wanted(s) && x.id != d.id)
    requires forall x :: x in Wanted(s) && x.id != d.id && IsOrdinary(d.name) ==> !SameName(x.name, d.name)
    ensures UniqueNames(t)
  {
    forall x, y | x in Wanted(t) && y in Wanted(t) && x.id != y.id && IsOrdinary(x.name)
      ensures !SameName(x.name, y.name)
    {
      if y == d && SameName(x.name, d.name) {
        OrdinaryFold(x.name, d.name);
      } else if x == d {
        assert !SameName(y.name, d.name);
      }
    }
  }

  /** The name a channel becomes active under is no other wanted channel's. */
  lemma ActivatedNameIsUnique(s: Lists, c: Chan, name: CString, x: Chan)
    requires UniqueNames(s) && Consistent(c) && Matches(c, name) && IsName(name)
    requires c in Wanted(s) || !Matches(x, name)
    requires x in Wanted(s) && x.id != c.id && IsOrdinary(Activated(c, name).name)
    ensures !SameName(x.name, Activated(c, name).name)
  {
    SafeMatch(c, name);
    if c in Wanted(s) {
      if !IsSafe(name) {
        OrdinaryFold(name, c.name);
      }
      assert IsOrdinary(c.name) && SameName(c.name, Activated(c, name).name);
      assert !SameName(c.name, x.name);
    } else {
      assert !Exact(x, name);
    }
  }

  /** The channel at place k of one of the lists is taken up as active. */
  lemma TakingUpKeepsUnique(s: Lists, t: Lists, c: Chan, name: CString)
    requires UniqueNames(s) && Consistent(c) && Matches(c, name) && IsName(name)
    requires c in Wanted(s) || forall x :: x in Wanted(s) ==> !Matches(x, name)
    requires forall x :: x in Wanted(t) ==> x == Activated(c, name) || (x in Wanted(s) && x.id != c.id)
    ensures UniqueNames(t)
  {
    forall x | x in Wanted(s) && x.id != c.id && IsOrdinary(Activated(c, name).name)
      ensures !SameName(x.name, Activated(c, name).name)
    {
      ActivatedNameIsUnique(s, c, name, x);
    }
    UniqueWithOneMore(s, t, Activated(c, name));
  }

  lemma JoinFromPassiveUnique(s: Lists, name: CString, p: nat)
    requires Inv(s) && FindIn(s.passive, name) == p
    ensures UniqueNames(FromPassive(s, p, name))
  {
    var t := FromPassive(s, p, name);
    OthersDiffer(s, s.passive, s.active, p);
    assert s.passive[p] in s.passive;
    TakingUpKeepsUnique(s, t, s.passive[p], name);
  }

  lemma JoinFromFormerUnique(s: Lists, name: CString, o: nat)
    requires Inv(s) && FindIn(s.former, name) == o
    requires FindIn(s.active, name) == FindIn(s.passive, name) == -1
    ensures UniqueNames(FromFormer(s, o, name))
  {
    var t := FromFormer(s, o, name);
    OthersDiffer(s, s.former, s.active, o);
    OthersDiffer(s, s.former, s.passive, o);
    assert s.former[o] in s.former;
    TakingUpKeepsUnique(s, t, s.former[o], name);
  }

  lemma {:induction false} JoinKeepsUnique(s: Lists, name: CString, key: Option<CString>)
    requires Inv(s)
    ensures UniqueNames(Joined(s, name, key))
  {
    var p, o := FindIn(s.passive, name), FindIn(s.former, name);
    if FindIn(s.active, name) != -1 {
    } else if p != -1 {
      JoinFromPassiveUnique(s, name, p);
    } else if o != -1 {
      JoinFromFormerUnique(s, name, o);
    } else {
      NextIsUnused(s);
      UniqueWithOneMore(s, Joined(s, name, key), Activated(NewChan(s.next, name, key), name));
    }
  }

  lemma NextIsUnused(s: Lists)
    requires Partition(s)
    ensures forall x :: x in Wanted(s) ==> x.id != s.next
  {
    forall x | x in Wanted(s)
      ensures x.id != s.next
    {
      assert Total(Copies(x.id), s) == 0 || x.id < s.next;
      if x in s.active {
        CountMember(x, s.active);
      } else {
        CountMember(x, s.passive);
      }
    }
  }

  lemma EnqueueKeepsUnique(s: Lists, name: CString, key: Option<CString>)
    requires Inv(s)
    ensures UniqueNames(Queued(s, name, key))
  {
    if FindIn(s.active, name) == -1 && FindIn(s.passive, name) == -1 {
      NextIsUnused(s);
      UniqueWithOneMore(s, Queued(s, name, key), NewChan(s.next, name, key));
    }
  }

  lemma ActivatedIsConsistent(c: Chan, name: CString)
    requires Consistent(c) && Matches(c, name)
    ensures Consistent(Activated(c, name))
  {
    SafeMatch(c, name);
    SafeSimplify(name);
  }

  predicate Sound(c: Chan) {
    Consistent(c) && Clean(c)
  }

  predicate Tidy(s: Lists) {
    AllConsistent(s) && AllClean(s) && forall c :: c in s.active ==> c.simpleSet
  }

  /** Joining moves or makes one sound channel. */
  lemma JoinAddsSound(s: Lists, name: CString, key: Option<CString>)
    requires AllConsistent(s) && AllClean(s)
    ensures var t := Joined(s, name, key);
            && (forall c :: c in t.active ==> c in s.active || (Sound(c) && c.simpleSet))
            && (forall c :: c in t.passive ==> c in s.passive)
            && (forall c :: c in t.former ==> c in s.former)
  {
    var p, o := FindIn(s.passive, name), FindIn(s.former, name);
    if FindIn(s.active, name) != -1 {
    } else if p != -1 {
      ActivatedIsSound(s.passive, p, name);
    } else if o != -1 {
      ActivatedIsSound(s.former, o, name);
    } else {
      SafeSimplify(name);
      assert Sound(Activated(NewChan(s.next, name, key), name));
    }
  }

  lemma ActivatedIsSound(cs: seq<Chan>, k: nat, name: CString)
    requires k < |cs| && Matches(cs[k], name)
    requires forall c :: c in cs ==> Consistent(c) && Clean(c)
    ensures Sound(Activated(cs[k], name)) && Activated(cs[k], name).simpleSet
    ensures forall c :: c in Without(cs, k) ==> c in cs
  {
    assert cs[k] in cs;
    ActivatedIsConsistent(cs[k], name);
  }

  lemma JoinKeepsTidy(s: Lists, name: CString, key: Option<CString>)
    requires Tidy(s)
    ensures Tidy(Joined(s, name, key))
  {
    JoinAddsSound(s, name, key);
  }

  lemma EnqueueKeepsTidy(s: Lists, name: CString, key: Option<CString>)
    requires Tidy(s)
    ensures Tidy(Queued(s, name, key))
  {
    SafeSimplify(name);
  }

  lemma NamingKeepsTidy(s: Lists, op: Op)
    requires Tidy(s) && NamesOne(op)
    ensures Tidy(Step(s, op))
  {
    if op.Join? {
      assert Step(s, op) == Joined(s, op.name, op.key);
      JoinKeepsTidy(s, op.name, op.key);
    } else {
      assert Step(s, op) == Queued(s, op.name, op.key);
      EnqueueKeepsTidy(s, op.name, op.key);
    }
  }

  lemma {:induction false} StepKeepsInv(s: Lists, op: Op)
    requires Inv(s)
    ensures Inv(Step(s, op))
  {
    var t := Step(s, op);
    StepKeepsPartition(s, op);
    StepKeepsPending(s, op);
    if op.Join? {
      JoinKeepsUnique(s, op.name, op.key);
      NamingKeepsTidy(s, op);
    } else if op.Enqueue? {
      EnqueueKeepsUnique(s, op.name, op.key);
      NamingKeepsTidy(s, op);
    } else {
      StemStep(s, op);
      StemsWider(s.active, Wanted(s), t.active);
      StemsAppend(Wanted(s), t.active, t.passive);
      UniqueWhereStemmed(s, t);
      StemsWider(s.active, Everyone(s), t.active);
      StemsWider(Wanted(s), Everyone(s), t.passive);
      StemsWider(s.active + s.former, Everyone(s), t.former);
      CleanWhereStemmed(s, t);
    }
  }

  /** In every run each channel is on one list, once; no two wanted channels
      have the same ordinary name; no queue repeats itself; and the count of
      automatic modes never falls behind what is queued. */
  lemma {:induction false} RunKeepsInv(s: Lists, ops: seq<Op>)
    requires Inv(s)
    ensures Inv(Run(s, ops))
    decreases ops
  {
    if ops != [] {
      StepKeepsInv(s, ops[0]);
      RunKeepsInv(Step(s, ops[0]), ops[1..]);
    }
  }

  lemma EmptyIsInv()
    ensures Inv(EMPTY)
  {
    assert forall id: nat :: Total(Copies(id), EMPTY) == 0;
  }

  lemma NextGrows(s: Lists, op: Op)
    ensures s.next <= Step(s, op).next
  {
  }

  /** A channel once freed is on no list ever after. */
  lemma {:induction false} FreedStaysFreed(s: Lists, ops: seq<Op>, id: nat)
    requires Inv(s) && id < s.next && Total(Copies(id), s) == 0
    ensures Total(Copies(id), Run(s, ops)) == 0
    decreases ops
  {
    if ops != [] {
      SumsAfterStep(Copies(id), s, ops[0]);
      SumCreated(Copies(id), s, ops[0]);
      StepKeepsInv(s, ops[0]);
      NextGrows(s, ops[0]);
      FreedStaysFreed(Step(s, ops[0]), ops[1..], id);
    }
  }

  /** While automatic modes wait, the counter that opens the timer is positive. */
  lemma GateStaysOpen(ops: seq<Op>, c: Chan)
    requires c in Run(EMPTY, ops).active && c.queue != []
    ensures 0 < Run(EMPTY, ops).automodes
  {
    EmptyIsInv();
    RunKeepsInv(EMPTY, ops);
    PendingMember(c, Run(EMPTY, ops).active);
  }

  lemma {:induction false} PendingMember(c: Chan, cs: seq<Chan>)
    requires c in cs
    ensures |c.queue| <= Sum(Pending, cs)
  {
    if c != cs[0] {
      PendingMember(c, cs[1..]);
    }
  }

  // ------------------------------------------------------------------
  // Bounded rejoining.

  /** How often the channel is asked for in the JOIN lines of a run. */
  function TimesAsked(s: Lists, ops: seq<Op>, id: nat): nat
    decreases ops
  {
    if ops == [] then 0
    else
      var now := if ops[0].Retry? then Sum(Copies(id), JoinLine(s, ops[0].cfg, ops[0].force)) else 0;
      now + TimesAsked(Step(s, ops[0]), ops[1..], id)
  }

  predicate SteadyConfig(ops: seq<Op>, jointries: nat) {
    forall i :: 0 <= i < |ops| ==> !ops[i].Welcome? && (ops[i].Retry? ==> ops[i].cfg.jointries == jointries)
  }

  lemma AskingUsesTries(s: Lists, op: Op, id: nat, jointries: nat)
    requires Inv(s) && id < s.next && SteadyConfig([op], jointries)
    ensures var asked := if op.Retry? then Sum(Copies(id), JoinLine(s, op.cfg, op.force)) else 0;
            asked + Total(Tries(id, jointries), Step(s, op)) <= Total(Tries(id, jointries), s)
  {
    assert [op][0] == op;
    if op.Retry? {
      SumsAfterJoinFrom(id, s.passive, 0, op.cfg, op.force);
    } else {
      SumsAfterStep(Tries(id, jointries), s, op);
      SumCreated(Tries(id, jointries), s, op);
    }
  }

  /** Between two welcomes, whatever else happens, a channel is asked for at
      most as often as it has tries. */
  lemma {:induction false} AskedWithinTries(s: Lists, ops: seq<Op>, id: nat, jointries: nat)
    requires Inv(s) && id < s.next && SteadyConfig(ops, jointries)
    ensures TimesAsked(s, ops, id) <= Total(Tries(id, jointries), s)
    decreases ops
  {
    if ops != [] {
      StepKeepsInv(s, ops[0]);
      NextGrows(s, ops[0]);
      AskingUsesTries(s, ops[0], id, jointries);
      AskedWithinTries(Step(s, ops[0]), ops[1..], id, jointries);
    }
  }

  lemma {:induction false} OwnTries(c: Chan, cs: seq<Chan>, jointries: nat)
    requires Sum(Copies(c.id), cs) == (if c in cs then 1 else 0)
    ensures Sum(Tries(c.id, jointries), cs) == if c in cs then Allowance(c, jointries) else 0
  {
    if cs != [] {
      if cs[0] == c {
        if c in cs[1..] {
          CountMember(c, cs[1..]);
        }
      } else if cs[0].id == c.id && c in cs[1..] {
        CountMember(c, cs[1..]);
      }
      OwnTries(c, cs[1..], jointries);
    }
  }

  /** A channel that starts unset is in at most max(1, jointries) JOIN lines; a
      safe channel in at most one. */
  lemma {:induction false} BoundedRejoin(s: Lists, ops: seq<Op>, c: Chan, jointries: nat)
    requires Inv(s) && c in s.passive && c.jointries == JOINTRIES_UNSET && SteadyConfig(ops, jointries)
    ensures TimesAsked(s, ops, c.id) <= if jointries == 0 || IsSafe(c.name) then 1 else jointries
  {
    CountMember(c, s.passive);
    assert Total(Copies(c.id), s) <= 1;
    assert Total(Copies(c.id), s) == 0 || c.id < s.next;
    if c in s.active {
      CountMember(c, s.active);
    }
    if c in s.former {
      CountMember(c, s.former);
    }
    OwnTries(c, s.active, jointries);
    OwnTries(c, s.passive, jointries);
    OwnTries(c, s.former, jointries);
    AskedWithinTries(s, ops, c.id, jointries);
  }
}
