/**
 How often a channel is asked for, exactly: as often as it has tries, and no
 try is lost but by asking.
 */
module Retries {
  import opened Ascii
  import opened Sequences
  import opened Wrappers
  import opened Channels
  import opened ChannelRuns
  import opened Rosters
  import opened Records
  import opened Sessions

  // ------------------------------------------------------------------
  // One retry.

  lemma {:induction false} OwnAllowance(c: Chan, cs: seq<Chan>, jointries: nat)
    requires c in cs
    ensures Allowance(c, jointries) <= Sum(Tries(c.id, jointries), cs)
  {
    if c != cs[0] {
      OwnAllowance(c, cs[1..], jointries);
    }
  }

  /** For a channel that its name alone finds, a retry spends one try for each time
      it asks, and loses none. */
  lemma TriesAreSpentOnAsking(cs: seq<Chan>, i: nat, cfg: JoinConfig, rejoin: bool)
    requires i < |cs| && SoleName(cs, i) && Sum(Copies(cs[i].id), cs) == 1 && JOINTRIES_UNSET <= cs[i].jointries
    ensures var (rest, asked) := JoinFrom(cs, 0, cfg, rejoin);
            var id, n := cs[i].id, cfg.jointries;
            Sum(Tries(id, n), rest) + Sum(Copies(id), asked) == Sum(Tries(id, n), cs)
  {
    var c, n := cs[i], cfg.jointries;
    var (rest, asked) := JoinFrom(cs, 0, cfg, rejoin);
    assert c in cs;
    SumsAfterJoinFrom(c.id, cs, 0, cfg, rejoin);
    OwnTries(c, cs, n);
    FateInWalk(cs, 0, i, cfg, rejoin);
    var t := TriesNow(c, cfg, rejoin);
    if 0 < t {
      CountMember(c, asked);
      OwnAllowance(c.(jointries := t - 1), rest, n);
    } else if t != 0 {
      OwnAllowance(c, rest, n);
    }
  }

  // ------------------------------------------------------------------
  // A run of retries.

  /** Retries and nothing else, each of which sets unset tries, to `jointries` or
      to one if that is none. */
  predicate OnlyRetries(ops: seq<Op>, jointries: nat) {
    forall i :: 0 <= i < |ops| ==>
      ops[i].Retry? && ops[i].cfg.jointries == jointries
      && (ops[i].force || (ops[i].cfg.rejoin && !ops[i].cfg.leave))
  }

  function Least(a: nat, b: nat): nat {
    if a <= b then a else b
  }

  lemma FirstOfRetries(ops: seq<Op>, jointries: nat)
    requires ops != [] && OnlyRetries(ops, jointries)
    ensures ops[0].Retry? && ops[0].cfg.jointries == jointries && Asks(ops[0].cfg, ops[0].force)
    ensures OnlyRetries(ops[1..], jointries) && SteadyConfig(ops, jointries)
  {
    forall i | 0 <= i < |ops[1..]| ensures ops[1..][i] == ops[i + 1] {}
  }

  /** A retry asks once for an ordinary channel that has tries, and leaves it one
      less. */
  lemma AskedOnce(s: Lists, op: Op, i: nat, left: nat)
    requires Inv(s) && i < |s.passive| && IsOrdinary(s.passive[i].name)
    requires op.Retry? && (s.passive[i].jointries == JOINTRIES_UNSET ==> Asks(op.cfg, op.force)) && 0 < left
    requires left == if s.passive[i].jointries == JOINTRIES_UNSET then
                     (if op.cfg.jointries == 0 then 1 else op.cfg.jointries)
                     else s.passive[i].jointries
    ensures s.passive[i].(jointries := left - 1) in Step(s, op).passive
    ensures Sum(Copies(s.passive[i].id), JoinLine(s, op.cfg, op.force)) == 1
  {
    var c, n := s.passive[i], op.cfg.jointries;
    OrdinaryIsSole(s, i);
    assert TriesNow(c, op.cfg, op.force) == left == Allowance(c, n);
    FateInWalk(s.passive, 0, i, op.cfg, op.force);
    AskedAtMostOnce(s.passive, i, op.cfg, op.force, left);
    CountMember(c, JoinLine(s, op.cfg, op.force));
  }

  lemma AskedAtMostOnce(cs: seq<Chan>, i: nat, cfg: JoinConfig, rejoin: bool, left: nat)
    requires i < |cs| && Sum(Copies(cs[i].id), cs) == 1
    requires 0 < left == Allowance(cs[i], cfg.jointries)
    requires cs[i].(jointries := left - 1) in JoinFrom(cs, 0, cfg, rejoin).0
    ensures Sum(Copies(cs[i].id), JoinFrom(cs, 0, cfg, rejoin).1) <= 1
  {
    var c, n := cs[i], cfg.jointries;
    assert c in cs;
    SumsAfterJoinFrom(c.id, cs, 0, cfg, rejoin);
    OwnTries(c, cs, n);
    OwnAllowance(c.(jointries := left - 1), JoinFrom(cs, 0, cfg, rejoin).0, n);
  }

  /** A retry that does not set unset tries passes an ordinary channel by whose tries
      are unset. */
  lemma UnsetWaits(s: Lists, op: Op, i: nat)
    requires Inv(s) && i < |s.passive| && IsOrdinary(s.passive[i].name) && s.passive[i].jointries == JOINTRIES_UNSET
    requires op.Retry? && !op.force && (!op.cfg.rejoin || op.cfg.leave)
    ensures s.passive[i] in Step(s, op).passive
    ensures Sum(Copies(s.passive[i].id), JoinLine(s, op.cfg, op.force)) == 0
  {
    var c, n := s.passive[i], op.cfg.jointries;
    assert c in s.passive;
    OrdinaryIsSole(s, i);
    FateInWalk(s.passive, 0, i, op.cfg, op.force);
    TriesAreSpentOnAsking(s.passive, i, op.cfg, op.force);
    OwnTries(c, s.passive, n);
    OwnAllowance(c, JoinFrom(s.passive, 0, op.cfg, op.force).0, n);
  }

  /** Without tries it is not asked for, however often miau retries. */
  lemma NotAskedAnyMore(s: Lists, ops: seq<Op>, c: Chan, jointries: nat)
    requires Inv(s) && c in s.passive && c.jointries == 0 && SteadyConfig(ops, jointries)
    ensures TimesAsked(s, ops, c.id) == 0
  {
    TriesOfPassive(s, c, jointries);
    AskedWithinTries(s, ops, c.id, jointries);
  }

  lemma TriesOfPassive(s: Lists, c: Chan, jointries: nat)
    requires Inv(s) && c in s.passive
    ensures c.id < s.next && Total(Tries(c.id, jointries), s) == Allowance(c, jointries)
  {
    CountMember(c, s.passive);
    assert Total(Copies(c.id), s) <= 1 && (s.next <= c.id ==> Total(Copies(c.id), s) == 0);
    if c in s.active {
      CountMember(c, s.active);
    }
    if c in s.former {
      CountMember(c, s.former);
    }
    OwnTries(c, s.active, jointries);
    OwnTries(c, s.passive, jointries);
    OwnTries(c, s.former, jointries);
  }

  lemma AskedFirst(s: Lists, op: Op, c: Chan, left: nat)
    requires Inv(s) && c in s.passive && IsOrdinary(c.name) && op.Retry? && Asks(op.cfg, op.force) && 0 < left
    requires left == if c.jointries == JOINTRIES_UNSET then (if op.cfg.jointries == 0 then 1 else op.cfg.jointries)
                     else c.jointries
    ensures Inv(Step(s, op)) && c.(jointries := left - 1) in Step(s, op).passive
    ensures Sum(Copies(c.id), JoinLine(s, op.cfg, op.force)) == 1
  {
    var i :| 0 <= i < |s.passive| && s.passive[i] == c;
    AskedOnce(s, op, i, left);
    StepKeepsInv(s, op);
  }

  /** With `left` tries, an ordinary channel is asked for by each of the next
      `left` retries, and by no later one. */
  lemma {:induction false} AskedExactly(s: Lists, ops: seq<Op>, c: Chan, jointries: nat, left: nat)
    requires Inv(s) && c in s.passive && IsOrdinary(c.name) && OnlyRetries(ops, jointries)
    requires left == if c.jointries == JOINTRIES_UNSET then (if jointries == 0 then 1 else jointries) else c.jointries
    ensures TimesAsked(s, ops, c.id) == Least(|ops|, left)
    decreases |ops|
  {
    if ops != [] {
      FirstOfRetries(ops, jointries);
      if left == 0 {
        NotAskedAnyMore(s, ops, c, jointries);
      } else {
        AskedFirst(s, ops[0], c, left);
        AskedExactly(Step(s, ops[0]), ops[1..], c.(jointries := left - 1), jointries, left - 1);
      }
    }
  }

  /** An ordinary channel that starts unset is asked for by exactly the first
      max(1, jointries) of the retries, if there are so many. */
  lemma UnsetIsAskedExactly(s: Lists, ops: seq<Op>, c: Chan, jointries: nat)
    requires Inv(s) && c in s.passive && IsOrdinary(c.name) && c.jointries == JOINTRIES_UNSET
    requires OnlyRetries(ops, jointries)
    ensures TimesAsked(s, ops, c.id) == Least(|ops|, if jointries == 0 then 1 else jointries)
  {
    AskedExactly(s, ops, c, jointries, if jointries == 0 then 1 else jointries);
  }

  // ------------------------------------------------------------------
  // Any run.

  lemma TriesOfListed(s: Lists, c: Chan, jointries: nat)
    requires Inv(s) && c in Everyone(s)
    ensures Total(Tries(c.id, jointries), s) == Allowance(c, jointries)
  {
    OneRecord(s, c, c);
    SumOfList(s, s.active, c, jointries);
    SumOfList(s, s.passive, c, jointries);
    SumOfList(s, s.former, c, jointries);
    OnOneList(s, c.id);
  }

  lemma SumOfList(s: Lists, cs: seq<Chan>, c: Chan, jointries: nat)
    requires Inv(s) && c in Everyone(s) && (cs == s.active || cs == s.passive || cs == s.former)
    ensures Sum(Tries(c.id, jointries), cs) == if IsOn(cs, c.id) then Allowance(c, jointries) else 0
    ensures IsOn(cs, c.id) <==> c in cs
  {
    if IsOn(cs, c.id) {
      var d :| d in cs && d.id == c.id;
      OneRecord(s, c, d);
      CountMember(c, cs);
    } else if 0 < Sum(Copies(c.id), cs) {
      CountedIffOn(cs, c.id);
    }
    assert Total(Copies(c.id), s) <= 1;
    OwnTries(c, cs, jointries);
  }

  /** Whatever happens but a retry and a welcome, an ordinary channel keeps its
      tries and stays ordinary. */
  lemma TriesAreKept(s: Lists, op: Op, c: Chan, d: Chan)
    requires Inv(s) && c in Everyone(s) && d in Everyone(Step(s, op)) && c.id == d.id
    requires IsOrdinary(c.name) && !op.Welcome?
    ensures IsOrdinary(d.name) && (!op.Retry? ==> d.jointries == c.jointries)
  {
    FieldsAfterStep(s, op, c, d);
    if IsJoined(s, op, c.id) {
      MeantMatches(s, op.name, c);
      SafeMatch(c, op.name);
      if !c.nameSet {
        SafeFold(c.name, op.name);
        OrdinaryByName(op.name, c.name);
      }
    }
  }

  lemma OrdinaryByName(name: CString, other: CString)
    requires IsOrdinary(other) && SameName(other, name)
    ensures IsOrdinary(name)
  {
    OrdinaryFold(other, name);
  }

  lemma MeantMatches(s: Lists, name: CString, c: Chan)
    requires Inv(s) && c in Everyone(s) && IsMeant(s, name, c.id)
    ensures Matches(c, name) && Consistent(c) && IsName(name)
  {
    OneRecord(s, c, c);
    var p, f := FindIn(s.passive, name), FindIn(s.former, name);
    if p != -1 {
      OneRecord(s, c, s.passive[p]);
    } else if f != -1 {
      OneRecord(s, c, s.former[f]);
    }
  }

  lemma RetrySpends(s: Lists, op: Op, c: Chan, d: Chan, jointries: nat)
    requires Inv(s) && op.Retry? && op.cfg.jointries == jointries && IsOrdinary(c.name)
    requires c in Everyone(s) && d in Everyone(Step(s, op)) && c.id == d.id
    ensures Sum(Copies(c.id), JoinLine(s, op.cfg, op.force)) + Allowance(d, jointries) == Allowance(c, jointries)
  {
    var t, id := Step(s, op), c.id;
    StepKeepsInv(s, op);
    TriesOfListed(t, d, jointries);
    TriesOfListed(s, c, jointries);
    if c in s.passive {
      var i :| 0 <= i < |s.passive| && s.passive[i] == c;
      OrdinaryIsSole(s, i);
      assert Clean(c);
      TriesAreSpentOnAsking(s.passive, i, op.cfg, op.force);
    } else {
      SumOfList(s, s.passive, c, jointries);
      SumsAfterJoinFrom(id, s.passive, 0, op.cfg, op.force);
    }
  }

  lemma ListedBefore(s: Lists, op: Op, ops: seq<Op>, c: Chan, z: Chan)
    requires Inv(s) && c in Everyone(s) && z in Everyone(Run(Step(s, op), ops)) && z.id == c.id
    ensures exists d :: d in Everyone(Step(s, op)) && d.id == c.id
  {
    var t, id := Step(s, op), c.id;
    OneRecord(s, c, c);
    StepKeepsInv(s, op);
    NextGrows(s, op);
    if Total(Copies(id), t) == 0 {
      FreedStaysFreed(t, ops, id);
      Listed(Run(t, ops), z);
    } else if 0 < Sum(Copies(id), t.active) {
      CountedIffOn(t.active, id);
    } else if 0 < Sum(Copies(id), t.passive) {
      CountedIffOn(t.passive, id);
    } else {
      CountedIffOn(t.former, id);
    }
  }

  lemma Listed(s: Lists, c: Chan)
    requires c in Everyone(s)
    ensures 1 <= Total(Copies(c.id), s)
  {
    if c in s.active {
      CountMember(c, s.active);
    } else if c in s.passive {
      CountMember(c, s.passive);
    } else {
      CountMember(c, s.former);
    }
  }

  /** Between two welcomes, whatever else happens, an ordinary channel that is
      still listed at the end was asked for exactly as often as its tries fell. */
  lemma {:induction false} AskedAsTriesFall(s: Lists, ops: seq<Op>, c: Chan, z: Chan, jointries: nat)
    requires Inv(s) && SteadyConfig(ops, jointries) && IsOrdinary(c.name)
    requires c in Everyone(s) && z in Everyone(Run(s, ops)) && c.id == z.id
    ensures TimesAsked(s, ops, c.id) + Allowance(z, jointries) == Allowance(c, jointries)
    decreases |ops|
  {
    if ops == [] {
      OneRecord(s, c, z);
    } else {
      var op, rest := ops[0], ops[1..];
      forall i | 0 <= i < |rest| ensures rest[i] == ops[i + 1] {}
      ListedBefore(s, op, rest, c, z);
      var d :| d in Everyone(Step(s, op)) && d.id == c.id;
      StepKeepsInv(s, op);
      TriesAreKept(s, op, c, d);
      if op.Retry? {
        RetrySpends(s, op, c, d, jointries);
      }
      AskedAsTriesFall(Step(s, op), rest, d, z, jointries);
    }
  }
}
