/**
 Server failover (src/server.c and the main loop of src/miau.c). Place 0 of the
 list is the fallback entry, a copy of the server last tried; the configured
 servers follow. The search for the next working server wraps from the end to
 place 1 and so never comes back to place 0.
 */
module Failover {
  import opened Sequences
  import opened Wrappers

  datatype Server = Server(name: string, port: int, password: Option<string>, timeout: int, working: bool)

  datatype Config = Config(neverGiveUp: bool, reconnectDelay: int)

  const CONN_DISABLED := 999
  const DEFAULT_PORT := 6667

  datatype Pool = Pool(servers: seq<Server>, current: nat, isFresh: bool, goodServer: bool,
                       connected: nat, delay: int, config: Config, exited: bool)

  /** How an attempt to connect ends, as far as the code tells the cases apart. */
  datatype Attempt = Connected | Refused | Unresolved | WriteFailed | Fatal

  /** A line of the server list: only its name is needed to be taken up. */
  datatype Entry = Entry(name: Option<string>, port: int, password: Option<string>, timeout: int)

  datatype Event =
    | Connect(attempt: Attempt)
    | Welcome
    | GoodTimer
    | Lost
    | ErrorOrRestricted
    | Jump(param: Option<int>)
    | Reset
    | Attach
    | Rehash(entries: seq<Entry>, config: Config, bindChanged: bool)

  predicate AllWorking(servers: seq<Server>) {
    forall j :: 1 <= j < |servers| ==> servers[j].working
  }

  function ResetAll(servers: seq<Server>): seq<Server>
    requires servers != []
  {
    seq(|servers|, j requires 0 <= j < |servers| => if j == 0 then servers[0] else servers[j].(working := true))
  }

  /** The first working place in [lo, hi), or hi. */
  function FirstWorking(servers: seq<Server>, lo: nat, hi: nat): (r: nat)
    requires lo <= hi <= |servers|
    ensures lo <= r <= hi && (r < hi ==> servers[r].working)
    ensures forall j :: lo <= j < r ==> !servers[j].working
    decreases hi - lo
  {
    if lo == hi || servers[lo].working then lo else FirstWorking(servers, lo + 1, hi)
  }

  /** Where the search from place i ends: at the first working server after it,
      else before it, else back at i. */
  function NextWorking(servers: seq<Server>, i: nat): nat
    requires i < |servers|
  {
    var after := FirstWorking(servers, i + 1, |servers|);
    if after < |servers| then after
    else if i == 0 then 0
    else FirstWorking(servers, 1, i)
  }

  /** The last listed server with that name and port, or 0. */
  function LastMatch(servers: seq<Server>, name: string, port: int, n: nat): (r: nat)
    requires 1 <= n <= |servers|
    ensures r < n && (r != 0 ==> servers[r].name == name && servers[r].port == port)
  {
    if n == 1 then 0
    else if servers[n - 1].name == name && servers[n - 1].port == port then n - 1
    else LastMatch(servers, name, port, n - 1)
  }

  /** A pool always has its fallback entry, and `current` is on the list. */
  predicate WellFormed(s: Pool) {
    s.current < |s.servers|
  }

  function CheckList(s: Pool): Pool
    requires WellFormed(s)
  {
    if |s.servers| <= 1 then s.(delay := CONN_DISABLED)
    else
      var here := s.servers[s.current];
      var m := LastMatch(s.servers, here.name, here.port, |s.servers|);
      var s1 := s.(delay := s.config.reconnectDelay);
      if m == 0 then s1 else s1.(current := m, isFresh := false)
  }

  function SetFallback(s: Pool): Pool
    requires WellFormed(s)
  {
    if s.current == 0 then s else s.(servers := s.servers[0 := s.servers[s.current].(working := true)])
  }

  function Change(s: Pool, next: bool, disable: bool): (r: Pool)
    requires WellFormed(s)
    ensures WellFormed(r)
  {
    if s.goodServer then s.(goodServer := false)
    else if |s.servers| == 1 then CheckList(s.(connected := 0))
    else if s.delay == CONN_DISABLED then s.(connected := 0)
    else
      var i := if s.isFresh then 0 else s.current;
      var servers := if disable && i != 0 then s.servers[i := s.servers[i].(working := false)] else s.servers;
      var c := if next then NextWorking(servers, i) else i;
      var s1 := s.(connected := 0, servers := servers, current := c);
      if servers[c].working then s1
      else if s.config.neverGiveUp then s1.(servers := ResetAll(servers), current := 1)
      else s1.(exited := true)
  }

  function AddEntry(servers: seq<Server>, e: Entry): seq<Server> {
    if e.name.None? then servers
    else servers + [Server(e.name.value, if e.port == 0 then DEFAULT_PORT else e.port,
                           e.password, if e.timeout > 0 then e.timeout else 0, true)]
  }

  function AddEntries(servers: seq<Server>, es: seq<Entry>): (r: seq<Server>)
    ensures |servers| <= |r|
    decreases es
  {
    if es == [] then servers else AddEntries(AddEntry(servers, es[0]), es[1..])
  }

  function JumpTarget(param: int, amount: nat): nat
    requires 1 <= amount
  {
    var i := if param < 1 then 1 else param;
    if i >= amount then amount - 1 else i
  }

  function Step(s: Pool, e: Event): (r: Pool)
    requires WellFormed(s)
    ensures WellFormed(r)
  {
    if s.exited then s
    else match e
      case Connect(attempt) =>
        if s.connected != 0 || |s.servers| <= 1 then s
        else
          var s1 := SetFallback(s).(isFresh := false);
          (match attempt
           case Connected => s1.(connected := 1, goodServer := false)
           case Refused => Change(s1, true, true)
           case Unresolved => Change(s1.(connected := 0), true, true)
           case WriteFailed => Change(s1.(connected := 0), true, false)
           case Fatal => s1.(exited := true))
      case Welcome => s.(connected := s.connected + 1)
      case GoodTimer => if s.connected == 2 then s.(goodServer := true) else s
      case Lost => Change(s.(connected := 0), true, false)
      case ErrorOrRestricted => Change(s.(connected := 0), true, true)
      case Jump(param) =>
        (match param
         case None => Change(s.(connected := 0, goodServer := false), true, false)
         case Some(p) =>
           var i := JumpTarget(p, |s.servers|);
           Change(s.(connected := 0, current := i, isFresh := false,
                     servers := s.servers[i := s.servers[i].(working := true)]), false, false))
      case Reset => s.(servers := ResetAll(s.servers))
      case Attach => CheckList(s)
      case Rehash(entries, config, bindChanged) =>
        var s1 := CheckList(s.(servers := AddEntries([s.servers[0]], entries), current := 0, config := config));
        var s2 := s1.(isFresh := true);
        if bindChanged then Change(s2.(connected := 0), true, false) else s2
  }

  function Run(s: Pool, es: seq<Event>): Pool
    requires WellFormed(s)
    decreases es
  {
    if es == [] then s else Run(Step(s, es[0]), es[1..])
  }

  /** The state in which the main loop starts; without a listed server miau refuses to. */
  ghost predicate IsInitial(s: Pool) {
    && 2 <= |s.servers| && AllWorking(s.servers) && s.current == 1
    && !s.isFresh && !s.goodServer && s.connected == 0 && !s.exited
  }

  // ------------------------------------------------------------------
  // The global invariant that makes the search end.

  predicate Inv(s: Pool) {
    && WellFormed(s)
    && (s.isFresh || s.current == 0 ==> AllWorking(s.servers))
  }

  lemma {:induction false} AddEntriesWorking(servers: seq<Server>, es: seq<Entry>)
    requires servers != [] && AllWorking(servers)
    ensures var r := AddEntries(servers, es); |servers| <= |r| && AllWorking(r) && r[0] == servers[0]
    decreases es
  {
    if es != [] {
      AddEntriesWorking(AddEntry(servers, es[0]), es[1..]);
    }
  }

  lemma ChangeKeepsInv(s: Pool, next: bool, disable: bool)
    requires Inv(s) && (!next ==> !s.isFresh)
    ensures Inv(Change(s, next, disable))
  {
    var i := if s.isFresh then 0 else s.current;
    if !s.goodServer && 1 < |s.servers| && next && i == 0 {
      assert s.servers[1].working;
      assert FirstWorking(s.servers, 1, |s.servers|) == 1;
    }
  }

  lemma RehashKeepsInv(s: Pool, entries: seq<Entry>, config: Config)
    requires Inv(s)
    ensures var servers := AddEntries([s.servers[0]], entries);
            Inv(CheckList(s.(servers := servers, current := 0, config := config)).(isFresh := true))
  {
    AddEntriesWorking([s.servers[0]], entries);
  }

  lemma JumpKeepsInv(s: Pool, p: int)
    requires Inv(s)
    ensures var i := JumpTarget(p, |s.servers|);
            Inv(s.(current := i, isFresh := false, servers := s.servers[i := s.servers[i].(working := true)]))
  {
  }

  lemma ConnectKeepsInv(s: Pool, attempt: Attempt)
    requires Inv(s) && !s.exited
    ensures Inv(Step(s, Connect(attempt)))
  {
    var s1 := SetFallback(s).(isFresh := false);
    ChangeKeepsInv(s1, true, true);
    ChangeKeepsInv(s1.(connected := 0), true, true);
    ChangeKeepsInv(s1.(connected := 0), true, false);
  }

  lemma StepKeepsInv(s: Pool, e: Event)
    requires Inv(s)
    ensures Inv(Step(s, e))
  {
    if s.exited {
      return;
    }
    match e
    case Connect(attempt) => ConnectKeepsInv(s, attempt);
    case Lost => ChangeKeepsInv(s.(connected := 0), true, false);
    case ErrorOrRestricted => ChangeKeepsInv(s.(connected := 0), true, true);
    case Jump(None) => ChangeKeepsInv(s.(connected := 0, goodServer := false), true, false);
    case Jump(Some(p)) =>
      var i := JumpTarget(p, |s.servers|);
      JumpKeepsInv(s, p);
      ChangeKeepsInv(s.(connected := 0, current := i, isFresh := false,
                        servers := s.servers[i := s.servers[i].(working := true)]), false, false);
    case Rehash(entries, config, bindChanged) =>
      RehashKeepsInv(s, entries, config);
      var s1 := CheckList(s.(servers := AddEntries([s.servers[0]], entries), current := 0, config := config));
      ChangeKeepsInv(s1.(isFresh := true, connected := 0), true, false);
    case _ =>
  }

  lemma {:induction false} RunKeepsInv(s: Pool, es: seq<Event>)
    requires Inv(s)
    ensures Inv(Run(s, es))
    decreases es
  {
    if es != [] {
      StepKeepsInv(s, es[0]);
      RunKeepsInv(Step(s, es[0]), es[1..]);
    }
  }

  /** In every run from the start, while the current place is the fallback entry
      or is not known, every listed server is marked working. */
  lemma FallbackMeansAllWork(s: Pool, es: seq<Event>)
    requires IsInitial(s)
    ensures Inv(Run(s, es))
  {
    RunKeepsInv(s, es);
  }

  // ------------------------------------------------------------------
  // The code's own form.

  class ServerPool {
    var servers: seq<Server>
    var current: nat
    var isFresh: bool
    var goodServer: bool
    var connected: nat
    var delay: int
    var config: Config
    var exited: bool

    ghost function Now(): Pool
      reads this
    {
      Pool(servers, current, isFresh, goodServer, connected, delay, config, exited)
    }

    method ServerReset()
      requires servers != []
      modifies this`servers
      ensures servers == ResetAll(old(servers))
    {
      var node := 1;
      while node < |servers|
        invariant 1 <= node && |servers| == |old(servers)|
        invariant forall j :: 0 <= j < |servers| ==>
                    servers[j] == if 1 <= j < node then ResetAll(old(servers))[j] else old(servers)[j]
        decreases |servers| - node
      {
        servers := servers[node := servers[node].(working := true)];
        node := node + 1;
      }
    }

    method ServerCheckList()
      requires WellFormed(Now())
      modifies this
      ensures Now() == CheckList(old(Now()))
    {
      if |servers| <= 1 {
        delay := CONN_DISABLED;
        return;
      }
      delay := config.reconnectDelay;
      ghost var name, port := servers[current].name, servers[current].port;
      var ptr := 1;
      while ptr < |servers|
        invariant 1 <= ptr <= |servers| && current < |servers|
        invariant servers[current].name == name && servers[current].port == port
        invariant var m := LastMatch(servers, name, port, ptr);
                  Now() == (if m == 0 then old(Now()).(delay := config.reconnectDelay)
                            else old(Now()).(delay := config.reconnectDelay, current := m, isFresh := false))
      {
        if servers[current].name == servers[ptr].name && servers[current].port == servers[ptr].port {
          current := ptr;
          isFresh := false;
        }
        ptr := ptr + 1;
      }
    }

    /** The do-while of server_change. It ends because place i is listed, or
        because i is the fallback entry and then the next server works. */
    method SeekNext(i: nat)
      requires current == i < |servers| && 2 <= |servers|
      requires i == 0 ==> AllWorking(servers)
      modifies this`current
      ensures current == NextWorking(servers, i)
    {
      ghost var wrapped := false;
      while true
        invariant current < |servers|
        invariant !wrapped ==> i <= current && forall j :: i < j <= current ==> !servers[j].working
        invariant wrapped ==> 1 <= current < i && forall j :: i < j < |servers| || 1 <= j <= current ==> !servers[j].working
        decreases !wrapped, |servers| - current
      {
        current := current + 1;
        if current == |servers| {
          current := 1;
          wrapped := true;
        }
        if servers[current].working || current == i {
          break;
        }
      }
    }

    method ServerChange(next: bool, disable: bool)
      requires Inv(Now()) && !exited && (!next ==> !isFresh)
      modifies this
      ensures Now() == Change(old(Now()), next, disable)
    {
      if goodServer {
        goodServer := false;
        return;
      }
      connected := 0;
      if |servers| == 1 {
        ServerCheckList();
        return;
      }
      if delay == CONN_DISABLED {
        return;
      }
      var i := current;
      if isFresh {
        current := 0;
        i := 0;
      }
      if disable && i != 0 {
        servers := servers[current := servers[current].(working := false)];
      }
      if next {
        SeekNext(i);
      }
      if !servers[current].working {
        if config.neverGiveUp {
          ServerReset();
          current := 1;
        } else {
          exited := true;
        }
      }
    }

    method TryConnect(attempt: Attempt)
      requires Inv(Now()) && !exited
      modifies this
      ensures Now() == Step(old(Now()), Connect(attempt))
    {
      if connected != 0 || |servers| <= 1 {
        return;
      }
      if current != 0 {
        servers := servers[0 := servers[current].(working := true)];
      }
      isFresh := false;
      match attempt
      case Connected =>
        connected := 1;
        goodServer := false;
      case Refused =>
        ServerChange(true, true);
      case Unresolved =>
        connected := 0;
        ServerChange(true, true);
      case WriteFailed =>
        connected := 0;
        ServerChange(true, false);
      case Fatal =>
        exited := true;
    }

    method JumpTo(param: Option<int>)
      requires Inv(Now()) && !exited
      modifies this
      ensures Now() == Step(old(Now()), Jump(param))
    {
      connected := 0;
      if param.Some? {
        var i := param.value;
        if i < 1 {
          i := 1;
        }
        if i >= |servers| {
          i := |servers| - 1;
        }
        current := i;
        servers := servers[current := servers[current].(working := true)];
        isFresh := false;
        ServerChange(false, false);
      } else {
        goodServer := false;
        ServerChange(true, false);
      }
    }

    method ReadConfig(entries: seq<Entry>, newConfig: Config)
      requires WellFormed(Now())
      modifies this
      ensures Now() == old(Now()).(servers := AddEntries([old(servers)[0]], entries), current := 0, config := newConfig)
    {
      current := 0;
      servers := servers[..1];
      config := newConfig;
      assert servers == [old(servers)[0]];
      var n := 0;
      while n < |entries|
        invariant n <= |entries|
        invariant Now() == old(Now()).(servers := servers, current := 0, config := newConfig)
        invariant AddEntries(servers, entries[n..]) == AddEntries([old(servers)[0]], entries)
      {
        assert entries[n..][1..] == entries[n + 1..];
        var e := entries[n];
        if e.name.Some? {
          servers := servers + [Server(e.name.value, if e.port == 0 then DEFAULT_PORT else e.port,
                                       e.password, if e.timeout > 0 then e.timeout else 0, true)];
        }
        n := n + 1;
      }
    }

    method Reload(entries: seq<Entry>, newConfig: Config, bindChanged: bool)
      requires Inv(Now()) && !exited
      modifies this
      ensures Now() == Step(old(Now()), Rehash(entries, newConfig, bindChanged))
    {
      AddEntriesWorking([servers[0]], entries);
      ReadConfig(entries, newConfig);
      ServerCheckList();
      isFresh := true;
      if bindChanged {
        connected := 0;
        ServerChange(true, false);
      }
    }
  }

  // ------------------------------------------------------------------
  // Which server is picked.

  /** How many steps the cyclic search takes from i to j. */
  function Rank(i: nat, j: nat, amount: nat): int {
    if i < j then j - i else j - i + amount - 1
  }

  predicate CanChange(s: Pool) {
    !s.goodServer && 1 < |s.servers| && s.delay != CONN_DISABLED
  }

  /** In every reachable state, server_change(1, disable) picks the working
      server that comes first in cyclic order, the old one last; it resets the
      list, or exits, if and only if no listed server works any more. */
  lemma {:induction false} ChangePicksFirstWorking(s: Pool, disable: bool)
    requires Inv(s) && CanChange(s)
    ensures var i := if s.isFresh then 0 else s.current;
            var flags := if disable && i != 0 then s.servers[i := s.servers[i].(working := false)] else s.servers;
            var s1 := Change(s, true, disable);
            if exists j :: 1 <= j < |flags| && flags[j].working then
              && s1.servers == flags && s1.exited == s.exited
              && 1 <= s1.current < |flags| && flags[s1.current].working
              && forall j :: 1 <= j < |flags| && flags[j].working ==>
                   Rank(i, s1.current, |flags|) <= Rank(i, j, |flags|)
            else if s.config.neverGiveUp then
              s1.servers == ResetAll(flags) && s1.current == 1 && s1.exited == s.exited
            else
              s1.exited
  {
    var i := if s.isFresh then 0 else s.current;
    if i == 0 {
      assert s.servers[1].working;
      assert FirstWorking(s.servers, 1, |s.servers|) == 1;
    }
  }

  // ------------------------------------------------------------------
  // Fairness of consecutive failures.

  /** The working places in [lo, hi), in order. */
  function WorkingIn(servers: seq<Server>, lo: nat, hi: nat): seq<nat>
    requires lo <= hi <= |servers|
    decreases hi - lo
  {
    if lo == hi then []
    else (if servers[lo].working then [lo] else []) + WorkingIn(servers, lo + 1, hi)
  }

  /** The working places in cyclic order from c on. */
  function WorkingFrom(servers: seq<Server>, c: nat): seq<nat>
    requires c < |servers|
  {
    if c == 0 then [] else WorkingIn(servers, c, |servers|) + WorkingIn(servers, 1, c)
  }

  lemma {:induction false} WorkingInSplit(servers: seq<Server>, lo: nat, mid: nat, hi: nat)
    requires lo <= mid <= hi <= |servers|
    ensures WorkingIn(servers, lo, hi) == WorkingIn(servers, lo, mid) + WorkingIn(servers, mid, hi)
    decreases mid - lo
  {
    if lo < mid {
      WorkingInSplit(servers, lo + 1, mid, hi);
    }
  }

  lemma {:induction false} WorkingInSame(a: seq<Server>, b: seq<Server>, lo: nat, hi: nat)
    requires lo <= hi <= |a| && hi <= |b| && forall j :: lo <= j < hi ==> a[j].working == b[j].working
    ensures WorkingIn(a, lo, hi) == WorkingIn(b, lo, hi)
    decreases hi - lo
  {
    if lo < hi {
      WorkingInSame(a, b, lo + 1, hi);
      assert a[lo].working == b[lo].working;
      var here := if a[lo].working then [lo] else [];
      assert WorkingIn(a, lo, hi) == here + WorkingIn(a, lo + 1, hi);
    }
  }

  lemma {:induction false} WorkingInSkips(servers: seq<Server>, lo: nat, hi: nat)
    requires lo <= hi <= |servers|
    ensures WorkingIn(servers, lo, hi) == WorkingIn(servers, FirstWorking(servers, lo, hi), hi)
    decreases hi - lo
  {
    if lo < hi && !servers[lo].working {
      WorkingInSkips(servers, lo + 1, hi);
      assert WorkingIn(servers, lo, hi) == [] + WorkingIn(servers, lo + 1, hi) == WorkingIn(servers, lo + 1, hi);
    }
  }

  /** FirstWorking is the first of WorkingIn. */
  lemma WorkingInFirst(servers: seq<Server>, lo: nat, hi: nat)
    requires lo <= hi <= |servers|
    ensures var f := FirstWorking(servers, lo, hi);
            WorkingIn(servers, lo, hi) == if f == hi then [] else [f] + WorkingIn(servers, f + 1, hi)
    ensures var f := FirstWorking(servers, lo, hi); WorkingIn(servers, lo, hi) == WorkingIn(servers, f, hi)
  {
    WorkingInSkips(servers, lo, hi);
  }

  /** The outcomes that disable the server tried: to the list of servers a name
      that is not found is as good as a refused connection. */
  predicate IsFailure(a: Attempt) {
    a == Refused || a == Unresolved
  }

  function Fail(s: Pool, a: Attempt): Pool
    requires WellFormed(s)
  {
    Step(s, Connect(a))
  }

  /** The next attempts, if they all fail, go to `order`, which is all that works. */
  predicate Faces(s: Pool, order: seq<nat>) {
    && WellFormed(s) && CanChange(s) && s.connected == 0 && !s.exited
    && s.current != 0 && s.servers[s.current].working
    && order == WorkingFrom(s.servers, s.current)
  }

  /** The list was reset, or miau gave up, as configured. */
  predicate Exhausted(s: Pool, config: Config) {
    if config.neverGiveUp then AllWorking(s.servers) && s.current == 1 && !s.exited else s.exited
  }

  /** The search from a server just disabled ends at the first of the others in
      cyclic order, and the order from there is the rest of it. */
  lemma NextInOrder(flags: seq<Server>, c: nat)
    requires 1 <= c < |flags| && !flags[c].working
    ensures var rest, r := WorkingIn(flags, c + 1, |flags|) + WorkingIn(flags, 1, c), NextWorking(flags, c);
            if rest == [] then r == c
            else 1 <= r < |flags| && flags[r].working && WorkingFrom(flags, r) == rest
  {
    var n, r := |flags|, NextWorking(flags, c);
    WorkingInFirst(flags, c + 1, n);
    WorkingInFirst(flags, 1, c);
    if FirstWorking(flags, c + 1, n) < n {
      assert WorkingIn(flags, 1, r) == WorkingIn(flags, 1, c) by {
        WorkingInSplit(flags, 1, c, r);
        WorkingInSplit(flags, c, c + 1, r);
        NoneWorking(flags, c + 1, r);
      }
    } else if r < c {
      assert WorkingIn(flags, r, n) == WorkingIn(flags, r, c) + WorkingIn(flags, c + 1, n) by {
        WorkingInSplit(flags, r, c, n);
        WorkingInSplit(flags, c, c + 1, n);
      }
      NoneWorking(flags, 1, r);
    }
  }

  lemma OrderAfterDisabling(servers: seq<Server>, flags: seq<Server>, c: nat)
    requires 1 <= c < |servers| == |flags| && servers[c].working
    requires forall j :: 1 <= j < |flags| && j != c ==> flags[j].working == servers[j].working
    ensures WorkingFrom(servers, c) == [c] + (WorkingIn(flags, c + 1, |flags|) + WorkingIn(flags, 1, c))
  {
    WorkingInSame(servers, flags, c + 1, |flags|);
    WorkingInSame(servers, flags, 1, c);
    assert WorkingIn(servers, c, |servers|) == [c] + WorkingIn(servers, c + 1, |servers|);
    Regroup([c], WorkingIn(flags, c + 1, |flags|), WorkingIn(flags, 1, c));
  }

  /** One failure takes the server tried off the order and moves to the next. */
  lemma FailAdvances(s: Pool, order: seq<nat>, a: Attempt)
    requires Faces(s, order) && IsFailure(a)
    ensures order != [] && order[0] == s.current && Fail(s, a).config == s.config
    ensures if 1 < |order| then Faces(Fail(s, a), order[1..]) else Exhausted(Fail(s, a), s.config)
  {
    var c := s.current;
    var s0 := SetFallback(s).(isFresh := false);
    var flags := s0.servers[c := s0.servers[c].(working := false)];
    OrderAfterDisabling(s.servers, flags, c);
    NextInOrder(flags, c);
  }

  lemma {:induction false} NoneWorking(servers: seq<Server>, lo: nat, hi: nat)
    requires lo <= hi <= |servers| && forall j :: lo <= j < hi ==> !servers[j].working
    ensures WorkingIn(servers, lo, hi) == []
    decreases hi - lo
  {
    if lo < hi {
      NoneWorking(servers, lo + 1, hi);
    }
  }

  lemma OrderIsNonempty(s: Pool, order: seq<nat>)
    requires Faces(s, order)
    ensures order != []
  {
    FailAdvances(s, order, Refused);
  }

  predicate AllFail(attempts: seq<Attempt>) {
    forall i :: 0 <= i < |attempts| ==> IsFailure(attempts[i])
  }

  /** The places tried by consecutive attempts, and the state after them. */
  function Tried(s: Pool, attempts: seq<Attempt>): (seq<nat>, Pool)
    requires WellFormed(s)
    decreases attempts
  {
    if attempts == [] then ([], s)
    else
      var rest := Tried(Fail(s, attempts[0]), attempts[1..]);
      ([s.current] + rest.0, rest.1)
  }

  /** Consecutive failures try every working server once, in cyclic order, and
      the last of them is exactly where miau starts over or gives up. */
  lemma {:induction false} FailuresTryEachOnce(s: Pool, order: seq<nat>, attempts: seq<Attempt>)
    requires Faces(s, order) && AllFail(attempts) && |attempts| == |order|
    ensures Tried(s, attempts).0 == order && Exhausted(Tried(s, attempts).1, s.config)
    decreases |order|
  {
    OrderIsNonempty(s, order);
    FailAdvances(s, order, attempts[0]);
    var s1, rest := Fail(s, attempts[0]), attempts[1..];
    if 1 < |order| {
      FailuresTryEachOnce(s1, order[1..], rest);
    } else {
      assert Tried(s1, rest) == ([], s1);
    }
  }

  /** Until then nothing is reset, and the servers not yet tried are still to come. */
  lemma {:induction false} NoEarlyReset(s: Pool, order: seq<nat>, attempts: seq<Attempt>)
    requires Faces(s, order) && AllFail(attempts) && |attempts| < |order|
    ensures Faces(Tried(s, attempts).1, order[|attempts|..])
    decreases |attempts|
  {
    if attempts == [] {
      assert order[0..] == order;
    } else {
      FailAdvances(s, order, attempts[0]);
      NoEarlyReset(Fail(s, attempts[0]), order[1..], attempts[1..]);
      assert order[1..][|attempts| - 1..] == order[|attempts|..];
    }
  }

  lemma {:induction false} WorkingInAll(servers: seq<Server>, lo: nat, hi: nat)
    requires lo <= hi <= |servers| && forall j :: lo <= j < hi ==> servers[j].working
    ensures var w := WorkingIn(servers, lo, hi);
            |w| == hi - lo && forall k :: 0 <= k < |w| ==> w[k] == lo + k
    decreases hi - lo
  {
    if lo < hi {
      WorkingInAll(servers, lo + 1, hi);
    }
  }

  /** The place k steps after c, on a list of n. */
  function Place(c: nat, k: nat, n: nat): nat {
    if c + k <= n then c + k else c + k - n
  }

  /** Each of the places 1 to n once, in cyclic order from c. */
  predicate IsRotation(order: seq<nat>, c: nat, n: nat) {
    && |order| == n
    && (forall k :: 0 <= k < n ==> order[k] == Place(c, k, n))
    && (forall j :: 1 <= j <= n ==> j in order)
  }

  lemma OrderIsRotation(servers: seq<Server>, c: nat)
    requires 1 <= c < |servers| && AllWorking(servers)
    ensures IsRotation(WorkingFrom(servers, c), c, |servers| - 1)
  {
    WorkingInAll(servers, c, |servers|);
    WorkingInAll(servers, 1, c);
    var n, order := |servers| - 1, WorkingFrom(servers, c);
    forall j | 1 <= j <= n
      ensures j in order
    {
      var k := if c <= j then j - c else j + n - c;
      assert order[k] == j;
    }
  }

  /** With every listed server working, as many failures as there are servers
      try each of them exactly once, the k-th the one k places on. */
  lemma {:induction false} Fairness(s: Pool, order: seq<nat>, attempts: seq<Attempt>)
    requires Faces(s, order) && AllWorking(s.servers)
    requires AllFail(attempts) && |attempts| == |s.servers| - 1
    ensures IsRotation(Tried(s, attempts).0, s.current, |s.servers| - 1)
    ensures Exhausted(Tried(s, attempts).1, s.config)
  {
    OrderIsRotation(s.servers, s.current);
    FailuresTryEachOnce(s, order, attempts);
  }
}
