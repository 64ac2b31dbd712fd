/**
 What each event does to the list of servers: which server is left and for
 which, who is marked as not working, and what the fallback entry holds.
 */
module ServerEvents {
  import opened Sequences
  import opened Wrappers
  import opened Failover

  // ------------------------------------------------------------------
  // A server that was good.

  /** When the connection to a good server is lost, or it says so with an error,
      miau stays with it: the next attempts face it first, and then every other
      working server. */
  lemma GoodServerIsTriedAgain(s: Pool, e: Event)
    requires Inv(s) && !s.exited && 2 <= |s.servers| && s.delay != CONN_DISABLED
    requires s.goodServer && s.current != 0 && s.servers[s.current].working
    requires e == Lost || e == ErrorOrRestricted
    ensures var t := Step(s, e);
            && t.servers == s.servers && t.current == s.current && t.config == s.config
            && Faces(t, WorkingFrom(s.servers, s.current))
  {
  }

  /** So, from the loss on, as many failures as there are working servers try
      each of them once, the good one first. */
  lemma GoodServerFailsOver(s: Pool, attempts: seq<Attempt>)
    requires Inv(s) && !s.exited && 2 <= |s.servers| && s.delay != CONN_DISABLED
    requires s.goodServer && s.current != 0 && s.servers[s.current].working
    requires AllFail(attempts) && |attempts| == |WorkingFrom(s.servers, s.current)|
    ensures var order := WorkingFrom(s.servers, s.current);
            && Tried(Step(s, Lost), attempts).0 == order && order != [] && order[0] == s.current
            && Exhausted(Tried(Step(s, Lost), attempts).1, s.config)
  {
    var t, order := Step(s, Lost), WorkingFrom(s.servers, s.current);
    GoodServerIsTriedAgain(s, Lost);
    FailAdvances(t, order, Refused);
    FailuresTryEachOnce(t, order, attempts);
  }

  /** A server is good once it has welcomed us and the timer went off, and not
      before; and a new connection has to earn it again. */
  lemma GoodIsEarned(s: Pool)
    requires WellFormed(s) && !s.exited && s.connected == 0 && 2 <= |s.servers|
    ensures var t := Step(s, Connect(Connected));
            && !t.goodServer && !Step(t, GoodTimer).goodServer
            && Step(Step(t, Welcome), GoodTimer).goodServer
            && !Step(Step(Step(t, Welcome), GoodTimer), Lost).goodServer
  {
  }

  // ------------------------------------------------------------------
  // Who is marked as not working.

  /** The events that say the current server does not work. */
  predicate Blames(s: Pool, e: Event) {
    match e
    case Connect(a) => a == Refused || a == Unresolved
    case ErrorOrRestricted => !s.goodServer
    case _ => false
  }

  /** An attempt, or the end of a connection, on a list that is in use. */
  predicate EndsUse(s: Pool, e: Event) {
    && !s.exited && 2 <= |s.servers| && s.delay != CONN_DISABLED
    && (e == Lost || e == ErrorOrRestricted
        || (e.Connect? && s.connected == 0 && !s.goodServer && e.attempt != Connected && e.attempt != Fatal))
  }

  /** The place we are known to be on. */
  function Here(s: Pool, e: Event): nat {
    if s.isFresh && !e.Connect? then 0 else s.current
  }

  /** The list as it was, but for the server in use if it is to blame. */
  predicate Marked(s: Pool, e: Event, flags: seq<Server>) {
    && |flags| == |s.servers|
    && forall j :: 1 <= j < |flags| ==>
         flags[j] == if Blames(s, e) && j == Here(s, e) then s.servers[j].(working := false) else s.servers[j]
  }

  /** Of the working servers, place c is the first in cyclic order from i. */
  predicate IsNextFrom(flags: seq<Server>, i: nat, c: nat) {
    && 1 <= c < |flags| && flags[c].working
    && forall j :: 1 <= j < |flags| && flags[j].working ==> Rank(i, c, |flags|) <= Rank(i, j, |flags|)
  }

  /** With these servers left, the next working one after place i is taken; when
      none is left, all work again from the first on, or miau exits. */
  predicate GoesOn(t: Pool, flags: seq<Server>, i: nat, config: Config) {
    if exists j :: 1 <= j < |flags| && flags[j].working then
      |t.servers| == |flags| && t.servers[1..] == flags[1..] && IsNextFrom(flags, i, t.current) && !t.exited
    else if config.neverGiveUp then
      |t.servers| == |flags| && AllWorking(t.servers) && t.current == 1 && !t.exited
    else
      t.exited
  }

  /** A lost connection or a failed write marks nobody; a refused connection, a
      name that is not found or an error marks the server in use and nobody else. */
  lemma OnlyTheBlamedIsMarked(s: Pool, e: Event, flags: seq<Server>)
    requires Inv(s) && EndsUse(s, e) && !s.goodServer && Marked(s, e, flags)
    ensures GoesOn(Step(s, e), flags, Here(s, e), s.config) && Step(s, e).connected == 0
  {
    var s1 := if e.Connect? then SetFallback(s).(isFresh := false, connected := 0) else s.(connected := 0);
    EventIsChange(s, e, s1);
    ChangeGoesOn(s1, Blames(s, e), Here(s, e), flags);
  }

  lemma EventIsChange(s: Pool, e: Event, s1: Pool)
    requires Inv(s) && EndsUse(s, e) && !s.goodServer
    requires s1 == if e.Connect? then SetFallback(s).(isFresh := false, connected := 0) else s.(connected := 0)
    ensures Inv(s1) && CanChange(s1) && s1.config == s.config && |s1.servers| == |s.servers| && !s1.exited
    ensures s1.servers[1..] == s.servers[1..]
    ensures Here(s, e) == if s1.isFresh then 0 else s1.current
    ensures Step(s, e) == Change(s1, true, Blames(s, e))
  {
    assert (if e.Connect? then SetFallback(s).(isFresh := false) else s).goodServer == false;
  }

  /** The list that a change leaves before it picks. */
  function Disabled(s: Pool, i: nat, disable: bool): seq<Server>
    requires i < |s.servers|
  {
    if disable && i != 0 then s.servers[i := s.servers[i].(working := false)] else s.servers
  }

  lemma PicksAndGoesOn(s: Pool, disable: bool, i: nat)
    requires Inv(s) && CanChange(s) && !s.exited && i == (if s.isFresh then 0 else s.current)
    ensures GoesOn(Change(s, true, disable), Disabled(s, i, disable), i, s.config)
  {
    ChangePicksFirstWorking(s, disable);
  }

  lemma ChangeGoesOn(s: Pool, disable: bool, i: nat, flags: seq<Server>)
    requires Inv(s) && CanChange(s) && !s.exited && i == (if s.isFresh then 0 else s.current)
    requires |flags| == |s.servers| && forall j :: 1 <= j < |flags| ==>
               flags[j] == if disable && j == i then s.servers[j].(working := false) else s.servers[j]
    ensures GoesOn(Change(s, true, disable), flags, i, s.config) && Change(s, true, disable).connected == 0
  {
    PicksAndGoesOn(s, disable, i);
    GoesOnAlike(Change(s, true, disable), Disabled(s, i, disable), flags, i, s.config);
    ChangeDisconnects(s, disable);
  }

  lemma ChangeDisconnects(s: Pool, disable: bool)
    requires Inv(s) && CanChange(s)
    ensures Change(s, true, disable).connected == 0
  {
  }

  /** The fallback entry makes no difference. */
  lemma GoesOnAlike(t: Pool, a: seq<Server>, b: seq<Server>, i: nat, config: Config)
    requires |a| == |b| && 1 <= |a| && (forall j :: 1 <= j < |a| ==> a[j] == b[j]) && GoesOn(t, a, i, config)
    ensures GoesOn(t, b, i, config)
  {
    SameBehindFallback(a, b);
    SomeWorks(a, b);
  }

  lemma SomeWorks(a: seq<Server>, b: seq<Server>)
    requires |a| == |b| && forall j :: 1 <= j < |a| ==> a[j] == b[j]
    ensures (exists j :: 1 <= j < |a| && a[j].working) <==> (exists j :: 1 <= j < |b| && b[j].working)
  {
  }

  lemma SameBehindFallback(a: seq<Server>, b: seq<Server>)
    requires |a| == |b| && 1 <= |a| && forall j :: 1 <= j < |a| ==> a[j] == b[j]
    ensures a[1..] == b[1..]
  {
  }

  // ------------------------------------------------------------------
  // The fallback entry.

  predicate SameServer(a: Server, b: Server) {
    a.name == b.name && a.port == b.port && a.password == b.password && a.timeout == b.timeout
  }

  /** Whether the event is an attempt that is made. */
  predicate Attempts(s: Pool, e: Event) {
    e.Connect? && !s.exited && s.connected == 0 && 2 <= |s.servers|
  }

  /** The server last tried in the run, or the one given. */
  function LastTried(s: Pool, es: seq<Event>, last: Server): Server
    requires WellFormed(s)
    decreases es
  {
    if es == [] then last
    else LastTried(Step(s, es[0]), es[1..], if Attempts(s, es[0]) then s.servers[s.current] else last)
  }

  lemma ChangeKeepsFallback(s: Pool, next: bool, disable: bool)
    requires WellFormed(s)
    ensures Change(s, next, disable).servers != [] && SameServer(Change(s, next, disable).servers[0], s.servers[0])
  {
  }

  /** An attempt puts the server tried in place 0, whatever comes of it. */
  lemma AttemptSetsFallback(s: Pool, a: Attempt)
    requires Inv(s) && Attempts(s, Connect(a))
    ensures Step(s, Connect(a)).servers != [] && SameServer(Step(s, Connect(a)).servers[0], s.servers[s.current])
  {
    var s1 := SetFallback(s).(isFresh := false);
    ChangeKeepsFallback(s1, true, true);
    ChangeKeepsFallback(s1.(connected := 0), true, true);
    ChangeKeepsFallback(s1.(connected := 0), true, false);
  }

  lemma JumpKeepsFallback(s: Pool, param: Option<int>)
    requires Inv(s) && !s.exited
    ensures Step(s, Jump(param)).servers != [] && SameServer(Step(s, Jump(param)).servers[0], s.servers[0])
  {
    match param
    case None => ChangeKeepsFallback(s.(connected := 0, goodServer := false), true, false);
    case Some(p) =>
      var i := JumpTarget(p, |s.servers|);
      ChangeKeepsFallback(s.(connected := 0, current := i, isFresh := false,
                             servers := s.servers[i := s.servers[i].(working := true)]), false, false);
  }

  lemma RehashKeepsFallback(s: Pool, e: Event)
    requires Inv(s) && !s.exited && e.Rehash?
    ensures Step(s, e).servers != [] && SameServer(Step(s, e).servers[0], s.servers[0])
  {
    AddEntriesWorking([s.servers[0]], e.entries);
    var s1 := CheckList(s.(servers := AddEntries([s.servers[0]], e.entries), current := 0, config := e.config));
    ChangeKeepsFallback(s1.(isFresh := true, connected := 0), true, false);
  }

  lemma FallbackAfterStep(s: Pool, e: Event, last: Server)
    requires Inv(s) && SameServer(s.servers[0], last)
    ensures Step(s, e).servers != []
    ensures SameServer(Step(s, e).servers[0], if Attempts(s, e) then s.servers[s.current] else last)
  {
    if s.exited {
      return;
    }
    match e
    case Connect(a) =>
      if Attempts(s, e) { AttemptSetsFallback(s, a); }
    case Jump(param) => JumpKeepsFallback(s, param);
    case Rehash(_, _, _) => RehashKeepsFallback(s, e);
    case Lost => ChangeKeepsFallback(s.(connected := 0), true, false);
    case ErrorOrRestricted => ChangeKeepsFallback(s.(connected := 0), true, true);
    case _ =>
  }

  /** In every run, whatever is read, marked or reset, the fallback entry is the
      server last tried. */
  lemma {:induction false} FallbackIsLastTried(s: Pool, es: seq<Event>, last: Server)
    requires Inv(s) && SameServer(s.servers[0], last)
    ensures WellFormed(Run(s, es)) && SameServer(Run(s, es).servers[0], LastTried(s, es, last))
    decreases es
  {
    if es != [] {
      FallbackAfterStep(s, es[0], last);
      StepKeepsInv(s, es[0]);
      FallbackIsLastTried(Step(s, es[0]), es[1..], if Attempts(s, es[0]) then s.servers[s.current] else last);
    }
  }

  // ------------------------------------------------------------------
  // The list read anew.

  /** The entry as it is listed. */
  predicate IsListed(x: Server, e: Entry) {
    && e.name == Some(x.name) && x.password == e.password && x.working
    && x.port == (if e.port == 0 then 6667 else e.port)
    && x.timeout == if e.timeout < 0 then 0 else e.timeout
  }

  predicate AllNamed(es: seq<Entry>) {
    forall i :: 0 <= i < |es| ==> es[i].name.Some?
  }

  /** Named entries are listed in order, behind what is there. */
  lemma {:induction false} EntriesAreListed(servers: seq<Server>, es: seq<Entry>)
    requires AllNamed(es)
    ensures var r := AddEntries(servers, es);
            && |r| == |servers| + |es| && r[..|servers|] == servers
            && forall i :: 0 <= i < |es| ==> IsListed(r[|servers| + i], es[i])
    decreases es
  {
    if es != [] {
      var more := AddEntry(servers, es[0]);
      EntriesAreListed(more, es[1..]);
      var r := AddEntries(servers, es);
      assert r[|servers|] == r[..|more|][|servers|] == more[|servers|];
      assert r[..|servers|] == r[..|more|][..|servers|];
      forall i | 1 <= i < |es| ensures IsListed(r[|servers| + i], es[i]) {
        assert es[1..][i - 1] == es[i];
      }
    }
  }

  /** An entry without a name is as if it was not there. */
  lemma {:induction false} NamelessIsSkipped(servers: seq<Server>, a: seq<Entry>, e: Entry, b: seq<Entry>)
    requires e.name.None?
    ensures AddEntries(servers, a + [e] + b) == AddEntries(servers, a + b)
    decreases |a|
  {
    if a == [] {
      assert a + [e] + b == [e] + b && ([e] + b)[1..] == b && a + b == b;
    } else {
      assert (a + [e] + b)[1..] == a[1..] + [e] + b && (a + b)[1..] == a[1..] + b;
      NamelessIsSkipped(AddEntry(servers, a[0]), a[1..], e, b);
    }
  }

  /** Place m is the last listed that has the name and port of the server. */
  predicate IsLastSame(servers: seq<Server>, x: Server, m: nat) {
    && 1 <= m < |servers| && servers[m].name == x.name && servers[m].port == x.port
    && forall j :: m < j < |servers| ==> !(servers[j].name == x.name && servers[j].port == x.port)
  }

  lemma {:induction false} LastMatchIsLast(servers: seq<Server>, name: string, port: int, n: nat)
    requires 1 <= n <= |servers|
    ensures forall j :: LastMatch(servers, name, port, n) < j < n ==>
              !(servers[j].name == name && servers[j].port == port)
  {
    if n != 1 && !(servers[n - 1].name == name && servers[n - 1].port == port) {
      LastMatchIsLast(servers, name, port, n - 1);
    }
  }

  /** The check finds the server in use by its name and port, the last one that
      has them, and otherwise leaves the place as it is; it opens reconnecting,
      and closes it when no server is listed. */
  lemma CheckFindsServer(s: Pool)
    requires WellFormed(s)
    ensures var t, here := CheckList(s), s.servers[s.current];
            && (!s.exited ==> Step(s, Attach) == t)
            && t == s.(delay := t.delay, current := t.current, isFresh := t.isFresh)
            && (|s.servers| == 1 ==> t.delay == 999 && t.current == s.current && t.isFresh == s.isFresh)
            && (2 <= |s.servers| ==> t.delay == s.config.reconnectDelay)
            && (2 <= |s.servers| ==> forall m: nat :: IsLastSame(s.servers, here, m) ==> t.current == m && !t.isFresh)
            && ((forall m: nat :: !IsLastSame(s.servers, here, m)) ==> t.current == s.current && t.isFresh == s.isFresh)
  {
    if 2 <= |s.servers| {
      var here := s.servers[s.current];
      var m := LastMatch(s.servers, here.name, here.port, |s.servers|);
      LastMatchIsLast(s.servers, here.name, here.port, |s.servers|);
      assert m != 0 ==> IsLastSame(s.servers, here, m);
    }
  }

  /** After a rehash the entries are listed behind the fallback entry, which is
      the server we are on; the place is that of the last of them with its name
      and port, or the fallback entry, and in either case taken as not known. */
  lemma RehashListsEntries(s: Pool, entries: seq<Entry>, config: Config)
    requires Inv(s) && !s.exited && AllNamed(entries)
    ensures var t := Step(s, Rehash(entries, config, false));
            && |t.servers| == 1 + |entries| && t.servers[0] == s.servers[0]
            && (forall i :: 0 <= i < |entries| ==> IsListed(t.servers[1 + i], entries[i]))
            && t.isFresh && t.config == config && !t.exited
            && t.connected == s.connected && t.goodServer == s.goodServer
            && t.delay == (if entries == [] then CONN_DISABLED else config.reconnectDelay)
            && (forall m: nat :: IsLastSame(t.servers, t.servers[0], m) ==> t.current == m)
            && ((forall m: nat :: !IsLastSame(t.servers, t.servers[0], m)) ==> t.current == 0)
  {
    EntriesAreListed([s.servers[0]], entries);
    var r := AddEntries([s.servers[0]], entries);
    assert r[0] == r[..1][0];
    CheckFindsServer(s.(servers := r, current := 0, config := config));
  }

  /** When the bind address changed too, miau goes to the first entry at once,
      unless the server it is on was good. */
  lemma RebindGoesToFirst(s: Pool, entries: seq<Entry>, config: Config)
    requires Inv(s) && !s.exited && AllNamed(entries) && entries != [] && config.reconnectDelay != CONN_DISABLED
    ensures var t, u := Step(s, Rehash(entries, config, false)), Step(s, Rehash(entries, config, true));
            u == if s.goodServer then t.(connected := 0, goodServer := false) else t.(connected := 0, current := 1)
  {
    var t := Step(s, Rehash(entries, config, false));
    RehashListsEntries(s, entries, config);
    EntriesAreListed([s.servers[0]], entries);
    assert t.servers[1].working;
    assert FirstWorking(t.servers, 1, |t.servers|) == 1;
  }

  // ------------------------------------------------------------------
  // JUMP and RESET.

  /** JUMP with a number goes to that server, with a number too low to the first
      and with one too high to the last, and marks it as working. */
  lemma JumpGoesThere(s: Pool, p: int, k: nat)
    requires Inv(s) && !s.exited && 2 <= |s.servers|
    requires k == if p < 1 then 1 else if |s.servers| <= p then |s.servers| - 1 else p
    ensures var t := Step(s, Jump(Some(p)));
            && t.current == k && !t.isFresh && !t.goodServer && t.connected == 0 && !t.exited
            && |t.servers| == |s.servers| && t.config == s.config && t.delay == s.delay
            && forall j :: 0 <= j < |s.servers| ==>
                 t.servers[j] == if j == k then s.servers[j].(working := true) else s.servers[j]
  {
  }

  /** JUMP without a number marks nobody, and leaves a good server at once. */
  lemma JumpGoesOn(s: Pool)
    requires Inv(s) && !s.exited && 2 <= |s.servers| && s.delay != CONN_DISABLED
    ensures var t := Step(s, Jump(None));
            GoesOn(t, s.servers, if s.isFresh then 0 else s.current, s.config) && t.connected == 0 && !t.goodServer
  {
    var s1 := s.(connected := 0, goodServer := false);
    ChangeGoesOn(s1, false, if s.isFresh then 0 else s.current, s.servers);
  }

  /** RESET marks every listed server as working and does nothing else. */
  lemma ResetMarksAll(s: Pool)
    requires WellFormed(s) && !s.exited
    ensures var t := Step(s, Reset);
            && t == s.(servers := t.servers) && |t.servers| == |s.servers| && t.servers[0] == s.servers[0]
            && forall j :: 1 <= j < |s.servers| ==> t.servers[j] == s.servers[j].(working := true)
  {
  }

  /** Without a listed server nothing is tried any more: an attempt is not made,
      and the end of a connection closes reconnecting. */
  lemma NoServerNoAttempt(s: Pool, e: Event)
    requires WellFormed(s) && !s.exited && |s.servers| == 1
    ensures e.Connect? ==> Step(s, e) == s
    ensures (e == Lost || e == ErrorOrRestricted) && !s.goodServer ==>
              Step(s, e) == s.(connected := 0, delay := CONN_DISABLED)
  {
  }
}
