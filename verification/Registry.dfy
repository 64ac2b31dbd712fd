/**
 The channel registry in place (src/channels.c, src/server.c, src/miau.c): records
 shared by reference, moved between three lists and changed as they go. Every
 method computes, on the values of the records, the function of Channels.dfy
 that models it.
 */
module Registry {
  import opened Ascii
  import opened Sequences
  import opened Wrappers
  import opened Automode
  import opened Quicklog
  import opened Channels
  import Masks
  import Modes
  import Sessions

  class Channel {
    const id: nat
    var name: CString
    var simple: CString
    var nameSet: bool
    var simpleSet: bool
    var key: CString
    var jointries: int
    var oper: int
    var queue: seq<Action>
    var hasqlog: bool

    function Value(): Chan
      reads this
    {
      Chan(id, name, simple, nameSet, simpleSet, key, jointries, oper, queue, hasqlog)
    }

    constructor (id: nat, name: CString, key: Option<CString>)
      ensures Value() == NewChan(id, name, key)
    {
      this.id, this.name, this.simple := id, name, name;
      nameSet, simpleSet := false, false;
      this.key := if key.None? then "-" else key.value;
      jointries, oper, queue, hasqlog := JOINTRIES_UNSET, -1, [], false;
    }

    /** One round of automode_queue; the lookup ignores the case of the nick. */
    method QueueMode(nick: CString, mode: char, permitted: bool) returns (added: nat)
      modifies this`queue
      ensures Value() == old(Value()).(queue := Greeted1(old(queue), nick, mode, permitted))
      ensures added == |queue| - |old(queue)|
    {
      added := 0;
      if !permitted {
        return;
      }
      var ptr := 0;
      while ptr < |queue|
        invariant ptr <= |queue| && forall i :: 0 <= i < ptr ==> !(SameName(nick, queue[i].nick) && queue[i].mode == mode)
      {
        if SameName(nick, queue[ptr].nick) && queue[ptr].mode == mode {
          return;
        }
        ptr := ptr + 1;
      }
      queue := queue + [Action(nick, mode)];
      added := 1;
    }

    /** automode_queue: operator status and voice, as the permission list says. */
    method QueueModes(perms: Masks.PermList, host: Option<CString>, nick: CString, hostname: CString)
      returns (added: int)
      requires host.Some? ==> forall r :: r in perms.rules ==> r.name != []
      modifies this`queue
      ensures Value() == old(Value()).(queue := Greeted(old(queue), nick,
                                                        Permits(perms.rules, host, 'o', nick, hostname, name),
                                                        Permits(perms.rules, host, 'v', nick, hostname, name)))
      ensures added == |queue| - |old(queue)|
    {
      var op := perms.IsPerm(host, Mask('o', nick, hostname, name));
      var n := QueueMode(nick, 'o', op != 0);
      var voice := perms.IsPerm(host, Mask('v', nick, hostname, name));
      var m := QueueMode(nick, 'v', voice != 0);
      added := n + m;
    }

    /** automode_drop_channel: the walk deletes the entries concerned. */
    method DropActions(nick: Option<CString>, mode: char)
      modifies this`queue
      ensures Value() == old(Value()).(queue := Dropped(old(queue), nick, mode))
    {
      var node := 0;
      while node < |queue|
        invariant node <= |queue|
        invariant queue[..node] + Dropped(queue[node..], nick, mode) == Dropped(old(queue), nick, mode)
        decreases |queue| - node
      {
        var data := queue[node];
        DroppedTurn(queue, node, nick, mode);
        AfterRemoval(queue, node);
        if (nick.None? || SameName(nick.value, data.nick)) && (mode == ANY_MODE || mode == data.mode) {
          queue := queue[..node] + queue[node + 1..];
        } else {
          node := node + 1;
        }
      }
      assert queue[..node] + [] == queue;
    }

    /** The part of channel_join_list that counts the tries down. */
    method TakeTry(cfg: JoinConfig, rejoin: bool) returns (t: int)
      modifies this`jointries
      ensures t == TriesNow(old(Value()), cfg, rejoin)
      ensures Value() == if 0 < t then old(Value()).(jointries := t - 1) else old(Value())
    {
      if (rejoin || (cfg.rejoin && !cfg.leave)) && jointries == JOINTRIES_UNSET {
        if cfg.jointries == 0 {
          jointries := 1;
        } else if IsSafe(name) {
          jointries := 1;
        } else {
          jointries := cfg.jointries;
        }
      }
      t := jointries;
      if jointries > 0 {
        jointries := jointries - 1;
      }
    }

    /** The part of channel_add that makes a record active. */
    method Activate(channel: CString)
      modifies this
      ensures Value() == Activated(old(Value()), channel)
    {
      if !nameSet {
        name := channel;
        nameSet := true;
        if !simpleSet {
          simple := name;
        }
      }
      if !simpleSet {
        simple := Simplify(name);
        simpleSet := true;
      }
    }
  }

  ghost function Values(cs: seq<Channel>): seq<Chan>
    reads cs
  {
    seq(|cs|, i requires 0 <= i < |cs| reads cs => cs[i].Value())
  }

  ghost predicate Apart(cs: seq<Channel>, ds: seq<Channel>) {
    forall c :: c in cs ==> c !in ds
  }

  class Registry {
    var active: seq<Channel>
    var passive: seq<Channel>
    var former: seq<Channel>
    var next: nat
    var automodes: int

    /** No record is on a list twice or on two lists. */
    ghost predicate Valid()
      reads this
    {
      && Distinct(active) && Distinct(passive) && Distinct(former)
      && Apart(active, passive) && Apart(active, former) && Apart(passive, former)
    }

    ghost function Now(): Lists
      reads this, active, passive, former
    {
      Lists(Values(active), Values(passive), Values(former), next, automodes)
    }

    constructor ()
      ensures Valid() && Now() == EMPTY
    {
      active, passive, former, next, automodes := [], [], [], 0, 0;
    }

    /** channel_find: the first exact match ends the loop, a match of short
        forms is remembered, and a later one replaces it. */
    static method Find(list: seq<Channel>, name: CString) returns (k: int)
      ensures k == FindIn(Values(list), name)
    {
      k := -1;
      if !IsName(name) {
        return;
      }
      var sname := Simplify(name);
      ghost var v := Values(list);
      var node := 0;
      while node < |list|
        invariant node <= |list| && FirstExact(v, name, 0) == FirstExact(v, name, node)
        invariant k == LastLike(v, name, node)
      {
        if SameName(list[node].name, name) {
          return node;
        } else if SameName(list[node].simple, sname) {
          k := node;
        }
        node := node + 1;
      }
    }

    /** The end of channel_add: a record on no list becomes the last active one. */
    method TakeUp(chptr: Channel, name: CString)
      requires Valid() && chptr !in active && chptr !in passive && chptr !in former
      modifies this`active, chptr
      ensures Valid()
      ensures Now() == old(Now()).(active := old(Values(active)) + [Activated(old(chptr.Value()), name)])
    {
      active := active + [chptr];
      chptr.Activate(name);
    }

    method TakeFromPassive(k: nat, name: CString)
      requires Valid() && k < |passive|
      modifies this, passive[k]
      ensures Valid()
      ensures Now() == FromPassive(old(Now()), k, name)
    {
      var chptr := passive[k];
      Unlink(passive, k);
      passive := Without(passive, k);
      TakeUp(chptr, name);
    }

    method TakeFromFormer(k: nat, name: CString)
      requires Valid() && k < |former|
      modifies this, former[k]
      ensures Valid()
      ensures Now() == FromFormer(old(Now()), k, name)
    {
      var chptr := former[k];
      Unlink(former, k);
      former := Without(former, k);
      TakeUp(chptr, name);
    }

    method TakeNew(name: CString, key: Option<CString>)
      requires Valid()
      modifies this
      ensures Valid()
      ensures Now() == FromNothing(old(Now()), name, key)
    {
      var chptr := new Channel(next, name, key);
      next := next + 1;
      TakeUp(chptr, name);
    }

    /** channel_add to the active list. */
    method Join(name: CString, key: Option<CString>)
      requires Valid()
      modifies this, passive, former
      ensures Valid() && Now() == Joined(old(Now()), name, key)
    {
      var k := Find(active, name);
      if k == -1 {
        JoinMissing(name, key);
      }
    }

    method JoinMissing(name: CString, key: Option<CString>)
      requires Valid() && FindIn(Values(active), name) == -1
      modifies this, passive, former
      ensures Valid() && Now() == Joined(old(Now()), name, key)
    {
      var k := Find(passive, name);
      if k != -1 {
        TakeFromPassive(k, name);
        return;
      }
      JoinUnwanted(name, key);
    }

    method JoinUnwanted(name: CString, key: Option<CString>)
      requires Valid() && FindIn(Values(active), name) == FindIn(Values(passive), name) == -1
      modifies this, former
      ensures Valid() && Now() == Joined(old(Now()), name, key)
    {
      var k := Find(former, name);
      if k != -1 {
        TakeFromFormer(k, name);
      } else {
        TakeNew(name, key);
      }
    }

    method Enqueue(name: CString, key: Option<CString>)
      requires Valid()
      modifies this
      ensures Valid() && Now() == Queued(old(Now()), name, key)
    {
      var k := Find(active, name);
      if k == -1 {
        k := Find(passive, name);
        if k == -1 {
          EnqueueNew(name, key);
        }
      }
    }

    method EnqueueNew(name: CString, key: Option<CString>)
      requires Valid()
      modifies this
      ensures Valid()
      ensures Now() == old(Now()).(passive := old(Values(passive)) + [NewChan(old(next), name, key)], next := old(next) + 1)
    {
      var chptr := new Channel(next, name, key);
      next := next + 1;
      passive := passive + [chptr];
    }

    /** channel_rem on the passive list frees the record. */
    method FreePassive(k: nat)
      requires Valid() && k < |passive|
      modifies this`passive
      ensures Valid() && forall c :: c in passive ==> c in old(passive)
      ensures |passive| == |old(passive)| - 1
      ensures Now() == old(Now()).(passive := Without(old(Values(passive)), k))
    {
      Unlink(passive, k);
      passive := Without(passive, k);
    }

    /** PART off-line, for one name. */
    method PartPassive(name: CString)
      requires Valid()
      modifies this`passive
      ensures Valid() && Now() == PartedPassive(old(Now()), name)
    {
      var k := Find(passive, name);
      if k != -1 {
        FreePassive(k);
      }
    }

    /** JOIN 0 off-line: the walk parts one channel after another. */
    method PartAll()
      requires Valid()
      modifies this`passive
      ensures Valid() && Now() == old(Now()).(passive := [])
    {
      while passive != []
        invariant Valid() && Now() == old(Now()).(passive := Values(passive))
        decreases |passive|
      {
        FreePassive(0);
      }
    }

    // ----------------------------------------------------------------

    /** The first active record goes to the end of the passive list, or is freed. */
    method MoveFirst(keep: bool)
      requires Valid() && active != []
      modifies this`active, this`passive
      ensures Valid()
      ensures active == old(active)[1..]
      ensures passive == old(passive) + if keep then [old(active)[0]] else []
    {
      assert active[0] in active;
      assert forall c :: c in active[1..] ==> c in active;
      if keep {
        passive := passive + [active[0]];
      }
      active := active[1..];
    }

    method TurnAway(rejoin: bool)
      requires Valid() && active != []
      modifies this`active, this`passive, active[0]
      ensures Valid() && active == old(active)[1..]
      ensures Now() == TurnedAway(old(Now()), rejoin)
    {
      var data := active[0];
      assert data in active && data !in active[1..];
      data.oper := -1;
      if rejoin {
        data.name := Simplify(data.name);
        data.nameSet := false;
      }
      MoveFirst(rejoin);
    }

    /** server_drop: the records go back to their short names. */
    method ServerDrop(rejoin: bool)
      requires Valid()
      modifies this`active, this`passive, active
      ensures Valid() && Now() == Disconnected(old(Now()), rejoin)
    {
      while active != []
        invariant Valid() && Disconnected(Now(), rejoin) == Disconnected(old(Now()), rejoin)
        invariant forall c :: c in active ==> c in old(active)
        decreases |active|
      {
        DisconnectedTurn(Now(), rejoin);
        assert active[0] in active;
        assert forall c :: c in active[1..] ==> c in active;
        TurnAway(rejoin);
      }
    }

    method TurnOff(rejoin: bool)
      requires Valid() && active != []
      modifies this`active, this`passive, active[0]
      ensures Valid() && active == old(active)[1..]
      ensures Now() == TurnedOff(old(Now()), rejoin)
    {
      var data := active[0];
      assert data in active && data !in active[1..];
      if rejoin {
        data.oper := -1;
      }
      MoveFirst(rejoin);
    }

    /** clients_left: the channels are parted, to be rejoined or not. */
    method ClientsLeft(leave: bool, rejoin: bool)
      requires Valid()
      modifies this`active, this`passive, active
      ensures Valid() && Now() == Detached(old(Now()), leave, rejoin)
    {
      if !leave {
        return;
      }
      while active != []
        invariant Valid() && Detached(Now(), true, rejoin) == Detached(old(Now()), true, rejoin)
        invariant forall c :: c in active ==> c in old(active)
        decreases |active|
      {
        DetachedTurn(Now(), rejoin);
        assert active[0] in active;
        assert forall c :: c in active[1..] ==> c in active;
        TurnOff(rejoin);
      }
    }

    // ----------------------------------------------------------------

    /** RPL_WELCOME: every passive channel may be tried afresh. */
    method Welcome()
      requires Valid()
      modifies passive
      ensures Now() == Welcomed(old(Now()))
    {
      ghost var v := Values(passive);
      var node := 0;
      while node < |passive|
        invariant node <= |passive|
        invariant forall i :: 0 <= i < |passive| ==>
                    passive[i].Value() == if i < node then UnsetAll(v)[i] else v[i]
        invariant Values(active) == old(Values(active)) && Values(former) == old(Values(former))
      {
        assert passive[node] in passive;
        passive[node].jointries := JOINTRIES_UNSET;
        node := node + 1;
      }
    }

    twostate lemma TouchedPassive(k: nat)
      requires old(Valid()) && k < |passive| && active == old(active) && passive == old(passive) && former == old(former)
      requires forall c :: (c in active || c in passive || c in former) && c != passive[k] ==> c.Value() == old(c.Value())
      ensures Values(passive) == old(Values(passive))[k := passive[k].Value()]
      ensures Values(active) == old(Values(active)) && Values(former) == old(Values(former))
    {
      assert passive[k] in passive;
    }

    /** The first half of a turn: the channel is asked for while it has tries. */
    method AskOne(node: nat, cfg: JoinConfig, rejoin: bool) returns (t: int)
      requires Valid() && node < |passive|
      modifies passive[node]
      ensures t == TriesNow(old(Values(passive))[node], cfg, rejoin)
      ensures Values(active) == old(Values(active)) && Values(former) == old(Values(former))
      ensures var v := old(Values(passive));
              Values(passive) == if 0 < t then v[node := v[node].(jointries := t - 1)] else v
    {
      t := passive[node].TakeTry(cfg, rejoin);
      TouchedPassive(node);
    }

    /** The other half: the channel that its name finds is removed. */
    method DropFound(node: nat) returns (next: nat)
      requires Valid() && node < |passive|
      modifies this`passive
      ensures Valid() && next <= |passive| && forall c :: c in passive ==> c in old(passive)
      ensures var v := old(Values(passive));
              var f := FindIn(v, v[node].name);
              && f <= node
              && Now() == (if f == -1 then old(Now()) else old(Now()).(passive := Without(v, f)))
              && next == if f == -1 then node + 1 else node
    {
      FoundAtOrBefore(Values(passive), node);
      next := node + 1;
      var k := Find(passive, passive[node].name);
      if k != -1 {
        FreePassive(k);
        next := node;
      }
    }

    /** One turn of the walk of channel_join_list; `next` is where it goes on. */
    method RetryTurn(node: nat, cfg: JoinConfig, rejoin: bool) returns (asks: bool, next: nat)
      requires Valid() && node < |passive|
      modifies this`passive, passive[node]
      ensures Valid() && next <= |passive| && forall c :: c in passive ==> c in old(passive)
      ensures Now() == old(Now()).(passive := Values(passive))
      ensures var v, t := old(Values(passive)), TriesNow(old(Values(passive))[node], cfg, rejoin);
              && asks == (0 < t)
              && (if 0 < t then Values(passive) == v[node := v[node].(jointries := t - 1)] && next == node + 1
                  else if t == 0 && FindIn(v, v[node].name) != -1 then
                    0 <= FindIn(v, v[node].name) <= node && Values(passive) == Without(v, FindIn(v, v[node].name)) && next == node
                  else Values(passive) == v && next == node + 1)
    {
      var t := AskOne(node, cfg, rejoin);
      asks, next := t > 0, node + 1;
      if t == 0 {
        next := DropFound(node);
      }
    }

    /** A turn of the walk, with the name and key it strings on. */
    method RetryStep(node: nat, cfg: JoinConfig, rejoin: bool, chans: CString, keys: CString,
                     ghost asked: seq<Chan>, ghost walk: (seq<Chan>, seq<Chan>))
      returns (next: nat, chans': CString, keys': CString, ghost asked': seq<Chan>)
      requires Valid() && node < |passive| && WalkGoesOn(Values(passive), node, cfg, rejoin, asked, walk)
      requires Strung(chans, keys, asked)
      modifies this`passive, passive[node]
      ensures Valid() && next <= |passive| && forall c :: c in passive ==> c in old(passive)
      ensures Now() == old(Now()).(passive := Values(passive))
      ensures WalkGoesOn(Values(passive), next, cfg, rejoin, asked', walk) && Strung(chans', keys', asked')
      ensures |passive| - next < |old(passive)| - node
    {
      var name, key := passive[node].name, passive[node].key;
      ghost var c := passive[node].Value();
      WalkTurns(Values(passive), node, cfg, rejoin, asked, walk);
      var asks;
      asks, next := RetryTurn(node, cfg, rejoin);
      chans', keys', asked' := chans, keys, asked;
      if asks {
        StringGrows(asked, c);
        chans' := chans + [','] + name;
        keys' := keys + [','] + key;
        asked' := asked + [c];
      }
    }

    /** channel_join_list for the passive list: it strings names and keys together. */
    method Retry(cfg: JoinConfig, rejoin: bool) returns (chans: CString, keys: CString)
      requires Valid()
      modifies this`passive, passive
      ensures Valid() && Now() == Retried(old(Now()), cfg, rejoin)
      ensures Strung(chans, keys, JoinLine(old(Now()), cfg, rejoin))
    {
      chans, keys := [], [];
      ghost var asked: seq<Chan>, walk := [], JoinFrom(Values(passive), 0, cfg, rejoin);
      assert asked + walk.1 == walk.1;
      var node: nat := 0;
      while node < |passive|
        invariant Valid() && node <= |passive| && forall c :: c in passive ==> c in old(passive)
        invariant Now() == old(Now()).(passive := Values(passive))
        invariant WalkGoesOn(Values(passive), node, cfg, rejoin, asked, walk) && Strung(chans, keys, asked)
        decreases |passive| - node
      {
        assert passive[node] in passive;
        node, chans, keys, asked := RetryStep(node, cfg, rejoin, chans, keys, asked, walk);
      }
      assert asked + [] == asked;
    }

    // ----------------------------------------------------------------

    static method ResetLog(list: seq<Channel>)
      requires Distinct(list)
      modifies list
      ensures forall i :: 0 <= i < |list| ==> list[i].Value() == old(list[i].Value()).(hasqlog := false)
    {
      var node := 0;
      while node < |list|
        invariant node <= |list|
        invariant forall i :: 0 <= i < |list| ==>
                    list[i].Value() == if i < node then old(list[i].Value()).(hasqlog := false) else old(list[i].Value())
      {
        list[node].hasqlog := false;
        node := node + 1;
      }
    }

    /** Changing one active record changes one value of one list. */
    twostate lemma TouchedActive(k: nat)
      requires old(Valid()) && k < |active| && active == old(active) && passive == old(passive) && former == old(former)
      requires forall c :: (c in active || c in passive || c in former) && c != active[k] ==> c.Value() == old(c.Value())
      ensures Values(active) == old(Values(active))[k := active[k].Value()]
      ensures Values(passive) == old(Values(passive)) && Values(former) == old(Values(former))
    {
      assert active[k] in active;
    }

    twostate lemma TouchedFormer(k: nat)
      requires old(Valid()) && k < |former| && active == old(active) && passive == old(passive) && former == old(former)
      requires forall c :: (c in active || c in passive || c in former) && c != former[k] ==> c.Value() == old(c.Value())
      ensures Values(former) == old(Values(former))[k := former[k].Value()]
      ensures Values(passive) == old(Values(passive)) && Values(active) == old(Values(active))
    {
      assert former[k] in former;
    }

    /** One line of the log: the channel it names, active or former, has a log. */
    method MarkLogged(e: Entry, oldest: int)
      requires Valid()
      modifies active, former
      ensures Now() == Marked(old(Now()), e, oldest)
    {
      if e.timestamp < oldest || e.privmsg || Target(e.text).None? {
        return;
      }
      var k := Find(active, Target(e.text).value);
      if k != -1 {
        MarkActive(k);
        return;
      }
      k := Find(former, Target(e.text).value);
      if k != -1 {
        MarkFormer(k);
      }
    }

    method MarkActive(k: nat)
      requires Valid() && k < |active|
      modifies active[k]
      ensures var v := old(Values(active)); Now() == old(Now()).(active := v[k := v[k].(hasqlog := true)])
    {
      active[k].hasqlog := true;
      TouchedActive(k);
    }

    method MarkFormer(k: nat)
      requires Valid() && k < |former|
      modifies former[k]
      ensures var v := old(Values(former)); Now() == old(Now()).(former := v[k := v[k].(hasqlog := true)])
    {
      former[k].hasqlog := true;
      TouchedFormer(k);
    }

    method ResetAll()
      requires Valid()
      modifies active, former
      ensures Now() == old(Now()).(active := ResetLogs(old(Values(active))), former := ResetLogs(old(Values(former))))
    {
      assert forall i :: 0 <= i < |active| ==> active[i] in active && active[i] !in former;
      assert forall i :: 0 <= i < |passive| ==> passive[i] in passive && passive[i] !in active && passive[i] !in former;
      assert forall i :: 0 <= i < |former| ==> former[i] in former && former[i] !in active;
      ResetLog(active);
      ResetLog(former);
    }

    /** qlog_check */
    method CheckLog(log: seq<Entry>, oldest: int)
      requires Valid()
      modifies active, former
      ensures Now() == Checked(old(Now()), log, oldest)
    {
      ghost var s0 := Now();
      ResetAll();
      var iter := 0;
      while iter < |log|
        invariant iter <= |log| && Now() == Checked(s0, log[..iter], oldest)
      {
        assert log[..iter + 1][..iter] == log[..iter];
        MarkLogged(log[iter], oldest);
        iter := iter + 1;
      }
      assert log[..iter] == log;
    }

    /** The part of channel_rem after qlog_check: the record is kept or freed. */
    method Discard(k: nat)
      requires Valid() && k < |active|
      modifies this`active, this`former, active[k]
      ensures Valid()
      ensures var c := old(active[k].Value()).(queue := []);
              Now() == old(Now()).(active := Without(old(Values(active)), k),
                                   former := old(Values(former)) + if c.hasqlog then [c] else [])
    {
      var chptr := active[k];
      assert chptr in active;
      Unlink(active, k);
      DroppedForAll(chptr.queue);
      chptr.DropActions(None, ANY_MODE);
      active := Without(active, k);
      if chptr.hasqlog {
        former := former + [chptr];
      }
    }

    /** channel_rem on the active list. */
    method Remove(k: nat, log: seq<Entry>, oldest: int)
      requires Valid() && k < |active|
      modifies this`active, this`former, active, former
      ensures Valid() && Now() == Removed(old(Now()), k, log, oldest)
    {
      CheckLog(log, oldest);
      assert active[k] in active;
      Discard(k);
    }

    /** KICK or PART of ourselves. */
    method Leave(name: CString, log: seq<Entry>, oldest: int)
      requires Valid()
      modifies this`active, this`former, active, former
      ensures Valid() && Now() == Left(old(Now()), name, log, oldest)
    {
      var k := Find(active, name);
      if k != -1 {
        Remove(k, log, oldest);
      }
    }

    // ----------------------------------------------------------------

    method FreeFormer(k: nat)
      requires Valid() && k < |former|
      modifies this`former
      ensures Valid() && |former| == |old(former)| - 1
      ensures Now() == old(Now()).(former := Without(old(Values(former)), k))
    {
      Unlink(former, k);
      former := Without(former, k);
    }

    /** channel_join_list for a new client: parted channels without a log go. */
    method Prune()
      requires Valid()
      modifies this`former
      ensures Valid() && Now() == Pruned(old(Now()))
    {
      var node := 0;
      while node < |former|
        invariant Valid() && node <= |former| && Now() == old(Now()).(former := Values(former))
        invariant WithLog(Values(former)) == WithLog(old(Values(former)))
        invariant forall i :: 0 <= i < node ==> Values(former)[i].hasqlog
        decreases |former| - node
      {
        if former[node].hasqlog {
          node := node + 1;
        } else {
          WithLogWithout(Values(former), node);
          FreeFormer(node);
        }
      }
      WithLogAll(Values(former));
    }

    /** MODE on an active channel. */
    method ChangeModes(name: CString, me: CString, modes: CString, args: seq<CString>)
      requires Valid() && Modes.NoTrailingSign(modes)
      modifies active
      ensures Now() == Retuned(old(Now()), name, Modes.Paired(Modes.Cursor(modes, true), args), me)
    {
      var k := Find(active, name);
      if k == -1 {
        return;
      }
      assert active[k] in active;
      var chptr := active[k];
      var r := Modes.ParseModes(Modes.Setting(chptr.oper, chptr.key, chptr.queue), me, modes, args);
      chptr.oper, chptr.key, chptr.queue := r.oper, r.key, r.queue;
      TouchedActive(k);
    }

    /** automode_queue: someone came to a channel we are on. */
    method Greet(perms: Masks.PermList, host: Option<CString>, name: CString, nick: CString, hostname: CString)
      requires Valid() && (host.Some? ==> forall r :: r in perms.rules ==> r.name != [])
      modifies this`automodes, active
      ensures var k := FindIn(old(Values(active)), name);
              k == -1 ==> Now() == old(Now())
      ensures var k := FindIn(old(Values(active)), name);
              k != -1 ==>
                var channel := old(Values(active))[k].name;
                Now() == Met(old(Now()), name, nick,
                             Permits(perms.rules, host, 'o', nick, hostname, channel),
                             Permits(perms.rules, host, 'v', nick, hostname, channel))
    {
      var k := Find(active, name);
      if k == -1 {
        return;
      }
      assert active[k] in active;
      var added := active[k].QueueModes(perms, host, nick, hostname);
      automodes := automodes + added;
      TouchedActive(k);
    }

    /** No automatic modes for somebody on one channel. */
    method Forget(k: nat, nick: CString)
      requires Valid() && k < |active|
      modifies active[k]
      ensures var v := old(Values(active)); Now() == old(Now()).(active := v[k := Forgetting(v[k], nick)])
    {
      active[k].DropActions(Some(nick), ANY_MODE);
      TouchedActive(k);
    }

    /** PART of someone else. */
    method Parted(name: CString, nick: CString)
      requires Valid()
      modifies active
      ensures Now() == GoneFrom(old(Now()), name, nick)
    {
      var k := Find(active, name);
      if k != -1 {
        assert active[k] in active;
        Forget(k, nick);
      }
    }

    /** QUIT of someone else. */
    method Quitted(nick: CString)
      requires Valid()
      modifies active
      ensures Now() == Gone(old(Now()), nick)
    {
      ghost var v := Values(active);
      var node := 0;
      while node < |active|
        invariant node <= |active| && Now() == old(Now()).(active := Values(active))
        invariant forall i :: 0 <= i < |active| ==> Values(active)[i] == if i < node then Forgetting(v[i], nick) else v[i]
      {
        assert active[node] in active;
        Forget(node, nick);
        node := node + 1;
      }
    }

    /** NAMES of a channel: how many nicks the reply holds. */
    method CountNames(name: CString, n: nat)
      requires Valid()
      modifies active
      ensures Now() == Counted(old(Now()), name, n == 1)
    {
      var k := Find(active, name);
      if k == -1 || active[k].oper != -1 {
        return;
      }
      assert active[k] in active;
      active[k].oper := if n == 1 then 1 else 0;
      TouchedActive(k);
    }

    /** One channel of automode_do: its queue is sent and cleared. */
    method SendQueue(k: nat) returns (lines: seq<string>)
      requires Valid() && k < |active|
      modifies this`automodes, active[k]
      ensures Now() == PerformedAt(old(Now()), k)
      ensures lines == SentBy(old(active[k].Value()))
    {
      var channel := active[k];
      assert channel in active;
      lines := [];
      if channel.oper == 1 {
        lines := CommitQueue(channel.name, channel.queue);
        while channel.queue != []
          invariant channel.Value() == old(channel.Value()).(queue := channel.queue)
          invariant automodes == old(automodes) - (|old(channel.queue)| - |channel.queue|)
          decreases |channel.queue|
        {
          channel.queue := channel.queue[1..];
          automodes := automodes - 1;
        }
      }
      TouchedActive(k);
    }

    /** automode_do has dealt with the first `node` channels. */
    ghost predicate Walked(s0: Lists, node: nat, sent: seq<string>)
      reads this, active, passive, former
    {
      && node <= |active| == |s0.active|
      && Now() == PerformedUpTo(s0, node) && sent == SentByAll(s0.active, node)
    }

    /** A turn of the walk of automode_do. */
    method PerformTurn(node: nat, sent: seq<string>, ghost s0: Lists) returns (lines: seq<string>)
      requires Valid() && node < |active| && Walked(s0, node, sent)
      modifies this`automodes, active[node]
      ensures Walked(s0, node + 1, lines)
    {
      PartlyPerformed(s0, node);
      assert Now().active[node] == active[node].Value() == s0.active[node];
      var more := SendQueue(node);
      lines := sent + more;
    }

    /** The walk of automode_do over the active list. */
    method WalkActive(ghost s0: Lists) returns (lines: seq<string>)
      requires Valid() && Walked(s0, 0, [])
      modifies this`automodes, active
      ensures Walked(s0, |active|, lines)
    {
      lines := [];
      var node := 0;
      while node < |active|
        invariant Walked(s0, node, lines)
      {
        assert active[node] in active;
        lines := PerformTurn(node, lines, s0);
        node := node + 1;
      }
    }

    /** automode_do */
    method PerformModes() returns (lines: seq<string>)
      requires Valid()
      modifies this`automodes, active
      ensures Now() == Performed(old(Now()))
      ensures lines == SentByAll(old(Values(active)), |old(active)|)
    {
      PerformedInTurn(Now());
      lines := WalkActive(Now());
    }
  }

  lemma DroppedTurn(q: seq<Action>, k: nat, nick: Option<CString>, mode: char)
    requires k < |q|
    ensures var next := if Concerns(q[k], nick, mode) then k else k + 1;
            q[..k] + Dropped(q[k..], nick, mode) == q[..next] + Dropped(q[k + 1..], nick, mode)
  {
    var rest := Dropped(q[k + 1..], nick, mode);
    assert q[k..][0] == q[k] && q[k..][1..] == q[k + 1..];
    if Concerns(q[k], nick, mode) {
      assert Dropped(q[k..], nick, mode) == rest;
    } else {
      assert q[..k + 1] == q[..k] + [q[k]];
      Regroup(q[..k], [q[k]], rest);
    }
  }

  lemma AfterRemoval<T>(q: seq<T>, k: nat)
    requires k < |q|
    ensures var p := q[..k] + q[k + 1..]; p[..k] == q[..k] && p[k..] == q[k + 1..]
  {
  }

  /** Nobody in particular is everybody. */
  lemma {:induction false} DroppedForAll(q: seq<Action>)
    ensures Dropped(q, None, ANY_MODE) == []
  {
    if q != [] {
      DroppedForAll(q[1..]);
    }
  }

  function PerformedAt(s: Lists, k: nat): Lists
    requires k < |s.active|
  {
    var c := s.active[k];
    s.(active := s.active[k := Cleared(c)], automodes := s.automodes - (|c.queue| - |Cleared(c).queue|))
  }

  /** automode_do after the first n channels. */
  function PerformedUpTo(s: Lists, n: nat): (r: Lists)
    requires n <= |s.active|
    ensures |r.active| == |s.active|
  {
    if n == 0 then s else PerformedAt(PerformedUpTo(s, n - 1), n - 1)
  }

  lemma {:induction false} PartlyPerformed(s: Lists, n: nat)
    requires n <= |s.active|
    ensures var r := PerformedUpTo(s, n);
            && (forall i :: 0 <= i < |s.active| ==> r.active[i] == if i < n then Cleared(s.active[i]) else s.active[i])
            && r == s.(active := r.active, automodes := r.automodes)
            && r.automodes - Sum(Pending, r.active) == s.automodes - Sum(Pending, s.active)
  {
    if n != 0 {
      var s1 := PerformedUpTo(s, n - 1);
      PartlyPerformed(s, n - 1);
      SumUpdate(Pending, s1.active, n - 1, Cleared(s1.active[n - 1]));
    }
  }

  lemma PerformedInTurn(s: Lists)
    ensures PerformedUpTo(s, |s.active|) == Performed(s)
  {
    var r := PerformedUpTo(s, |s.active|);
    PartlyPerformed(s, |s.active|);
    assert |r.active| == |ClearedAll(s.active)|;
    assert r.active == ClearedAll(s.active);
    assert r.automodes == Performed(s).automodes;
  }

  function Mask(mode: char, nick: CString, hostname: CString, channel: CString): CString
    requires mode != '\0'
  {
    [mode] + [':'] + nick + ['!'] + hostname + ['/'] + channel
  }

  /** Whether the configuration has a mode for someone on a channel. */
  predicate Permits(rules: seq<Masks.Rule>, host: Option<CString>, mode: char,
                    nick: CString, hostname: CString, channel: CString)
    requires mode != '\0'
  {
    Masks.LastFlag(rules, Masks.Accepting(host, Mask(mode, nick, hostname, channel)), |rules|) != 0
  }

  predicate IsLiteral(s: string) {
    '*' !in s && '?' !in s
  }

  /** A rule without wildcards gives its mode to whom it describes, whatever the
      case, and to nobody else: mode, nick, host and channel must be the same. */
  lemma RuleForOne(flag: int, rule: CString, mode: char, nick: CString, hostname: CString, channel: CString)
    requires flag != 0 && IsLiteral(rule) && mode != '\0'
    ensures Permits([Masks.Rule(rule, flag)], None, mode, nick, hostname, channel)
        <==> Upcase(rule) == Upcase([mode] + ":" + nick + "!" + hostname + "/" + channel)
  {
    var x, mask := Masks.Rule(rule, flag), Mask(mode, nick, hostname, channel);
    var accepts := Masks.Accepting(None, mask);
    forall i | 0 <= i < |rule| ensures Upcase(rule)[i] != '*' && Upcase(rule)[i] != '?' {
      assert rule[i] in rule;
    }
    Masks.PlainAcceptsItself(Upcase(mask), Upcase(rule));
    assert Masks.LastFlag([x], accepts, 1) == if accepts(x) then flag else Masks.LastFlag([x], accepts, 0);
    assert [mode] + ":" + nick + "!" + hostname + "/" + channel == mask;
  }

  /** The lines that the queue of an operator channel becomes. */
  function SentBy(c: Chan): seq<string> {
    if c.oper == 1 then ModeLines(c.name, Batches(c.queue)) else []
  }

  /** The lines of the first n channels. */
  function SentByAll(cs: seq<Chan>, n: nat): seq<string>
    requires n <= |cs|
  {
    if n == 0 then [] else SentByAll(cs, n - 1) + SentBy(cs[n - 1])
  }

  /** The lines carry these batches, in order. */
  predicate Carries(lines: seq<string>, name: CString, batches: seq<seq<Action>>) {
    |lines| == |batches| && forall i :: 0 <= i < |lines| ==> lines[i] == ModeLine(name, batches[i])
  }

  /** Where we are operator, all that waits is sent, in order and in lines of at
      most three, and nothing waits any more; elsewhere nothing is sent and all
      waits as before. */
  lemma SentOrKept(c: Chan) returns (batches: seq<seq<Action>>)
    ensures Carries(SentBy(c), c.name, batches) && forall i :: 0 <= i < |batches| ==> 1 <= |batches[i]| <= 3
    ensures Flatten(batches) + Cleared(c).queue == c.queue
    ensures c.oper == 1 ==> Cleared(c).queue == []
    ensures c.oper != 1 ==> batches == []
  {
    batches := if c.oper == 1 then Batches(c.queue) else [];
    BatchesAreTheQueue(c.queue);
    assert Flatten(batches) + Cleared(c).queue == c.queue;
  }

  lemma {:induction false} WithLogAppend(a: seq<Chan>, b: seq<Chan>)
    ensures WithLog(a + b) == WithLog(a) + WithLog(b)
  {
    if a == [] {
      assert a + b == b;
    } else {
      assert (a + b)[0] == a[0] && (a + b)[1..] == a[1..] + b;
      WithLogAppend(a[1..], b);
    }
  }

  lemma WithLogWithout(cs: seq<Chan>, k: nat)
    requires k < |cs| && !cs[k].hasqlog
    ensures WithLog(Without(cs, k)) == WithLog(cs)
  {
    var a, c, b := cs[..k], cs[k], cs[k + 1..];
    assert WithLog([c] + b) == WithLog(b) by {
      assert ([c] + b)[1..] == b;
    }
    assert cs == a + ([c] + b);
    WithLogAppend(a, [c] + b);
    WithLogAppend(a, b);
  }

  lemma {:induction false} WithLogAll(cs: seq<Chan>)
    requires forall i :: 0 <= i < |cs| ==> cs[i].hasqlog
    ensures WithLog(cs) == cs
  {
    if cs != [] {
      WithLogAll(cs[1..]);
    }
  }

  /** The two strings of a JOIN line, each item after a comma. */
  predicate Strung(chans: CString, keys: CString, asked: seq<Chan>) {
    && chans == Sessions.WithCommas(Sessions.NamesOf(asked))
    && keys == Sessions.WithCommas(Sessions.KeysOf(asked))
  }

  /** What the walk still does adds up with what it did to the whole. */
  predicate WalkGoesOn(v: seq<Chan>, node: nat, cfg: JoinConfig, rejoin: bool, asked: seq<Chan>,
                       walk: (seq<Chan>, seq<Chan>))
    requires node <= |v|
  {
    var r := JoinFrom(v, node, cfg, rejoin);
    walk == (r.0, asked + r.1)
  }

  lemma WalkTurns(v: seq<Chan>, node: nat, cfg: JoinConfig, rejoin: bool, asked: seq<Chan>,
                  walk: (seq<Chan>, seq<Chan>))
    requires node < |v| && WalkGoesOn(v, node, cfg, rejoin, asked, walk)
    ensures var t, f := TriesNow(v[node], cfg, rejoin), FindIn(v, v[node].name);
            if 0 < t then
              WalkGoesOn(v[node := v[node].(jointries := t - 1)], node + 1, cfg, rejoin, asked + [v[node]], walk)
            else if t == 0 && f != -1 then f <= node && WalkGoesOn(Without(v, f), node, cfg, rejoin, asked, walk)
            else WalkGoesOn(v, node + 1, cfg, rejoin, asked, walk)
  {
    FoundAtOrBefore(v, node);
    var t := TriesNow(v[node], cfg, rejoin);
    if 0 < t {
      var r := JoinFrom(v[node := v[node].(jointries := t - 1)], node + 1, cfg, rejoin);
      assert asked + ([v[node]] + r.1) == asked + [v[node]] + r.1;
    }
  }

  lemma StringGrows(asked: seq<Chan>, c: Chan)
    ensures Sessions.WithCommas(Sessions.NamesOf(asked + [c]))
         == Sessions.WithCommas(Sessions.NamesOf(asked)) + [','] + c.name
    ensures Sessions.WithCommas(Sessions.KeysOf(asked + [c]))
         == Sessions.WithCommas(Sessions.KeysOf(asked)) + [','] + c.key
  {
    var n := |asked|;
    assert Sessions.NamesOf(asked + [c])[..n] == Sessions.NamesOf(asked);
    assert Sessions.KeysOf(asked + [c])[..n] == Sessions.KeysOf(asked);
  }

  function TurnedAway(s: Lists, rejoin: bool): Lists
    requires s.active != []
  {
    s.(active := s.active[1..], passive := s.passive + if rejoin then [Reverted(s.active[0])] else [])
  }

  lemma DisconnectedTurn(s: Lists, rejoin: bool)
    requires s.active != []
    ensures Disconnected(TurnedAway(s, rejoin), rejoin) == Disconnected(s, rejoin)
  {
    assert s.passive + [Reverted(s.active[0])] + RevertedAll(s.active[1..]) == s.passive + RevertedAll(s.active);
  }

  function TurnedOff(s: Lists, rejoin: bool): Lists
    requires s.active != []
  {
    s.(active := s.active[1..], passive := s.passive + if rejoin then [s.active[0].(oper := -1)] else [])
  }

  lemma DetachedTurn(s: Lists, rejoin: bool)
    requires s.active != []
    ensures Detached(TurnedOff(s, rejoin), true, rejoin) == Detached(s, true, rejoin)
  {
    assert s.passive + [s.active[0].(oper := -1)] + DeoppedAll(s.active[1..]) == s.passive + DeoppedAll(s.active);
  }

  /** What taking the record at place k off a list does to its values. */
  lemma Unlink(cs: seq<Channel>, k: nat)
    requires k < |cs|
    ensures Values(Without(cs, k)) == Without(Values(cs), k)
    ensures Distinct(cs) ==> Distinct(Without(cs, k)) && cs[k] !in Without(cs, k)
    ensures forall c :: c in Without(cs, k) ==> c in cs
    ensures cs[k] in cs
  {
  }
}
