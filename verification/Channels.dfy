/**
 The channel registry (src/channels.c) as values: three lists of channels, the
 functions the operations compute on them, and what every run of operations
 keeps. The class that does this in place is in Registry.dfy.
 */
module Channels {
  import opened Ascii
  import opened Sequences
  import opened Wrappers
  import opened Automode
  import opened Quicklog
  import Modes

  const JOINTRIES_UNSET := -1

  /** A channel; `id` stands for the address of its record. */
  datatype Chan = Chan(id: nat, name: CString, simple: CString, nameSet: bool, simpleSet: bool,
                       key: CString, jointries: int, oper: int, queue: seq<Action>, hasqlog: bool)

  /** The active and passive channels, those parted with a log to replay, the
      next free identity, and the count of automatic modes. */
  datatype Lists = Lists(active: seq<Chan>, passive: seq<Chan>, former: seq<Chan>, next: nat, automodes: int)

  const EMPTY := Lists([], [], [], 0, 0)

  // ------------------------------------------------------------------
  // Names.

  predicate IsName(name: CString) {
    name != [] && name[0] in {'#', '&', '!', '+', '.', '~'}
  }

  predicate IsSafe(name: CString) {
    name != [] && name[0] == '!'
  }

  /** A valid name that stands for itself only. */
  predicate IsOrdinary(name: CString) {
    IsName(name) && !IsSafe(name)
  }

  /** The name of a safe channel without its five-character id. */
  function Simplify(name: CString): CString {
    if !IsSafe(name) || |name| < 6 then name else ['!'] + name[6..]
  }

  predicate Exact(c: Chan, name: CString) {
    SameName(c.name, name)
  }

  predicate Like(c: Chan, name: CString) {
    SameName(c.simple, Simplify(name))
  }

  predicate Matches(c: Chan, name: CString) {
    Exact(c, name) || Like(c, name)
  }

  // ------------------------------------------------------------------
  // Lookup.

  function FirstExact(list: seq<Chan>, name: CString, from: nat): (k: nat)
    requires from <= |list|
    ensures from <= k <= |list| && (k < |list| ==> Exact(list[k], name))
    ensures forall j :: from <= j < k ==> !Exact(list[j], name)
    decreases |list| - from
  {
    if from == |list| || Exact(list[from], name) then from else FirstExact(list, name, from + 1)
  }

  function LastLike(list: seq<Chan>, name: CString, n: nat): (k: int)
    requires n <= |list|
    ensures -1 <= k < n && (0 <= k ==> Like(list[k], name))
    ensures forall j :: k < j < n ==> !Like(list[j], name)
  {
    if n == 0 then -1 else if Like(list[n - 1], name) then n - 1 else LastLike(list, name, n - 1)
  }

  /** Where the name is found: the first exact match, else the last that agrees
      in its short form, else -1. */
  function FindIn(list: seq<Chan>, name: CString): (k: int)
    ensures -1 <= k < |list|
    ensures 0 <= k ==> IsName(name) && Matches(list[k], name)
    ensures k == -1 && IsName(name) ==> forall j :: 0 <= j < |list| ==> !Matches(list[j], name)
  {
    if !IsName(name) then -1
    else
      var e := FirstExact(list, name, 0);
      if e < |list| then e else LastLike(list, name, |list|)
  }

  /** A channel is found if and only if one matches; an exact match wins over
      those of short forms, and the first exact one over the others. */
  lemma FoundIsBest(list: seq<Chan>, name: CString)
    ensures FindIn(list, name) != -1 <==> IsName(name) && exists j :: 0 <= j < |list| && Matches(list[j], name)
    ensures var k := FindIn(list, name);
            k != -1 && Exact(list[k], name) ==> forall j :: 0 <= j < k ==> !Exact(list[j], name)
    ensures var k := FindIn(list, name);
            k != -1 && !Exact(list[k], name) ==>
              && (forall j :: 0 <= j < |list| ==> !Exact(list[j], name))
              && (forall j :: k < j < |list| ==> !Like(list[j], name))
  {
    if IsName(name) {
      var e := FirstExact(list, name, 0);
      if e < |list| {
        assert FindIn(list, name) == e;
      } else {
        assert FindIn(list, name) == LastLike(list, name, |list|);
      }
    }
  }

  /** What a name may begin with: ordinary, local, safe, modeless, programmable
      and global channels. */
  predicate IsKind(c: char) {
    c == '#' || c == '&' || c == '!' || c == '+' || c == '.' || c == '~'
  }

  /** A channel of any kind is found under its name; under a name of no kind
      nothing is ever found. */
  lemma EveryKindIsFound(list: seq<Chan>, name: CString)
    ensures (exists c :: c in list && c.name == name) && name != [] && IsKind(name[0]) ==> FindIn(list, name) != -1
    ensures name == [] || !IsKind(name[0]) ==> FindIn(list, name) == -1
  {
    if c :| c in list && c.name == name {
      var j :| 0 <= j < |list| && list[j] == c;
      assert Exact(list[j], name);
    }
  }

  /** The short form of a safe name drops the five characters after the mark; other
      names, and those too short to have five, are their own short forms. */
  lemma ShortFormIs(id: CString, rest: CString)
    ensures |id| == 5 ==> Simplify(['!'] + id + rest) == ['!'] + rest
    ensures |id| < 5 ==> Simplify(['!'] + id) == ['!'] + id
    ensures rest != [] && rest[0] != '!' ==> Simplify(rest) == rest
  {
    assert (['!'] + id + rest)[1 + |id|..] == rest;
  }

  // ------------------------------------------------------------------
  // Operations.

  /** A channel that becomes active under the name the server gave. */
  function Activated(c: Chan, name: CString): Chan {
    var n := if c.nameSet then c.name else name;
    c.(name := n, nameSet := true, simple := if c.simpleSet then c.simple else Simplify(n), simpleSet := true)
  }

  function NewChan(id: nat, name: CString, key: Option<CString>): Chan {
    Chan(id, name, name, false, false, if key.None? then "-" else key.value, JOINTRIES_UNSET, -1, [], false)
  }

  function FromPassive(s: Lists, p: nat, name: CString): Lists
    requires p < |s.passive|
  {
    s.(passive := Without(s.passive, p), active := s.active + [Activated(s.passive[p], name)])
  }

  function FromFormer(s: Lists, o: nat, name: CString): Lists
    requires o < |s.former|
  {
    s.(former := Without(s.former, o), active := s.active + [Activated(s.former[o], name)])
  }

  function FromNothing(s: Lists, name: CString, key: Option<CString>): Lists {
    s.(active := s.active + [Activated(NewChan(s.next, name, key), name)], next := s.next + 1)
  }

  /** channel_add to the active list: the server says we are on the channel. */
  function Joined(s: Lists, name: CString, key: Option<CString>): Lists {
    var p, o := FindIn(s.passive, name), FindIn(s.former, name);
    if FindIn(s.active, name) != -1 then s
    else if p != -1 then FromPassive(s, p, name)
    else if o != -1 then FromFormer(s, o, name)
    else FromNothing(s, name, key)
  }

  /** channel_add to the passive list: the channel is to be joined. */
  function Queued(s: Lists, name: CString, key: Option<CString>): Lists {
    if FindIn(s.active, name) != -1 || FindIn(s.passive, name) != -1 then s
    else s.(passive := s.passive + [NewChan(s.next, name, key)], next := s.next + 1)
  }

  /** Whether a line counts for channels: it is in the window, not private, and names something. */
  predicate Counts(e: Entry, oldest: int) {
    oldest <= e.timestamp && !e.privmsg && Target(e.text).Some?
  }

  function ResetLogs(cs: seq<Chan>): seq<Chan> {
    seq(|cs|, i requires 0 <= i < |cs| => cs[i].(hasqlog := false))
  }

  /** One line of the log: the channel it names, active or else former, has a log. */
  function Marked(s: Lists, e: Entry, oldest: int): Lists {
    if !Counts(e, oldest) then s
    else
      var a, f := FindIn(s.active, Target(e.text).value), FindIn(s.former, Target(e.text).value);
      if a != -1 then s.(active := s.active[a := s.active[a].(hasqlog := true)])
      else if f != -1 then s.(former := s.former[f := s.former[f].(hasqlog := true)])
      else s
  }

  /** qlog_check: no channel has a log, until a line of the log says so. */
  function Checked(s: Lists, log: seq<Entry>, oldest: int): (r: Lists)
    ensures r.passive == s.passive && r.next == s.next && r.automodes == s.automodes
    ensures |r.active| == |s.active| && |r.former| == |s.former|
    ensures forall i :: 0 <= i < |s.active| ==> r.active[i] == s.active[i].(hasqlog := r.active[i].hasqlog)
    ensures forall i :: 0 <= i < |s.former| ==> r.former[i] == s.former[i].(hasqlog := r.former[i].hasqlog)
  {
    if log == [] then s.(active := ResetLogs(s.active), former := ResetLogs(s.former))
    else Marked(Checked(s, log[..|log| - 1], oldest), log[|log| - 1], oldest)
  }

  /** channel_rem on the active list, after which the channel is old or freed. */
  function Removed(s: Lists, k: nat, log: seq<Entry>, oldest: int): Lists
    requires k < |s.active|
  {
    var s1 := Checked(s, log, oldest);
    var c := s1.active[k].(queue := []);
    s1.(active := Without(s1.active, k), former := s1.former + if c.hasqlog then [c] else [])
  }

  /** The server says that we were kicked from, or left, the channel. */
  function Left(s: Lists, name: CString, log: seq<Entry>, oldest: int): Lists {
    var k := FindIn(s.active, name);
    if k == -1 then s else Removed(s, k, log, oldest)
  }

  /** A client leaves a channel miau is not on. */
  function PartedPassive(s: Lists, name: CString): Lists {
    var k := FindIn(s.passive, name);
    if k == -1 then s else s.(passive := Without(s.passive, k))
  }

  function Reverted(c: Chan): Chan {
    c.(oper := -1, name := Simplify(c.name), nameSet := false)
  }

  function RevertedAll(cs: seq<Chan>): seq<Chan> {
    seq(|cs|, i requires 0 <= i < |cs| => Reverted(cs[i]))
  }

  /** server_drop */
  function Disconnected(s: Lists, rejoin: bool): Lists {
    s.(active := [], passive := s.passive + if rejoin then RevertedAll(s.active) else [])
  }

  function DeoppedAll(cs: seq<Chan>): seq<Chan> {
    seq(|cs|, i requires 0 <= i < |cs| => cs[i].(oper := -1))
  }

  /** clients_left: the last client went away. */
  function Detached(s: Lists, leave: bool, rejoin: bool): Lists {
    if !leave then s
    else s.(active := [], passive := s.passive + if rejoin then DeoppedAll(s.active) else [])
  }

  function WithLog(cs: seq<Chan>): seq<Chan> {
    if cs == [] then [] else (if cs[0].hasqlog then [cs[0]] else []) + WithLog(cs[1..])
  }

  /** channel_join_list for a new client forgets old channels without a log. */
  function Pruned(s: Lists): Lists {
    s.(former := WithLog(s.former))
  }

  function UnsetAll(cs: seq<Chan>): seq<Chan> {
    seq(|cs|, i requires 0 <= i < |cs| => cs[i].(jointries := JOINTRIES_UNSET))
  }

  /** The server welcomes us: joining starts over. */
  function Welcomed(s: Lists): Lists {
    s.(passive := UnsetAll(s.passive))
  }

  datatype JoinConfig = JoinConfig(jointries: nat, rejoin: bool, leave: bool)

  /** The tries a channel has when its turn comes. */
  function TriesNow(c: Chan, cfg: JoinConfig, rejoin: bool): int {
    if (rejoin || (cfg.rejoin && !cfg.leave)) && c.jointries == JOINTRIES_UNSET then
      if cfg.jointries == 0 || IsSafe(c.name) then 1 else cfg.jointries
    else c.jointries
  }

  /** The walk of channel_join_list over the passive list from place k: what is
      left of the list, and the channels asked for. */
  function JoinFrom(cs: seq<Chan>, k: nat, cfg: JoinConfig, rejoin: bool): (seq<Chan>, seq<Chan>)
    requires k <= |cs|
    decreases |cs| - k
  {
    if k == |cs| then (cs, [])
    else
      var t := TriesNow(cs[k], cfg, rejoin);
      if 0 < t then
        var r := JoinFrom(cs[k := cs[k].(jointries := t - 1)], k + 1, cfg, rejoin);
        (r.0, [cs[k]] + r.1)
      else if t == 0 && FindIn(cs, cs[k].name) != -1 then
        FoundAtOrBefore(cs, k);
        JoinFrom(Without(cs, FindIn(cs, cs[k].name)), k, cfg, rejoin)
      else JoinFrom(cs, k + 1, cfg, rejoin)
  }

  /** A channel's own name never finds a later channel, so the walk never
      loses the node it goes on to. */
  lemma FoundAtOrBefore(cs: seq<Chan>, k: nat)
    requires k < |cs|
    ensures FindIn(cs, cs[k].name) <= k
  {
    assert Exact(cs[k], cs[k].name);
  }

  function Retried(s: Lists, cfg: JoinConfig, rejoin: bool): Lists {
    s.(passive := JoinFrom(s.passive, 0, cfg, rejoin).0)
  }

  /** The channels in the JOIN line of a retry. */
  function JoinLine(s: Lists, cfg: JoinConfig, rejoin: bool): seq<Chan> {
    JoinFrom(s.passive, 0, cfg, rejoin).1
  }

  /** The changes of a MODE line take effect on an active channel. */
  function Tuned(c: Chan, xs: seq<Modes.Applied>, me: CString): Chan {
    var r := Modes.Effects(Modes.Setting(c.oper, c.key, c.queue), xs, me);
    c.(oper := r.oper, key := r.key, queue := r.queue)
  }

  function Retuned(s: Lists, name: CString, xs: seq<Modes.Applied>, me: CString): Lists {
    var k := FindIn(s.active, name);
    if k == -1 then s else s.(active := s.active[k := Tuned(s.active[k], xs, me)])
  }

  /** Someone joined an active channel: automatic modes may be queued for them. */
  function Met(s: Lists, name: CString, nick: CString, o: bool, v: bool): Lists {
    var k := FindIn(s.active, name);
    if k == -1 then s
    else
      var c := s.active[k];
      var q := Greeted(c.queue, nick, o, v);
      s.(active := s.active[k := c.(queue := q)], automodes := s.automodes + |q| - |c.queue|)
  }

  /** No automatic modes for someone who went. */
  function Forgetting(c: Chan, nick: CString): Chan {
    c.(queue := Dropped(c.queue, Some(nick), ANY_MODE))
  }

  /** Someone else parted an active channel. */
  function GoneFrom(s: Lists, name: CString, nick: CString): Lists {
    var k := FindIn(s.active, name);
    if k == -1 then s else s.(active := s.active[k := Forgetting(s.active[k], nick)])
  }

  function ForgettingAll(cs: seq<Chan>, nick: CString): seq<Chan> {
    seq(|cs|, i requires 0 <= i < |cs| => Forgetting(cs[i], nick))
  }

  /** Someone quit. */
  function Gone(s: Lists, nick: CString): Lists {
    s.(active := ForgettingAll(s.active, nick))
  }

  /** The names on a channel tell, unless it is known, whether we are operator:
      we are if we are alone. */
  function Counted(s: Lists, name: CString, alone: bool): Lists {
    var k := FindIn(s.active, name);
    if k == -1 || s.active[k].oper != -1 then s
    else s.(active := s.active[k := s.active[k].(oper := if alone then 1 else 0)])
  }

  function Cleared(c: Chan): Chan {
    if c.oper == 1 then c.(queue := []) else c
  }

  function ClearedAll(cs: seq<Chan>): seq<Chan> {
    seq(|cs|, i requires 0 <= i < |cs| => Cleared(cs[i]))
  }

  /** automode_do: the queues of the channels where we are operator are sent. */
  function Performed(s: Lists): Lists {
    s.(active := ClearedAll(s.active),
       automodes := s.automodes - (Sum(Pending, s.active) - Sum(Pending, ClearedAll(s.active))))
  }

  // ------------------------------------------------------------------
  // Sums over the lists. Every operation but three can only lower them.

  datatype Measure =
    | Copies(id: nat)                    // how often the channel is listed
    | Tries(id: nat, jointries: nat)     // how often it may still be asked for
    | Pending                            // automatic modes waiting

  function Allowance(c: Chan, jointries: nat): nat {
    if c.jointries == JOINTRIES_UNSET then (if jointries == 0 || IsSafe(c.name) then 1 else jointries)
    else if c.jointries < 0 then 0
    else c.jointries
  }

  function Amount(m: Measure, c: Chan): nat {
    match m
    case Copies(id) => if c.id == id then 1 else 0
    case Tries(id, jointries) => if c.id == id then Allowance(c, jointries) else 0
    case Pending => |c.queue|
  }

  function Sum(m: Measure, cs: seq<Chan>): nat {
    if cs == [] then 0 else Amount(m, cs[0]) + Sum(m, cs[1..])
  }

  function Total(m: Measure, s: Lists): nat {
    Sum(m, s.active) + Sum(m, s.passive) + Sum(m, s.former)
  }

  lemma {:induction false} SumAppend(m: Measure, a: seq<Chan>, b: seq<Chan>)
    ensures Sum(m, a + b) == Sum(m, a) + Sum(m, b)
  {
    if a == [] {
      assert a + b == b;
    } else {
      assert (a + b)[0] == a[0] && (a + b)[1..] == a[1..] + b;
      SumAppend(m, a[1..], b);
    }
  }

  lemma SumOne(m: Measure, c: Chan)
    ensures Sum(m, [c]) == Amount(m, c)
  {
    assert [c][1..] == [];
  }

  lemma SumWithout(m: Measure, s: seq<Chan>, k: nat)
    requires k < |s|
    ensures Sum(m, s) == Sum(m, Without(s, k)) + Amount(m, s[k])
  {
    assert s == s[..k] + ([s[k]] + s[k + 1..]);
    SumAppend(m, s[..k], [s[k]] + s[k + 1..]);
    SumAppend(m, [s[k]], s[k + 1..]);
    SumOne(m, s[k]);
    SumAppend(m, s[..k], s[k + 1..]);
  }

  lemma SumUpdate(m: Measure, s: seq<Chan>, k: nat, c: Chan)
    requires k < |s|
    ensures Sum(m, s[k := c]) + Amount(m, s[k]) == Sum(m, s) + Amount(m, c)
  {
    SumWithout(m, s, k);
    SumWithout(m, s[k := c], k);
    assert Without(s[k := c], k) == Without(s, k);
  }

  lemma {:induction false} SumPointwise(m: Measure, a: seq<Chan>, b: seq<Chan>)
    requires |a| == |b| && forall i :: 0 <= i < |a| ==> Amount(m, a[i]) <= Amount(m, b[i])
    ensures Sum(m, a) <= Sum(m, b)
    decreases a
  {
    if a != [] {
      SumPointwise(m, a[1..], b[1..]);
    }
  }

  lemma {:induction false} SumFilter(m: Measure, cs: seq<Chan>)
    ensures Sum(m, WithLog(cs)) <= Sum(m, cs)
  {
    if cs != [] {
      SumFilter(m, cs[1..]);
      SumAppend(m, if cs[0].hasqlog then [cs[0]] else [], WithLog(cs[1..]));
      SumOne(m, cs[0]);
    }
  }
}
