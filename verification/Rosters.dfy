/**
 Where each channel record is: on which list, and in what order. Every
 operation but the retry is compared with a table that knows identities only.
 */
module Rosters {
  import opened Ascii
  import opened Sequences
  import opened Wrappers
  import Quicklog
  import opened Channels
  import opened ChannelRuns
  import Sessions

  datatype Place = Active | Passive | Former | Nowhere

  predicate IsOn(cs: seq<Chan>, id: nat) {
    exists c :: c in cs && c.id == id
  }

  function PlaceOf(s: Lists, id: nat): Place {
    if IsOn(s.active, id) then Active
    else if IsOn(s.passive, id) then Passive
    else if IsOn(s.former, id) then Former
    else Nowhere
  }

  /** The name finds the record on that list. */
  predicate Finds(cs: seq<Chan>, name: CString, id: nat) {
    var k := FindIn(cs, name);
    k != -1 && cs[k].id == id
  }

  /** The record that our JOIN under a name brings to the active list: the
      passive one, else the old one, that it finds, else a new one; none if the
      channel is active. */
  predicate IsMeant(s: Lists, name: CString, id: nat) {
    && FindIn(s.active, name) == -1
    && if FindIn(s.passive, name) != -1 then Finds(s.passive, name, id)
       else if FindIn(s.former, name) != -1 then Finds(s.former, name, id)
       else id == s.next
  }

  /** The line came in within the window, is not private and is about a channel. */
  predicate IsAbout(e: Quicklog.Entry, oldest: int, target: CString) {
    e.timestamp >= oldest && e.privmsg == false && Quicklog.Target(e.text) == Some(target)
  }

  /** A line speaks of the active channel its target finds, else of the old one. */
  predicate SpeaksOf(s: Lists, e: Quicklog.Entry, oldest: int, id: nat) {
    Quicklog.Target(e.text).Some? &&
    var target := Quicklog.Target(e.text).value;
    && IsAbout(e, oldest, target)
    && (Finds(s.active, target, id) || (FindIn(s.active, target) == -1 && Finds(s.former, target, id)))
  }

  predicate IsLogged(s: Lists, log: seq<Quicklog.Entry>, oldest: int, id: nat) {
    exists i :: 0 <= i < |log| && SpeaksOf(s, log[i], oldest, id)
  }

  predicate HasLog(cs: seq<Chan>, id: nat) {
    exists c :: c in cs && c.id == id && c.hasqlog
  }

  /** Where an operation leaves the record. */
  function Destination(s: Lists, op: Op, id: nat): Place {
    var here := PlaceOf(s, id);
    match op
    case Join(name, _) => if IsMeant(s, name, id) then Active else here
    case Enqueue(name, _) =>
      if id == s.next && FindIn(s.active, name) == -1 && FindIn(s.passive, name) == -1 then Passive else here
    case Leave(name, log, oldest) =>
      if !Finds(s.active, name, id) then here else if IsLogged(s, log, oldest, id) then Former else Nowhere
    case PartPassive(name) => if Finds(s.passive, name, id) then Nowhere else here
    case PartAll => if here == Passive then Nowhere else here
    case Drop(rejoin) => if here != Active then here else if rejoin then Passive else Nowhere
    case Detach(leave, rejoin) => if here != Active || !leave then here else if rejoin then Passive else Nowhere
    case Attach => if here == Former && !HasLog(s.former, id) then Nowhere else here
    case _ => here
  }

  // ------------------------------------------------------------------
  // Lists of identities.

  function Ids(cs: seq<Chan>): seq<nat> {
    seq(|cs|, i requires 0 <= i < |cs| => cs[i].id)
  }

  /** Those of the identities that go to a place, in order. */
  function Bound(ids: seq<nat>, go: nat -> Place, to: Place): seq<nat> {
    if ids == [] then [] else (if go(ids[0]) == to then [ids[0]] else []) + Bound(ids[1..], go, to)
  }

  lemma {:induction false} BoundAppend(a: seq<nat>, b: seq<nat>, go: nat -> Place, to: Place)
    ensures Bound(a + b, go, to) == Bound(a, go, to) + Bound(b, go, to)
  {
    if a == [] {
      assert a + b == b;
    } else {
      assert (a + b)[0] == a[0] && (a + b)[1..] == a[1..] + b;
      BoundAppend(a[1..], b, go, to);
      Regroup(if go(a[0]) == to then [a[0]] else [], Bound(a[1..], go, to), Bound(b, go, to));
    }
  }

  predicate AllGo(ids: seq<nat>, go: nat -> Place, d: Place) {
    forall id :: id in ids ==> go(id) == d
  }

  lemma {:induction false} Bounded(ids: seq<nat>, go: nat -> Place, d: Place, to: Place)
    requires AllGo(ids, go, d)
    ensures Bound(ids, go, to) == if d == to then ids else []
  {
    if ids != [] {
      Bounded(ids[1..], go, d, to);
    }
  }

  /** All but the one at place k stay; that one goes elsewhere. */
  predicate OneLeaves(ids: seq<nat>, k: nat, go: nat -> Place, stay: Place, d: Place) {
    && k < |ids| && d != stay && go(ids[k]) == d
    && forall i :: 0 <= i < |ids| && i != k ==> go(ids[i]) == stay
  }

  lemma WithoutMore(ids: seq<nat>, k: nat)
    requires 0 < k < |ids|
    ensures Without(ids, k) == [ids[0]] + Without(ids[1..], k - 1)
  {
  }

  lemma OneLeavesRest(ids: seq<nat>, k: nat, go: nat -> Place, stay: Place, d: Place)
    requires OneLeaves(ids, k, go, stay, d)
    ensures if k == 0 then AllGo(ids[1..], go, stay) && Without(ids, 0) == ids[1..]
            else go(ids[0]) == stay && OneLeaves(ids[1..], k - 1, go, stay, d) && ids[1..][k - 1] == ids[k]
  {
    forall i | 0 <= i < |ids| - 1 ensures ids[1..][i] == ids[i + 1] {}
  }

  lemma {:induction false} BoundedButOne(ids: seq<nat>, k: nat, go: nat -> Place, stay: Place, d: Place, to: Place)
    requires OneLeaves(ids, k, go, stay, d)
    ensures Bound(ids, go, to) == if to == stay then Without(ids, k) else if to == d then [ids[k]] else []
  {
    OneLeavesRest(ids, k, go, stay, d);
    if k == 0 {
      Bounded(ids[1..], go, stay, to);
    } else {
      BoundedButOne(ids[1..], k - 1, go, stay, d, to);
      WithoutMore(ids, k);
    }
  }

  function Going(s: Lists, op: Op): nat -> Place {
    (id: nat) => Destination(s, op, id)
  }

  /** The identity that a new record would have, if the operation makes one. */
  function NewId(s: Lists, op: Op): seq<nat> {
    if Created(s, op) == [] then [] else [s.next]
  }

  /** What comes of the four parts. */
  function Assembly(to: Place, a: seq<nat>, p: seq<nat>, f: seq<nat>, n: seq<nat>): seq<nat> {
    match to
    case Active => a + (p + f + n)
    case Passive => p + (a + f + n)
    case Former => f + (a + p + n)
    case Nowhere => []
  }

  /** The list after the operation: those of it that stay, in their order, then
      those that come, in the order of the lists they come from, then a new one. */
  function Roster(s: Lists, op: Op, to: Place): seq<nat> {
    var a, p, f := Bound(Ids(s.active), Going(s, op), to), Bound(Ids(s.passive), Going(s, op), to),
        Bound(Ids(s.former), Going(s, op), to);
    var n := Bound(NewId(s, op), Going(s, op), to);
    Assembly(to, a, p, f, n)
  }

  predicate RostersAre(s: Lists, op: Op, t: Lists) {
    && Ids(t.active) == Roster(s, op, Active)
    && Ids(t.passive) == Roster(s, op, Passive)
    && Ids(t.former) == Roster(s, op, Former)
  }

  // ------------------------------------------------------------------
  // Each record is on one list.

  lemma InIds(cs: seq<Chan>, id: nat)
    ensures id in Ids(cs) <==> IsOn(cs, id)
  {
    if id in Ids(cs) {
      var i :| 0 <= i < |cs| && Ids(cs)[i] == id;
      assert cs[i] in cs;
    }
    if IsOn(cs, id) {
      var c :| c in cs && c.id == id;
      var i :| 0 <= i < |cs| && cs[i] == c;
      assert Ids(cs)[i] == id;
    }
  }

  lemma OnOneList(s: Lists, id: nat)
    requires Partition(s)
    ensures IsOn(s.active, id) ==> !IsOn(s.passive, id) && !IsOn(s.former, id)
    ensures IsOn(s.passive, id) ==> !IsOn(s.former, id)
    ensures s.next <= id ==> !IsOn(s.active, id) && !IsOn(s.passive, id) && !IsOn(s.former, id)
  {
    assert Total(Copies(id), s) <= 1 && (s.next <= id ==> Total(Copies(id), s) == 0);
    CountedIfOn(s.active, id);
    CountedIfOn(s.passive, id);
    CountedIfOn(s.former, id);
  }

  lemma CountedIfOn(cs: seq<Chan>, id: nat)
    ensures IsOn(cs, id) ==> 1 <= Sum(Copies(id), cs)
  {
    if c :| c in cs && c.id == id {
      CountMember(c, cs);
    }
  }

  /** The places of all identities that are listed. */
  lemma PlacesOf(s: Lists)
    requires Partition(s)
    ensures forall id :: id in Ids(s.active) ==> PlaceOf(s, id) == Active
    ensures forall id :: id in Ids(s.passive) ==> PlaceOf(s, id) == Passive
    ensures forall id :: id in Ids(s.former) ==> PlaceOf(s, id) == Former
    ensures PlaceOf(s, s.next) == Nowhere
  {
    forall id
      ensures id in Ids(s.active) ==> PlaceOf(s, id) == Active
      ensures id in Ids(s.passive) ==> PlaceOf(s, id) == Passive
      ensures id in Ids(s.former) ==> PlaceOf(s, id) == Former
    {
      PlaceOfOne(s, id);
    }
    OnOneList(s, s.next);
  }

  lemma PlaceOfOne(s: Lists, id: nat)
    requires Partition(s)
    ensures id in Ids(s.active) ==> PlaceOf(s, id) == Active
    ensures id in Ids(s.passive) ==> PlaceOf(s, id) == Passive
    ensures id in Ids(s.former) ==> PlaceOf(s, id) == Former
  {
    OnOneList(s, id);
    InIds(s.active, id);
    InIds(s.passive, id);
    InIds(s.former, id);
  }

  /** No identity is twice on a list. */
  lemma IdsDiffer(s: Lists, cs: seq<Chan>, i: nat, j: nat)
    requires Partition(s) && (cs == s.active || cs == s.passive || cs == s.former)
    requires i < |cs| && j < |cs| && i != j
    ensures cs[i].id != cs[j].id
  {
    assert Total(Copies(cs[i].id), s) <= 1;
    OthersDiffer(s, cs, [], i);
    assert cs[j] == Without(cs, i)[if j < i then j else j - 1];
  }

  // ------------------------------------------------------------------
  // Operations that move whole lists, or none.

  function Part(ids: seq<nat>, d: Place, to: Place): seq<nat> {
    if d == to then ids else []
  }

  lemma WholeLists(s: Lists, op: Op, da: Place, dp: Place, df: Place, dn: Place, to: Place)
    requires AllGo(Ids(s.active), Going(s, op), da) && AllGo(Ids(s.passive), Going(s, op), dp)
    requires AllGo(Ids(s.former), Going(s, op), df) && AllGo(NewId(s, op), Going(s, op), dn)
    ensures Roster(s, op, to) == Assembly(to, Part(Ids(s.active), da, to), Part(Ids(s.passive), dp, to),
                                          Part(Ids(s.former), df, to), Part(NewId(s, op), dn, to))
  {
    Bounded(Ids(s.active), Going(s, op), da, to);
    Bounded(Ids(s.passive), Going(s, op), dp, to);
    Bounded(Ids(s.former), Going(s, op), df, to);
    Bounded(NewId(s, op), Going(s, op), dn, to);
  }

  /** Each list stays or goes to the passive one, or from all. */
  lemma Assembles(a: seq<nat>, p: seq<nat>, f: seq<nat>, n: seq<nat>, da: Place, dp: Place, dn: Place)
    requires da == Active || da == Passive || da == Nowhere
    requires dp == Passive || dp == Nowhere
    requires n == [] || (da == Active && dp == Passive && (dn == Active || dn == Passive))
    ensures Assembly(Active, Part(a, da, Active), Part(p, dp, Active), Part(f, Former, Active), Part(n, dn, Active))
         == (if da == Active then a else []) + if dn == Active then n else []
    ensures Assembly(Passive, Part(a, da, Passive), Part(p, dp, Passive), Part(f, Former, Passive),
                     Part(n, dn, Passive))
         == (if dp == Passive then p else []) + if n != [] then (if dn == Passive then n else [])
             else if da == Passive then a else []
    ensures Assembly(Former, Part(a, da, Former), Part(p, dp, Former), Part(f, Former, Former),
                     Part(n, dn, Former)) == f
  {
  }

  lemma Whole(s: Lists, op: Op, da: Place, dp: Place, dn: Place)
    requires AllGo(Ids(s.active), Going(s, op), da) && AllGo(Ids(s.passive), Going(s, op), dp)
    requires AllGo(Ids(s.former), Going(s, op), Former) && AllGo(NewId(s, op), Going(s, op), dn)
    requires da == Active || da == Passive || da == Nowhere
    requires dp == Passive || dp == Nowhere
    requires NewId(s, op) == [] || (da == Active && dp == Passive && (dn == Active || dn == Passive))
    ensures Roster(s, op, Active)
         == (if da == Active then Ids(s.active) else []) + if dn == Active then NewId(s, op) else []
    ensures Roster(s, op, Passive) == (if dp == Passive then Ids(s.passive) else []) +
                                      if NewId(s, op) != [] then (if dn == Passive then NewId(s, op) else [])
                                      else if da == Passive then Ids(s.active) else []
    ensures Roster(s, op, Former) == Ids(s.former)
  {
    WholeLists(s, op, da, dp, Former, dn, Active);
    WholeLists(s, op, da, dp, Former, dn, Passive);
    WholeLists(s, op, da, dp, Former, dn, Former);
    Assembles(Ids(s.active), Ids(s.passive), Ids(s.former), NewId(s, op), da, dp, dn);
  }

  /** Nothing moves. */
  lemma AllStay(s: Lists, op: Op, t: Lists)
    requires Partition(s) && Created(s, op) == []
    requires forall id :: Destination(s, op, id) == PlaceOf(s, id)
    requires Ids(t.active) == Ids(s.active) && Ids(t.passive) == Ids(s.passive) && Ids(t.former) == Ids(s.former)
    ensures RostersAre(s, op, t)
  {
    PlacesOf(s);
    Whole(s, op, Active, Passive, Nowhere);
  }

  lemma SameIds(cs: seq<Chan>, ds: seq<Chan>)
    requires |cs| == |ds| && forall i :: 0 <= i < |cs| ==> cs[i].id == ds[i].id
    ensures Ids(cs) == Ids(ds)
  {
  }

  /** The operations that move no record from its place. */
  predicate IsStill(op: Op) {
    op.CheckLog? || op.Welcome? || op.Mode? || op.Meet? || op.Part? || op.Quit? || op.Names? || op.Perform?
  }

  lemma StillIds(s: Lists, op: Op)
    requires IsStill(op)
    ensures var t := Step(s, op);
            Ids(t.active) == Ids(s.active) && Ids(t.passive) == Ids(s.passive) && Ids(t.former) == Ids(s.former)
    ensures Created(s, op) == []
  {
    var t := Step(s, op);
    SameIds(t.active, s.active);
    SameIds(t.passive, s.passive);
    SameIds(t.former, s.former);
  }

  lemma StillRosters(s: Lists, op: Op)
    requires Inv(s) && IsStill(op)
    ensures RostersAre(s, op, Step(s, op))
  {
    StillIds(s, op);
    AllStay(s, op, Step(s, op));
  }

  lemma PartAllRosters(s: Lists)
    requires Inv(s)
    ensures RostersAre(s, PartAll, Step(s, PartAll))
  {
    PlacesOf(s);
    Whole(s, PartAll, Active, Nowhere, Nowhere);
  }

  lemma IdsAppend(cs: seq<Chan>, ds: seq<Chan>)
    ensures Ids(cs + ds) == Ids(cs) + Ids(ds)
  {
  }

  /** The active channels go as one, to the passive list or from all. */
  lemma LeavingRosters(s: Lists, op: Op, moved: seq<Chan>, to: Place)
    requires Inv(s) && Created(s, op) == [] && (to == Passive || to == Nowhere)
    requires forall id :: Destination(s, op, id) == if PlaceOf(s, id) == Active then to else PlaceOf(s, id)
    requires Ids(moved) == if to == Passive then Ids(s.active) else []
    ensures RostersAre(s, op, s.(active := [], passive := s.passive + moved))
  {
    PlacesOf(s);
    IdsAppend(s.passive, moved);
    Whole(s, op, to, Passive, Nowhere);
  }

  lemma DropRosters(s: Lists, op: Op)
    requires Inv(s) && (op.Drop? || op.Detach?)
    ensures RostersAre(s, op, Step(s, op))
  {
    match op
    case Drop(rejoin) =>
      SameIds(RevertedAll(s.active), s.active);
      LeavingRosters(s, op, if rejoin then RevertedAll(s.active) else [], if rejoin then Passive else Nowhere);
    case Detach(leave, rejoin) =>
      if leave {
        SameIds(DeoppedAll(s.active), s.active);
        LeavingRosters(s, op, if rejoin then DeoppedAll(s.active) else [], if rejoin then Passive else Nowhere);
      } else {
        AllStay(s, op, s);
      }
  }

  // ------------------------------------------------------------------
  // Operations that move one record.

  lemma IdsWithout(cs: seq<Chan>, k: nat)
    requires k < |cs|
    ensures Ids(Without(cs, k)) == Without(Ids(cs), k)
  {
  }

  /** Where the identities on the three lists go when one record moves. */
  ghost predicate OneGoes(s: Lists, op: Op, id: nat, d: Place) {
    && Created(s, op) == []
    && forall x :: Destination(s, op, x) == if x == id then d else PlaceOf(s, x)
  }

  predicate AllAre(s: Lists, cs: seq<Chan>, here: Place) {
    forall id :: id in Ids(cs) ==> PlaceOf(s, id) == here
  }

  lemma OneLeavesList(s: Lists, op: Op, cs: seq<Chan>, k: nat, here: Place, d: Place)
    requires Inv(s) && (cs == s.active || cs == s.passive || cs == s.former) && AllAre(s, cs, here)
    requires k < |cs| && OneGoes(s, op, cs[k].id, d) && d != here
    ensures OneLeaves(Ids(cs), k, Going(s, op), here, d)
  {
    forall i | 0 <= i < |cs| && i != k
      ensures Destination(s, op, Ids(cs)[i]) == here
    {
      IdsDiffer(s, cs, i, k);
      assert Ids(cs)[i] in Ids(cs);
    }
  }

  lemma OthersStay(s: Lists, op: Op, cs: seq<Chan>, here: Place, id: nat, d: Place)
    requires AllAre(s, cs, here) && PlaceOf(s, id) != here && OneGoes(s, op, id, d)
    ensures AllGo(Ids(cs), Going(s, op), here)
  {
  }

  lemma ActiveGoes(s: Lists, op: Op, k: nat, d: Place, to: Place)
    requires Inv(s) && k < |s.active| && OneGoes(s, op, s.active[k].id, d) && d != Active
    ensures Bound(Ids(s.active), Going(s, op), to)
         == if to == Active then Without(Ids(s.active), k) else if to == d then [s.active[k].id] else []
    ensures Bound(Ids(s.passive), Going(s, op), to) == Part(Ids(s.passive), Passive, to)
    ensures Bound(Ids(s.former), Going(s, op), to) == Part(Ids(s.former), Former, to)
  {
    var go, id := Going(s, op), s.active[k].id;
    PlacesOf(s);
    assert Ids(s.active)[k] == id;
    OneLeavesList(s, op, s.active, k, Active, d);
    BoundedButOne(Ids(s.active), k, go, Active, d, to);
    OthersStay(s, op, s.passive, Passive, id, d);
    Bounded(Ids(s.passive), go, Passive, to);
    OthersStay(s, op, s.former, Former, id, d);
    Bounded(Ids(s.former), go, Former, to);
  }

  lemma PassiveGoes(s: Lists, op: Op, k: nat, d: Place, to: Place)
    requires Inv(s) && k < |s.passive| && OneGoes(s, op, s.passive[k].id, d) && d != Passive
    ensures Bound(Ids(s.passive), Going(s, op), to)
         == if to == Passive then Without(Ids(s.passive), k) else if to == d then [s.passive[k].id] else []
    ensures Bound(Ids(s.active), Going(s, op), to) == Part(Ids(s.active), Active, to)
    ensures Bound(Ids(s.former), Going(s, op), to) == Part(Ids(s.former), Former, to)
  {
    var go, id := Going(s, op), s.passive[k].id;
    PlacesOf(s);
    assert Ids(s.passive)[k] == id;
    OneLeavesList(s, op, s.passive, k, Passive, d);
    BoundedButOne(Ids(s.passive), k, go, Passive, d, to);
    OthersStay(s, op, s.active, Active, id, d);
    Bounded(Ids(s.active), go, Active, to);
    OthersStay(s, op, s.former, Former, id, d);
    Bounded(Ids(s.former), go, Former, to);
  }

  lemma FormerGoes(s: Lists, op: Op, k: nat, d: Place, to: Place)
    requires Inv(s) && k < |s.former| && OneGoes(s, op, s.former[k].id, d) && d != Former
    ensures Bound(Ids(s.former), Going(s, op), to)
         == if to == Former then Without(Ids(s.former), k) else if to == d then [s.former[k].id] else []
    ensures Bound(Ids(s.active), Going(s, op), to) == Part(Ids(s.active), Active, to)
    ensures Bound(Ids(s.passive), Going(s, op), to) == Part(Ids(s.passive), Passive, to)
  {
    var go, id := Going(s, op), s.former[k].id;
    PlacesOf(s);
    assert Ids(s.former)[k] == id;
    OneLeavesList(s, op, s.former, k, Former, d);
    BoundedButOne(Ids(s.former), k, go, Former, d, to);
    OthersStay(s, op, s.active, Active, id, d);
    Bounded(Ids(s.active), go, Active, to);
    OthersStay(s, op, s.passive, Passive, id, d);
    Bounded(Ids(s.passive), go, Passive, to);
  }

  lemma Assembled(s: Lists, op: Op, to: Place)
    requires Created(s, op) == []
    ensures Roster(s, op, to) == Assembly(to, Bound(Ids(s.active), Going(s, op), to),
                                          Bound(Ids(s.passive), Going(s, op), to),
                                          Bound(Ids(s.former), Going(s, op), to), [])
  {
  }

  lemma NothingBetween(x: seq<nat>)
    ensures x + [] == x && [] + x == x
  {
  }

  function Behind(ids: seq<nat>, id: nat, comes: bool): seq<nat> {
    if comes then ids + [id] else ids
  }

  lemma ActiveGoesRoster(s: Lists, op: Op, k: nat, d: Place, to: Place)
    requires Inv(s) && k < |s.active| && OneGoes(s, op, s.active[k].id, d) && d != Active && to != Nowhere
    ensures Roster(s, op, to) == if to == Active then Without(Ids(s.active), k)
                                 else Behind(if to == Passive then Ids(s.passive) else Ids(s.former),
                                             s.active[k].id, d == to)
  {
    ActiveGoes(s, op, k, d, to);
    Assembled(s, op, to);
    var own := if to == Active then Without(Ids(s.active), k) else if to == d then [s.active[k].id] else [];
    NothingBetween(own);
    NothingBetween(if to == Passive then Ids(s.passive) else if to == Former then Ids(s.former) else own);
  }

  lemma PassiveGoesRoster(s: Lists, op: Op, k: nat, d: Place, to: Place)
    requires Inv(s) && k < |s.passive| && OneGoes(s, op, s.passive[k].id, d) && d != Passive && to != Nowhere
    ensures Roster(s, op, to) == if to == Passive then Without(Ids(s.passive), k)
                                 else Behind(if to == Active then Ids(s.active) else Ids(s.former),
                                             s.passive[k].id, d == to)
  {
    PassiveGoes(s, op, k, d, to);
    Assembled(s, op, to);
    var own := if to == Passive then Without(Ids(s.passive), k) else if to == d then [s.passive[k].id] else [];
    NothingBetween(own);
    NothingBetween(if to == Active then Ids(s.active) else if to == Former then Ids(s.former) else own);
  }

  lemma FormerGoesRoster(s: Lists, op: Op, k: nat, d: Place, to: Place)
    requires Inv(s) && k < |s.former| && OneGoes(s, op, s.former[k].id, d) && d != Former && to != Nowhere
    ensures Roster(s, op, to) == if to == Former then Without(Ids(s.former), k)
                                 else Behind(if to == Active then Ids(s.active) else Ids(s.passive),
                                             s.former[k].id, d == to)
  {
    FormerGoes(s, op, k, d, to);
    Assembled(s, op, to);
    var own := if to == Former then Without(Ids(s.former), k) else if to == d then [s.former[k].id] else [];
    NothingBetween(own);
    NothingBetween(if to == Active then Ids(s.active) else if to == Passive then Ids(s.passive) else own);
  }

  lemma PartPassiveRosters(s: Lists, name: CString)
    requires Inv(s)
    ensures RostersAre(s, PartPassive(name), Step(s, PartPassive(name)))
  {
    var op, k := PartPassive(name), FindIn(s.passive, name);
    if k == -1 {
      AllStay(s, op, s);
    } else {
      IdsWithout(s.passive, k);
      PassiveGoesRoster(s, op, k, Nowhere, Active);
      PassiveGoesRoster(s, op, k, Nowhere, Passive);
      PassiveGoesRoster(s, op, k, Nowhere, Former);
    }
  }

  lemma JoinPassiveRosters(s: Lists, op: Op, k: nat)
    requires Inv(s) && op.Join? && FindIn(s.active, op.name) == -1 && FindIn(s.passive, op.name) == k
    ensures RostersAre(s, op, Step(s, op))
  {
    var d := Activated(s.passive[k], op.name);
    assert Step(s, op) == FromPassive(s, k, op.name);
    IdsWithout(s.passive, k);
    IdsAppend(s.active, [d]);
    assert Ids([d]) == [s.passive[k].id];
    PassiveGoesRoster(s, op, k, Active, Active);
    PassiveGoesRoster(s, op, k, Active, Passive);
    PassiveGoesRoster(s, op, k, Active, Former);
  }

  lemma JoinFormerRosters(s: Lists, op: Op, k: nat)
    requires Inv(s) && op.Join? && FindIn(s.active, op.name) == FindIn(s.passive, op.name) == -1
    requires FindIn(s.former, op.name) == k
    ensures RostersAre(s, op, Step(s, op))
  {
    var d := Activated(s.former[k], op.name);
    assert Step(s, op) == FromFormer(s, k, op.name);
    IdsWithout(s.former, k);
    IdsAppend(s.active, [d]);
    assert Ids([d]) == [s.former[k].id];
    FormerGoesRoster(s, op, k, Active, Active);
    FormerGoesRoster(s, op, k, Active, Passive);
    FormerGoesRoster(s, op, k, Active, Former);
  }

  /** A new record comes to the end of its list. */
  lemma NewRosters(s: Lists, op: Op, to: Place)
    requires Inv(s) && |Created(s, op)| == 1 && Created(s, op)[0].id == s.next && (to == Active || to == Passive)
    requires forall x :: Destination(s, op, x) == if x == s.next then to else PlaceOf(s, x)
    ensures Roster(s, op, Active) == Ids(s.active) + if to == Active then [s.next] else []
    ensures Roster(s, op, Passive) == Ids(s.passive) + if to == Passive then [s.next] else []
    ensures Roster(s, op, Former) == Ids(s.former)
  {
    PlacesOf(s);
    Whole(s, op, Active, Passive, to);
  }

  lemma JoinRosters(s: Lists, op: Op)
    requires Inv(s) && op.Join?
    ensures RostersAre(s, op, Step(s, op))
  {
    var p, f := FindIn(s.passive, op.name), FindIn(s.former, op.name);
    if FindIn(s.active, op.name) != -1 {
      AllStay(s, op, s);
    } else if p != -1 {
      JoinPassiveRosters(s, op, p);
    } else if f != -1 {
      JoinFormerRosters(s, op, f);
    } else {
      NewRosters(s, op, Active);
      IdsAppend(s.active, Created(s, op));
      assert Step(s, op) == FromNothing(s, op.name, op.key);
    }
  }

  lemma EnqueueRosters(s: Lists, op: Op)
    requires Inv(s) && op.Enqueue?
    ensures RostersAre(s, op, Step(s, op))
  {
    if FindIn(s.active, op.name) != -1 || FindIn(s.passive, op.name) != -1 {
      AllStay(s, op, s);
    } else {
      NewRosters(s, op, Passive);
      IdsAppend(s.passive, Created(s, op));
    }
  }

  /** The record left is kept exactly if a line speaks of it. */
  lemma LeftIsLogged(s: Lists, k: nat, log: seq<Quicklog.Entry>, oldest: int)
    requires Inv(s) && k < |s.active|
    ensures Checked(s, log, oldest).active[k].hasqlog <==> IsLogged(s, log, oldest, s.active[k].id)
  {
    var id := s.active[k].id;
    Sessions.CheckedIffNamed(s, log, oldest, k);
    PlacesOf(s);
    assert id in Ids(s.active) by { assert Ids(s.active)[k] == id; }
    forall e: Quicklog.Entry
      ensures SpeaksOf(s, e, oldest, id) <==> Counts(e, oldest) && FindIn(s.active, Quicklog.Target(e.text).value) == k
    {
      SpeaksOfActive(s, e, oldest, k);
    }
  }

  lemma SpeaksOfActive(s: Lists, e: Quicklog.Entry, oldest: int, k: nat)
    requires Inv(s) && k < |s.active|
    ensures SpeaksOf(s, e, oldest, s.active[k].id)
        <==> (Counts(e, oldest) && FindIn(s.active, Quicklog.Target(e.text).value) == k)
  {
    var id := s.active[k].id;
    OnOneList(s, id);
    if Quicklog.Target(e.text).Some? {
      var a, f := FindIn(s.active, Quicklog.Target(e.text).value), FindIn(s.former, Quicklog.Target(e.text).value);
      if a != -1 && a != k {
        IdsDiffer(s, s.active, a, k);
      }
      assert s.active[k] in s.active;
      if f != -1 {
        assert s.former[f] in s.former;
      }
    }
  }

  lemma LeaveRosters(s: Lists, op: Op)
    requires Inv(s) && op.Leave?
    ensures RostersAre(s, op, Step(s, op))
  {
    var k := FindIn(s.active, op.name);
    if k == -1 {
      AllStay(s, op, s);
    } else {
      LeftIsLogged(s, k, op.log, op.oldest);
      RemovedRosters(s, op, k);
    }
  }

  lemma RemovedRosters(s: Lists, op: Op, k: nat)
    requires Inv(s) && op.Leave? && FindIn(s.active, op.name) == k
    requires Checked(s, op.log, op.oldest).active[k].hasqlog <==> IsLogged(s, op.log, op.oldest, s.active[k].id)
    ensures RostersAre(s, op, Step(s, op))
  {
    var s1, id := Checked(s, op.log, op.oldest), s.active[k].id;
    var c := s1.active[k].(queue := []);
    var d := if c.hasqlog then Former else Nowhere;
    SameIds(s1.active, s.active);
    SameIds(s1.former, s.former);
    IdsWithout(s1.active, k);
    IdsAppend(s1.former, if c.hasqlog then [c] else []);
    assert Ids([c]) == [id];
    ActiveGoesRoster(s, op, k, d, Active);
    ActiveGoesRoster(s, op, k, d, Passive);
    ActiveGoesRoster(s, op, k, d, Former);
  }

  lemma {:induction false} LoggedBound(go: nat -> Place, cs: seq<Chan>, to: Place)
    requires forall c :: c in cs ==> go(c.id) == if c.hasqlog then Former else Nowhere
    requires to != Nowhere
    ensures Bound(Ids(cs), go, to) == if to == Former then Ids(WithLog(cs)) else []
  {
    if cs != [] {
      LoggedBound(go, cs[1..], to);
      assert Ids(cs)[1..] == Ids(cs[1..]) && cs[0] in cs;
      IdsAppend(if cs[0].hasqlog then [cs[0]] else [], WithLog(cs[1..]));
    }
  }

  lemma AttachRosters(s: Lists)
    requires Inv(s)
    ensures RostersAre(s, Attach, Step(s, Attach))
  {
    PlacesOf(s);
    forall c | c in s.former
      ensures Destination(s, Attach, c.id) == if c.hasqlog then Former else Nowhere
    {
      OnlyOneHere(s, c);
    }
    forall to: Place
      ensures Bound(Ids(s.active), Going(s, Attach), to) == Part(Ids(s.active), Active, to)
      ensures Bound(Ids(s.passive), Going(s, Attach), to) == Part(Ids(s.passive), Passive, to)
    {
      Bounded(Ids(s.active), Going(s, Attach), Active, to);
      Bounded(Ids(s.passive), Going(s, Attach), Passive, to);
    }
    LoggedBound(Going(s, Attach), s.former, Active);
    LoggedBound(Going(s, Attach), s.former, Passive);
    LoggedBound(Going(s, Attach), s.former, Former);
  }

  lemma OnlyOneHere(s: Lists, c: Chan)
    requires Inv(s) && c in s.former
    ensures PlaceOf(s, c.id) == Former && (HasLog(s.former, c.id) <==> c.hasqlog)
  {
    OnOneList(s, c.id);
    if d :| d in s.former && d.id == c.id && d.hasqlog {
      var i :| 0 <= i < |s.former| && s.former[i] == c;
      var j :| 0 <= j < |s.former| && s.former[j] == d;
      if i != j {
        IdsDiffer(s, s.former, i, j);
      }
    }
  }

  /** In every reachable state, every operation but the retry leaves every record
      where the table says, keeps the order of those that stay, and puts those
      that come behind them: nothing else moves and nothing else is lost. */
  lemma RostersAfterStep(s: Lists, op: Op)
    requires Inv(s) && !op.Retry?
    ensures RostersAre(s, op, Step(s, op))
  {
    match op
    case Join(_, _) => JoinRosters(s, op);
    case Enqueue(_, _) => EnqueueRosters(s, op);
    case Leave(_, _, _) => LeaveRosters(s, op);
    case PartPassive(name) => PartPassiveRosters(s, name);
    case PartAll => PartAllRosters(s);
    case Drop(_) => DropRosters(s, op);
    case Detach(_, _) => DropRosters(s, op);
    case Attach => AttachRosters(s);
    case _ => StillRosters(s, op);
  }

  // ------------------------------------------------------------------
  // Where each record is after a step.

  lemma {:induction false} InBound(ids: seq<nat>, go: nat -> Place, to: Place, id: nat)
    ensures id in Bound(ids, go, to) <==> id in ids && go(id) == to
  {
    if ids != [] {
      InBound(ids[1..], go, to, id);
    }
  }

  predicate IsKnown(s: Lists, op: Op, id: nat) {
    IsOn(s.active, id) || IsOn(s.passive, id) || IsOn(s.former, id) || id in NewId(s, op)
  }

  lemma InRoster(s: Lists, op: Op, to: Place, id: nat)
    requires to != Nowhere
    ensures id in Roster(s, op, to) <==> IsKnown(s, op, id) && Destination(s, op, id) == to
  {
    var go := Going(s, op);
    InBound(Ids(s.active), go, to, id);
    InBound(Ids(s.passive), go, to, id);
    InBound(Ids(s.former), go, to, id);
    InBound(NewId(s, op), go, to, id);
    InIds(s.active, id);
    InIds(s.passive, id);
    InIds(s.former, id);
  }

  lemma OnlyKnownGo(s: Lists, op: Op, id: nat)
    requires Destination(s, op, id) != Nowhere
    ensures IsKnown(s, op, id)
  {
    if op.Join? && FindIn(s.active, op.name) == -1 {
      assert FindIn(s.passive, op.name) != -1 ==> s.passive[FindIn(s.passive, op.name)] in s.passive;
      assert FindIn(s.former, op.name) != -1 ==> s.former[FindIn(s.former, op.name)] in s.former;
    } else if op.Leave? && FindIn(s.active, op.name) != -1 {
      assert s.active[FindIn(s.active, op.name)] in s.active;
    }
  }

  /** In every reachable state, after every operation but the retry, every
      identity is where the table says: no record is lost, kept or moved but as
      the table has it. */
  lemma PlaceAfterStep(s: Lists, op: Op, id: nat)
    requires Inv(s) && !op.Retry?
    ensures PlaceOf(Step(s, op), id) == Destination(s, op, id)
  {
    var t := Step(s, op);
    RostersAfterStep(s, op);
    InRoster(s, op, Active, id);
    InRoster(s, op, Passive, id);
    InRoster(s, op, Former, id);
    InIds(t.active, id);
    InIds(t.passive, id);
    InIds(t.former, id);
    if Destination(s, op, id) != Nowhere {
      OnlyKnownGo(s, op, id);
    }
  }

  /** The operation frees the record. */
  predicate Frees(s: Lists, op: Op, id: nat) {
    match op
    case Leave(name, log, oldest) => Finds(s.active, name, id) && !IsLogged(s, log, oldest, id)
    case PartPassive(name) => Finds(s.passive, name, id)
    case PartAll => IsOn(s.passive, id)
    case Drop(rejoin) => IsOn(s.active, id) && !rejoin
    case Detach(leave, rejoin) => IsOn(s.active, id) && leave && !rejoin
    case Attach => IsOn(s.former, id) && !HasLog(s.former, id)
    case _ => false
  }

  /** A listed record stays listed, once, exactly unless it is freed. */
  lemma NoLoss(s: Lists, op: Op, id: nat)
    requires Inv(s) && !op.Retry? && Total(Copies(id), s) == 1
    ensures Total(Copies(id), Step(s, op)) == if Frees(s, op, id) then 0 else 1
  {
    var t := Step(s, op);
    StepKeepsPartition(s, op);
    PlaceAfterStep(s, op, id);
    OnOneList(s, id);
    assert Total(Copies(id), t) <= 1;
    PlacedIsCounted(s, id);
    PlacedIsCounted(t, id);
  }

  lemma PlacedIsCounted(s: Lists, id: nat)
    ensures PlaceOf(s, id) == Nowhere <==> Total(Copies(id), s) == 0
  {
    CountedIffOn(s.active, id);
    CountedIffOn(s.passive, id);
    CountedIffOn(s.former, id);
  }

  lemma {:induction false} CountedIffOn(cs: seq<Chan>, id: nat)
    ensures 0 < Sum(Copies(id), cs) <==> IsOn(cs, id)
  {
    if cs != [] {
      CountedIffOn(cs[1..], id);
      assert IsOn(cs, id) <==> cs[0].id == id || IsOn(cs[1..], id) by {
        assert cs[0] in cs && forall c :: c in cs <==> c == cs[0] || c in cs[1..];
      }
    }
  }

  /** When the last client goes and channels are not left, every channel is found
      as before, and on the list it was on. */
  lemma DetachWithoutLeave(s: Lists, rejoin: bool, name: CString)
    ensures var t := Step(s, Detach(false, rejoin));
            && FindIn(t.active, name) == FindIn(s.active, name) && t.active == s.active
            && FindIn(t.passive, name) == FindIn(s.passive, name) && t.passive == s.passive
            && t.former == s.former
  {
  }

  // The retry.

  /** No channel of that name, in any case, has used up its tries. */
  predicate NameHasTries(cs: seq<Chan>, name: CString) {
    forall c :: c in cs && SameName(c.name, name) && IsName(c.name) ==> c.jointries != 0
  }

  /** A turn of the walk changes the tries of the channel it stands on, if anything,
      and goes on; or that channel has none left, and the one its name finds goes. */
  predicate IsTurn(cs: seq<Chan>, k: nat, ds: seq<Chan>, k1: nat)
    requires k < |cs|
  {
    || (&& k1 == k + 1 && |ds| == |cs| && ds[k] == cs[k].(jointries := ds[k].jointries)
        && (ds[k] == cs[k] || 0 <= ds[k].jointries) && forall i :: 0 <= i < |cs| && i != k ==> ds[i] == cs[i])
    || (&& k1 == k && cs[k].jointries == 0 && 0 <= FindIn(cs, cs[k].name) <= k
        && ds == Without(cs, FindIn(cs, cs[k].name)))
  }

  lemma WalkTurns(cs: seq<Chan>, k: nat, cfg: JoinConfig, rejoin: bool) returns (ds: seq<Chan>, k1: nat)
    requires k < |cs|
    ensures IsTurn(cs, k, ds, k1) && k1 <= |ds| && |ds| - k1 < |cs| - k
    ensures JoinFrom(cs, k, cfg, rejoin).0 == JoinFrom(ds, k1, cfg, rejoin).0
  {
    var t, f := TriesNow(cs[k], cfg, rejoin), FindIn(cs, cs[k].name);
    FoundAtOrBefore(cs, k);
    if 0 < t {
      ds, k1 := cs[k := cs[k].(jointries := t - 1)], k + 1;
    } else if t == 0 && f != -1 {
      ds, k1 := Without(cs, f), k;
    } else {
      ds, k1 := cs, k + 1;
    }
  }

  lemma RestHasTries(cs: seq<Chan>, ds: seq<Chan>, k: nat, name: CString)
    requires k < |cs| == |ds| && NameHasTries(cs[k..], name)
    requires forall i :: k < i < |cs| ==> ds[i] == cs[i]
    ensures NameHasTries(ds[k + 1..], name)
  {
    forall c | c in ds[k + 1..]
      ensures c in cs[k..]
    {
      var i :| 0 <= i < |ds[k + 1..]| && ds[k + 1..][i] == c;
      assert cs[k..][i + 1] == c;
    }
  }

  /** What a turn leaves of the channel at place i, whose name has tries. */
  lemma TurnKeeps(cs: seq<Chan>, k: nat, ds: seq<Chan>, k1: nat, i: nat) returns (i1: nat)
    requires k < |cs| && i < |cs| && IsTurn(cs, k, ds, k1) && NameHasTries(cs[k..], cs[i].name)
    ensures i1 < |ds| && k1 <= |ds| && ds[i1].id == cs[i].id && ds[i1].name == cs[i].name
    ensures NameHasTries(ds[k1..], cs[i].name)
  {
    if k1 == k + 1 {
      i1 := i;
      RestHasTries(cs, ds, k, cs[i].name);
    } else {
      var f := FindIn(cs, cs[k].name);
      RemovedIsOther(cs, k, i, f);
      i1 := if f < i then i - 1 else i;
    }
  }

  /** The walk keeps a channel as long as none of its name, from place k on, is
      without tries. */
  lemma {:induction false} WalkKeeps(cs: seq<Chan>, k: nat, cfg: JoinConfig, rejoin: bool, i: nat)
    requires k <= |cs| && i < |cs| && NameHasTries(cs[k..], cs[i].name)
    ensures IsOn(JoinFrom(cs, k, cfg, rejoin).0, cs[i].id)
    decreases |cs| - k
  {
    if k == |cs| {
      assert cs[i] in cs;
    } else {
      var ds, k1 := WalkTurns(cs, k, cfg, rejoin);
      var i1 := TurnKeeps(cs, k, ds, k1, i);
      WalkKeeps(ds, k1, cfg, rejoin, i1);
    }
  }

  lemma RemovedIsOther(cs: seq<Chan>, k: nat, i: nat, f: nat)
    requires f <= k < |cs| && i < |cs| && FindIn(cs, cs[k].name) == f
    requires cs[k].jointries == 0 && NameHasTries(cs[k..], cs[i].name)
    ensures f != i
    ensures var ds, i1 := Without(cs, f), if f < i then i - 1 else i;
            i1 < |ds| && ds[i1] == cs[i] && NameHasTries(ds[k..], cs[i].name)
  {
    var ds := Without(cs, f);
    assert cs[k] in cs[k..];
    assert Exact(cs[k], cs[k].name);
    assert FirstExact(cs, cs[k].name, 0) <= k;
    assert Exact(cs[f], cs[k].name);
    assert ds[k..] == cs[k + 1..];
    assert forall c :: c in cs[k + 1..] ==> c in cs[k..];
  }

  /** A retry moves nothing, and frees no passive channel as long as none of its
      name has used up its tries. */
  lemma RetryKeeps(s: Lists, cfg: JoinConfig, force: bool, i: nat)
    requires Inv(s) && i < |s.passive| && NameHasTries(s.passive, s.passive[i].name)
    ensures var t := Step(s, Retry(cfg, force));
            IsOn(t.passive, s.passive[i].id) && t.active == s.active && t.former == s.former
  {
    assert s.passive[0..] == s.passive;
    WalkKeeps(s.passive, 0, cfg, force, i);
  }

  /** A channel with a name of its own is freed by a retry exactly when its tries
      are used up. */
  lemma RetryFreesIff(s: Lists, cfg: JoinConfig, force: bool, i: nat)
    requires Inv(s) && i < |s.passive| && Sessions.SoleName(s.passive, i)
    ensures PlaceOf(Step(s, Retry(cfg, force)), s.passive[i].id)
         == if s.passive[i].jointries == 0 then Nowhere else Passive
  {
    var t, c := Step(s, Retry(cfg, force)), s.passive[i];
    assert c in s.passive && Clean(c);
    Sessions.ListedOnce(s, i);
    Sessions.FateInWalk(s.passive, 0, i, cfg, force);
    OnOneList(s, c.id);
    if c.jointries != 0 {
      forall d | d in s.passive && SameName(d.name, c.name) && IsName(d.name)
        ensures d.jointries != 0
      {
        var j :| 0 <= j < |s.passive| && s.passive[j] == d;
      }
      RetryKeeps(s, cfg, force, i);
    }
  }
}
