/**
 What becomes of channels over a session: the retries of a passive channel, the
 JOIN line that asks for several, the way back after a lost connection, and
 the fate of a parted channel.
 */
module Sessions {
  import opened Ascii
  import opened Messages
  import opened Sequences
  import opened Wrappers
  import Quicklog
  import opened Channels
  import opened ChannelRuns

  // ------------------------------------------------------------------
  // One retry, for a channel that its name alone finds.

  predicate SoleName(cs: seq<Chan>, i: nat)
    requires i < |cs|
  {
    IsName(cs[i].name) && forall j :: 0 <= j < |cs| && j != i ==> !SameName(cs[j].name, cs[i].name)
  }

  lemma SoleFound(cs: seq<Chan>, i: nat)
    requires i < |cs| && SoleName(cs, i)
    ensures FindIn(cs, cs[i].name) == i
    ensures forall j :: 0 <= j < |cs| && j != i ==> FindIn(cs, cs[j].name) != i
  {
    assert Exact(cs[i], cs[i].name);
    forall j | 0 <= j < |cs| && j != i
      ensures FindIn(cs, cs[j].name) != i
    {
      assert Exact(cs[j], cs[j].name);
      assert FirstExact(cs, cs[j].name, 0) < |cs|;
    }
  }

  /** The channel at place i after the one at f left the list. */
  lemma SoleWithout(cs: seq<Chan>, f: nat, i: nat)
    requires f < |cs| && i < |cs| && f != i && SoleName(cs, i)
    ensures var i1 := if f < i then i - 1 else i;
            var ds := Without(cs, f);
            i1 < |ds| && ds[i1] == cs[i] && SoleName(ds, i1)
  {
    var i1 := if f < i then i - 1 else i;
    var ds := Without(cs, f);
    forall j | 0 <= j < |ds| && j != i1
      ensures !SameName(ds[j].name, ds[i1].name)
    {
      assert ds[j] == cs[if j < f then j else j + 1];
    }
  }

  /** Once the walk has passed it, it stays. */
  lemma {:induction false} PassedStays(cs: seq<Chan>, k: nat, i: nat, cfg: JoinConfig, rejoin: bool)
    requires i < k <= |cs| && SoleName(cs, i)
    ensures cs[i] in JoinFrom(cs, k, cfg, rejoin).0
    decreases |cs| - k
  {
    if k < |cs| {
      var t := TriesNow(cs[k], cfg, rejoin);
      if 0 < t {
        PassedStays(cs[k := cs[k].(jointries := t - 1)], k + 1, i, cfg, rejoin);
      } else if t == 0 && FindIn(cs, cs[k].name) != -1 {
        var f := FindIn(cs, cs[k].name);
        FoundAtOrBefore(cs, k);
        SoleFound(cs, i);
        SoleWithout(cs, f, i);
        PassedStays(Without(cs, f), k, if f < i then i - 1 else i, cfg, rejoin);
      } else {
        PassedStays(cs, k + 1, i, cfg, rejoin);
      }
    }
  }

  /** A channel with tries left is asked for and loses one; one without is
      removed; one not to be joined is left alone. */
  predicate Fate(c: Chan, rest: seq<Chan>, asked: seq<Chan>, cfg: JoinConfig, rejoin: bool) {
    var t := TriesNow(c, cfg, rejoin);
    if 0 < t then c in asked && c.(jointries := t - 1) in rest
    else if t == 0 then forall d :: d in rest ==> d.id != c.id
    else c in rest
  }

  /** Removed at its turn, it does not come back. */
  lemma RemovedAtTurn(cs: seq<Chan>, i: nat, cfg: JoinConfig, rejoin: bool)
    requires i < |cs| && Sum(Copies(cs[i].id), cs) == 1
    ensures forall d :: d in JoinFrom(Without(cs, i), i, cfg, rejoin).0 ==> d.id != cs[i].id
  {
    var ds := Without(cs, i);
    SumWithout(Copies(cs[i].id), cs, i);
    StemsJoinFrom(ds, i, cfg, rejoin);
    forall d | d in JoinFrom(ds, i, cfg, rejoin).0
      ensures d.id != cs[i].id
    {
      var d0 :| d0 in ds && Kin(d0, d);
      CountMember(d0, ds);
    }
  }

  lemma FateAtTurn(cs: seq<Chan>, i: nat, cfg: JoinConfig, rejoin: bool)
    requires i < |cs| && SoleName(cs, i) && Sum(Copies(cs[i].id), cs) == 1
    ensures Fate(cs[i], JoinFrom(cs, i, cfg, rejoin).0, JoinFrom(cs, i, cfg, rejoin).1, cfg, rejoin)
  {
    var c, t := cs[i], TriesNow(cs[i], cfg, rejoin);
    if 0 < t {
      var ds := cs[i := c.(jointries := t - 1)];
      assert ds[i] in JoinFrom(ds, i + 1, cfg, rejoin).0 by {
        PassedStays(ds, i + 1, i, cfg, rejoin);
      }
    } else if t == 0 {
      assert FindIn(cs, c.name) == i by { SoleFound(cs, i); }
      RemovedAtTurn(cs, i, cfg, rejoin);
    } else {
      PassedStays(cs, i + 1, i, cfg, rejoin);
    }
  }

  lemma {:induction false} FateInWalk(cs: seq<Chan>, k: nat, i: nat, cfg: JoinConfig, rejoin: bool)
    requires k <= i < |cs| && SoleName(cs, i) && Sum(Copies(cs[i].id), cs) == 1
    ensures Fate(cs[i], JoinFrom(cs, k, cfg, rejoin).0, JoinFrom(cs, k, cfg, rejoin).1, cfg, rejoin)
    decreases |cs| - k
  {
    if k == i {
      FateAtTurn(cs, i, cfg, rejoin);
    } else {
      var t := TriesNow(cs[k], cfg, rejoin);
      if 0 < t {
        SumUpdate(Copies(cs[i].id), cs, k, cs[k].(jointries := t - 1));
        FateInWalk(cs[k := cs[k].(jointries := t - 1)], k + 1, i, cfg, rejoin);
      } else if t == 0 && FindIn(cs, cs[k].name) != -1 {
        var f := FindIn(cs, cs[k].name);
        FoundAtOrBefore(cs, k);
        SoleFound(cs, i);
        SoleWithout(cs, f, i);
        OtherIdentity(cs, f, i);
        FateInWalk(Without(cs, f), k, i - 1, cfg, rejoin);
      } else {
        FateInWalk(cs, k + 1, i, cfg, rejoin);
      }
    }
  }

  lemma OtherIdentity(cs: seq<Chan>, f: nat, i: nat)
    requires f < i < |cs| && Sum(Copies(cs[i].id), cs) == 1
    ensures Sum(Copies(cs[i].id), Without(cs, f)) == 1
  {
    SumWithout(Copies(cs[i].id), cs, f);
    assert Without(cs, f)[i - 1] == cs[i];
    CountMember(cs[i], Without(cs, f));
  }

  /** In every reachable state an ordinary passive channel is found by its name alone. */
  lemma OrdinaryIsSole(s: Lists, i: nat)
    requires Inv(s) && i < |s.passive| && IsOrdinary(s.passive[i].name)
    ensures SoleName(s.passive, i) && Sum(Copies(s.passive[i].id), s.passive) == 1
  {
    var c := s.passive[i];
    OthersDiffer(s, s.passive, s.active, i);
    ListedOnce(s, i);
    forall j | 0 <= j < |s.passive| && j != i
      ensures !SameName(s.passive[j].name, c.name)
    {
      assert s.passive[j] == Without(s.passive, i)[if j < i then j else j - 1];
      assert s.passive[j] in Wanted(s) && c in Wanted(s);
    }
  }

  /** So each retry decides its fate: in particular, the call after its tries
      have reached 0 removes it. */
  lemma RetryDecides(s: Lists, i: nat, cfg: JoinConfig, rejoin: bool)
    requires Inv(s) && i < |s.passive| && IsOrdinary(s.passive[i].name)
    ensures Fate(s.passive[i], Retried(s, cfg, rejoin).passive, JoinLine(s, cfg, rejoin), cfg, rejoin)
  {
    OrdinaryIsSole(s, i);
    FateInWalk(s.passive, 0, i, cfg, rejoin);
  }

  // ------------------------------------------------------------------
  // The JOIN line.

  /** Each item after a comma, as the code strings them together. */
  function WithCommas(xs: seq<CString>): CString {
    if xs == [] then [] else WithCommas(xs[..|xs| - 1]) + [','] + xs[|xs| - 1]
  }

  /** The items of a comma-separated list. */
  function Items(s: string, item: string): seq<string>
    decreases |s|
  {
    if s == [] then [item]
    else if s[0] == ',' then [item] + Items(s[1..], [])
    else Items(s[1..], item + [s[0]])
  }

  lemma {:induction false} ItemsOfOne(item: string, x: string)
    requires ',' !in x
    ensures Items(x, item) == [item + x]
    decreases |x|
  {
    if x == [] {
      assert item + x == item;
    } else {
      ItemsOfOne(item + [x[0]], x[1..]);
      assert item + [x[0]] + x[1..] == item + x;
    }
  }

  lemma {:induction false} ItemsAppend(s: string, x: string, item: string)
    requires ',' !in x
    ensures Items(s + [','] + x, item) == Items(s, item) + [x]
    decreases |s|
  {
    var whole := s + [','] + x;
    if s == [] {
      assert whole[1..] == x;
      ItemsOfOne([], x);
      assert [] + x == x;
    } else {
      assert whole[1..] == s[1..] + [','] + x;
      if s[0] == ',' {
        ItemsAppend(s[1..], x, []);
      } else {
        ItemsAppend(s[1..], x, item + [s[0]]);
      }
    }
  }

  lemma {:induction false} ItemsHaveNoComma(s: string, item: string)
    requires ',' !in item
    ensures forall x :: x in Items(s, item) ==> ',' !in x
    decreases |s|
  {
    if s != [] {
      ItemsHaveNoComma(s[1..], if s[0] == ',' then [] else item + [s[0]]);
    }
  }

  /** A list strung together, its first comma skipped, is taken apart again if
      and only if no item holds a comma. */
  lemma ItemsReadBackIff(xs: seq<CString>)
    requires xs != []
    ensures Items(WithCommas(xs)[1..], []) == xs <==> forall x :: x in xs ==> ',' !in x
  {
    ItemsHaveNoComma(WithCommas(xs)[1..], []);
    if forall x :: x in xs ==> ',' !in x {
      ItemsReadBack(xs);
    }
  }

  lemma {:induction false} ItemsReadBack(xs: seq<CString>)
    requires xs != [] && forall x :: x in xs ==> ',' !in x
    ensures Items(WithCommas(xs)[1..], []) == xs
  {
    var n := |xs| - 1;
    assert xs[n] in xs;
    if n == 0 {
      assert xs[..0] == [] && WithCommas(xs) == [','] + xs[0] && WithCommas(xs)[1..] == xs[0];
      ItemsOfOne([], xs[0]);
      assert [] + xs[0] == xs[0];
    } else {
      ItemsReadBack(xs[..n]);
      WithCommasNonempty(xs[..n]);
      ItemsAppend(WithCommas(xs[..n])[1..], xs[n], []);
      assert WithCommas(xs)[1..] == WithCommas(xs[..n])[1..] + [','] + xs[n];
      assert xs[..n] + [xs[n]] == xs;
    }
  }

  lemma WithCommasNonempty(xs: seq<CString>)
    requires xs != []
    ensures WithCommas(xs) != []
  {
  }

  function NamesOf(cs: seq<Chan>): seq<CString> {
    seq(|cs|, i requires 0 <= i < |cs| => cs[i].name)
  }

  function KeysOf(cs: seq<Chan>): seq<CString> {
    seq(|cs|, i requires 0 <= i < |cs| => cs[i].key)
  }

  lemma {:induction false} WithCommasFront(x: CString, xs: seq<CString>)
    ensures WithCommas([x] + xs) == [','] + x + WithCommas(xs)
    decreases |xs|
  {
    if xs == [] {
      assert [x][..0] == [];
    } else {
      var n := |xs| - 1;
      WithCommasFront(x, xs[..n]);
      assert ([x] + xs)[..n + 1] == [x] + xs[..n];
    }
  }

  /** What is taken apart is what was strung together. */
  lemma {:induction false} ItemsStrungTogether(s: CString, item: CString, xs: seq<CString>)
    requires Items(s, item) == xs
    ensures WithCommas(xs) == [','] + item + s
    decreases |s|
  {
    if s == [] {
      WithCommasFront(item, []);
      assert [item] + [] == xs && WithCommas([]) == [];
    } else if s[0] == ',' {
      ItemsStrungTogether(s[1..], [], xs[1..]);
      WithCommasFront(item, xs[1..]);
      assert xs == [item] + xs[1..];
      assert [','] + item + ([','] + [] + s[1..]) == [','] + item + s;
    } else {
      ItemsStrungTogether(s[1..], item + [s[0]], xs);
      assert [','] + (item + [s[0]]) + s[1..] == [','] + item + s;
    }
  }

  /** A character other than the comma is in the list if it is in an item. */
  lemma {:induction false} WithCommasHolds(xs: seq<CString>, c: char)
    requires c != ','
    ensures c in WithCommas(xs) <==> exists x :: x in xs && c in x
  {
    if xs != [] {
      var n := |xs| - 1;
      WithCommasHolds(xs[..n], c);
      assert xs == xs[..n] + [xs[n]];
    }
  }

  predicate IsFree(x: string, c: char) {
    c !in x
  }

  predicate AllFree(xs: seq<CString>, c: char) {
    forall x :: x in xs ==> IsFree(x, c)
  }

  /** The RFC has no empty name and no empty key. */
  predicate NoneEmpty(xs: seq<string>) {
    forall x :: x in xs ==> x != []
  }

  /** Items that a list in the middle of a line can hold. */
  predicate Sayable(xs: seq<CString>)
    requires xs != []
  {
    && NoneEmpty(xs) && !(xs[0] != [] && xs[0][0] == ':')
    && AllFree(xs, ',') && AllFree(xs, ' ') && AllFree(xs, '\r') && AllFree(xs, '\n')
  }

  lemma SayableIff(xs: seq<CString>)
    requires xs != []
    ensures Sayable(xs) <==>
            var list := WithCommas(xs)[1..]; IsMiddle(list) && OnOneLine(list) && Items(list, []) == xs && NoneEmpty(xs)
  {
    ItemsReadBackIff(xs);
    FreeIffListFree(xs, ' ');
    FreeIffListFree(xs, '\r');
    FreeIffListFree(xs, '\n');
    assert AllFree(xs, ',') <==> forall x :: x in xs ==> ',' !in x;
    ListBegins(xs);
  }

  lemma ListBegins(xs: seq<CString>)
    requires xs != []
    ensures NoneEmpty(xs) ==> xs[0] != []
    ensures xs[0] != [] ==> var list := WithCommas(xs)[1..]; list != [] && list[0] == xs[0][0]
  {
    WithCommasFront(xs[0], xs[1..]);
    assert xs == [xs[0]] + xs[1..] && xs[0] in xs;
    AfterComma(xs[0], WithCommas(xs[1..]));
  }

  lemma AfterComma(x: string, rest: string)
    ensures ([','] + x + rest)[1..] == x + rest
  {
  }

  lemma FreeIffListFree(xs: seq<CString>, c: char)
    requires xs != [] && c != ','
    ensures AllFree(xs, c) <==> c !in WithCommas(xs)[1..]
  {
    WithCommasHolds(xs, c);
    WithCommasFront(xs[0], xs[1..]);
    assert xs == [xs[0]] + xs[1..];
    assert WithCommas(xs) == [','] + WithCommas(xs)[1..];
  }

  /** The words of the line that channel_join_list writes, each list without its
      first comma. */
  function JoinWords(cs: seq<Chan>): (ws: seq<CString>)
    requires cs != []
    ensures |ws| == 3
  {
    WithCommasNonempty(NamesOf(cs));
    WithCommasNonempty(KeysOf(cs));
    ["JOIN", WithCommas(NamesOf(cs))[1..], WithCommas(KeysOf(cs))[1..]]
  }

  function JoinText(cs: seq<Chan>): CString
    requires cs != []
  {
    Spaced(JoinWords(cs))
  }

  /** The server reads of the line the names and the keys as they are, and so the
      i-th key as that of the i-th channel. */
  predicate IsReadRight(cs: seq<Chan>)
    requires cs != []
  {
    var ps := ServerReads(JoinText(cs));
    && |ps| == 3 && ps[0] == "JOIN"
    && Items(ps[1], []) == NamesOf(cs) && Items(ps[2], []) == KeysOf(cs)
    && NoneEmpty(NamesOf(cs)) && NoneEmpty(KeysOf(cs))
  }

  lemma ReadRightIsWhole(cs: seq<Chan>)
    requires cs != []
    ensures IsReadRight(cs) <==>
            && ServerReads(JoinText(cs)) == JoinWords(cs)
            && Items(JoinWords(cs)[1], []) == NamesOf(cs) && Items(JoinWords(cs)[2], []) == KeysOf(cs)
            && NoneEmpty(NamesOf(cs)) && NoneEmpty(KeysOf(cs))
  {
    var ps, ws := ServerReads(JoinText(cs)), JoinWords(cs);
    if IsReadRight(cs) {
      ItemsStrungTogether(ps[1], [], NamesOf(cs));
      ItemsStrungTogether(ps[2], [], KeysOf(cs));
      assert ps[1] == ws[1] && ps[2] == ws[2];
      assert ps == ws;
    }
  }

  lemma JoinWordsAreRead(cs: seq<Chan>)
    requires cs != []
    ensures var c, k := JoinWords(cs)[1], JoinWords(cs)[2];
            ServerReads(JoinText(cs)) == JoinWords(cs) <==>
            IsMiddle(c) && IsMiddle(k) && OnOneLine(c) && OnOneLine(k) && |JoinText(cs)| <= MAX_MESSAGE
  {
    var ws := JoinWords(cs);
    ReadBackIff(ws);
    JoinTextOnOneLine(ws[1], ws[2]);
    assert ws[1] in ws && ws[2] in ws && IsMiddle(ws[0]);
    assert forall w :: w in ws ==> w == ws[0] || w == ws[1] || w == ws[2];
  }

  /** It does if and only if no name and no key is empty or holds a comma, a blank
      or a line end, neither list begins with a colon, and the line fits a message. */
  lemma KeysBelongIff(cs: seq<Chan>)
    requires cs != []
    ensures IsReadRight(cs) <==>
            Sayable(NamesOf(cs)) && Sayable(KeysOf(cs)) && |JoinText(cs)| <= MAX_MESSAGE
  {
    ReadRightIsWhole(cs);
    JoinWordsAreRead(cs);
    SayableIff(NamesOf(cs));
    SayableIff(KeysOf(cs));
  }

  lemma JoinTextOnOneLine(c: CString, k: CString)
    ensures OnOneLine(Spaced(["JOIN", c, k])) <==> OnOneLine(c) && OnOneLine(k)
  {
    var ws: seq<CString> := ["JOIN", c, k];
    assert ws[1..] == [c, k] && ws[1..][1..] == [k];
    assert Spaced(ws[1..]) == c + [' '] + Spaced([k]) == c + [' '] + k;
    assert Spaced(ws) == ws[0] + [' '] + Spaced(ws[1..]);
  }

  const CHANNEL_A: CString := "#a"
  const CHANNEL_B: CString := "#b"
  const BLANK_KEY: CString := "k1 x"
  const KEY_2: CString := "k2"

  /** Without a comma in any: an off-line client joins two channels and gives a
      key with a blank, and the second channel is asked for without its key. */
  lemma BlankInKeyShifts(cfg: JoinConfig)
    ensures var s := Queued(Queued(EMPTY, CHANNEL_A, Some(BLANK_KEY)), CHANNEL_B, Some(KEY_2));
            var cs := JoinLine(s, cfg, true);
            && NamesOf(cs) == [CHANNEL_A, CHANNEL_B] && KeysOf(cs) == [BLANK_KEY, KEY_2]
            && AllFree(NamesOf(cs), ',') && AllFree(KeysOf(cs), ',') && !IsReadRight(cs)
            && ServerReads(JoinText(cs)) == ["JOIN", "#a,#b", "k1", "x,k2"]
  {
    BlankKeyIsAsked(cfg);
    BlankKeyHasNoComma();
    var cs := [NewChan(0, CHANNEL_A, Some(BLANK_KEY)), NewChan(1, CHANNEL_B, Some(KEY_2))];
    assert NamesOf(cs) == [CHANNEL_A, CHANNEL_B] && KeysOf(cs) == [BLANK_KEY, KEY_2];
    BlankIsRead(cs);
  }

  lemma BlankKeyHasNoComma()
    ensures AllFree([CHANNEL_A, CHANNEL_B], ',') && AllFree([BLANK_KEY, KEY_2], ',')
  {
    assert IsFree(CHANNEL_A, ',') && IsFree(CHANNEL_B, ',') && IsFree(BLANK_KEY, ',') && IsFree(KEY_2, ',');
  }

  lemma BlankKeyIsAsked(cfg: JoinConfig)
    ensures JoinLine(Queued(Queued(EMPTY, CHANNEL_A, Some(BLANK_KEY)), CHANNEL_B, Some(KEY_2)), cfg, true)
         == [NewChan(0, CHANNEL_A, Some(BLANK_KEY)), NewChan(1, CHANNEL_B, Some(KEY_2))]
  {
    var a, b := NewChan(0, CHANNEL_A, Some(BLANK_KEY)), NewChan(1, CHANNEL_B, Some(KEY_2));
    var s := Queued(EMPTY, CHANNEL_A, Some(BLANK_KEY));
    assert s.passive == [a];
    assert Fold(CHANNEL_A)[1] != Fold(CHANNEL_B)[1];
    NoMatch([a], CHANNEL_B);
    var t := Queued(s, CHANNEL_B, Some(KEY_2));
    assert t.passive == [a] + [b] == [a, b];
    AllAsked([a, b], 0, cfg, true);
    assert [a, b][0..] == [a, b];
  }

  lemma BlankIsRead(cs: seq<Chan>)
    requires cs != [] && NamesOf(cs) == [CHANNEL_A, CHANNEL_B] && KeysOf(cs) == [BLANK_KEY, KEY_2]
    ensures ServerReads(JoinText(cs)) == ["JOIN", "#a,#b", "k1", "x,k2"]
  {
    WithCommasOfTwo(CHANNEL_A, CHANNEL_B);
    WithCommasOfTwo(BLANK_KEY, KEY_2);
    assert CHANNEL_A + [','] + CHANNEL_B == "#a,#b" && BLANK_KEY + [','] + KEY_2 == "k1" + [' '] + "x,k2";
    BlankSplits("#a,#b", "k1", "x,k2");
  }

  /** A blank in the keys makes two words of them. */
  lemma BlankSplits(c: CString, k: CString, more: CString)
    requires IsMiddle(c) && IsMiddle(k) && IsMiddle(more)
    requires OnOneLine(c) && OnOneLine(k) && OnOneLine(more) && |c| + |k| + |more| + 7 <= MAX_MESSAGE
    ensures ServerReads(Spaced(["JOIN", c, k + [' '] + more])) == ["JOIN", c, k, more]
  {
    var keys: CString := k + [' '] + more;
    var ws: seq<CString>, read: seq<CString> := ["JOIN", c, keys], ["JOIN", c, k, more];
    assert ws[1..] == [c, keys] && ws[1..][1..] == [keys];
    assert read[1..] == [c, k, more] && read[1..][1..] == [k, more] && [k, more][1..] == [more];
    assert Spaced([k, more]) == keys == Spaced([keys]);
    assert Spaced(read) == Spaced(ws);
    JoinTextOnOneLine(c, keys);
    ReadBackIff(read);
  }

  lemma WithCommasOfTwo(x: CString, y: CString)
    ensures WithCommas([x, y])[1..] == x + [','] + y
  {
    WithCommasFront(x, [y]);
    WithCommasFront(y, []);
    assert [x] + [y] == [x, y] && [y] + [] == [y];
    assert WithCommas([x, y]) == [','] + (x + [','] + y);
  }

  // ------------------------------------------------------------------
  // The way back after a lost connection.

  /** The server's name for channel c, which miau has reverted to its short form:
      the same name, or a safe name with the same short form and any id. */
  predicate Answers(c: Chan, name: CString) {
    if IsSafe(c.simple) then 6 <= |name| && IsSafe(name) && SameName(Simplify(name), c.simple)
    else IsName(name) && SameName(name, c.simple)
  }

  /** No channel but c, among those wanted, would be found by that name. */
  predicate Unmistakable(s: Lists, c: Chan, name: CString) {
    forall d :: d in Wanted(s) && d.id != c.id ==> !Matches(d, name)
  }

  lemma AnswersMatches(c: Chan, name: CString)
    requires Answers(c, name)
    ensures IsName(name) && Matches(c, name)
  {
    if !IsSafe(c.simple) {
      SafeFold(name, c.simple);
    }
  }

  lemma SoleMatch(list: seq<Chan>, name: CString, i: nat)
    requires i < |list| && IsName(name) && Matches(list[i], name)
    requires forall j :: 0 <= j < |list| && j != i ==> !Matches(list[j], name)
    ensures FindIn(list, name) == i
  {
  }

  predicate FindsNone(list: seq<Chan>, name: CString) {
    forall d :: d in list ==> !Matches(d, name)
  }

  lemma NoMatch(list: seq<Chan>, name: CString)
    requires FindsNone(list, name)
    ensures FindIn(list, name) == -1
  {
  }

  /** The JOIN of a passive channel moves its record to the active list and gives
      it the server's name, as long as the name cannot mean another. */
  lemma JoinBringsBack(s: Lists, i: nat, name: CString, key: Option<CString>)
    requires Inv(s) && i < |s.passive| && Answers(s.passive[i], name) && Unmistakable(s, s.passive[i], name)
    ensures Joined(s, name, key) == s.(passive := Without(s.passive, i),
                                       active := s.active + [Activated(s.passive[i], name)])
  {
    var c := s.passive[i];
    AnswersMatches(c, name);
    OthersDiffer(s, s.passive, s.active, i);
    forall j | 0 <= j < |s.passive| && j != i
      ensures !Matches(s.passive[j], name)
    {
      assert s.passive[j] == Without(s.passive, i)[if j < i then j else j - 1];
      assert s.passive[j] in Wanted(s);
    }
    SoleMatch(s.passive, name, i);
    NoMatch(s.active, name);
  }

  /** The record is on the lists at most once. */
  predicate IsAlone(s: Lists, id: nat) {
    Total(Copies(id), s) <= 1
  }

  /** A channel that has exactly the server's name is taken instead. */
  lemma ClashTakesOther(s: Lists, i: nat, name: CString, key: Option<CString>, d: Chan)
    requires i < |s.passive| && IsAlone(s, s.passive[i].id) && IsName(name) && !Exact(s.passive[i], name)
    requires d in Wanted(s) && Exact(d, name)
    ensures forall x :: x in Joined(s, name, key).active ==> x.id != s.passive[i].id
  {
    OthersDiffer(s, s.passive, s.active, i);
    if FindIn(s.active, name) == -1 {
      NoneActive(s.active, name, d);
      ExactFound(s.passive, name, d);
      OtherTaken(s, i, FindIn(s.passive, name), name);
    }
  }

  lemma OtherTaken(s: Lists, i: nat, p: nat, name: CString)
    requires i < |s.passive| && p < |s.passive| && i != p
    requires forall x :: x in Without(s.passive, i) || x in s.active ==> x.id != s.passive[i].id
    ensures forall x :: x in FromPassive(s, p, name).active ==> x.id != s.passive[i].id
  {
    assert s.passive[p] == Without(s.passive, i)[if p < i then p else p - 1];
  }

  lemma NoneActive(list: seq<Chan>, name: CString, d: Chan)
    requires IsName(name) && FindIn(list, name) == -1 && Exact(d, name)
    ensures d !in list
  {
  }

  lemma ExactFound(list: seq<Chan>, name: CString, d: Chan)
    requires IsName(name) && d in list && Exact(d, name)
    ensures FindIn(list, name) != -1 && Exact(list[FindIn(list, name)], name)
  {
    var j :| 0 <= j < |list| && list[j] == d;
    assert FirstExact(list, name, 0) < |list|;
  }

  /** A channel in its short form, with a short name of its own, comes back under
      a name if and only if no other wanted channel has exactly that name. */
  lemma JoinBringsBackIff(s: Lists, i: nat, name: CString, key: Option<CString>)
    requires Inv(s) && i < |s.passive| && Answers(s.passive[i], name) && !Exact(s.passive[i], name)
    requires forall d :: d in Wanted(s) && d.id != s.passive[i].id ==> !Like(d, name)
    ensures (exists d :: d in Joined(s, name, key).active && d.id == s.passive[i].id)
        <==> (forall d :: d in Wanted(s) && d.id != s.passive[i].id ==> !Exact(d, name))
  {
    var c, t := s.passive[i], Joined(s, name, key);
    AnswersMatches(c, name);
    if d :| d in Wanted(s) && d.id != c.id && Exact(d, name) {
      ClashTakesOther(s, i, name, key, d);
    } else {
      JoinBringsBack(s, i, name, key);
      assert Activated(c, name) in t.active;
    }
  }

  const FOO: CString := "!AAAAAfoo"
  const LONG_FOO: CString := "!BBBBBCCCCCfoo"
  const CLASH: CString := "!CCCCCfoo"

  lemma ShortNames()
    ensures Simplify(FOO) == Simplify(CLASH) == "!foo" && Simplify(LONG_FOO) == CLASH
    ensures !SameName(FOO, LONG_FOO) && !SameName("!foo", CLASH)
  {
    assert FOO[6..] == "foo" && CLASH[6..] == "foo" && LONG_FOO[6..] == "CCCCCfoo";
    assert |Fold(FOO)| != |Fold(LONG_FOO)| && |Fold("!foo")| != |Fold(CLASH)|;
  }

  lemma JoinOnEmpty(name: CString)
    ensures Joined(EMPTY, name, None) == EMPTY.(active := [Activated(NewChan(0, name, None), name)], next := 1)
  {
  }

  /** Two safe channels with different short names, one of which is the other's
      with five characters before it: when the shorter one is recreated with
      those characters as its id, its JOIN takes the longer one's record. */
  lemma {:induction false} RecreatedIdCanClash()
    ensures var s := Disconnected(Joined(Joined(EMPTY, FOO, None), LONG_FOO, None), true);
            && |s.passive| == 2 && s.passive[0].simple == "!foo" && s.passive[1].simple == CLASH
            && Answers(s.passive[0], CLASH) && FindIn(s.passive, CLASH) == 1
  {
    ShortNames();
    JoinOnEmpty(FOO);
    var s1, d := Joined(EMPTY, FOO, None), Activated(NewChan(1, LONG_FOO, None), LONG_FOO);
    var c := s1.active[0];
    assert !Matches(c, LONG_FOO);
    NoMatch(s1.active, LONG_FOO);
    var t := Joined(s1, LONG_FOO, None);
    assert t.active == [c, d];
    assert Disconnected(t, true).passive == [Reverted(c), Reverted(d)];
    FirstOfTwo(Reverted(c), Reverted(d), CLASH);
  }

  lemma FirstOfTwo(c: Chan, d: Chan, name: CString)
    requires IsName(name) && !Exact(c, name) && Exact(d, name)
    ensures FindIn([c, d], name) == 1
  {
    assert FirstExact([c, d], name, 1) == 1;
  }

  /** An order in which n answers may come: each number says which of those
      still missing is next. */
  predicate IsOrder(order: seq<nat>, n: nat) {
    |order| == n && (n != 0 ==> order[0] < n && IsOrder(order[1..], n - 1))
  }

  /** The server rejoins us under all of the names, in the given order. */
  function Rejoined(s: Lists, names: seq<CString>, order: seq<nat>): Lists
    requires IsOrder(order, |names|)
    decreases |names|
  {
    if names == [] then s
    else Rejoined(Joined(s, names[order[0]], None), Without(names, order[0]), order[1..])
  }

  /** The channels under their new names, as they arrive. */
  function Renewed(cs: seq<Chan>, names: seq<CString>, order: seq<nat>): (r: seq<Chan>)
    requires |cs| == |names| && IsOrder(order, |names|)
    ensures |r| == |cs|
    decreases |cs|
  {
    if cs == [] then []
    else [Activated(cs[order[0]], names[order[0]])] + Renewed(Without(cs, order[0]), Without(names, order[0]), order[1..])
  }

  lemma {:induction false} AllRenewed(cs: seq<Chan>, names: seq<CString>, order: seq<nat>)
    requires |cs| == |names| && IsOrder(order, |names|)
    ensures forall i :: 0 <= i < |cs| ==> Activated(cs[i], names[i]) in Renewed(cs, names, order)
    decreases |cs|
  {
    if cs != [] {
      var k := order[0];
      var ds, ns := Without(cs, k), Without(names, k);
      AllRenewed(ds, ns, order[1..]);
      forall i | 0 <= i < |cs| && i != k
        ensures Activated(cs[i], names[i]) in Renewed(ds, ns, order[1..])
      {
        var j := if i < k then i else i - 1;
        assert ds[j] == cs[i] && ns[j] == names[i];
      }
    }
  }

  /** The name finds neither the channel nor what it will be. */
  predicate PassesBy(c: Chan, newName: CString, name: CString) {
    !Matches(c, name) && !Matches(Activated(c, newName), name)
  }

  predicate AllAnswer(cs: seq<Chan>, names: seq<CString>) {
    |cs| == |names| && forall i :: 0 <= i < |cs| ==> Answers(cs[i], names[i])
  }

  predicate NoneFound(list: seq<Chan>, names: seq<CString>) {
    forall i :: 0 <= i < |names| ==> FindsNone(list, names[i])
  }

  predicate AllApart(cs: seq<Chan>, names: seq<CString>)
    requires |cs| == |names|
  {
    forall i, j :: 0 <= i < |cs| && 0 <= j < |cs| && i != j ==> PassesBy(cs[j], names[j], names[i])
  }

  /** Each name answers its channel, and finds no other: not one still passive,
      not one already back under its new name. */
  predicate CanRestore(older: seq<Chan>, cs: seq<Chan>, names: seq<CString>, back: seq<Chan>) {
    AllAnswer(cs, names) && NoneFound(older, names) && NoneFound(back, names) && AllApart(cs, names)
  }

  /** Whichever name comes first brings back its channel. */
  lemma OneRejoins(s: Lists, older: seq<Chan>, cs: seq<Chan>, names: seq<CString>, k: nat)
    requires Inv(s) && s.passive == older + cs && k < |cs| && CanRestore(older, cs, names, s.active)
    ensures Joined(s, names[k], None)
         == s.(passive := older + Without(cs, k), active := s.active + [Activated(cs[k], names[k])])
  {
    assert s.passive[|older| + k] == cs[k];
    OnlyOneMeant(s, older, cs, names, k);
    JoinBringsBack(s, |older| + k, names[k], None);
    WithoutLater(older, cs, k);
  }

  lemma OnlyOneMeant(s: Lists, older: seq<Chan>, cs: seq<Chan>, names: seq<CString>, k: nat)
    requires s.passive == older + cs && k < |cs| && CanRestore(older, cs, names, s.active)
    ensures Unmistakable(s, cs[k], names[k])
  {
    forall d | d in Wanted(s) && d.id != cs[k].id
      ensures !Matches(d, names[k])
    {
      if d !in older && d !in s.active {
        assert d in cs;
        var j :| 0 <= j < |cs| && cs[j] == d;
        assert PassesBy(cs[j], names[j], names[k]);
      } else {
        assert FindsNone(older, names[k]) && FindsNone(s.active, names[k]);
      }
    }
  }

  lemma WithoutLater(older: seq<Chan>, cs: seq<Chan>, k: nat)
    requires k < |cs|
    ensures Without(older + cs, |older| + k) == older + Without(cs, k)
  {
  }

  lemma JoinKeepsInv(s: Lists, name: CString, key: Option<CString>)
    requires Inv(s)
    ensures Inv(Joined(s, name, key))
  {
    StepKeepsInv(s, Join(name, key));
  }

  /** After one name, the others still answer and find no other. */
  lemma OneRejoinsOfAll(s: Lists, older: seq<Chan>, cs: seq<Chan>, names: seq<CString>, k: nat)
    requires Inv(s) && s.passive == older + cs && k < |cs| && CanRestore(older, cs, names, s.active)
    ensures var t := Joined(s, names[k], None);
            && t == s.(passive := older + Without(cs, k), active := s.active + [Activated(cs[k], names[k])])
            && Inv(t) && CanRestore(older, Without(cs, k), Without(names, k), t.active)
  {
    OneRejoins(s, older, cs, names, k);
    JoinKeepsInv(s, names[k], None);
    RestStillRestores(older, cs, names, s.active, k);
  }

  lemma {:induction false} AllRejoin(s: Lists, older: seq<Chan>, cs: seq<Chan>, names: seq<CString>, order: seq<nat>)
    requires Inv(s) && s.passive == older + cs && CanRestore(older, cs, names, s.active) && IsOrder(order, |names|)
    ensures Rejoined(s, names, order) == s.(passive := older, active := s.active + Renewed(cs, names, order))
    decreases |cs|
  {
    if cs == [] {
      assert older + cs == older && s.active + [] == s.active;
    } else {
      var k := order[0];
      OneRejoinsOfAll(s, older, cs, names, k);
      AllRejoin(Joined(s, names[k], None), older, Without(cs, k), Without(names, k), order[1..]);
      Regroup(s.active, [Activated(cs[k], names[k])], Renewed(Without(cs, k), Without(names, k), order[1..]));
    }
  }

  lemma RestStillRestores(older: seq<Chan>, cs: seq<Chan>, names: seq<CString>, back: seq<Chan>, k: nat)
    requires k < |cs| && CanRestore(older, cs, names, back)
    ensures CanRestore(older, Without(cs, k), Without(names, k), back + [Activated(cs[k], names[k])])
  {
    NoneFoundWithout(older, names, k);
    NotFoundWhenBack(cs, names, back, k);
    ApartWithout(cs, names, k);
  }

  lemma NoneFoundWithout(list: seq<Chan>, names: seq<CString>, k: nat)
    requires k < |names| && NoneFound(list, names)
    ensures NoneFound(list, Without(names, k))
  {
  }

  lemma NotFoundWhenBack(cs: seq<Chan>, names: seq<CString>, back: seq<Chan>, k: nat)
    requires k < |cs| == |names| && NoneFound(back, names) && AllApart(cs, names)
    ensures NoneFound(back + [Activated(cs[k], names[k])], Without(names, k))
  {
    forall i | 0 <= i < |names| - 1
      ensures FindsNone(back + [Activated(cs[k], names[k])], Without(names, k)[i])
    {
      var i1 := if i < k then i else i + 1;
      assert FindsNone(back, names[i1]) && PassesBy(cs[k], names[k], names[i1]);
    }
  }

  lemma ApartWithout(cs: seq<Chan>, names: seq<CString>, k: nat)
    requires k < |cs| == |names| && AllApart(cs, names)
    ensures AllApart(Without(cs, k), Without(names, k))
  {
    var ds, ns := Without(cs, k), Without(names, k);
    forall i, j | 0 <= i < |ds| && 0 <= j < |ds| && i != j
      ensures PassesBy(ds[j], ns[j], ns[i])
    {
      var i1, j1 := if i < k then i else i + 1, if j < k then j else j + 1;
      assert PassesBy(cs[j1], names[j1], names[i1]);
    }
  }

  lemma SimplifyFold(a: CString, b: CString)
    requires SameName(a, b)
    ensures SameName(Simplify(a), Simplify(b))
  {
    SafeFold(a, b);
    assert |a| == |Fold(a)| == |Fold(b)| == |b|;
    forall k | 0 <= k < |a|
      ensures Lower(a[k]) == Lower(b[k])
    {
      assert Fold(a)[k] == Fold(b)[k];
    }
  }

  /** The server has a name for each channel lost. */
  predicate Answered(s: Lists, names: seq<CString>) {
    AllAnswer(s.active, names)
  }

  /** Nobody else has the short name of a safe channel. */
  ghost predicate OwnShortNames(s: Lists) {
    forall i, d {:trigger SameName(d.simple, s.active[i].simple)} ::
      0 <= i < |s.active| && d in Wanted(s) && d.id != s.active[i].id && IsSafe(s.active[i].simple)
      ==> !SameName(d.simple, s.active[i].simple)
  }

  predicate IsTaken(s: Lists, names: seq<CString>, i: nat, d: Chan)
    requires i < |names| == |s.active|
  {
    d in Wanted(Disconnected(s, true)) && d.id != s.active[i].id && IsSafe(s.active[i].simple) && Exact(d, names[i])
  }

  /** Nobody else is called by the new name of a safe channel. */
  ghost predicate NoNameTaken(s: Lists, names: seq<CString>)
    requires |names| == |s.active|
  {
    forall i: nat, d :: i < |names| ==> !IsTaken(s, names, i, d)
  }

  /** What a caller can check of the names in which the server answers. */
  ghost predicate Recognisable(s: Lists, names: seq<CString>) {
    Answered(s, names) && OwnShortNames(s) && NoNameTaken(s, names)
  }

  /** A name for one channel does not find another, reverted or as it was. */
  lemma NameFindsNoOther(s: Lists, names: seq<CString>, i: nat, d: Chan, d1: Chan)
    requires Inv(s) && Recognisable(s, names) && i < |names|
    requires d in Wanted(s) && d.id != s.active[i].id
    requires d1 in Wanted(Disconnected(s, true)) && (d1 == d || d1 == Reverted(d))
    ensures !Matches(d1, names[i])
  {
    var c := s.active[i];
    assert c in s.active && c in Wanted(s);
    if IsSafe(c.simple) {
      assert !IsTaken(s, names, i, d1);
      assert !SameName(d.simple, c.simple);
    } else if Matches(d1, names[i]) {
      SafeSimplify(d.name);
      assert Consistent(d1);
      SafeMatch(d1, names[i]);
      SafeFold(names[i], c.simple);
      OrdinaryFold(names[i], c.name);
    }
  }

  /** Nor one that is back under its own new name. */
  lemma NamesAreApart(s: Lists, names: seq<CString>, i: nat, j: nat)
    requires Inv(s) && Recognisable(s, names) && i < |names| && j < |names|
    requires s.active[i].id != s.active[j].id
    ensures !Matches(Activated(Reverted(s.active[j]), names[j]), names[i])
  {
    var c, d := s.active[i], s.active[j];
    assert c in s.active && d in s.active && c in Wanted(s) && d in Wanted(s);
    var r := Activated(Reverted(d), names[j]);
    assert r.name == names[j] && r.simple == d.simple;
    if IsSafe(c.simple) {
      assert !SameName(d.simple, c.simple);
      if Exact(r, names[i]) {
        SafeFold(names[j], names[i]);
        SimplifyFold(names[j], names[i]);
        if !IsSafe(d.simple) { SafeFold(names[j], d.simple); }
      }
    } else if Matches(r, names[i]) {
      SafeFold(names[i], c.simple);
      if IsSafe(d.simple) {
        assert IsSafe(names[j]) && IsSafe(r.name) && Consistent(r);
        SafeMatch(r, names[i]);
      } else {
        SafeFold(names[j], d.simple);
        assert Consistent(r);
        SafeMatch(r, names[i]);
        OrdinaryFold(names[i], c.name);
        assert SameName(c.name, d.name);
      }
    }
  }

  lemma IdsAreDistinct(s: Lists, i: nat, j: nat)
    requires Inv(s) && i < j < |s.active|
    ensures s.active[i].id != s.active[j].id
  {
    OthersDiffer(s, s.active, s.passive, i);
    assert s.active[j] == Without(s.active, i)[j - 1];
  }

  lemma ActiveAndPassiveDiffer(s: Lists, i: nat, d: Chan)
    requires Inv(s) && i < |s.active| && d in s.passive
    ensures d.id != s.active[i].id
  {
    OthersDiffer(s, s.active, s.passive, i);
  }

  lemma OlderAreNotFound(s: Lists, names: seq<CString>, i: nat)
    requires Inv(s) && Recognisable(s, names) && i < |s.active|
    ensures FindsNone(s.passive, names[i])
  {
    forall d | d in s.passive
      ensures !Matches(d, names[i])
    {
      ActiveAndPassiveDiffer(s, i, d);
      NameFindsNoOther(s, names, i, d, d);
    }
  }

  lemma OthersAreNotFound(s: Lists, names: seq<CString>, i: nat, j: nat)
    requires Inv(s) && Recognisable(s, names) && i < |s.active| && j < |s.active| && i != j
    ensures PassesBy(Reverted(s.active[j]), names[j], names[i])
  {
    IdsAreDistinct(s, if i < j then i else j, if i < j then j else i);
    assert s.active[j] in s.active && RevertedAll(s.active)[j] in RevertedAll(s.active);
    NameFindsNoOther(s, names, i, s.active[j], Reverted(s.active[j]));
    NamesAreApart(s, names, i, j);
  }

  lemma RecognisableRestores(s: Lists, names: seq<CString>)
    requires Inv(s) && Recognisable(s, names)
    ensures CanRestore(s.passive, RevertedAll(s.active), names, [])
  {
    forall i | 0 <= i < |s.active|
      ensures FindsNone(s.passive, names[i])
    {
      OlderAreNotFound(s, names, i);
    }
    forall i, j | 0 <= i < |s.active| && 0 <= j < |s.active| && i != j
      ensures PassesBy(Reverted(s.active[j]), names[j], names[i])
    {
      OthersAreNotFound(s, names, i, j);
    }
  }

  // Between the drop and the JOINs miau is welcomed and asks for its channels.

  /** The tries a channel has left after its first request. */
  function TriesLeft(name: CString, cfg: JoinConfig): nat {
    if cfg.jointries == 0 || IsSafe(name) then 0 else cfg.jointries - 1
  }

  function AwaitAll(cs: seq<Chan>, cfg: JoinConfig): seq<Chan> {
    seq(|cs|, i requires 0 <= i < |cs| => cs[i].(jointries := TriesLeft(cs[i].name, cfg)))
  }

  /** Whether a retry sets the tries that are unset. */
  predicate Asks(cfg: JoinConfig, force: bool) {
    force || (cfg.rejoin && !cfg.leave)
  }

  /** A list on which every channel has tries is asked for whole and loses none. */
  lemma {:induction false} AllAsked(cs: seq<Chan>, k: nat, cfg: JoinConfig, force: bool)
    requires k <= |cs| && forall i :: k <= i < |cs| ==> 0 < TriesNow(cs[i], cfg, force)
    ensures var (rest, asked) := JoinFrom(cs, k, cfg, force);
            && asked == cs[k..] && |rest| == |cs|
            && forall i :: 0 <= i < |cs| ==>
                 rest[i] == if i < k then cs[i] else cs[i].(jointries := TriesNow(cs[i], cfg, force) - 1)
    decreases |cs| - k
  {
    if k < |cs| {
      var ds := cs[k := cs[k].(jointries := TriesNow(cs[k], cfg, force) - 1)];
      AllAsked(ds, k + 1, cfg, force);
      assert [cs[k]] + ds[k + 1..] == cs[k..];
    }
  }

  /** After a welcome, a retry asks for every passive channel in order and keeps them all. */
  lemma WelcomedAreAsked(s: Lists, cfg: JoinConfig, force: bool)
    requires Asks(cfg, force)
    ensures JoinLine(Welcomed(s), cfg, force) == UnsetAll(s.passive)
    ensures Retried(Welcomed(s), cfg, force) == s.(passive := AwaitAll(s.passive, cfg))
  {
    AllAsked(UnsetAll(s.passive), 0, cfg, force);
    assert UnsetAll(s.passive)[0..] == UnsetAll(s.passive);
    assert Retried(Welcomed(s), cfg, force).passive == AwaitAll(s.passive, cfg);
  }

  /** Asking changes nothing that a name is compared with. */
  lemma AskedCanRestore(older: seq<Chan>, cs: seq<Chan>, names: seq<CString>, cfg: JoinConfig)
    requires CanRestore(older, cs, names, [])
    ensures CanRestore(AwaitAll(older, cfg), AwaitAll(cs, cfg), names, [])
  {
    var older1, cs1 := AwaitAll(older, cfg), AwaitAll(cs, cfg);
    forall i | 0 <= i < |cs|
      ensures Answers(cs1[i], names[i]) && FindsNone(older1, names[i])
    {
      AskedFindsNone(older, names[i], cfg);
    }
    forall i, j | 0 <= i < |cs| && 0 <= j < |cs| && i != j
      ensures PassesBy(cs1[j], names[j], names[i])
    {
      assert PassesBy(cs[j], names[j], names[i]);
    }
  }

  lemma AskedFindsNone(list: seq<Chan>, name: CString, cfg: JoinConfig)
    requires FindsNone(list, name)
    ensures FindsNone(AwaitAll(list, cfg), name)
  {
    forall d | d in AwaitAll(list, cfg)
      ensures !Matches(d, name)
    {
      var i :| 0 <= i < |list| && AwaitAll(list, cfg)[i] == d;
      assert list[i] in list;
    }
  }

  /** The same channel under its new name, asked for once; whether we are
      operator is unknown. */
  function Back(c: Chan, name: CString, cfg: JoinConfig): Chan {
    c.(name := name, nameSet := true, oper := -1, jointries := TriesLeft(c.name, cfg))
  }

  /** Dropped, welcomed, and having asked for its channels. */
  function Waiting(s: Lists, cfg: JoinConfig, force: bool): Lists {
    Retried(Welcomed(Disconnected(s, true)), cfg, force)
  }

  /** In every reachable state: when the connection is lost and miau, welcomed
      again, asks for its channels, it asks for all that were passive or active,
      and forgets none; and when the server then rejoins us to those that were
      active, in any order, under names that can be recognised, the same records
      are active again with their keys and the new names, and what was passive
      before is passive again. */
  lemma {:induction false} SessionIsRestored(s: Lists, names: seq<CString>, order: seq<nat>, cfg: JoinConfig, force: bool)
    requires Inv(s) && Recognisable(s, names) && IsOrder(order, |names|) && Asks(cfg, force)
    ensures JoinLine(Welcomed(Disconnected(s, true)), cfg, force) == UnsetAll(s.passive + RevertedAll(s.active))
    ensures Waiting(s, cfg, force).passive == AwaitAll(s.passive + RevertedAll(s.active), cfg)
    ensures var r := Rejoined(Waiting(s, cfg, force), names, order);
            && r.passive == AwaitAll(s.passive, cfg) && r.former == s.former && |r.active| == |s.active|
            && forall i :: 0 <= i < |s.active| ==> Back(s.active[i], names[i], cfg) in r.active
  {
    var older, cs := AwaitAll(s.passive, cfg), AwaitAll(RevertedAll(s.active), cfg);
    WelcomedAreAsked(Disconnected(s, true), cfg, force);
    WaitingIs(s, cfg, force);
    WaitingIsInv(s, cfg, force);
    RecognisableRestores(s, names);
    AskedCanRestore(s.passive, RevertedAll(s.active), names, cfg);
    AllAreBack(Waiting(s, cfg, force), older, cs, names, order);
    BackAmongRenewed(s, names, order, cfg);
  }

  lemma WaitingIsInv(s: Lists, cfg: JoinConfig, force: bool)
    requires Inv(s)
    ensures Inv(Waiting(s, cfg, force))
  {
    DropKeepsInv(s, true);
    WelcomeKeepsInv(Disconnected(s, true));
    RetryKeepsInv(Welcomed(Disconnected(s, true)), cfg, force);
  }

  lemma DropKeepsInv(s: Lists, rejoin: bool)
    requires Inv(s)
    ensures Inv(Disconnected(s, rejoin))
  {
    StepKeepsInv(s, Drop(rejoin));
  }

  lemma WelcomeKeepsInv(s: Lists)
    requires Inv(s)
    ensures Inv(Welcomed(s))
  {
    StepKeepsInv(s, Welcome);
  }

  lemma RetryKeepsInv(s: Lists, cfg: JoinConfig, force: bool)
    requires Inv(s)
    ensures Inv(Retried(s, cfg, force))
  {
    StepKeepsInv(s, Retry(cfg, force));
  }

  lemma WaitingIs(s: Lists, cfg: JoinConfig, force: bool)
    requires Asks(cfg, force)
    ensures Waiting(s, cfg, force)
         == s.(active := [], passive := AwaitAll(s.passive, cfg) + AwaitAll(RevertedAll(s.active), cfg))
  {
    WelcomedAreAsked(Disconnected(s, true), cfg, force);
    AwaitAppend(s.passive, RevertedAll(s.active), cfg);
  }

  lemma AwaitAppend(a: seq<Chan>, b: seq<Chan>, cfg: JoinConfig)
    ensures AwaitAll(a + b, cfg) == AwaitAll(a, cfg) + AwaitAll(b, cfg)
  {
  }

  lemma AllAreBack(s: Lists, older: seq<Chan>, cs: seq<Chan>, names: seq<CString>, order: seq<nat>)
    requires s.active == [] && s.passive == older + cs && Inv(s)
    requires CanRestore(older, cs, names, []) && IsOrder(order, |names|)
    ensures Rejoined(s, names, order) == s.(passive := older, active := Renewed(cs, names, order))
  {
    AllRejoin(s, older, cs, names, order);
    assert [] + Renewed(cs, names, order) == Renewed(cs, names, order);
  }

  lemma BackAmongRenewed(s: Lists, names: seq<CString>, order: seq<nat>, cfg: JoinConfig)
    requires |names| == |s.active| && IsOrder(order, |names|) && forall c :: c in s.active ==> c.simpleSet
    ensures var cs := AwaitAll(RevertedAll(s.active), cfg);
            forall i :: 0 <= i < |s.active| ==> Back(s.active[i], names[i], cfg) in Renewed(cs, names, order)
  {
    var cs := AwaitAll(RevertedAll(s.active), cfg);
    AllRenewed(cs, names, order);
    forall i | 0 <= i < |s.active|
      ensures Back(s.active[i], names[i], cfg) == Activated(cs[i], names[i])
    {
      assert s.active[i] in s.active;
      SafeSimplify(s.active[i].name);
    }
  }

  // When somebody is called by a new name, the JOIN under that name may come first.

  ghost predicate IsRestored(s: Lists, names: seq<CString>, order: seq<nat>, cfg: JoinConfig, force: bool)
    requires |names| == |s.active| && IsOrder(order, |names|)
  {
    var r := Rejoined(Waiting(s, cfg, force), names, order);
    && r.passive == AwaitAll(s.passive, cfg) && r.former == s.former && |r.active| == |s.active|
    && forall i :: 0 <= i < |s.active| ==> Back(s.active[i], names[i], cfg) in r.active
  }

  /** The channel is not active under the name, and will not keep another. */
  predicate NotBack(t: Lists, id: nat, name: CString) {
    && (forall x :: x in t.active && x.id == id ==> x.name != name)
    && (forall x :: x in t.passive && x.id == id ==> !x.nameSet)
    && (forall x :: x in t.former && x.id == id ==> !x.nameSet)
  }

  lemma JoinKeepsNotBack(t: Lists, id: nat, name: CString, other: CString)
    requires NotBack(t, id, name) && other != name
    ensures NotBack(Joined(t, other, None), id, name)
  {
    var p, o := FindIn(t.passive, other), FindIn(t.former, other);
    if FindIn(t.active, other) != -1 {
    } else if p != -1 {
      assert t.passive[p] in t.passive;
    } else if o != -1 {
      assert t.former[o] in t.former;
    }
  }

  lemma {:induction false} RejoiningKeepsNotBack(t: Lists, names: seq<CString>, order: seq<nat>, id: nat, name: CString)
    requires IsOrder(order, |names|) && NotBack(t, id, name) && name !in names
    ensures NotBack(Rejoined(t, names, order), id, name)
    decreases |names|
  {
    if names != [] {
      var k := order[0];
      JoinKeepsNotBack(t, id, name, names[k]);
      assert forall n :: n in Without(names, k) ==> n in names;
      RejoiningKeepsNotBack(Joined(t, names[k], None), Without(names, k), order[1..], id, name);
    }
  }

  /** Each answer as soon as it is the first of those still missing. */
  function InTurn(n: nat): (order: seq<nat>)
    ensures IsOrder(order, n)
  {
    if n == 0 then [] else [0] + InTurn(n - 1)
  }

  /** The order in which the answer for place i comes first. */
  function FirstOf(i: nat, n: nat): (order: seq<nat>)
    requires i < n
    ensures IsOrder(order, n) && order[0] == i
  {
    [i] + InTurn(n - 1)
  }

  lemma AwaitedNames(cs: seq<Chan>, cfg: JoinConfig, d: Chan)
    requires d in cs
    ensures exists x :: x in AwaitAll(cs, cfg) && x.name == d.name
  {
    var i :| 0 <= i < |cs| && cs[i] == d;
    assert AwaitAll(cs, cfg)[i].name == d.name;
  }

  /** The short form of a channel is not the new name of it. */
  lemma ShortIsNotNew(c: Chan, name: CString)
    requires Consistent(c) && IsSafe(c.simple) && Answers(c, name)
    ensures !SameName(Simplify(c.name), name)
  {
    assert |Fold(Simplify(name))| == |Simplify(name)| == |name| - 5 && |Fold(c.simple)| == |c.simple|;
    assert |Fold(Simplify(c.name))| == |Simplify(c.name)| && |Fold(name)| == |name|;
  }

  /** New names of channels with short names of their own are different. */
  lemma NewNamesDiffer(s: Lists, names: seq<CString>, i: nat, j: nat)
    requires Inv(s) && Answered(s, names) && OwnShortNames(s)
    requires i < |names| && j < |names| && i != j && IsSafe(s.active[i].simple)
    ensures names[i] != names[j]
  {
    IdsAreDistinct(s, if i < j then i else j, if i < j then j else i);
    var c, d := s.active[i], s.active[j];
    assert d in s.active && d in Wanted(s) && !SameName(d.simple, c.simple);
    assert Answers(c, names[i]) && Answers(d, names[j]);
    if names[i] == names[j] && !IsSafe(d.simple) {
      SafeFold(names[j], d.simple);
    }
  }

  /** Where a dropped channel waits, and under what name. */
  lemma WaitingAt(s: Lists, i: nat, cfg: JoinConfig, force: bool)
    requires i < |s.active| && Asks(cfg, force)
    ensures var w := Waiting(s, cfg, force);
            && |s.passive| + i < |w.passive|
            && var c := w.passive[|s.passive| + i];
               c.id == s.active[i].id && c.name == Simplify(s.active[i].name) && !c.nameSet
  {
    WaitingIs(s, cfg, force);
    var older, cs := AwaitAll(s.passive, cfg), AwaitAll(RevertedAll(s.active), cfg);
    assert (older + cs)[|older| + i] == cs[i];
  }

  lemma TakenInWaiting(s: Lists, names: seq<CString>, i: nat, d: Chan, cfg: JoinConfig, force: bool)
    returns (x: Chan)
    requires |names| == |s.active| && i < |names| && IsTaken(s, names, i, d) && Asks(cfg, force)
    ensures x in Wanted(Waiting(s, cfg, force)) && Exact(x, names[i])
  {
    WaitingIs(s, cfg, force);
    AwaitAppend(s.passive, RevertedAll(s.active), cfg);
    AwaitedNames(s.passive + RevertedAll(s.active), cfg, d);
    x :| x in Waiting(s, cfg, force).passive && x.name == d.name;
  }

  /** A dropped safe channel waits under another name than its new one. */
  lemma WaitsUnderOther(s: Lists, i: nat, name: CString, cfg: JoinConfig, force: bool)
    requires Inv(s) && i < |s.active| && Asks(cfg, force)
    requires IsSafe(s.active[i].simple) && Answers(s.active[i], name)
    ensures var w, k := Waiting(s, cfg, force), |s.passive| + i;
            && k < |w.passive| && w.passive[k].id == s.active[i].id
            && IsName(name) && !Exact(w.passive[k], name) && !w.passive[k].nameSet
  {
    assert s.active[i] in s.active;
    ShortIsNotNew(s.active[i], name);
    AnswersMatches(s.active[i], name);
    WaitingAt(s, i, cfg, force);
  }

  lemma WaitsAlone(s: Lists, i: nat, name: CString, cfg: JoinConfig, force: bool)
    requires Inv(s) && i < |s.active| && Asks(cfg, force)
    requires IsSafe(s.active[i].simple) && Answers(s.active[i], name)
    ensures var w, k := Waiting(s, cfg, force), |s.passive| + i;
            && k < |w.passive| && IsAlone(w, s.active[i].id) && w.passive[k].id == s.active[i].id
            && IsName(name) && !Exact(w.passive[k], name) && !w.passive[k].nameSet
  {
    WaitsUnderOther(s, i, name, cfg, force);
    AloneWaiting(s, s.active[i].id, cfg, force);
  }

  lemma AloneWaiting(s: Lists, id: nat, cfg: JoinConfig, force: bool)
    requires Inv(s)
    ensures IsAlone(Waiting(s, cfg, force), id)
  {
    WaitingIsInv(s, cfg, force);
  }

  lemma TakenFirst(w: Lists, k: nat, name: CString, x: Chan)
    requires k < |w.passive| && IsAlone(w, w.passive[k].id) && IsName(name) && !Exact(w.passive[k], name) && !w.passive[k].nameSet
    requires x in Wanted(w) && Exact(x, name)
    ensures NotBack(Joined(w, name, None), w.passive[k].id, name)
  {
    ClashTakesOther(w, k, name, None, x);
    OnlyOneListed(w, k);
    StillUnset(w, name, w.passive[k].id);
  }

  lemma InWithout(cs: seq<Chan>, k: nat, x: Chan)
    requires k < |cs| && x in cs
    ensures x == cs[k] || x in Without(cs, k)
  {
    var j :| 0 <= j < |cs| && cs[j] == x;
    if j != k {
      assert Without(cs, k)[if j < k then j else j - 1] == x;
    }
  }

  lemma OnlyOneListed(w: Lists, k: nat)
    requires k < |w.passive| && IsAlone(w, w.passive[k].id)
    ensures forall x :: x in w.passive && x.id == w.passive[k].id ==> x == w.passive[k]
    ensures forall x :: x in w.former ==> x.id != w.passive[k].id
  {
    OthersDiffer(w, w.passive, w.former, k);
    forall x | x in w.passive && x.id == w.passive[k].id
      ensures x == w.passive[k]
    {
      InWithout(w.passive, k, x);
    }
  }

  lemma StillUnset(w: Lists, name: CString, id: nat)
    requires forall x :: x in w.passive && x.id == id ==> !x.nameSet
    requires forall x :: x in w.former ==> x.id != id
    requires forall x :: x in Joined(w, name, None).active ==> x.id != id
    ensures NotBack(Joined(w, name, None), id, name)
  {
  }

  /** For channels whose short names nobody shares: in whatever order the server
      rejoins us, all channels are restored, if and only if nobody else is called
      by the new name of a safe one. */
  lemma {:induction false} SessionIsRestoredIff(s: Lists, names: seq<CString>, cfg: JoinConfig, force: bool)
    requires Inv(s) && Answered(s, names) && OwnShortNames(s) && Asks(cfg, force)
    ensures (forall order: seq<nat> :: IsOrder(order, |names|) ==> IsRestored(s, names, order, cfg, force))
        <==> NoNameTaken(s, names)
  {
    if NoNameTaken(s, names) {
      forall order: seq<nat> | IsOrder(order, |names|)
        ensures IsRestored(s, names, order, cfg, force)
      {
        SessionIsRestored(s, names, order, cfg, force);
      }
    } else {
      var i: nat, d :| i < |names| && IsTaken(s, names, i, d);
      var order := FirstOf(i, |names|);
      TakenIsNotRestored(s, names, i, d, cfg, force);
      assert IsOrder(order, |names|) && !IsRestored(s, names, order, cfg, force);
    }
  }

  lemma TakenIsNotRestored(s: Lists, names: seq<CString>, i: nat, d: Chan, cfg: JoinConfig, force: bool)
    requires Inv(s) && Answered(s, names) && OwnShortNames(s) && Asks(cfg, force)
    requires i < |names| && IsTaken(s, names, i, d)
    ensures !IsRestored(s, names, FirstOf(i, |names|), cfg, force)
  {
    WaitsAlone(s, i, names[i], cfg, force);
    var x := TakenInWaiting(s, names, i, d, cfg, force);
    OthersAreNamedOtherwise(s, names, i);
    LostAfterFirst(Waiting(s, cfg, force), |s.passive| + i, names, i, x, s.active[i], cfg);
  }

  /** The channel whose name is taken does not come back under it. */
  lemma LostAfterFirst(w: Lists, k: nat, names: seq<CString>, i: nat, x: Chan, c: Chan, cfg: JoinConfig)
    requires i < |names| && IsName(names[i]) && names[i] !in Without(names, i)
    requires k < |w.passive| && w.passive[k].id == c.id && IsAlone(w, c.id)
    requires !Exact(w.passive[k], names[i]) && !w.passive[k].nameSet && x in Wanted(w) && Exact(x, names[i])
    ensures Back(c, names[i], cfg) !in Rejoined(w, names, FirstOf(i, |names|)).active
  {
    var order, rest := FirstOf(i, |names|), Without(names, i);
    var t := Joined(w, names[i], None);
    TakenFirst(w, k, names[i], x);
    RejoiningKeepsNotBack(t, rest, order[1..], c.id, names[i]);
    FirstThenRest(w, names, i);
    NotBackIsNotBack(Rejoined(t, rest, order[1..]), c, names[i], cfg);
  }

  lemma OthersAreNamedOtherwise(s: Lists, names: seq<CString>, i: nat)
    requires Inv(s) && Answered(s, names) && OwnShortNames(s)
    requires i < |names| && IsSafe(s.active[i].simple)
    ensures names[i] !in Without(names, i)
  {
    var rest := Without(names, i);
    forall j | 0 <= j < |rest|
      ensures rest[j] != names[i]
    {
      NewNamesDiffer(s, names, i, if j < i then j else j + 1);
    }
  }

  lemma FirstThenRest(w: Lists, names: seq<CString>, i: nat)
    requires i < |names|
    ensures Rejoined(w, names, FirstOf(i, |names|))
         == Rejoined(Joined(w, names[i], None), Without(names, i), FirstOf(i, |names|)[1..])
  {
  }

  lemma NotBackIsNotBack(r: Lists, c: Chan, name: CString, cfg: JoinConfig)
    requires NotBack(r, c.id, name)
    ensures Back(c, name, cfg) !in r.active
  {
  }

  /** With ordinary channels only, names that differ at most in case are enough. */
  lemma OrdinaryIsRecognisable(s: Lists, names: seq<CString>)
    requires Inv(s) && |names| == |s.active|
    requires forall i :: 0 <= i < |names| ==> IsOrdinary(s.active[i].name) && SameName(names[i], s.active[i].name)
    ensures Recognisable(s, names)
  {
    forall i | 0 <= i < |names|
      ensures Answers(s.active[i], names[i]) && !IsSafe(s.active[i].simple)
    {
      assert s.active[i] in s.active;
      OrdinaryFold(s.active[i].name, names[i]);
    }
  }

  // ------------------------------------------------------------------
  // The way back after the last client went: without a welcome, the tries that
  // a channel used up are not given back.

  lemma {:induction false} NotAskedWithoutTries(cs: seq<Chan>, i: nat, cfg: JoinConfig, force: bool)
    requires i < |cs| && Sum(Copies(cs[i].id), cs) == 1 && cs[i].jointries == 0
    ensures forall c :: c in JoinFrom(cs, 0, cfg, force).1 ==> c.id != cs[i].id
  {
    var id, asked := cs[i].id, JoinFrom(cs, 0, cfg, force).1;
    assert cs[i] in cs;
    OwnTries(cs[i], cs, cfg.jointries);
    SumsAfterJoinFrom(id, cs, 0, cfg, force);
    forall c | c in asked
      ensures c.id != id
    {
      CountMember(c, asked);
    }
  }

  lemma StillPassive(rest: seq<Chan>, c: Chan, t: int)
    requires c.(jointries := t) in rest
    ensures exists d :: d in rest && d.id == c.id
  {
    assert c.(jointries := t).id == c.id;
  }

  /** Where a channel is after the last client went. */
  lemma DetachedIsListedOnce(s: Lists, i: nat)
    requires Inv(s) && i < |s.active|
    ensures var d := Detached(s, true, true);
            && d.passive[|s.passive| + i] == s.active[i].(oper := -1)
            && Sum(Copies(s.active[i].id), d.passive) == 1
  {
    var d := Detached(s, true, true);
    DetachKeepsInv(s, true, true);
    ListedOnce(d, |s.passive| + i);
  }

  lemma ListedOnce(s: Lists, k: nat)
    requires Inv(s) && k < |s.passive|
    ensures Sum(Copies(s.passive[k].id), s.passive) == 1
  {
    CountMember(s.passive[k], s.passive);
    assert Total(Copies(s.passive[k].id), s) <= 1;
  }

  lemma DetachKeepsInv(s: Lists, leave: bool, rejoin: bool)
    requires Inv(s)
    ensures Inv(Detached(s, leave, rejoin))
  {
    StepKeepsInv(s, Detach(leave, rejoin));
  }

  /** In every reachable state: when the last client goes and channels are left
      to be rejoined, a channel with a name of its own is asked for by the next
      retry, and still listed after it, if and only if it has tries left or unset. */
  lemma {:induction false} DetachedComesBackIff(s: Lists, i: nat, cfg: JoinConfig, force: bool)
    requires Inv(s) && i < |s.active| && Asks(cfg, force)
    requires SoleName(Detached(s, true, true).passive, |s.passive| + i)
    ensures var d := Detached(s, true, true);
            && ((exists c :: c in JoinLine(d, cfg, force) && c.id == s.active[i].id) <==> s.active[i].jointries != 0)
            && ((exists c :: c in Retried(d, cfg, force).passive && c.id == s.active[i].id) <==> s.active[i].jointries != 0)
  {
    DetachedIsListedOnce(s, i);
    assert s.active[i] in s.active && Clean(s.active[i]);
    AskedIffTries(Detached(s, true, true).passive, |s.passive| + i, cfg, force);
  }

  lemma AskedIffTries(cs: seq<Chan>, k: nat, cfg: JoinConfig, force: bool)
    requires k < |cs| && SoleName(cs, k) && Sum(Copies(cs[k].id), cs) == 1
    requires Asks(cfg, force) && JOINTRIES_UNSET <= cs[k].jointries
    ensures (exists c :: c in JoinFrom(cs, 0, cfg, force).1 && c.id == cs[k].id) <==> cs[k].jointries != 0
    ensures (exists c :: c in JoinFrom(cs, 0, cfg, force).0 && c.id == cs[k].id) <==> cs[k].jointries != 0
  {
    FateInWalk(cs, 0, k, cfg, force);
    if cs[k].jointries == 0 {
      NotAskedWithoutTries(cs, k, cfg, force);
    } else {
      StillPassive(JoinFrom(cs, 0, cfg, force).0, cs[k], TriesNow(cs[k], cfg, force) - 1);
    }
  }

  const SHORT_FOO: CString := "!foo"

  /** A safe channel queued, asked for once, and joined. */
  function JoinedOnce(cfg: JoinConfig): Lists {
    Joined(Retried(Queued(EMPTY, SHORT_FOO, None), cfg, true), FOO, None)
  }

  /** However many tries are configured, such a channel is lost when the last
      client goes and one comes back. */
  lemma DetachedSafeChannelIsLost(cfg: JoinConfig)
    ensures var s := JoinedOnce(cfg);
            && |s.active| == 1 && s.active[0].name == FOO && s.passive == []
            && JoinLine(Detached(s, true, true), cfg, true) == []
            && Retried(Detached(s, true, true), cfg, true).passive == []
  {
    JoinedOnceIs(cfg);
    var c := JoinedOnce(cfg).active[0];
    assert Detached(JoinedOnce(cfg), true, true).passive == [c.(oper := -1)];
    LoneWithoutTries(c.(oper := -1), cfg);
  }

  lemma JoinedOnceIs(cfg: JoinConfig)
    ensures var s := JoinedOnce(cfg);
            && s.passive == [] && |s.active| == 1 && s.active[0].name == FOO && s.active[0].jointries == 0
  {
    var c := NewChan(0, SHORT_FOO, None);
    var s1 := Queued(EMPTY, SHORT_FOO, None);
    assert s1.passive == [c];
    AllAsked([c], 0, cfg, true);
    var s2 := Retried(s1, cfg, true);
    assert s2.passive == [c.(jointries := 0)];
    ShortNames();
    assert Like(s2.passive[0], FOO) && FindIn(s2.passive, FOO) == 0;
    assert JoinedOnce(cfg) == FromPassive(s2, 0, FOO);
  }

  lemma LoneWithoutTries(c: Chan, cfg: JoinConfig)
    requires IsName(c.name) && c.jointries == 0
    ensures JoinFrom([c], 0, cfg, true) == ([], [])
  {
    assert Exact(c, c.name) && FirstExact([c], c.name, 0) == 0;
    assert Without([c], 0) == [];
    assert JoinFrom([], 0, cfg, true) == ([], []);
  }

  // ------------------------------------------------------------------
  // Parted channels.

  /** Whether a line in the window names the active channel at place k. */
  predicate Named(s: Lists, log: seq<Quicklog.Entry>, oldest: int, k: int) {
    exists i :: 0 <= i < |log| && Counts(log[i], oldest) && FindIn(s.active, Quicklog.Target(log[i].text).value) == k
  }

  lemma FindIgnoresLog(a: seq<Chan>, b: seq<Chan>, name: CString)
    requires |a| == |b| && forall i :: 0 <= i < |a| ==> a[i].name == b[i].name && a[i].simple == b[i].simple
    ensures FindIn(a, name) == FindIn(b, name)
  {
    if IsName(name) {
      FirstExactIgnoresLog(a, b, name, 0);
      LastLikeIgnoresLog(a, b, name, |a|);
    }
  }

  lemma {:induction false} FirstExactIgnoresLog(a: seq<Chan>, b: seq<Chan>, name: CString, from: nat)
    requires |a| == |b| && forall i :: 0 <= i < |a| ==> a[i].name == b[i].name && a[i].simple == b[i].simple
    requires from <= |a|
    ensures FirstExact(a, name, from) == FirstExact(b, name, from)
    decreases |a| - from
  {
    if from < |a| {
      FirstExactIgnoresLog(a, b, name, from + 1);
    }
  }

  lemma {:induction false} LastLikeIgnoresLog(a: seq<Chan>, b: seq<Chan>, name: CString, n: nat)
    requires |a| == |b| && forall i :: 0 <= i < |a| ==> a[i].name == b[i].name && a[i].simple == b[i].simple
    requires n <= |a|
    ensures LastLike(a, name, n) == LastLike(b, name, n)
  {
    if n != 0 {
      LastLikeIgnoresLog(a, b, name, n - 1);
    }
  }

  /** qlog_check finds exactly the active channels that a line in the window names. */
  lemma {:induction false} CheckedIffNamed(s: Lists, log: seq<Quicklog.Entry>, oldest: int, k: nat)
    requires k < |s.active|
    ensures Checked(s, log, oldest).active[k].hasqlog <==> Named(s, log, oldest, k)
    decreases |log|
  {
    if log != [] {
      var n := |log| - 1;
      var init, e := log[..n], log[n];
      CheckedIffNamed(s, init, oldest, k);
      if Counts(e, oldest) {
        FindIgnoresLog(Checked(s, init, oldest).active, s.active, Quicklog.Target(e.text).value);
      }
      NamedByOneMore(s, init, e, oldest, k);
      assert log == init + [e];
    }
  }

  lemma NamedByOneMore(s: Lists, init: seq<Quicklog.Entry>, e: Quicklog.Entry, oldest: int, k: int)
    ensures Named(s, init + [e], oldest, k) <==>
            Named(s, init, oldest, k) || (Counts(e, oldest) && FindIn(s.active, Quicklog.Target(e.text).value) == k)
  {
    var log := init + [e];
    assert log[|init|] == e && forall i :: 0 <= i < |init| ==> log[i] == init[i];
  }

  lemma CheckingKeepsIds(s: Lists, log: seq<Quicklog.Entry>, oldest: int, id: nat)
    requires forall d :: d in s.former ==> d.id != id
    ensures forall d :: d in Checked(s, log, oldest).former ==> d.id != id
  {
    forall d | d in Checked(s, log, oldest).former
      ensures d.id != id
    {
      var j :| 0 <= j < |s.former| && Checked(s, log, oldest).former[j] == d;
      assert s.former[j] in s.former;
    }
  }

  /** A channel we leave is kept if and only if a non-private line in the window
      names it. */
  lemma PartedIsKeptIffNamed(s: Lists, name: CString, log: seq<Quicklog.Entry>, oldest: int)
    requires Inv(s) && FindIn(s.active, name) != -1
    ensures var k := FindIn(s.active, name);
            (exists d :: d in Left(s, name, log, oldest).former && d.id == s.active[k].id)
            <==> Named(s, log, oldest, k)
  {
    var k := FindIn(s.active, name);
    OthersDiffer(s, s.active, s.former, k);
    CheckingKeepsIds(s, log, oldest, s.active[k].id);
    CheckedIffNamed(s, log, oldest, k);
    if Named(s, log, oldest, k) {
      assert Checked(s, log, oldest).active[k].(queue := []) in Left(s, name, log, oldest).former;
    }
  }
}
