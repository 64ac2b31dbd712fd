/**
 The interpreter of channel MODE lines (parse_modes, src/server.c), against the
 reading of RFC 2812 (section 3.2.3) and RFC 2811 (section 4): first the
 signed letters, then each letter with the argument it is due, then the effects.
 */
module Modes {
  import opened Ascii
  import opened Automode
  import opened Messages
  import opened Wrappers

  /** What mode changes touch in a channel. */
  datatype Setting = Setting(oper: int, key: CString, queue: seq<Action>)

  datatype Change = Change(plus: bool, letter: char)

  datatype Applied = Applied(change: Change, arg: Option<CString>)

  predicate IsSign(c: char) {
    c == '+' || c == '-'
  }

  // ------------------------------------------------------------------
  // The reference reading.

  /** The signed letters of a mode string. */
  function Letters(modes: string, plus: bool): seq<Change> {
    if modes == [] then []
    else if IsSign(modes[0]) then Letters(modes[1..], modes[0] == '+')
    else [Change(plus, modes[0])] + Letters(modes[1..], plus)
  }

  /** Operator, voice, key and the three masks take an argument, the limit only
      when it is set; an 'O' is taken to have none. */
  predicate TakesArgument(c: Change) {
    c.letter in {'o', 'v', 'k', 'b', 'e', 'I'} || (c.letter == 'l' && c.plus)
  }

  /** Letters that take an argument get the arguments in order while they last. */
  function Paired(cs: seq<Change>, args: seq<CString>): seq<Applied> {
    if cs == [] then []
    else if TakesArgument(cs[0]) && args != [] then
      [Applied(cs[0], Some(args[0]))] + Paired(cs[1..], args[1..])
    else [Applied(cs[0], None)] + Paired(cs[1..], args)
  }

  predicate IsMe(me: CString, arg: CString) {
    SameName(me, arg)
  }

  function Effect(s: Setting, a: Applied, me: CString): Setting {
    if a.arg.None? then s
    else
      var c, arg := a.change, a.arg.value;
      if c.letter == 'o' && IsMe(me, arg) then s.(oper := if c.plus then 1 else 0)
      else if (c.letter == 'o' || c.letter == 'v') && c.plus then
        s.(queue := Dropped(s.queue, Some(arg), c.letter))
      else if c.letter == 'k' && c.plus then s.(key := arg)
      else s
  }

  function Effects(s: Setting, xs: seq<Applied>, me: CString): Setting
    decreases |xs|
  {
    if xs == [] then s else Effects(Effect(s, xs[0], me), xs[1..], me)
  }

  // What the effects amount to.

  /** The change that decides the operator flag, if one concerns it. */
  predicate SetsOper(a: Applied, me: CString) {
    a.arg.Some? && a.change.letter == 'o' && SameName(me, a.arg.value)
  }

  predicate SetsKey(a: Applied) {
    a.arg.Some? && a.change.letter == 'k' && a.change.plus
  }

  /** Someone else got a mode that may have been queued for them. */
  predicate Fulfils(a: Applied, me: CString, x: Action) {
    && a.arg.Some? && a.change.plus && (a.change.letter == 'o' || a.change.letter == 'v')
    && !SetsOper(a, me) && SameName(a.arg.value, x.nick) && a.change.letter == x.mode
  }

  lemma {:induction false} EffectsSplit(s: Setting, xs: seq<Applied>, ys: seq<Applied>, me: CString)
    ensures Effects(s, xs + ys, me) == Effects(Effects(s, xs, me), ys, me)
    decreases |xs|
  {
    if xs == [] {
      assert xs + ys == ys;
    } else {
      assert (xs + ys)[1..] == xs[1..] + ys;
      EffectsSplit(Effect(s, xs[0], me), xs[1..], ys, me);
    }
  }

  /** The last change of our own operator status and the last key set win; an
      automatic mode stays queued unless someone gave it. */
  lemma {:induction false} EffectsMean(s: Setting, xs: seq<Applied>, me: CString)
    ensures var r := Effects(s, xs, me);
            && (forall i :: 0 <= i < |xs| && SetsOper(xs[i], me) && (forall j :: i < j < |xs| ==> !SetsOper(xs[j], me))
                  ==> r.oper == if xs[i].change.plus then 1 else 0)
            && ((forall i :: 0 <= i < |xs| ==> !SetsOper(xs[i], me)) ==> r.oper == s.oper)
            && (forall i :: 0 <= i < |xs| && SetsKey(xs[i]) && (forall j :: i < j < |xs| ==> !SetsKey(xs[j]))
                  ==> r.key == xs[i].arg.value)
            && ((forall i :: 0 <= i < |xs| ==> !SetsKey(xs[i])) ==> r.key == s.key)
    ensures forall x :: x in Effects(s, xs, me).queue <==>
              x in s.queue && forall i :: 0 <= i < |xs| ==> !Fulfils(xs[i], me, x)
    decreases |xs|
  {
    if xs != [] {
      var n := |xs| - 1;
      var init, last := xs[..n], xs[n];
      EffectsMean(s, init, me);
      assert xs == init + [last];
      EffectsSplit(s, init, [last], me);
      assert Effects(Effects(s, init, me), [last], me) == Effect(Effects(s, init, me), last, me) by {
        assert [last][1..] == [];
      }
    }
  }

  /** Effects only take actions off the queue. */
  lemma {:induction false} EffectsShrinkQueue(s: Setting, xs: seq<Applied>, me: CString)
    requires NoRepeats(s.queue)
    ensures |Effects(s, xs, me).queue| <= |s.queue| && NoRepeats(Effects(s, xs, me).queue)
    decreases |xs|
  {
    if xs != [] {
      if xs[0].arg.Some? {
        DroppedKeepsNoRepeats(s.queue, xs[0].arg, xs[0].change.letter);
      }
      EffectsShrinkQueue(Effect(s, xs[0], me), xs[1..], me);
    }
  }

  // ------------------------------------------------------------------
  // The cursor of the code.

  /** The signed letters as the cursor meets them: the character after a sign is
      taken for a letter whatever it is. */
  function Cursor(modes: string, plus: bool): seq<Change>
    requires NoTrailingSign(modes)
    decreases |modes|
  {
    if modes == [] then []
    else if IsSign(modes[0]) then [Change(modes[0] == '+', modes[1])] + Cursor(modes[2..], modes[0] == '+')
    else [Change(plus, modes[0])] + Cursor(modes[1..], plus)
  }

  /** The cursor does not run past the end of the string. */
  predicate NoTrailingSign(modes: string)
    decreases |modes|
  {
    if modes == [] then true
    else if IsSign(modes[0]) then 1 < |modes| && NoTrailingSign(modes[2..])
    else NoTrailingSign(modes[1..])
  }

  predicate NoDoubledSign(modes: string) {
    |modes| < 2 || (!(IsSign(modes[0]) && IsSign(modes[1])) && NoDoubledSign(modes[1..]))
  }

  lemma {:induction false} LettersHaveNoSign(modes: string, plus: bool)
    ensures forall i :: 0 <= i < |Letters(modes, plus)| ==> !IsSign(Letters(modes, plus)[i].letter)
  {
    if modes != [] {
      LettersHaveNoSign(modes[1..], if IsSign(modes[0]) then modes[0] == '+' else plus);
    }
  }

  /** The cursor reads a mode string as the RFC does if and only if no sign is
      followed by another sign. */
  lemma {:induction false} CursorReadsLettersIff(modes: string, plus: bool)
    requires NoTrailingSign(modes)
    ensures Cursor(modes, plus) == Letters(modes, plus) <==> NoDoubledSign(modes)
    decreases |modes|
  {
    if modes == [] {
    } else if !IsSign(modes[0]) {
      CursorReadsLettersIff(modes[1..], plus);
      assert Cursor(modes, plus)[1..] == Cursor(modes[1..], plus);
      assert Letters(modes, plus)[1..] == Letters(modes[1..], plus);
    } else if IsSign(modes[1]) {
      LettersHaveNoSign(modes, plus);
      assert Cursor(modes, plus)[0].letter == modes[1];
    } else {
      var sign, rest := modes[0] == '+', modes[2..];
      CursorReadsLettersIff(rest, sign);
      assert modes[1..][1..] == rest;
      assert Letters(modes, plus) == [Change(sign, modes[1])] + Letters(rest, sign);
      assert Cursor(modes, plus)[1..] == Cursor(rest, sign);
      assert Letters(modes, plus)[1..] == Letters(rest, sign);
    }
  }

  /** Place k holds the last sign of the string, if there is one. */
  predicate IsLastSign(modes: string, k: int) {
    && -1 <= k < |modes| && (0 <= k ==> IsSign(modes[k]))
    && forall j :: k < j < |modes| ==> !IsSign(modes[j])
  }

  /** A letter has the sign that was given last before it, however far back. */
  lemma {:induction false} LetterHasLastSign(modes: string, plus: bool, c: char, k: int)
    requires IsLastSign(modes, k)
    ensures Letters(modes + [c], plus)
         == Letters(modes, plus) + if IsSign(c) then [] else [Change(if k == -1 then plus else modes[k] == '+', c)]
    decreases |modes|
  {
    if modes == [] {
      assert modes + [c] == [c] && [c][1..] == [];
    } else {
      var rest, plus1 := modes[1..], if IsSign(modes[0]) then modes[0] == '+' else plus;
      assert (modes + [c])[1..] == rest + [c] && (modes + [c])[0] == modes[0];
      LetterHasLastSign(rest, plus1, c, if k <= 0 then -1 else k - 1);
    }
  }

  const PLUS_MINUS_O: CString := "+-o"

  /** After a doubled sign the cursor gives what the RFC takes away. */
  lemma DoubledSignMisreads(s: Setting, me: CString)
    ensures NoTrailingSign(PLUS_MINUS_O)
    ensures Effects(s, Paired(Cursor(PLUS_MINUS_O, true), [me]), me).oper == 1
    ensures Effects(s, Paired(Letters(PLUS_MINUS_O, true), [me]), me).oper == 0
  {
    var modes := PLUS_MINUS_O;
    assert modes[1..] == "-o" && "-o"[1..] == "o" && modes[2..] == "o" && "o"[1..] == [];
    var odd, given, taken := Change(true, '-'), Change(true, 'o'), Change(false, 'o');
    assert Cursor(modes, true) == [odd] + Cursor("o", true) == [odd, given];
    assert Letters(modes, true) == Letters("-o", true) == Letters("o", false) == [taken];
    assert [odd, given][1..] == [given] && [given][1..] == [] && [taken][1..] == [];
    assert Paired([taken], [me]) == [Applied(taken, Some(me))];
    assert Paired([given], [me]) == [Applied(given, Some(me))];
    var x, y := Applied(odd, None), Applied(given, Some(me));
    assert Paired([odd, given], [me]) == [x] + [y];
    assert ([x] + [y])[1..] == [y] && [y][1..] == [] && [Applied(taken, Some(me))][1..] == [];
    assert Effects(s, [x] + [y], me) == Effects(s, [y], me) == Effect(s, y, me);
  }

  /** The words of a line, as successive calls of strtok give them. */
  function Words(s: CString, word: CString): seq<CString>
    decreases |s|
  {
    if s == [] then (if word == [] then [] else [word])
    else if s[0] != ' ' then Words(s[1..], word + [s[0]])
    else (if word == [] then [] else [word]) + Words(s[1..], [])
  }

  /** The switch over one letter: its effect, and whether it used up the argument. */
  method ApplyLetter(s: Setting, me: CString, c: Change, arg: Option<CString>) returns (r: Setting, used: bool)
    ensures used == (TakesArgument(c) && arg.Some?)
    ensures r == Effect(s, Applied(c, if TakesArgument(c) then arg else None), me)
  {
    r, used := s, false;
    if c.letter == 'O' || arg.None? {
      return;
    }
    if c.letter == 'o' || c.letter == 'v' {
      if !c.plus {
        if SameName(me, arg.value) && c.letter == 'o' {
          r := r.(oper := 0);
        }
      } else if SameName(me, arg.value) && c.letter == 'o' {
        r := r.(oper := 1);
      } else {
        r := r.(queue := Dropped(r.queue, arg, c.letter));
      }
      used := true;
    } else if c.letter == 'k' {
      if c.plus {
        r := r.(key := arg.value);
      }
      used := true;
    } else if c.letter == 'l' {
      used := c.plus;
    } else if c.letter in {'b', 'e', 'I'} {
      used := true;
    }
  }

  /** What the cursor at `left`, with `args` unread, still has to do. */
  function Remaining(s: Setting, left: string, plus: bool, args: seq<CString>, me: CString): Setting
    requires NoTrailingSign(left)
  {
    Effects(s, Paired(Cursor(left, plus), args), me)
  }

  lemma RemainingStep(s: Setting, left: string, plus: bool, args: seq<CString>, me: CString)
    requires NoTrailingSign(left) && left != []
    ensures var n, sign := if IsSign(left[0]) then 2 else 1, if IsSign(left[0]) then left[0] == '+' else plus;
            var c := Change(sign, left[n - 1]);
            var used := TakesArgument(c) && args != [];
            var s1 := Effect(s, Applied(c, if used then Some(args[0]) else None), me);
            && NoTrailingSign(left[n..])
            && Remaining(s, left, plus, args, me)
            == Remaining(s1, left[n..], sign, if used then args[1..] else args, me)
  {
  }

  /** parse_modes on the words of the line: it takes letters off the mode string
      and arguments off the rest as it goes. */
  method ParseModes(s: Setting, me: CString, modes: CString, args: seq<CString>) returns (r: Setting)
    requires NoTrailingSign(modes)
    ensures r == Effects(s, Paired(Cursor(modes, true), args), me)
  {
    var ptr, param, plus := 0, 0, true;
    r := s;
    while ptr < |modes|
      invariant ptr <= |modes| && param <= |args| && NoTrailingSign(modes[ptr..])
      invariant Remaining(r, modes[ptr..], plus, args[param..], me) == Remaining(s, modes, true, args, me)
    {
      RemainingStep(r, modes[ptr..], plus, args[param..], me);
      ghost var start := ptr;
      if IsSign(modes[ptr]) {
        plus := modes[ptr] == '+';
        ptr := ptr + 1;
      }
      assert modes[start..][ptr - start] == modes[ptr];
      var arg := if param < |args| then Some(args[param]) else None;
      var used;
      r, used := ApplyLetter(r, me, Change(plus, modes[ptr]), arg);
      assert args[param..] != [] ==> args[param..][0] == args[param] && args[param..][1..] == args[param + 1..];
      if used {
        param := param + 1;
      }
      ptr := ptr + 1;
      assert modes[start..][ptr - start..] == modes[ptr..];
    }
  }

  /** A whole MODE line: the mode string is its first word. */
  method ParseModeLine(s: Setting, me: CString, original: CString) returns (r: Setting)
    requires Words(original, []) != [] && NoTrailingSign(Words(original, [])[0])
    ensures NoDoubledSign(Words(original, [])[0]) ==>
              r == Effects(s, Paired(Letters(Words(original, [])[0], true), Words(original, [])[1..]), me)
  {
    var words := Words(original, []);
    r := ParseModes(s, me, words[0], words[1..]);
    CursorReadsLettersIff(words[0], true);
  }

  // ------------------------------------------------------------------
  // Every letter and its argument.

  /** A change has an argument exactly when it is of operator, voice, key, ban,
      exception or invitation, or sets the limit. */
  predicate IsArmed(x: Applied) {
    var c := x.change;
    && !IsSign(c.letter)
    && (x.arg.Some? <==>
        || c.letter == 'o' || c.letter == 'v' || c.letter == 'k'
        || c.letter == 'b' || c.letter == 'e' || c.letter == 'I'
        || (c.letter == 'l' && c.plus))
  }

  predicate WellArmed(xs: seq<Applied>) {
    forall x :: x in xs ==> IsArmed(x)
  }

  function ChangesOf(xs: seq<Applied>): seq<Change> {
    seq(|xs|, i requires 0 <= i < |xs| => xs[i].change)
  }

  function ArgumentOf(x: Applied): seq<CString> {
    if x.arg.Some? then [x.arg.value] else []
  }

  /** The arguments in order, without the gaps. */
  function ArgumentsOf(xs: seq<Applied>): seq<CString> {
    if xs == [] then [] else ArgumentOf(xs[0]) + ArgumentsOf(xs[1..])
  }

  /** A mode string that says the changes, each letter with its sign. */
  function Signed(xs: seq<Applied>): string {
    if xs == [] then []
    else [if xs[0].change.plus then '+' else '-', xs[0].change.letter] + Signed(xs[1..])
  }

  lemma {:induction false} SignedIsRead(xs: seq<Applied>, plus: bool)
    requires WellArmed(xs)
    ensures Letters(Signed(xs), plus) == ChangesOf(xs)
    ensures NoTrailingSign(Signed(xs)) && Cursor(Signed(xs), plus) == ChangesOf(xs)
    decreases |xs|
  {
    if xs != [] {
      var modes, rest, c := Signed(xs), Signed(xs[1..]), xs[0].change;
      assert IsArmed(xs[0]);
      SignedIsRead(xs[1..], c.plus);
      assert modes[1..] == [c.letter] + rest && modes[1..][1..] == rest && modes[2..] == rest;
      assert Letters(modes, plus) == Letters(modes[1..], c.plus) == [c] + Letters(rest, c.plus);
      assert ChangesOf(xs) == [c] + ChangesOf(xs[1..]);
    }
  }

  lemma PairedMore(x: Applied, cs: seq<Change>, args: seq<CString>)
    requires IsArmed(x)
    ensures Paired([x.change] + cs, ArgumentOf(x) + args) == [x] + Paired(cs, args)
  {
    var c, all := [x.change] + cs, ArgumentOf(x) + args;
    assert c[0] == x.change && c[1..] == cs;
    if x.arg.Some? {
      assert all[0] == x.arg.value && all[1..] == args;
    } else {
      assert all == args;
    }
  }

  /** However the changes are written, letters paired with the arguments that
      follow are the changes as they were meant; what is left over is not used. */
  lemma {:induction false} ChangesReadBack(xs: seq<Applied>, more: seq<CString>)
    requires WellArmed(xs)
    ensures Paired(ChangesOf(xs), ArgumentsOf(xs) + more) == xs
    decreases |xs|
  {
    if xs != [] {
      var x, rest := xs[0], xs[1..];
      ChangesReadBack(rest, more);
      PairedMore(x, ChangesOf(rest), ArgumentsOf(rest) + more);
      assert ChangesOf(xs) == [x.change] + ChangesOf(rest);
      assert ArgumentsOf(xs) + more == ArgumentOf(x) + (ArgumentsOf(rest) + more);
      assert xs == [x] + rest;
    }
  }

  /** A letter for which no argument is left is applied without. */
  lemma {:induction false} WithoutArguments(cs: seq<Change>)
    ensures |Paired(cs, [])| == |cs|
    ensures forall i :: 0 <= i < |cs| ==> Paired(cs, [])[i] == Applied(cs[i], None)
  {
    if cs != [] {
      WithoutArguments(cs[1..]);
    }
  }

  /** A MODE line that says the changes, with their arguments behind, is read as
      these changes. */
  lemma LineReadsBack(xs: seq<Applied>, modes: CString)
    requires WellArmed(xs) && Letters(modes, true) == ChangesOf(xs)
    requires IsWord(modes) && forall a :: a in ArgumentsOf(xs) ==> IsWord(a)
    ensures var ws := Words(Spaced([modes] + ArgumentsOf(xs)), []);
            ws != [] && Paired(Letters(ws[0], true), ws[1..]) == xs
  {
    var words := [modes] + ArgumentsOf(xs);
    WordsOfSpaced(words);
    assert words[1..] == ArgumentsOf(xs) + [];
    ChangesReadBack(xs, []);
  }

  /** A letter and its argument before a change of our own operator status do not
      get in its way. */
  lemma OperAfterOthers(s: Setting, me: CString, xs: seq<Applied>, plus: bool)
    requires WellArmed(xs)
    ensures var own := Applied(Change(plus, 'o'), Some(me));
            var ys := xs + [own];
            && Paired(ChangesOf(ys), ArgumentsOf(ys)) == ys
            && Effects(s, ys, me).oper == if plus then 1 else 0
  {
    var own := Applied(Change(plus, 'o'), Some(me));
    var ys := xs + [own];
    ChangesReadBack(ys, []);
    assert ArgumentsOf(ys) + [] == ArgumentsOf(ys);
    EffectsMean(s, ys, me);
    assert ys[|xs|] == own && SetsOper(own, me);
  }

  const MASK_THEN_OPER: CString := "+bo"

  /** In `+bo` with a mask and our nick the mask is the ban's, and we are operator. */
  lemma MaskBeforeOper(s: Setting, me: CString, mask: CString)
    ensures var xs := Paired(Cursor(MASK_THEN_OPER, true), [mask, me]);
            && xs == [Applied(Change(true, 'b'), Some(mask)), Applied(Change(true, 'o'), Some(me))]
            && Effects(s, xs, me).oper == 1 && Effects(s, xs, me).key == s.key
  {
    var modes := MASK_THEN_OPER;
    var b, o := Change(true, 'b'), Change(true, 'o');
    assert modes[2..] == "o" && "o"[1..] == [];
    assert Cursor(modes, true) == [b] + Cursor("o", true) == [b, o];
    var xs := [Applied(b, Some(mask)), Applied(o, Some(me))];
    assert xs[1..] == [xs[1]] && xs[1..][1..] == [];
    assert IsArmed(xs[0]) && IsArmed(xs[1]);
    assert ArgumentsOf(xs) == [mask] + ArgumentsOf([xs[1]]) == [mask] + ([me] + []);
    ChangesReadBack(xs, []);
    assert ChangesOf(xs) == [b, o] && ArgumentsOf(xs) + [] == [mask, me];
    EffectsMean(s, xs, me);
  }

  // ------------------------------------------------------------------
  // Automatic modes and their echo.

  function Given(batch: seq<Action>): seq<Applied> {
    seq(|batch|, i requires 0 <= i < |batch| => Applied(Change(true, batch[i].mode), Some(batch[i].nick)))
  }

  function NickList(batch: seq<Action>): seq<CString> {
    seq(|batch|, i requires 0 <= i < |batch| => batch[i].nick)
  }

  /** A word as strtok finds it. */
  predicate IsWord(w: string) {
    w != [] && ' ' !in w
  }

  lemma {:induction false} WordsAreWords(s: CString, word: CString)
    requires ' ' !in word
    ensures forall w :: w in Words(s, word) ==> IsWord(w)
    decreases |s|
  {
    if s != [] {
      WordsAreWords(s[1..], if s[0] == ' ' then [] else word + [s[0]]);
    }
  }

  lemma {:induction false} WordsOfWord(w: CString, rest: CString, word: CString)
    requires ' ' !in w && (rest != [] ==> rest[0] == ' ') && word + w != []
    ensures Words(w + rest, word) == [word + w] + if rest == [] then [] else Words(rest[1..], [])
    decreases |w|
  {
    if w == [] {
      assert w + rest == rest && word + w == word;
    } else {
      assert (w + rest)[0] == w[0] && (w + rest)[1..] == w[1..] + rest;
      assert word + [w[0]] + w[1..] == word + w;
      WordsOfWord(w[1..], rest, word + [w[0]]);
    }
  }

  lemma {:induction false} WordsOfSpaced(ws: seq<CString>)
    requires forall w :: w in ws ==> IsWord(w)
    ensures Words(Spaced(ws), []) == ws
  {
    if ws == [] {
    } else if |ws| == 1 {
      assert IsWord(ws[0]);
      WordsOfWord(ws[0], [], []);
      assert ws[0] + [] == ws[0] && [] + ws[0] == ws[0];
    } else {
      var rest: CString := [' '] + Spaced(ws[1..]);
      assert IsWord(ws[0]);
      WordsOfWord(ws[0], rest, []);
      WordsOfSpaced(ws[1..]);
      assert Spaced(ws) == ws[0] + rest && rest[1..] == Spaced(ws[1..]) && [] + ws[0] == ws[0];
    }
  }

  /** Words with blanks between them are found again if and only if none is empty
      or holds a blank. */
  lemma WordsReadBackIff(ws: seq<CString>)
    ensures Words(Spaced(ws), []) == ws <==> forall w :: w in ws ==> IsWord(w)
  {
    WordsAreWords(Spaced(ws), []);
    if forall w :: w in ws ==> IsWord(w) {
      WordsOfSpaced(ws);
    }
  }

  predicate OperOrVoice(batch: seq<Action>) {
    forall a :: a in batch ==> a.mode == 'o' || a.mode == 'v'
  }

  /** The words of the line that carries a batch. */
  function LineWords(channel: CString, batch: seq<Action>): seq<CString>
    requires OperOrVoice(batch)
  {
    ["MODE", channel, ['+'] + Automode.Modes(batch)] + NickList(batch)
  }

  lemma {:induction false} SpacedAppend(ws: seq<CString>, w: CString)
    requires ws != []
    ensures Spaced(ws + [w]) == Spaced(ws) + [' '] + w
  {
    assert (ws + [w])[1..] == ws[1..] + [w];
    if |ws| == 1 {
      assert ws[1..] + [w] == [w];
    } else {
      SpacedAppend(ws[1..], w);
    }
  }

  lemma {:induction false} SpacedNicks(base: seq<CString>, batch: seq<Action>)
    requires base != []
    ensures Spaced(base + NickList(batch)) == Spaced(base) + Nicks(batch)
    decreases |batch|
  {
    if batch == [] {
      assert base + NickList(batch) == base && Spaced(base) + [] == Spaced(base);
    } else {
      var init, nick := batch[..|batch| - 1], batch[|batch| - 1].nick;
      SpacedNicks(base, init);
      SpacedAppend(base + NickList(init), nick);
      assert base + NickList(batch) == base + NickList(init) + [nick];
    }
  }

  lemma ModeLineIsSpaced(channel: CString, batch: seq<Action>)
    requires OperOrVoice(batch)
    ensures ModeLine(channel, batch) == Spaced(LineWords(channel, batch))
  {
    var modes: CString := ['+'] + Automode.Modes(batch);
    var base: seq<CString> := ["MODE", channel, modes];
    SpacedNicks(base, batch);
    assert base[1..] == [channel, modes] && base[1..][1..] == [modes];
    assert Spaced(base[1..]) == channel + [' '] + Spaced([modes]) == channel + [' '] + modes;
    assert Spaced(base) == base[0] + [' '] + Spaced(base[1..]);
    assert "MODE" + [' '] + (channel + [' '] + modes) == "MODE " + channel + " +" + Automode.Modes(batch);
  }

  /** A server reads the line as it is meant if and only if channel and nicks can
      stand anywhere in a line, and the line is one line and fits a message. */
  lemma ModeLineIsReadIff(channel: CString, batch: seq<Action>)
    requires OperOrVoice(batch)
    ensures ServerReads(ModeLine(channel, batch)) == LineWords(channel, batch) <==>
            && IsMiddle(channel) && (forall a :: a in batch ==> IsMiddle(a.nick))
            && OnOneLine(ModeLine(channel, batch)) && |ModeLine(channel, batch)| <= MAX_MESSAGE
  {
    ModeLineIsSpaced(channel, batch);
    ReadBackIff(LineWords(channel, batch));
    MiddlesOfLine(channel, batch);
  }

  lemma MiddlesOfLine(channel: CString, batch: seq<Action>)
    requires OperOrVoice(batch)
    ensures (forall w :: w in LineWords(channel, batch) ==> IsMiddle(w)) <==>
            IsMiddle(channel) && forall a :: a in batch ==> IsMiddle(a.nick)
  {
    var ws := LineWords(channel, batch);
    assert IsMiddle(ws[0]) && ws[1] == channel && IsMiddle(ws[2]);
    forall i | 0 <= i < |batch| ensures ws[i + 3] == batch[i].nick {}
    if forall w :: w in ws ==> IsMiddle(w) {
      forall a | a in batch ensures IsMiddle(a.nick) {
        var i :| 0 <= i < |batch| && batch[i] == a;
        assert ws[i + 3] in ws;
      }
    }
  }

  /** The words of the line of a batch, read as those of a MODE line are, give
      each nick its own mode and nothing else. */
  lemma BatchReadsBack(channel: CString, batch: seq<Action>)
    requires OperOrVoice(batch) && IsWord(channel) && forall a :: a in batch ==> IsWord(a.nick)
    ensures var ws := Words(ModeLine(channel, batch), []);
            && 3 <= |ws| && ws[0] == "MODE" && ws[1] == channel
            && Paired(Letters(ws[2], true), ws[3..]) == Given(batch)
  {
    var ws := LineWords(channel, batch);
    ModeLineIsSpaced(channel, batch);
    WordsOfSpaced(ws);
    assert ws[2] == ['+'] + Automode.Modes(batch) && ws[3..] == NickList(batch);
    assert ws[2][1..] == Automode.Modes(batch);
    BatchLetters(batch);
  }

  lemma {:induction false} BatchLetters(batch: seq<Action>)
    requires OperOrVoice(batch)
    ensures Paired(Letters(Automode.Modes(batch), true), NickList(batch)) == Given(batch)
  {
    if batch != [] {
      assert batch[0] in batch;
      BatchLetters(batch[1..]);
      assert Automode.Modes(batch)[1..] == Automode.Modes(batch[1..]);
      assert NickList(batch)[1..] == NickList(batch[1..]);
      assert Given(batch) == [Given(batch)[0]] + Given(batch[1..]);
    }
  }
}
