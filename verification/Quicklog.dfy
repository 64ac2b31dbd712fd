/**
 The quicklog (src/qlog.c): lines kept for replay with the time they came in.
 Old lines are dropped from the front; private messages among them may be
 moved to the inbox.
 */
module Quicklog {
  import opened Ascii
  import opened Sequences
  import opened Wrappers

  datatype Entry = Entry(text: CString, timestamp: int, privmsg: bool)

  datatype Note = Note(timestamp: int, sender: CString, message: CString)

  // ------------------------------------------------------------------
  // Reading entries.

  /** The first place of `c` in `s` at or after `from`, or the length of `s`. */
  function Seek(s: string, c: char, from: nat): (k: nat)
    requires from <= |s|
    ensures from <= k <= |s| && (k < |s| ==> s[k] == c) && forall j :: from <= j < k ==> s[j] != c
    decreases |s| - from
  {
    if from == |s| || s[from] == c then from else Seek(s, c, from + 1)
  }

  /** The first place at or after `from` of a space followed by a colon, or the length. */
  function SeekPayload(s: string, from: nat): (k: nat)
    requires from <= |s|
    ensures from <= k <= |s| && (k < |s| ==> k + 1 < |s| && s[k] == ' ' && s[k + 1] == ':')
    decreases |s| - from
  {
    if from == |s| then from
    else if from + 1 < |s| && s[from] == ' ' && s[from + 1] == ':' then from
    else SeekPayload(s, from + 1)
  }

  /** The third word of a line, which must be followed by a space. */
  function Target(text: CString): Option<CString> {
    var a := Seek(text, ' ', 0);
    if a == |text| then None
    else
      var b := Seek(text, ' ', a + 1);
      if b == |text| then None
      else
        var c := Seek(text, ' ', b + 1);
        if c == |text| then None else Some(text[b + 1..c])
  }

  /** The first three spaces of the text are at i, j and k. */
  predicate SpacesAt(text: string, i: nat, j: nat, k: nat) {
    && i < j < k < |text| && text[i] == text[j] == text[k] == ' '
    && forall n :: 0 <= n < k && text[n] == ' ' ==> n == i || n == j
  }

  /** The channel a line is about stands between its second and its third space. */
  lemma TargetIs(text: CString, i: nat, j: nat, k: nat)
    requires SpacesAt(text, i, j, k)
    ensures Target(text) == Some(text[j + 1..k])
  {
  }

  /** With fewer spaces it is about none. */
  lemma TargetIff(text: CString)
    ensures Target(text).Some? <==> exists i: nat, j: nat, k: nat :: SpacesAt(text, i, j, k)
  {
    if i: nat, j: nat, k: nat :| SpacesAt(text, i, j, k) {
      TargetIs(text, i, j, k);
    }
    if Target(text).Some? {
      var i := Seek(text, ' ', 0);
      var j := Seek(text, ' ', i + 1);
      assert SpacesAt(text, i, j, Seek(text, ' ', j + 1));
    }
  }

  /** The first place at or after `from` that is not a space, or the length. */
  function SkipSpaces(s: string, from: nat): (k: nat)
    requires from <= |s|
    ensures from <= k <= |s| && (k < |s| ==> s[k] != ' ') && forall j :: from <= j < k ==> s[j] == ' '
    decreases |s| - from
  {
    if from == |s| || s[from] != ' ' then from else SkipSpaces(s, from + 1)
  }

  /** Where the first word ends: strtok puts a terminator there. */
  function WordEnd(text: CString): (k: nat)
    ensures k <= |text| && (text != [] ==> k != 0)
  {
    Seek(text, ' ', SkipSpaces(text, 0))
  }

  /** The first word ends before the payload, or with it. */
  lemma WordEndsApart(text: CString)
    requires text != []
    ensures var payload, end := SeekPayload(text, 1), WordEnd(text);
            payload < |text| && payload < end ==> payload + 2 <= end
  {
    var payload, start := SeekPayload(text, 1), SkipSpaces(text, 0);
    if payload < |text| && payload < WordEnd(text) {
      assert text[payload] == ' ' && text[payload + 1] == ':';
    }
  }

  /** The text of a message up to the terminator that ends the first word, if
      that comes later. */
  function Payload(text: CString, payload: nat, end: nat): CString
    requires payload + 2 <= |text| && end <= |text| && (payload < end ==> payload + 2 <= end)
  {
    if payload < end then text[payload + 2..end] else text[payload + 2..]
  }

  /** What goes to the inbox for a private line: nothing when it has no payload,
      or when its first word ends where the payload begins. */
  function NoteOf(e: Entry): Option<Note> {
    if e.text == [] then None
    else
      var payload, end := SeekPayload(e.text, 1), WordEnd(e.text);
      if payload == |e.text| || end == payload then None
      else
        WordEndsApart(e.text);
        Some(Note(e.timestamp, e.text[1..end], Payload(e.text, payload, end)))
  }

  predicate PayloadAt(text: string, k: nat) {
    k + 1 < |text| && text[k] == ' ' && text[k + 1] == ':'
  }

  lemma {:induction false} SeekPayloadIsFirst(s: string, from: nat)
    requires from <= |s|
    ensures forall k :: from <= k < SeekPayload(s, from) ==> !PayloadAt(s, k)
    decreases |s| - from
  {
    if from != |s| && !PayloadAt(s, from) {
      SeekPayloadIsFirst(s, from + 1);
    }
  }

  /** Without a space and a colon behind the first character there is no note. */
  lemma NoPayloadNoNote(e: Entry)
    requires forall k: nat :: 1 <= k ==> !PayloadAt(e.text, k)
    ensures NoteOf(e) == None
  {
    assert e.text != [] && SeekPayload(e.text, 1) < |e.text| ==> PayloadAt(e.text, SeekPayload(e.text, 1));
  }

  /** The first word goes from `start` up to `end`, and the first space followed by
      a colon, the first character not counted, is at `payload`. */
  predicate IsDivided(text: string, start: nat, end: nat, payload: nat) {
    && start <= end <= |text| && (forall j :: 0 <= j < start ==> text[j] == ' ')
    && (forall j :: start <= j < end ==> text[j] != ' ')
    && (end < |text| ==> text[end] == ' ' && start < end) && (end == |text| ==> start < end || start == |text|)
    && 1 <= payload && PayloadAt(text, payload) && forall j :: 1 <= j < payload ==> !PayloadAt(text, j)
  }

  /** The note says when the line came in, the first word without the first
      character, and what follows the colon; there is none when the first word
      reaches up to the payload. */
  lemma NoteIs(e: Entry, start: nat, end: nat, payload: nat)
    requires IsDivided(e.text, start, end, payload)
    ensures NoteOf(e) == if end == payload then None
                         else Some(Note(e.timestamp, e.text[1..end],
                                        if end < payload then e.text[payload + 2..] else e.text[payload + 2..end]))
  {
    var text := e.text;
    SeekPayloadIsFirst(text, 1);
    var found := SeekPayload(text, 1);
    assert found == payload by {
      assert found < payload ==> PayloadAt(text, found);
    }
    assert SkipSpaces(text, 0) == start by {
      assert start < |text| ==> text[start] != ' ';
    }
    assert WordEnd(text) == end;
    WordEndsApart(text);
  }

  /** What one removed entry adds to the inbox. */
  function NoteFrom(e: Entry): seq<Note> {
    if e.privmsg && NoteOf(e).Some? then [NoteOf(e).value] else []
  }

  /** The notes of the private ones among removed entries, in order. */
  function Notes(es: seq<Entry>): seq<Note> {
    if es == [] then [] else NoteFrom(es[0]) + Notes(es[1..])
  }

  /** Of lines that are not private nothing is told. */
  lemma {:induction false} OnlyPrivateAreTold(es: seq<Entry>)
    requires forall e :: e in es ==> !e.privmsg
    ensures Notes(es) == []
  {
    if es != [] {
      OnlyPrivateAreTold(es[1..]);
    }
  }

  // ------------------------------------------------------------------
  // The log over a run.

  /** The log with its whole past: what was removed, and the inbox, which takes
      notes while it is open. */
  datatype State = State(log: seq<Entry>, removed: seq<Entry>, inbox: seq<Note>, open: bool, clock: int)

  function Initial(open: bool): State {
    State([], [], [], open, 0)
  }

  datatype Event =
    | Write(text: CString, privmsg: bool, now: int, keep: int)
    | Flush(oldest: int, moving: bool)
    | Configure(open: bool)

  /** The first line leaves the log. */
  function Popped(s: State, moving: bool): State
    requires s.log != []
  {
    s.(log := s.log[1..], removed := s.removed + [s.log[0]],
       inbox := s.inbox + if moving && s.open then NoteFrom(s.log[0]) else [])
  }

  /** The flushing loop: lines leave the log up to the first that is not old. */
  function Flushed(s: State, oldest: int, moving: bool): State
    decreases |s.log|
  {
    if s.log == [] || oldest < s.log[0].timestamp then s else Flushed(Popped(s, moving), oldest, moving)
  }

  function Step(s: State, e: Event): State {
    match e
    case Write(text, privmsg, now, keep) =>
      var s1 := Flushed(s, now - keep, true);
      s1.(log := s1.log + [Entry(text, now, privmsg)], clock := now)
    case Flush(oldest, moving) => Flushed(s, oldest, moving)
    case Configure(open) => s.(open := open)
  }

  function Run(s: State, es: seq<Event>): State
    decreases es
  {
    if es == [] then s else Run(Step(s, es[0]), es[1..])
  }

  function WrittenBy(e: Event): seq<Entry> {
    if e.Write? then [Entry(e.text, e.now, e.privmsg)] else []
  }

  function Written(es: seq<Event>): seq<Entry> {
    if es == [] then [] else WrittenBy(es[0]) + Written(es[1..])
  }

  /** The lines that a flush takes from the front of the log. */
  function OldLines(log: seq<Entry>, oldest: int): seq<Entry> {
    if log == [] || oldest < log[0].timestamp then [] else [log[0]] + OldLines(log[1..], oldest)
  }

  function RemovedBy(s: State, e: Event): seq<Entry> {
    match e
    case Write(text, privmsg, now, keep) => OldLines(s.log, now - keep)
    case Flush(oldest, moving) => OldLines(s.log, oldest)
    case Configure(open) => []
  }

  /** Whether what the event removes is told to the inbox: a write always moves. */
  predicate Moves(s: State, e: Event) {
    s.open && (e.Write? || (e.Flush? && e.moving))
  }

  /** The lines removed by writes and moving flushes while the inbox is open. */
  function Moved(s: State, es: seq<Event>): seq<Entry>
    decreases es
  {
    if es == [] then []
    else (if Moves(s, es[0]) then RemovedBy(s, es[0]) else []) + Moved(Step(s, es[0]), es[1..])
  }

  lemma NotesOfMore(e: Entry, es: seq<Entry>)
    ensures Notes([e] + es) == NoteFrom(e) + Notes(es)
  {
    assert ([e] + es)[1..] == es;
  }

  lemma {:induction false} NotesAppend(a: seq<Entry>, b: seq<Entry>)
    ensures Notes(a + b) == Notes(a) + Notes(b)
  {
    if a == [] {
      assert a + b == b;
    } else {
      var e, rest := a[0], a[1..];
      assert a + b == [e] + (rest + b);
      NotesOfMore(e, rest + b);
      NotesAppend(rest, b);
      Regroup(NoteFrom(e), Notes(rest), Notes(b));
    }
  }

  /** The past and the log together. */
  function History(s: State): seq<Entry> {
    s.removed + s.log
  }

  /** A flush removes the old lines from the front, and tells of them if it moves. */
  lemma {:induction false} FlushedConserves(s: State, oldest: int, moving: bool)
    ensures var old1, t := OldLines(s.log, oldest), Flushed(s, oldest, moving);
            && s.log == old1 + t.log && t.removed == s.removed + old1
            && t.inbox == s.inbox + (if moving && s.open then Notes(old1) else [])
            && t.open == s.open
    decreases |s.log|
  {
    if s.log == [] || oldest < s.log[0].timestamp {
      assert s.inbox + [] == s.inbox;
    } else {
      var old2 := OldLines(s.log[1..], oldest);
      FlushedConserves(Popped(s, moving), oldest, moving);
      assert ([s.log[0]] + old2)[1..] == old2;
      Regroup(s.removed, [s.log[0]], old2);
      Regroup(s.inbox, NoteFrom(s.log[0]), Notes(old2));
    }
  }

  predicate Conserves(s: State, e: Event) {
    && History(Step(s, e)) == History(s) + WrittenBy(e)
    && Step(s, e).removed == s.removed + RemovedBy(s, e)
    && Step(s, e).inbox == s.inbox + (if Moves(s, e) then Notes(RemovedBy(s, e)) else [])
  }

  lemma WriteConserves(s: State, text: CString, privmsg: bool, now: int, keep: int)
    ensures Conserves(s, Write(text, privmsg, now, keep))
  {
    FlushedConserves(s, now - keep, true);
    var s1, e := Flushed(s, now - keep, true), Entry(text, now, privmsg);
    Regroup(s1.removed, s1.log, [e]);
    Regroup(s.removed, OldLines(s.log, now - keep), s1.log);
  }

  lemma FlushConserves(s: State, oldest: int, moving: bool)
    ensures Conserves(s, Flush(oldest, moving))
  {
    FlushedConserves(s, oldest, moving);
    Regroup(s.removed, OldLines(s.log, oldest), Flushed(s, oldest, moving).log);
    assert History(s) + [] == History(s);
  }

  lemma StepConserves(s: State, e: Event)
    ensures Conserves(s, e)
  {
    match e
    case Write(text, privmsg, now, keep) => WriteConserves(s, text, privmsg, now, keep);
    case Flush(oldest, moving) => FlushConserves(s, oldest, moving);
    case Configure(open) =>
      assert History(s) + [] == History(s) && s.removed + [] == s.removed;
  }

  /** In every run the lines written are the lines removed followed by the log. */
  lemma {:induction false} HistoryIsConserved(s: State, es: seq<Event>)
    ensures History(Run(s, es)) == History(s) + Written(es)
    decreases es
  {
    if es != [] {
      StepConserves(s, es[0]);
      HistoryIsConserved(Step(s, es[0]), es[1..]);
      Regroup(History(s), WrittenBy(es[0]), Written(es[1..]));
    }
  }

  /** In every run the inbox gets a note for each private line that can be told,
      once, in order, of those removed by writes and moving flushes while it is
      open, and of no other. */
  lemma {:induction false} InboxTellsOfMoved(s: State, es: seq<Event>)
    ensures Run(s, es).inbox == s.inbox + Notes(Moved(s, es))
    decreases es
  {
    if es != [] {
      var first, rest := if Moves(s, es[0]) then RemovedBy(s, es[0]) else [], Moved(Step(s, es[0]), es[1..]);
      StepConserves(s, es[0]);
      InboxTellsOfMoved(Step(s, es[0]), es[1..]);
      NotesAppend(first, rest);
      Regroup(s.inbox, Notes(first), Notes(rest));
    }
  }

  /** What the last rehash of the run said of the inbox, if there was one. */
  function LastConfigured(es: seq<Event>, open: bool): bool {
    if es == [] then open else LastConfigured(es[1..], if es[0].Configure? then es[0].open else open)
  }

  /** The inbox is open or closed as was configured last; nothing else opens or
      closes it. */
  lemma {:induction false} OpenAsConfigured(s: State, es: seq<Event>)
    ensures Run(s, es).open == LastConfigured(es, s.open)
    decreases es
  {
    if es != [] {
      if es[0].Write? {
        FlushedConserves(s, es[0].now - es[0].keep, true);
      } else if es[0].Flush? {
        FlushedConserves(s, es[0].oldest, es[0].moving);
      }
      OpenAsConfigured(Step(s, es[0]), es[1..]);
    }
  }

  // The order of the log.

  predicate Sorted(es: seq<Entry>) {
    forall i, j :: 0 <= i < j < |es| ==> es[i].timestamp <= es[j].timestamp
  }

  predicate Ordered(s: State) {
    Sorted(s.log) && forall i :: 0 <= i < |s.log| ==> s.log[i].timestamp <= s.clock
  }

  /** No line is written with a time before that of the one before. */
  predicate ClockGoesOn(clock: int, es: seq<Event>)
    decreases es
  {
    es == [] || if es[0].Write? then clock <= es[0].now && ClockGoesOn(es[0].now, es[1..])
                else ClockGoesOn(clock, es[1..])
  }

  function Newer(es: seq<Entry>, oldest: int): seq<Entry> {
    if es == [] then [] else (if oldest < es[0].timestamp then [es[0]] else []) + Newer(es[1..], oldest)
  }

  lemma {:induction false} NewerOfNew(es: seq<Entry>, oldest: int)
    requires forall i :: 0 <= i < |es| ==> oldest < es[i].timestamp
    ensures Newer(es, oldest) == es
  {
    if es != [] {
      NewerOfNew(es[1..], oldest);
    }
  }

  /** On a sorted log, dropping a prefix is the same as keeping what is newer. */
  lemma {:induction false} FlushIsFilter(s: State, oldest: int, moving: bool)
    requires Ordered(s)
    ensures Flushed(s, oldest, moving).log == Newer(s.log, oldest) && Ordered(Flushed(s, oldest, moving))
    ensures Flushed(s, oldest, moving).clock == s.clock
    decreases |s.log|
  {
    if s.log != [] {
      if oldest < s.log[0].timestamp {
        NewerOfNew(s.log, oldest);
      } else {
        FlushIsFilter(Popped(s, moving), oldest, moving);
      }
    }
  }

  /** A write leaves the lines that are newer than its window, and its own. */
  lemma WriteKeepsWindow(s: State, text: CString, privmsg: bool, now: int, keep: int)
    requires Ordered(s)
    ensures Step(s, Write(text, privmsg, now, keep)).log
         == Newer(s.log, now - keep) + [Entry(text, now, privmsg)]
  {
    FlushIsFilter(s, now - keep, true);
  }

  /** On an unsorted log the two differ: an old line behind a new one stays. */
  lemma UnsortedFlushDiffers()
    ensures var log := [Entry("", 2, false), Entry("", 1, false)];
            Flushed(State(log, [], [], true, 2), 1, true).log != Newer(log, 1)
  {
    var log := [Entry("", 2, false), Entry("", 1, false)];
    assert log[1..] == [Entry("", 1, false)] && log[1..][1..] == [];
  }

  predicate FlushFilters(s: State, oldest: int, moving: bool) {
    Flushed(s, oldest, moving).log == Newer(s.log, oldest)
  }

  predicate NoOldBehindNew(es: seq<Entry>, oldest: int) {
    forall i, j :: 0 <= i < j < |es| && oldest < es[i].timestamp ==> oldest < es[j].timestamp
  }

  lemma {:induction false} NewerAreNew(es: seq<Entry>, oldest: int)
    ensures forall e :: e in Newer(es, oldest) ==> oldest < e.timestamp
  {
    if es != [] {
      NewerAreNew(es[1..], oldest);
    }
  }

  lemma OldFirstIsNoMatter(es: seq<Entry>, oldest: int)
    requires es != [] && es[0].timestamp <= oldest
    ensures NoOldBehindNew(es, oldest) <==> NoOldBehindNew(es[1..], oldest)
  {
    forall i | 0 <= i < |es[1..]| ensures es[1..][i] == es[i + 1] {}
    if NoOldBehindNew(es[1..], oldest) {
      forall i, j | 0 <= i < j < |es| && oldest < es[i].timestamp
        ensures oldest < es[j].timestamp
      {
        assert es[1..][i - 1] == es[i] && es[1..][j - 1] == es[j];
      }
    }
  }

  lemma NewFirstDecides(es: seq<Entry>, oldest: int)
    requires es != [] && oldest < es[0].timestamp
    ensures es == Newer(es, oldest) <==> NoOldBehindNew(es, oldest)
  {
    if NoOldBehindNew(es, oldest) {
      NewerOfNew(es, oldest);
    } else {
      var j :| 0 <= j < |es| && es[j].timestamp <= oldest;
      NewerAreNew(es, oldest);
      assert es[j] !in Newer(es, oldest);
    }
  }

  /** A flush drops exactly what is too old if and only if no line too old
      stands behind one that is not. */
  lemma {:induction false} FlushIsFilterIff(s: State, oldest: int, moving: bool)
    ensures FlushFilters(s, oldest, moving) <==> NoOldBehindNew(s.log, oldest)
    decreases |s.log|
  {
    if s.log != [] {
      if s.log[0].timestamp <= oldest {
        FlushIsFilterIff(Popped(s, moving), oldest, moving);
        OldFirstIsNoMatter(s.log, oldest);
      } else {
        NewFirstDecides(s.log, oldest);
      }
    }
  }

  /** Whatever age is flushed, that is so if and only if the log is sorted. */
  lemma SortedIffFlushesFilter(s: State, moving: bool)
    ensures Sorted(s.log) <==> forall oldest: int :: FlushFilters(s, oldest, moving)
  {
    forall oldest: int
      ensures FlushFilters(s, oldest, moving) <==> NoOldBehindNew(s.log, oldest)
    {
      FlushIsFilterIff(s, oldest, moving);
    }
    if forall oldest: int :: FlushFilters(s, oldest, moving) {
      forall i, j | 0 <= i < j < |s.log|
        ensures s.log[i].timestamp <= s.log[j].timestamp
      {
        assert FlushFilters(s, s.log[i].timestamp - 1, moving);
      }
    }
  }

  /** Under a clock that does not go back the log stays sorted, so that a flush
      anywhere in the run drops exactly the lines that are too old. */
  lemma {:induction false} LogStaysSorted(s: State, es: seq<Event>)
    requires Ordered(s) && ClockGoesOn(s.clock, es)
    ensures Ordered(Run(s, es))
    decreases es
  {
    if es != [] {
      if es[0].Write? {
        FlushIsFilter(s, es[0].now - es[0].keep, true);
      } else if es[0].Flush? {
        FlushIsFilter(s, es[0].oldest, es[0].moving);
      }
      LogStaysSorted(Step(s, es[0]), es[1..]);
    }
  }

  // ------------------------------------------------------------------
  // The code's own form.

  class Log {
    var log: seq<Entry>
    var inbox: seq<Note>
    var inboxOpen: bool
    ghost var removed: seq<Entry>
    ghost var clock: int

    ghost function Now(): State
      reads this
    {
      State(log, removed, inbox, inboxOpen, clock)
    }

    constructor (inboxOpen: bool)
      ensures Now() == Initial(inboxOpen)
    {
      this.inboxOpen := inboxOpen;
      log, removed, inbox, clock := [], [], [], 0;
    }

    method Drop(oldest: int, moveToInbox: bool)
      requires forall e :: e in log && e.privmsg ==> e.text != []
      modifies this
      ensures forall e :: e in log ==> e in old(log)
      ensures Now() == Step(old(Now()), Flush(oldest, moveToInbox))
    {
      while log != []
        invariant forall e :: e in log ==> e in old(log)
        invariant Flushed(Now(), oldest, moveToInbox) == old(Flushed(Now(), oldest, moveToInbox))
        decreases |log|
      {
        ghost var before := Now();
        var entry := log[0];
        if entry.timestamp > oldest {
          break;
        }
        if entry.privmsg && moveToInbox {
          var message := SeekPayload(entry.text, 1);
          if message < |entry.text| {
            var end := WordEnd(entry.text);
            WordEndsApart(entry.text);
            if end != message && inboxOpen {
              inbox := inbox + [Note(entry.timestamp, entry.text[1..end], Payload(entry.text, message, end))];
            }
          }
        }
        removed := removed + [entry];
        log := log[1..];
        assert Now() == Popped(before, moveToInbox);
      }
    }

    /** The part of rehash that opens or closes the inbox. */
    method Reopen(open: bool)
      modifies this`inboxOpen
      ensures Now() == Step(old(Now()), Configure(open))
    {
      if !open && inboxOpen {
        inboxOpen := false;
      }
      if open && !inboxOpen {
        inboxOpen := true;
      }
    }

    method Append(privmsg: bool, text: CString, now: int, keep: int)
      requires forall e :: e in log && e.privmsg ==> e.text != []
      requires privmsg ==> text != []
      modifies this
      ensures forall e :: e in log && e.privmsg ==> e.text != []
      ensures Now() == Step(old(Now()), Write(text, privmsg, now, keep))
    {
      Drop(now - keep, true);
      log := log + [Entry(text, now, privmsg)];
      clock := now;
    }
  }
}
