/**
 Lines on the wire: how miau cuts them to its buffer (src/irc.c), and how the
 other side takes them apart (RFC 2812, sections 2.3 and 2.3.1).
 */
module Messages {
  import opened Ascii

  const IRC_MSGLEN := 520
  /** What vsnprintf leaves room for, CR LF and the terminators set aside. */
  const MAX_TEXT := IRC_MSGLEN - 3
  /** The longest message of the RFC without its CR LF. */
  const MAX_MESSAGE := 510

  /** The text of a line as it is put into the buffer. */
  function Formatted(text: CString): (t: CString)
    ensures t <= text && |t| == if |text| <= 517 then |text| else 517
  {
    if |text| <= MAX_TEXT then text else text[..MAX_TEXT]
  }

  /** What a server takes of a text: up to CR, LF or the limit. */
  function Received(text: CString, room: nat): (r: CString)
    ensures r <= text
  {
    if text == [] || room == 0 || text[0] == '\r' || text[0] == '\n' then []
    else
      var r: CString := [text[0]] + Received(text[1..], room - 1);
      r
  }

  function FirstBlank(s: string): (k: nat)
    ensures k <= |s| && (k < |s| ==> s[k] == ' ') && forall j :: 0 <= j < k ==> s[j] != ' '
  {
    if s == [] || s[0] == ' ' then 0 else 1 + FirstBlank(s[1..])
  }

  /** The command and the parameters: words between blanks, and a last one that
      begins with a colon and goes on to the end. */
  function Parts(s: CString): seq<CString>
    decreases |s|
  {
    if s == [] then []
    else if s[0] == ' ' then Parts(s[1..])
    else if s[0] == ':' then [s[1..]]
    else [s[..FirstBlank(s)]] + Parts(s[FirstBlank(s)..])
  }

  /** What the server reads of a line that miau writes. */
  function ServerReads(text: CString): seq<CString> {
    Parts(Received(Formatted(text), MAX_MESSAGE))
  }

  /** A word that can stand anywhere in a message. */
  predicate IsMiddle(w: string) {
    w != [] && w[0] != ':' && ' ' !in w
  }

  /** Words with a blank between any two. */
  function Spaced(ws: seq<CString>): CString {
    if ws == [] then [] else if |ws| == 1 then ws[0] else ws[0] + [' '] + Spaced(ws[1..])
  }

  /** The length of the words, with a blank after each. */
  function Weight(ws: seq<CString>): nat {
    if ws == [] then 0 else |ws[0]| + 1 + Weight(ws[1..])
  }

  lemma {:induction false} SpacedLength(ws: seq<CString>)
    requires ws != []
    ensures |Spaced(ws)| + 1 == Weight(ws)
  {
    if |ws| != 1 {
      SpacedLength(ws[1..]);
    }
  }

  lemma WeightOfMore(w: CString, ws: seq<CString>)
    ensures Weight([w] + ws) == |w| + 1 + Weight(ws)
  {
    assert ([w] + ws)[1..] == ws;
  }

  /** Parts take no more room than the text; and if they take it all, each is a
      word that can stand anywhere. */
  lemma {:induction false} PartsWeigh(s: CString)
    ensures Weight(Parts(s)) <= |s| + 1
    ensures Weight(Parts(s)) == |s| + 1 ==> forall w :: w in Parts(s) ==> IsMiddle(w)
    decreases |s|
  {
    if s == [] {
    } else if s[0] == ' ' {
      PartsWeigh(s[1..]);
    } else if s[0] == ':' {
      WeightOfMore(s[1..], []);
    } else {
      var k := FirstBlank(s);
      WeightOfMore(s[..k], Parts(s[k..]));
      if k < |s| {
        PartsWeigh(s[k + 1..]);
        assert s[k..][1..] == s[k + 1..];
      }
      assert IsMiddle(s[..k]);
    }
  }

  lemma PartsOfWord(w: CString, rest: CString)
    requires IsMiddle(w) && (rest == [] || rest[0] == ' ')
    ensures Parts(w + rest) == [w] + Parts(rest)
  {
    var s: CString := w + rest;
    assert FirstBlank(s) == |w| by {
      assert |w| < |s| ==> s[|w|] == ' ';
      assert forall j :: 0 <= j < |w| ==> s[j] == w[j];
    }
    assert s[..|w|] == w && s[|w|..] == rest;
  }

  lemma {:induction false} PartsOfSpaced(ws: seq<CString>)
    requires forall w :: w in ws ==> IsMiddle(w)
    ensures Parts(Spaced(ws)) == ws
  {
    if ws == [] {
    } else if |ws| == 1 {
      assert IsMiddle(ws[0]);
      PartsOfWord(ws[0], []);
      assert ws[0] + [] == ws[0];
    } else {
      var rest: CString := [' '] + Spaced(ws[1..]);
      assert IsMiddle(ws[0]);
      PartsOfWord(ws[0], rest);
      assert Spaced(ws) == ws[0] + rest && rest[1..] == Spaced(ws[1..]);
      PartsOfSpaced(ws[1..]);
    }
  }

  predicate OnOneLine(s: string) {
    '\r' !in s && '\n' !in s
  }

  lemma {:induction false} ReceivedWhole(text: CString, room: nat)
    ensures Received(text, room) == text <==> |text| <= room && OnOneLine(text)
  {
    if text != [] && room != 0 && text[0] != '\r' && text[0] != '\n' {
      ReceivedWhole(text[1..], room - 1);
      assert text == [text[0]] + text[1..];
      assert Received(text, room)[1..] == Received(text[1..], room - 1);
    }
  }

  /** A server reads the words of a line as they were written if and only if each
      can stand anywhere, the line is one line, and it fits a message. */
  lemma ReadBackIff(ws: seq<CString>)
    requires ws != []
    ensures ServerReads(Spaced(ws)) == ws <==>
            (forall w :: w in ws ==> IsMiddle(w)) && OnOneLine(Spaced(ws)) && |Spaced(ws)| <= MAX_MESSAGE
  {
    var text := Spaced(ws);
    var sent := Formatted(text);
    var read := Received(sent, MAX_MESSAGE);
    SpacedLength(ws);
    PartsWeigh(read);
    ReceivedWhole(text, MAX_MESSAGE);
    if ServerReads(text) == ws {
      assert read <= sent <= text && |text| <= |read|;
      assert read == text == sent;
    }
    if forall w :: w in ws ==> IsMiddle(w) {
      PartsOfSpaced(ws);
    }
  }
}
