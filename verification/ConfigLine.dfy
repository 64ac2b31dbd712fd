/**
 Reading one line of a list in the configuration file (src/parser.c): blanks
 and comments are trimmed, then quoted parameters are split at the colons
 outside quotes.
 */
module ConfigLine {
  import opened Wrappers

  const MAXNUMOFPARAMS := 4

  datatype Parsed =
    | Fields(values: seq<Option<string>>)
    | Malformed
    | Overrun     // more parameters than the array of the code holds
    | NewList     // a line with both '=' and '{'
    | EndOfList

  predicate IsBlank(c: char) {
    c == ' ' || c == '\t'
  }

  predicate Blank(s: string) {
    forall i :: 0 <= i < |s| ==> IsBlank(s[i])
  }

  // ------------------------------------------------------------------
  // Trimming.

  function LeftTrim(s: string): string {
    if s != [] && IsBlank(s[0]) then LeftTrim(s[1..]) else s
  }

  function RightTrim(s: string): string {
    if s != [] && IsBlank(s[|s| - 1]) then RightTrim(s[..|s| - 1]) else s
  }

  /** What comes before the first '#' outside quotes. */
  function CutComment(s: string, inside: bool): string {
    if s == [] || (s[0] == '#' && !inside) then []
    else [s[0]] + CutComment(s[1..], if s[0] == '"' then !inside else inside)
  }

  function Trimmed(s: string, line: bool): string {
    RightTrim(if line then CutComment(LeftTrim(s), false) else LeftTrim(s))
  }

  method FindComment(data: string) returns (n: nat)
    ensures n <= |data| && data[..n] == CutComment(data, false)
  {
    var inside := false;
    n := 0;
    while n < |data|
      invariant n <= |data|
      invariant CutComment(data, false) == data[..n] + CutComment(data[n..], inside)
    {
      assert data[n..][1..] == data[n + 1..];
      if data[n] == '"' {
        inside := !inside;
      } else if data[n] == '#' && !inside {
        break;
      }
      n := n + 1;
    }
  }

  method Trim(s: string, line: bool) returns (r: string)
    ensures r == Trimmed(s, line)
  {
    var start := 0;
    while start < |s| && IsBlank(s[start])
      invariant start <= |s| && LeftTrim(s[start..]) == LeftTrim(s)
    {
      assert s[start..][1..] == s[start + 1..];
      start := start + 1;
    }
    r := s[start..];
    if line {
      var n := FindComment(r);
      r := r[..n];
    }
    ghost var cut := r;
    while r != [] && IsBlank(r[|r| - 1])
      invariant RightTrim(r) == RightTrim(cut)
      decreases |r|
    {
      r := r[..|r| - 1];
    }
  }

  predicate IsPadding(s: string) {
    forall i :: 0 <= i < |s| ==> s[i] == ' ' || s[i] == '\t'
  }

  /** Spaces and tabs around a text are trimmed away, and nothing else. */
  lemma PaddingIsTrimmed(left: string, t: string, right: string)
    requires IsPadding(left) && IsPadding(right) && t != []
    requires t[0] != ' ' && t[0] != '\t' && t[|t| - 1] != ' ' && t[|t| - 1] != '\t'
    ensures Trimmed(left + t + right, false) == t
  {
    assert left + t + right == left + (t + right);
    LeftTrimBlank(left, t + right);
    RightTrimAppend(t, right);
    RightTrimBlank(right);
  }

  // ------------------------------------------------------------------
  // Splitting.

  /** What is left of a trimmed parameter without its quotes. */
  function Unquoted(t: string): string {
    if |t| < 2 then [] else t[1..|t| - 1]
  }

  /** The parameters with one more, read from its text; or why there are none. */
  function TakeUp(text: string, params: seq<Option<string>>): Parsed {
    var t := Trimmed(text, false);
    if t == [] then Fields(params + [None])
    else if t[0] != '"' || t[|t| - 1] != '"' then Malformed
    else if MAXNUMOFPARAMS <= |params| then Overrun
    else Fields(params + [Some(Unquoted(t))])
  }

  /** The loop from `ptr` on, with the current parameter begun at `par` and
      `inside` quotes seen in it. */
  function Scan(data: string, ptr: nat, par: nat, inside: nat, params: seq<Option<string>>): Parsed
    requires par <= ptr <= |data|
    decreases |data| - ptr
  {
    if ptr == |data| || (data[ptr] == ':' && (inside == 0 || inside == 2)) then
      if inside != 0 && inside != 2 then Malformed
      else
        var taken := TakeUp(data[par..ptr], params);
        if !taken.Fields? then taken
        else if ptr < |data| then Scan(data, ptr + 1, ptr + 1, 0, taken.values)
        else if MAXNUMOFPARAMS < |taken.values| then Overrun
        else taken
    else Scan(data, ptr + 1, par, if data[ptr] == '"' then inside + 1 else inside, params)
  }

  function Parse(data: string): Parsed {
    if '=' in data && '{' in data then NewList
    else if data != [] && data[0] == '}' then EndOfList
    else Scan(data, 0, 0, 0, [])
  }

  method ParseListLine(data: string) returns (r: Parsed)
    ensures r == Parse(data)
  {
    if '=' in data && '{' in data {
      return NewList;
    }
    if data != [] && data[0] == '}' {
      return EndOfList;
    }
    var params: seq<Option<string>> := [];
    var ptr, par, inside, eol := 0, 0, 0, false;
    while !eol
      invariant !eol ==> par <= ptr <= |data| && Parse(data) == Scan(data, ptr, par, inside, params)
      invariant eol ==> Parse(data) == if inside != 0 then Malformed
                                       else if MAXNUMOFPARAMS < |params| then Overrun
                                       else Fields(params)
      decreases !eol, |data| - ptr
    {
      if ptr == |data| {
        eol := true;
      } else if data[ptr] == '"' {
        inside := inside + 1;
      }
      if (eol || data[ptr] == ':') && (inside == 0 || inside == 2) {
        var t := Trim(data[par..ptr], false);
        if |t| > 0 {
          if t[|t| - 1] != '"' || t[0] != '"' {
            return Malformed;
          }
          if |params| >= MAXNUMOFPARAMS {
            return Overrun;
          }
          params := params + [Some(Unquoted(t))];
        } else {
          params := params + [None];
        }
        par := ptr + 1;
        inside := 0;
      }
      ptr := ptr + 1;
    }
    if inside != 0 {
      return Malformed;
    }
    r := if |params| > MAXNUMOFPARAMS then Overrun else Fields(params);
  }

  // ------------------------------------------------------------------
  // A printer for such lines.

  /** A parameter as it may be written: left out, or quoted, between blanks. */
  datatype Field = Missing(pad: string) | Quoted(left: string, value: string, right: string)

  /** What can stand on a line of the file: no line end, and no terminator. */
  predicate OnLine(s: string) {
    '\n' !in s && '\0' !in s
  }

  predicate WellFormed(f: Field) {
    match f
    case Missing(pad) => Blank(pad)
    case Quoted(left, value, right) => Blank(left) && Blank(right) && '"' !in value && OnLine(value)
  }

  predicate AllWellFormed(fs: seq<Field>) {
    forall i :: 0 <= i < |fs| ==> WellFormed(fs[i])
  }

  function Value(f: Field): Option<string> {
    match f
    case Missing(_) => None
    case Quoted(_, value, _) => Some(value)
  }

  function Values(fs: seq<Field>): seq<Option<string>> {
    seq(|fs|, i requires 0 <= i < |fs| => Value(fs[i]))
  }

  function Written(f: Field): string {
    match f
    case Missing(pad) => pad
    case Quoted(left, value, right) => left + ['"'] + value + ['"'] + right
  }

  function Render(fs: seq<Field>): string {
    if fs == [] then []
    else if |fs| == 1 then Written(fs[0])
    else Written(fs[0]) + [':'] + Render(fs[1..])
  }

  // The splitter reads back what the printer wrote.

  /** Between `ptr` and `end` the loop only moves on. */
  lemma {:induction false} ScanPasses(data: string, ptr: nat, end: nat, par: nat, inside: nat,
                                      params: seq<Option<string>>)
    requires par <= ptr <= end <= |data|
    requires forall k :: ptr <= k < end ==> data[k] != '"' && (data[k] == ':' ==> inside == 1)
    ensures Scan(data, ptr, par, inside, params) == Scan(data, end, par, inside, params)
    decreases end - ptr
  {
    if ptr < end {
      ScanPasses(data, ptr + 1, end, par, inside, params);
    }
  }

  lemma {:induction false} LeftTrimBlank(pad: string, s: string)
    requires Blank(pad)
    ensures LeftTrim(pad + s) == LeftTrim(s)
  {
    if pad == [] {
      assert pad + s == s;
    } else {
      assert (pad + s)[1..] == pad[1..] + s;
      LeftTrimBlank(pad[1..], s);
    }
  }

  lemma {:induction false} RightTrimAppend(a: string, b: string)
    ensures RightTrim(a + b) == if RightTrim(b) != [] then a + RightTrim(b) else RightTrim(a)
    decreases |b|
  {
    if b == [] {
      assert a + b == a;
    } else if IsBlank(b[|b| - 1]) {
      assert (a + b)[..|a + b| - 1] == a + b[..|b| - 1];
      RightTrimAppend(a, b[..|b| - 1]);
    }
  }

  lemma {:induction false} RightTrimBlank(pad: string)
    requires Blank(pad)
    ensures RightTrim(pad) == []
    decreases |pad|
  {
    if pad != [] {
      RightTrimBlank(pad[..|pad| - 1]);
    }
  }

  function Quote(value: string): string {
    ['"'] + value + ['"']
  }

  lemma TrimmedField(f: Field)
    requires WellFormed(f)
    ensures Trimmed(Written(f), false) == match f
                                          case Missing(_) => []
                                          case Quoted(_, value, _) => Quote(value)
  {
    match f
    case Missing(pad) =>
      assert pad + [] == pad;
      LeftTrimBlank(pad, []);
    case Quoted(left, value, right) =>
      assert Written(f) == left + (Quote(value) + right);
      LeftTrimBlank(left, Quote(value) + right);
      RightTrimAppend(Quote(value), right);
      RightTrimBlank(right);
  }

  /** The number of quotes the loop has seen at the end of a field. */
  function Quotes(f: Field): nat {
    if f.Missing? then 0 else 2
  }

  /** Where the characters of a field lie. */
  lemma WrittenAt(f: Field, k: nat)
    requires WellFormed(f) && k < |Written(f)|
    ensures f.Missing? ==> IsBlank(Written(f)[k])
    ensures f.Quoted? ==> var close := |f.left| + 1 + |f.value|;
                          if k == |f.left| || k == close then Written(f)[k] == '"'
                          else if |f.left| < k < close then Written(f)[k] != '"'
                          else IsBlank(Written(f)[k])
  {
    if f.Quoted? && |f.left| < k < |f.left| + 1 + |f.value| {
      assert Written(f)[k] == f.value[k - |f.left| - 1];
    }
  }

  /** Blank but for two quotes, with anything but a quote between them. */
  predicate QuotedBetween(data: string, par: nat, open: nat, close: nat, end: nat)
    requires par <= open < close < end <= |data|
  {
    forall k :: par <= k < end ==>
      if k == open || k == close then data[k] == '"'
      else if open < k < close then data[k] != '"'
      else IsBlank(data[k])
  }

  lemma ScanField(data: string, par: nat, f: Field, params: seq<Option<string>>)
    requires WellFormed(f) && par + |Written(f)| <= |data|
    requires data[par..par + |Written(f)|] == Written(f)
    ensures Scan(data, par, par, 0, params) == Scan(data, par + |Written(f)|, par, Quotes(f), params)
  {
    var w := Written(f);
    var end := par + |w|;
    forall k | par <= k < end
      ensures data[k] == w[k - par]
    {
      assert data[par..end][k - par] == data[k];
    }
    if f.Missing? {
      forall k | par <= k < end ensures IsBlank(data[k]) { WrittenAt(f, k - par); }
      ScanPasses(data, par, end, par, 0, params);
    } else {
      var open, close := par + |f.left|, par + |f.left| + 1 + |f.value|;
      assert QuotedBetween(data, par, open, close, end) by {
        forall k | par <= k < end
          ensures if k == open || k == close then data[k] == '"'
                  else if open < k < close then data[k] != '"'
                  else IsBlank(data[k])
        {
          WrittenAt(f, k - par);
        }
      }
      ScanQuoted(data, par, open, close, end, params);
    }
  }

  lemma ScanQuoted(data: string, par: nat, open: nat, close: nat, end: nat, params: seq<Option<string>>)
    requires par <= open < close < end <= |data| && QuotedBetween(data, par, open, close, end)
    ensures Scan(data, par, par, 0, params) == Scan(data, end, par, 2, params)
  {
    ScanPasses(data, par, open, par, 0, params);
    ScanPasses(data, open + 1, close, par, 1, params);
    ScanPasses(data, close + 1, end, par, 2, params);
  }

  /** At the colon after a field, its value is taken up. */
  lemma ScanTakesMore(data: string, par: nat, end: nat, f: Field, params: seq<Option<string>>)
    requires WellFormed(f) && |params| < MAXNUMOFPARAMS
    requires end == par + |Written(f)| < |data| && data[par..end] == Written(f) && data[end] == ':'
    ensures Scan(data, par, par, 0, params) == Scan(data, end + 1, end + 1, 0, params + [Value(f)])
  {
    ScanField(data, par, f, params);
    TakesValue(f, params);
  }

  /** And at the end of the line. */
  lemma ScanTakesLast(data: string, par: nat, f: Field, params: seq<Option<string>>)
    requires WellFormed(f) && |params| < MAXNUMOFPARAMS
    requires par <= |data| && data[par..] == Written(f)
    ensures Scan(data, par, par, 0, params) == Fields(params + [Value(f)])
  {
    assert data[par..|data|] == Written(f);
    ScanField(data, par, f, params);
    TakesValue(f, params);
  }

  lemma TakesValue(f: Field, params: seq<Option<string>>)
    requires WellFormed(f) && |params| < MAXNUMOFPARAMS
    ensures TakeUp(Written(f), params) == Fields(params + [Value(f)])
  {
    TrimmedField(f);
    if f.Quoted? {
      assert Unquoted(Quote(f.value)) == f.value;
    }
  }

  lemma PartsOfTail(data: string, par: nat, w: string, rest: string)
    requires par <= |data| && data[par..] == w + [':'] + rest
    ensures var end := par + |w|;
            end < |data| && data[par..end] == w && data[end] == ':' && data[end + 1..] == rest
  {
    var tail, end := data[par..], par + |w|;
    assert |tail| == |w| + 1 + |rest|;
    assert tail[..|w|] == w && data[par..end] == tail[..|w|];
    assert tail[|w|] == ':' && data[end] == tail[|w|];
    assert tail[|w| + 1..] == rest && data[end + 1..] == tail[|w| + 1..];
  }

  lemma {:induction false} ScanReadsBack(data: string, par: nat, fs: seq<Field>, params: seq<Option<string>>)
    requires fs != [] && AllWellFormed(fs) && |params| + |fs| <= MAXNUMOFPARAMS
    requires par <= |data| && data[par..] == Render(fs)
    ensures Scan(data, par, par, 0, params) == Fields(params + Values(fs))
    decreases |fs|
  {
    var f, rest := fs[0], fs[1..];
    if |fs| == 1 {
      ScanTakesLast(data, par, f, params);
      assert params + Values(fs) == params + [Value(f)];
    } else {
      var end, taken := ScanOneOfMany(data, par, f, Render(rest), params);
      ScanReadsBack(data, end, rest, taken);
      ValuesSplit(params, fs);
    }
  }

  /** Where the first of several fields ends, and what is taken up till then. */
  lemma ScanOneOfMany(data: string, par: nat, f: Field, rest: string, params: seq<Option<string>>)
    returns (next: nat, taken: seq<Option<string>>)
    requires WellFormed(f) && |params| < MAXNUMOFPARAMS
    requires par <= |data| && data[par..] == Written(f) + [':'] + rest
    ensures taken == params + [Value(f)] && par < next <= |data| && data[next..] == rest
    ensures Scan(data, par, par, 0, params) == Scan(data, next, next, 0, taken)
  {
    var end := par + |Written(f)|;
    next, taken := end + 1, params + [Value(f)];
    PartsOfTail(data, par, Written(f), rest);
    ScanTakesMore(data, par, end, f, params);
  }

  lemma ValuesSplit(params: seq<Option<string>>, fs: seq<Field>)
    requires fs != []
    ensures params + Values(fs) == params + [Value(fs[0])] + Values(fs[1..])
  {
  }

  // And nothing but what the printer can write is split at all.

  function QuoteCount(s: string): nat {
    if s == [] then 0 else QuoteCount(s[..|s| - 1]) + if s[|s| - 1] == '"' then 1 else 0
  }

  lemma {:induction false} QuoteCountAppend(a: string, b: string)
    ensures QuoteCount(a + b) == QuoteCount(a) + QuoteCount(b)
    decreases |b|
  {
    if b == [] {
      assert a + b == a;
    } else {
      var n := |b| - 1;
      assert (a + b)[..|a| + n] == a + b[..n];
      QuoteCountAppend(a, b[..n]);
    }
  }

  lemma {:induction false} NoQuotesCounted(s: string)
    ensures QuoteCount(s) == 0 <==> '"' !in s
  {
    if s != [] {
      NoQuotesCounted(s[..|s| - 1]);
      assert s == s[..|s| - 1] + [s[|s| - 1]];
    }
  }

  lemma {:induction false} LeftTrimmed(s: string) returns (left: string)
    ensures Blank(left) && s == left + LeftTrim(s)
  {
    if s != [] && IsBlank(s[0]) {
      var more := LeftTrimmed(s[1..]);
      left := [s[0]] + more;
    } else {
      left := [];
    }
  }

  lemma {:induction false} RightTrimmed(s: string) returns (right: string)
    ensures Blank(right) && s == RightTrim(s) + right
  {
    var n := |s| - 1;
    if s != [] && IsBlank(s[n]) {
      var more := RightTrimmed(s[..n]);
      right := more + [s[n]];
      assert s == s[..n] + [s[n]];
    } else {
      right := [];
    }
  }

  /** Place n holds the first number sign that has before it an even number of
      quotes, or an odd number inside quotes; or it is the end, and none does. */
  predicate IsCommentAt(s: string, inside: bool, n: nat) {
    && n <= |s| && (n < |s| ==> s[n] == '#' && (QuoteCount(s[..n]) % 2 == 1) == inside)
    && forall j :: 0 <= j < n && s[j] == '#' ==> (QuoteCount(s[..j]) % 2 == 1) != inside
  }

  lemma BeginsComment(s: string, inside: bool, n: nat)
    requires 0 < n && IsCommentAt(s, inside, n)
    ensures IsCommentAt(s[1..], if s[0] == '"' then !inside else inside, n - 1)
  {
    var rest := s[1..];
    FirstQuoteCounted(s, n);
    forall j | 0 <= j < n - 1 && rest[j] == '#'
      ensures (QuoteCount(rest[..j]) % 2 == 1) != if s[0] == '"' then !inside else inside
    {
      assert s[j + 1] == '#';
      FirstQuoteCounted(s, j + 1);
    }
  }

  /** The comment begins at the first number sign with an even number of quotes
      before it. */
  lemma {:induction false} CommentIs(s: string, inside: bool, n: nat)
    requires IsCommentAt(s, inside, n)
    ensures CutComment(s, inside) == s[..n]
    decreases n
  {
    assert s[..0] == [];
    if n != 0 {
      var rest, inside1 := s[1..], if s[0] == '"' then !inside else inside;
      BeginsComment(s, inside, n);
      CommentIs(rest, inside1, n - 1);
      assert s[..n] == [s[0]] + rest[..n - 1];
    }
  }

  lemma FirstQuoteCounted(s: string, j: nat)
    requires 1 <= j <= |s|
    ensures QuoteCount(s[..j]) == QuoteCount(s[1..][..j - 1]) + if s[0] == '"' then 1 else 0
  {
    assert s[..j] == [s[0]] + s[1..][..j - 1];
    QuoteCountAppend([s[0]], s[1..][..j - 1]);
    assert [s[0]][..0] == [];
  }

  /** The text of a parameter, and what trimming takes off it. */
  lemma TrimmedParts(w: string) returns (left: string, right: string)
    ensures Blank(left) && Blank(right) && w == left + Trimmed(w, false) + right
  {
    left := LeftTrimmed(w);
    right := RightTrimmed(LeftTrim(w));
  }

  lemma FewQuotesCounted(s: string)
    ensures |s| <= 1 ==> QuoteCount(s) <= 1
  {
    assert |s| == 1 ==> s[..0] == [];
  }

  lemma QuotesOfQuoted(left: string, t: string, right: string)
    requires t != [] && t[0] == '"' && t[|t| - 1] == '"' && Blank(left) && Blank(right)
    requires QuoteCount(left + t + right) == 2
    ensures 2 <= |t| && t == Quote(Unquoted(t)) && '"' !in Unquoted(t)
  {
    QuoteCountAppend(left + t, right);
    QuoteCountAppend(left, t);
    NoQuotesCounted(left);
    NoQuotesCounted(right);
    assert QuoteCount(t) == 2;
    FewQuotesCounted(t);
    var value := t[1..|t| - 1];
    assert t == ['"'] + value + ['"'];
    QuoteCountAppend(['"'] + value, ['"']);
    QuoteCountAppend(['"'], value);
    assert QuoteCount(['"']) == 1 by { assert ['"'][..0] == []; }
    NoQuotesCounted(value);
  }

  /** A text that is taken up is a field as it may be written. */
  lemma FieldOf(w: string, params: seq<Option<string>>) returns (f: Field)
    requires TakeUp(w, params).Fields? && (QuoteCount(w) == 0 || QuoteCount(w) == 2) && OnLine(w)
    ensures WellFormed(f) && Written(f) == w && TakeUp(w, params) == Fields(params + [Value(f)])
  {
    var t := Trimmed(w, false);
    var left, right := TrimmedParts(w);
    if t == [] {
      f := Missing(w);
      assert left + [] + right == left + right;
    } else {
      NoQuotesCounted(w);
      assert w[|left|] == t[0];
      QuotesOfQuoted(left, t, right);
      f := Quoted(left, Unquoted(t), right);
      forall c | c in Unquoted(t) ensures c in w {
        assert c in t;
      }
      assert Written(f) == left + t + right;
    }
  }

  /** A field before others, on the line. */
  lemma PrintedMore(data: string, par: nat, ptr: nat, f: Field, rest: seq<Field>, params: seq<Option<string>>)
    requires par <= ptr < |data| && Written(f) == data[par..ptr] && data[ptr] == ':' && rest != []
    requires Render(rest) == data[ptr + 1..]
    ensures Render([f] + rest) == data[par..] && params + Values([f] + rest) == params + [Value(f)] + Values(rest)
  {
    RenderMore(f, rest);
    assert data[par..] == data[par..ptr] + [data[ptr]] + data[ptr + 1..];
    ValuesSplit(params, [f] + rest);
    assert ([f] + rest)[1..] == rest;
  }

  lemma CountOneMore(data: string, par: nat, ptr: nat)
    requires par <= ptr < |data|
    ensures QuoteCount(data[par..ptr + 1]) == QuoteCount(data[par..ptr]) + if data[ptr] == '"' then 1 else 0
  {
    assert data[par..ptr + 1][..ptr - par] == data[par..ptr];
  }

  lemma OnLinePart(data: string, par: nat, ptr: nat)
    requires par <= ptr <= |data| && OnLine(data)
    ensures OnLine(data[par..ptr])
  {
  }

  lemma {:induction false} ScanWasPrinted(data: string, ptr: nat, par: nat, inside: nat,
                                          params: seq<Option<string>>) returns (fs: seq<Field>)
    requires par <= ptr <= |data| && inside == QuoteCount(data[par..ptr]) && OnLine(data)
    requires Scan(data, ptr, par, inside, params).Fields?
    ensures fs != [] && AllWellFormed(fs) && Render(fs) == data[par..]
    ensures Scan(data, ptr, par, inside, params) == Fields(params + Values(fs))
    ensures |params| + |fs| <= MAXNUMOFPARAMS
    decreases |data| - ptr
  {
    if ptr == |data| {
      OnLinePart(data, par, ptr);
      var f := FieldOf(data[par..ptr], params);
      fs := [f];
      assert params + Values(fs) == params + [Value(f)];
    } else if data[ptr] == ':' && (inside == 0 || inside == 2) {
      OnLinePart(data, par, ptr);
      var f := FieldOf(data[par..ptr], params);
      assert data[ptr + 1..ptr + 1] == [];
      var rest := ScanWasPrinted(data, ptr + 1, ptr + 1, 0, params + [Value(f)]);
      fs := [f] + rest;
      PrintedMore(data, par, ptr, f, rest, params);
    } else {
      CountOneMore(data, par, ptr);
      fs := ScanWasPrinted(data, ptr + 1, par, if data[ptr] == '"' then inside + 1 else inside, params);
    }
  }

  lemma {:induction false} ScanSplitsOrFails(data: string, ptr: nat, par: nat, inside: nat, params: seq<Option<string>>)
    requires par <= ptr <= |data|
    ensures var r := Scan(data, ptr, par, inside, params); r.Fields? || r.Malformed? || r.Overrun?
    decreases |data| - ptr
  {
    if ptr < |data| {
      if data[ptr] == ':' && (inside == 0 || inside == 2) {
        var taken := TakeUp(data[par..ptr], params);
        if taken.Fields? {
          ScanSplitsOrFails(data, ptr + 1, ptr + 1, 0, taken.values);
        }
      } else {
        ScanSplitsOrFails(data, ptr + 1, par, if data[ptr] == '"' then inside + 1 else inside, params);
      }
    }
  }

  /** A line begins a list if and only if it holds both an equals sign and a brace,
      and ends one if and only if it begins with a closing brace and does not. */
  lemma ListLinesIff(data: string)
    ensures Parse(data) == NewList <==> '=' in data && '{' in data
    ensures Parse(data) == EndOfList <==> !('=' in data && '{' in data) && data != [] && data[0] == '}'
  {
    ScanSplitsOrFails(data, 0, 0, 0, []);
  }

  /** The line is what the printer writes of these values. */
  predicate IsPrinted(fs: seq<Field>, data: string, values: seq<Option<string>>) {
    1 <= |fs| <= 4 && AllWellFormed(fs) && Render(fs) == data && Values(fs) == values
  }

  /** A line is split into parameters if and only if it prints one to four of them,
      quoted or left out, and is not the start of a list. */
  lemma ParsesIffPrinted(data: string, values: seq<Option<string>>)
    requires OnLine(data)
    ensures Parse(data) == Fields(values) <==>
            !('=' in data && '{' in data) && exists fs :: IsPrinted(fs, data, values)
  {
    assert data[0..] == data && [] + values == values;
    if Parse(data) == Fields(values) {
      assert data[0..0] == [];
      var fs := ScanWasPrinted(data, 0, 0, 0, []);
      assert [] + Values(fs) == Values(fs);
      assert IsPrinted(fs, data, values);
    }
    if fs :| IsPrinted(fs, data, values) {
      PrintedBegins(fs);
      ScanReadsBack(data, 0, fs, []);
    }
  }

  lemma PrintedBegins(fs: seq<Field>)
    requires fs != [] && AllWellFormed(fs)
    ensures Render(fs) != [] ==> Render(fs)[0] != '}'
  {
    var w := Written(fs[0]);
    assert w != [] ==> w[0] == '"' || IsBlank(w[0]);
  }

  // The line trimmer takes away the outer blanks and the comment, no more.

  function TightLeft(f: Field): Field {
    match f
    case Missing(_) => Missing([])
    case Quoted(_, value, right) => Quoted([], value, right)
  }

  function TightRight(f: Field): Field {
    match f
    case Missing(_) => Missing([])
    case Quoted(left, value, _) => Quoted(left, value, [])
  }

  /** The fields with the outermost blanks of the line removed. */
  function Tight(fs: seq<Field>): seq<Field>
    requires fs != []
  {
    TightEnd([TightLeft(fs[0])] + fs[1..])
  }

  function TightEnd(fs: seq<Field>): seq<Field>
    requires fs != []
  {
    fs[..|fs| - 1] + [TightRight(fs[|fs| - 1])]
  }

  predicate IsComment(c: string) {
    c == [] || (c[0] == '#' && OnLine(c))
  }

  lemma {:induction false} CutCommentPlain(s: string, rest: string, inside: bool)
    requires '"' !in s && (inside || '#' !in s)
    ensures CutComment(s + rest, inside) == s + CutComment(rest, inside)
    decreases |s|
  {
    if s == [] {
      assert s + rest == rest;
    } else {
      assert (s + rest)[1..] == s[1..] + rest;
      CutCommentPlain(s[1..], rest, inside);
    }
  }

  lemma CutCommentQuoted(value: string, rest: string)
    requires '"' !in value
    ensures CutComment(Quote(value) + rest, false) == Quote(value) + CutComment(rest, false)
  {
    var close := ['"'] + rest;
    assert (Quote(value) + rest)[1..] == value + close && close[1..] == rest;
    CutCommentPlain(value, close, true);
    assert ['"'] + (value + (['"'] + CutComment(rest, false))) == Quote(value) + CutComment(rest, false);
  }

  lemma CutCommentField(f: Field, rest: string)
    requires WellFormed(f)
    ensures CutComment(Written(f) + rest, false) == Written(f) + CutComment(rest, false)
  {
    if f.Missing? {
      CutCommentPlain(f.pad, rest, false);
    } else {
      CutCommentPlain(f.left, Quote(f.value) + (f.right + rest), false);
      CutCommentQuoted(f.value, f.right + rest);
      CutCommentPlain(f.right, rest, false);
      FieldParts(f, rest);
      FieldParts(f, CutComment(rest, false));
    }
  }

  lemma FieldParts(f: Field, rest: string)
    requires f.Quoted?
    ensures Written(f) + rest == f.left + (Quote(f.value) + (f.right + rest))
  {
  }

  lemma {:induction false} CutCommentLine(fs: seq<Field>, comment: string)
    requires fs != [] && AllWellFormed(fs) && IsComment(comment)
    ensures CutComment(Render(fs) + comment, false) == Render(fs)
    decreases |fs|
  {
    if |fs| == 1 {
      CutCommentField(fs[0], comment);
    } else {
      var f, rest := fs[0], Render(fs[1..]);
      CutCommentLine(fs[1..], comment);
      CutCommentColon(f, rest + comment);
      assert Render(fs) + comment == Written(f) + [':'] + (rest + comment);
    }
  }

  lemma CutCommentColon(f: Field, rest: string)
    requires WellFormed(f)
    ensures CutComment(Written(f) + [':'] + rest, false) == Written(f) + [':'] + CutComment(rest, false)
  {
    assert Written(f) + [':'] + rest == Written(f) + ([':'] + rest);
    CutCommentField(f, [':'] + rest);
    assert ([':'] + rest)[1..] == rest;
  }

  lemma {:induction false} RightTrimLine(fs: seq<Field>)
    requires fs != [] && AllWellFormed(fs)
    ensures RightTrim(Render(fs)) == Render(TightEnd(fs))
    decreases |fs|
  {
    if |fs| == 1 {
      RightTrimLast(fs[0]);
      assert TightEnd(fs) == [TightRight(fs[0])];
    } else {
      var f, rest := fs[0], fs[1..];
      assert fs == [f] + rest;
      RightTrimLine(rest);
      TightEndMore(f, rest);
      RightTrimInFront(f, rest, TightEnd(rest));
    }
  }

  lemma TightEndMore(f: Field, rest: seq<Field>)
    requires rest != []
    ensures TightEnd([f] + rest) == [f] + TightEnd(rest)
  {
  }

  lemma RightTrimInFront(f: Field, rest: seq<Field>, tight: seq<Field>)
    requires rest != [] && tight != [] && RightTrim(Render(rest)) == Render(tight)
    ensures RightTrim(Render([f] + rest)) == Render([f] + tight)
  {
    RenderMore(f, rest);
    RightTrimMore(Written(f) + [':'], Render(rest));
    RenderMore(f, tight);
  }

  lemma RightTrimLast(f: Field)
    requires WellFormed(f)
    ensures RightTrim(Written(f)) == Written(TightRight(f))
  {
    match f
    case Missing(pad) => RightTrimBlank(pad);
    case Quoted(left, value, right) =>
      assert Written(TightRight(f)) + right == Written(f);
      RightTrimAppend(Written(TightRight(f)), right);
      RightTrimBlank(right);
  }

  /** What ends in a colon is kept. */
  lemma RightTrimMore(head: string, rest: string)
    requires head != [] && head[|head| - 1] == ':'
    ensures RightTrim(head + rest) == head + RightTrim(rest)
  {
    RightTrimAppend(head, rest);
    if RightTrim(rest) == [] {
      assert head + [] == head;
    }
  }

  lemma RenderMore(f: Field, fs: seq<Field>)
    requires fs != []
    ensures Render([f] + fs) == Written(f) + [':'] + Render(fs)
  {
    assert ([f] + fs)[1..] == fs;
  }

  /** The field begins with blanks, and what follows them does not. */
  lemma LeftTrimLine(fs: seq<Field>, comment: string)
    requires AllWellFormed(fs) && (1 < |fs| || (|fs| == 1 && fs[0].Quoted?))
    ensures LeftTrim(Render(fs) + comment) == Render([TightLeft(fs[0])] + fs[1..]) + comment
  {
    var f := fs[0];
    var tight := [TightLeft(f)] + fs[1..];
    var pad := if f.Missing? then f.pad else f.left;
    assert tight[1..] == fs[1..];
    assert Written(f) == pad + Written(TightLeft(f));
    var s := Render(tight) + comment;
    assert Render(fs) + comment == pad + s;
    LeftTrimBlank(pad, s);
    assert s[0] == '"' || s[0] == ':';
  }

  lemma {:induction false} TrimLine(fs: seq<Field>, comment: string)
    requires AllWellFormed(fs) && IsComment(comment) && (1 < |fs| || (|fs| == 1 && fs[0].Quoted?))
    ensures Trimmed(Render(fs) + comment, true) == Render(Tight(fs))
  {
    var tight := [TightLeft(fs[0])] + fs[1..];
    LeftTrimLine(fs, comment);
    CutCommentLine(tight, comment);
    RightTrimLine(tight);
  }

  lemma TightFields(fs: seq<Field>)
    requires fs != [] && AllWellFormed(fs)
    ensures AllWellFormed(Tight(fs)) && Values(Tight(fs)) == Values(fs)
  {
  }

  lemma FirstCharacter(fs: seq<Field>)
    requires AllWellFormed(fs) && (1 < |fs| || (|fs| == 1 && fs[0].Quoted?))
    ensures var line := Render(Tight(fs)); line != [] && (line[0] == '"' || line[0] == ':')
  {
    var first := Tight(fs)[0];
    assert first == TightLeft(fs[0]) || first == TightRight(TightLeft(fs[0]));
    assert Written(first) == [] || Written(first)[0] == '"';
  }

  /** Printing up to four optional values, quoted or left out, with blanks around
      them and a comment after, then trimming and splitting, gives the values, if
      and only if the line does not look like the start of a list. */
  lemma {:induction false} ConfigRoundTrip(fs: seq<Field>, comment: string)
    requires 1 <= |fs| <= MAXNUMOFPARAMS && AllWellFormed(fs) && IsComment(comment)
    requires 1 < |fs| || fs[0].Quoted?
    ensures var line := Render(Tight(fs));
            Parse(Trimmed(Render(fs) + comment, true)) == Fields(Values(fs)) <==> !('=' in line && '{' in line)
  {
    var line := Render(Tight(fs));
    TrimLine(fs, comment);
    TightFields(fs);
    FirstCharacter(fs);
    assert line[0..] == line;
    ScanReadsBack(line, 0, Tight(fs), []);
    assert [] + Values(fs) == Values(fs);
  }
}
