/**
 The wildcard matcher of miau (src/match.c) and the permission lists built on
 it (src/perm.c). The matcher never backtracks: a '*' swallows the text up to
 the first place where the next pattern character occurs and stays there.
 */
module Masks {
  import opened Ascii
  import opened Wrappers

  // ------------------------------------------------------------------
  // What a wildcard pattern means.

  ghost predicate Glob(t: string, p: string)
    decreases |p|
  {
    if p == [] then t == []
    else if p[0] == '*' then exists k :: 0 <= k <= |t| && Glob(t[k..], p[1..])
    else t != [] && (p[0] == '?' || p[0] == t[0]) && Glob(t[1..], p[1..])
  }

  // ------------------------------------------------------------------
  // The matcher.

  /** Whether the loop, with `t` and `p` left to read, ends in success. */
  predicate Accepts(t: CString, p: CString)
    decreases |t| + |p|
  {
    if t == [] then p == [] || p == ['*']
    else if p == [] then false
    else if t[0] == p[0] || p[0] == '?' then Accepts(t[1..], p[1..])
    else if p[0] == '*' then
      if At(t, 0) == At(p, 1) then Accepts(t, p[1..])
      else if At(p, 1) == At(t, 1) then Accepts(t[1..], p[1..])
      else Accepts(t[1..], p)
    else false
  }

  /** The character at `i`, or the terminator. */
  function At(s: CString, i: nat): char {
    if i < |s| then s[i] else '\0'
  }

  method Match(text: CString, pattern: CString) returns (r: bool)
    ensures r == Accepts(Upcase(text), Upcase(pattern))
  {
    var str, pat := Upcase(text), Upcase(pattern);
    var s, p := 0, 0;
    while true
      invariant s <= |str| && p <= |pat|
      invariant Accepts(str[s..], pat[p..]) == Accepts(str, pat)
      decreases |str| - s + |pat| - p
    {
      ghost var t0, p0 := str[s..], pat[p..];
      assert At(t0, 0) == At(str, s) && At(t0, 1) == At(str, s + 1) && At(p0, 1) == At(pat, p + 1);
      if s == |str| && ((p + 1 == |pat| && pat[p] == '*') || p == |pat|) {
        return true;
      }
      if s == |str| || p == |pat| {
        return false;
      }
      assert t0[1..] == str[s + 1..] && p0[1..] == pat[p + 1..];
      if str[s] == pat[p] || pat[p] == '?' {
        s, p := s + 1, p + 1;
      } else if pat[p] == '*' {
        if str[s] == At(pat, p + 1) {
          p := p + 1;
        } else if At(pat, p + 1) == At(str, s + 1) {
          s, p := s + 1, p + 1;
        } else {
          s := s + 1;
        }
      } else {
        return false;
      }
    }
  }

  lemma GlobStar(t: string, p: string, k: nat)
    requires p != [] && p[0] == '*' && k <= |t| && Glob(t[k..], p[1..])
    ensures Glob(t, p)
  {
  }

  /** A '*' that matches after skipping a character matches before it. */
  lemma GlobStarSkip(t: string, p: string)
    requires p != [] && p[0] == '*' && t != [] && Glob(t[1..], p)
    ensures Glob(t, p)
  {
    var k :| 0 <= k <= |t[1..]| && Glob(t[1..][k..], p[1..]);
    assert t[1..][k..] == t[k + 1..];
    GlobStar(t, p, k + 1);
  }

  /** Whatever the matcher accepts, the pattern describes. */
  lemma {:induction false} AcceptsIsSound(t: CString, p: CString)
    requires Accepts(t, p)
    ensures Glob(t, p)
    decreases |t| + |p|
  {
    if t == [] {
      if p == ['*'] {
        assert Glob(t[0..], p[1..]);
      }
    } else if t[0] == p[0] || p[0] == '?' {
      AcceptsIsSound(t[1..], p[1..]);
      if p[0] == '*' {
        GlobStar(t, p, 1);
      }
    } else if At(t, 0) == At(p, 1) {
      AcceptsIsSound(t, p[1..]);
      assert t[0..] == t;
      GlobStar(t, p, 0);
    } else if At(p, 1) == At(t, 1) {
      AcceptsIsSound(t[1..], p[1..]);
      GlobStar(t, p, 1);
    } else {
      AcceptsIsSound(t[1..], p);
      GlobStarSkip(t, p);
    }
  }

  // ------------------------------------------------------------------
  // Exactly which language the matcher decides, for text without '*'.

  /** The first place of `c` in `t`, or the length of `t`. */
  function FirstIndex(t: string, c: char): (k: nat)
    ensures k <= |t| && (k < |t| ==> t[k] == c)
    ensures forall j :: 0 <= j < k ==> t[j] != c
  {
    if t == [] || t[0] == c then 0 else 1 + FirstIndex(t[1..], c)
  }

  /** Every '*' but a last one is committed to the first occurrence of the
      character after it, taken literally even if it is a wildcard. */
  predicate Committed(t: string, p: string)
    decreases |p|
  {
    if p == [] then t == []
    else if p == ['*'] then true
    else if p[0] == '*' then
      var k := FirstIndex(t, p[1]);
      k < |t| && Committed(t[k..], p[1..])
    else t != [] && (p[0] == '?' || p[0] == t[0]) && Committed(t[1..], p[1..])
  }

  lemma CommittedSkip(t: string, p: string)
    requires t != [] && 1 < |p| && p[0] == '*' && t[0] != p[1]
    ensures Committed(t, p) == Committed(t[1..], p)
  {
    var k := FirstIndex(t[1..], p[1]);
    assert t[1..][k..] == t[k + 1..];
  }

  lemma {:induction false} AcceptsIsCommitted(t: CString, p: CString)
    requires '*' !in t
    ensures Accepts(t, p) == Committed(t, p)
    decreases |t| + |p|
  {
    if t == [] || p == [] {
    } else if t[0] == p[0] || p[0] == '?' {
      AcceptsIsCommitted(t[1..], p[1..]);
    } else if p[0] == '*' {
      if At(t, 0) == At(p, 1) {
        AcceptsIsCommitted(t, p[1..]);
        assert t[0..] == t;
      } else if At(p, 1) == At(t, 1) {
        AcceptsIsCommitted(t[1..], p[1..]);
        if 1 < |p| {
          CommittedSkip(t, p);
          assert t[1..][0..] == t[1..];
        }
      } else {
        AcceptsIsCommitted(t[1..], p);
        if 1 < |p| {
          CommittedSkip(t, p);
        }
      }
    }
  }

  /** Every '*' is last, or followed by a plain character that the text holds
      at most once. */
  predicate Anchored(t: string, p: string) {
    forall i :: 0 <= i < |p| - 1 && p[i] == '*' ==>
      p[i + 1] != '*' && p[i + 1] != '?' && AtMostOnce(t, p[i + 1])
  }

  predicate AtMostOnce(t: string, c: char) {
    forall i, j :: 0 <= i < j < |t| && t[i] == c ==> t[j] != c
  }

  lemma AnchoredTail(t: string, p: string, k: nat)
    requires p != [] && k <= |t| && Anchored(t, p)
    ensures Anchored(t[k..], p[1..])
  {
    forall i | 0 <= i < |p[1..]| - 1 && p[1..][i] == '*'
      ensures p[1..][i + 1] != '*' && p[1..][i + 1] != '?' && AtMostOnce(t[k..], p[1..][i + 1])
    {
      assert p[i + 1] == '*' && p[1..][i + 1] == p[i + 2];
    }
  }

  /** A plain character of the pattern is the next of the text. */
  lemma PlainComesNext(t: string, p: string)
    requires Glob(t, p) && p != [] && p[0] != '*' && p[0] != '?'
    ensures t != [] && t[0] == p[0]
  {
  }

  lemma StarStopsAt(t: string, p: string) returns (k: nat)
    requires Glob(t, p) && p != [] && p[0] == '*'
    ensures k <= |t| && Glob(t[k..], p[1..])
  {
    k :| 0 <= k <= |t| && Glob(t[k..], p[1..]);
  }

  lemma CommittedAt(t: string, p: string, k: nat)
    requires 1 < |p| && p[0] == '*' && k < |t| && t[k] == p[1] && AtMostOnce(t, p[1])
    requires Committed(t[k..], p[1..])
    ensures Committed(t, p)
  {
    assert FirstIndex(t, p[1]) == k;
  }

  lemma {:induction false} GlobIsCommitted(t: string, p: string)
    requires Glob(t, p) && Anchored(t, p)
    ensures Committed(t, p)
    decreases |p|
  {
    if p == [] || p == ['*'] {
    } else if p[0] == '*' {
      var k := StarStopsAt(t, p);
      PlainComesNext(t[k..], p[1..]);
      AnchoredTail(t, p, k);
      GlobIsCommitted(t[k..], p[1..]);
      CommittedAt(t, p, k);
    } else {
      AnchoredTail(t, p, 1);
      GlobIsCommitted(t[1..], p[1..]);
    }
  }

  /** For anchored patterns the matcher decides the glob language. */
  lemma AcceptsIffGlob(t: CString, p: CString)
    requires '*' !in t && Anchored(t, p)
    ensures Accepts(t, p) <==> Glob(t, p)
  {
    if Accepts(t, p) {
      AcceptsIsSound(t, p);
    }
    if Glob(t, p) {
      GlobIsCommitted(t, p);
      AcceptsIsCommitted(t, p);
    }
  }

  // For any text: where an asterisk of the text stands in the way.

  /** The first place of `c` or of an asterisk in `t`, or the length of `t`. */
  function FirstStop(t: string, c: char): (k: nat)
    ensures k <= |t| && (k < |t| ==> t[k] == c || t[k] == '*')
    ensures forall j :: 0 <= j < k ==> t[j] != c && t[j] != '*'
  {
    if t == [] || t[0] == c || t[0] == '*' then 0 else 1 + FirstStop(t[1..], c)
  }

  /** A '*' goes to the first place of the character after it, or to the first
      asterisk of the text if that comes before, which it takes as its own; a last
      '*' takes all up to an asterisk, which must be the end. */
  predicate Stopped(t: string, p: string)
    decreases |p|, |t|
  {
    if p == [] then t == []
    else if p[0] != '*' then t != [] && (p[0] == '?' || p[0] == t[0]) && Stopped(t[1..], p[1..])
    else if |p| == 1 then |t| <= FirstStop(t, '*') + 1
    else
      var k := FirstStop(t, p[1]);
      && k < |t|
      && if t[k] != '*' then Stopped(t[k..], p[1..])
         else if p[1] == '*' && k != 0 then Stopped(t[k + 1..], p[2..])
         else Stopped(t[k + 1..], p[1..])
  }

  lemma StoppedSkip(t: string, p: string)
    requires 1 < |t| && 1 < |p| && p[0] == '*' && t[0] != p[1] && t[0] != '*' && !(p[1] == '*' && t[1] == '*')
    ensures Stopped(t, p) == Stopped(t[1..], p)
  {
    var k := FirstStop(t[1..], p[1]);
    assert FirstStop(t, p[1]) == 1 + k;
    assert t[1..][k..] == t[k + 1..];
    if k < |t[1..]| {
      assert t[1..][k + 1..] == t[k + 2..];
    }
  }

  /** On every text whatever, acceptance is exactly that. */
  lemma {:induction false} AcceptsIsStopped(t: CString, p: CString)
    ensures Accepts(t, p) == Stopped(t, p)
    decreases |t| + |p|
  {
    if t == [] || p == [] {
    } else if t[0] == p[0] || p[0] == '?' {
      AcceptsIsStopped(t[1..], p[1..]);
    } else if p[0] == '*' {
      if At(t, 0) == At(p, 1) {
        AcceptsIsStopped(t, p[1..]);
        assert t[0..] == t;
      } else if At(p, 1) == At(t, 1) {
        AcceptsIsStopped(t[1..], p[1..]);
        StoppedAhead(t, p);
      } else {
        AcceptsIsStopped(t[1..], p);
        if 1 < |p| && 1 < |t| {
          StoppedSkip(t, p);
        }
      }
    }
  }

  /** The character sought is the next but one. */
  lemma StoppedAhead(t: CString, p: CString)
    requires t != [] && p != [] && p[0] == '*' && t[0] != '*' && t[0] != At(p, 1) && At(p, 1) == At(t, 1)
    ensures Stopped(t, p) == Stopped(t[1..], p[1..])
  {
    if 1 < |p| {
      assert FirstStop(t, p[1]) == 1;
      if p[1] == '*' {
        assert t[1..][1..] == t[2..] && p[1..][1..] == p[2..];
        StarsMeet(t[1..], p[1..]);
      }
    }
  }

  /** An asterisk of the text answers the one of the pattern. */
  lemma StarsMeet(t: string, p: string)
    requires t != [] && p != [] && t[0] == p[0] == '*'
    ensures Stopped(t, p) == Stopped(t[1..], p[1..])
  {
    if 1 < |p| {
      assert FirstStop(t, p[1]) == 0;
    } else {
      assert FirstStop(t, '*') == 0;
    }
  }

  // ------------------------------------------------------------------
  // Which patterns the matcher decides correctly whatever the text.

  predicate IsPlain(c: char) {
    c != '*' && c != '?'
  }

  predicate QuestionsThenStar(q: string) {
    q != [] && (q[0] == '*' || (q[0] == '?' && QuestionsThenStar(q[1..])))
  }

  /** Every '*' is last, or followed by one plain character and then by nothing
      but '?' up to the next '*'. */
  predicate Settled(p: string) {
    p == [] || ((p[0] == '*' && 1 < |p| ==> IsPlain(p[1]) && QuestionsThenStar(p[2..])) && Settled(p[1..]))
  }

  lemma QuestionTakesOne(t: string, q: string)
    requires Glob(t, q) && q != [] && q[0] == '?'
    ensures t != [] && Glob(t[1..], q[1..])
  {
  }

  lemma StarEarlier(u: string, i: nat, q: string, k: nat)
    requires i <= |u| && q != [] && q[0] == '*' && k <= |u| - i && Glob(u[i..][k..], q[1..])
    ensures Glob(u, q)
  {
    assert u[i..][k..] == u[i + k..];
    GlobStar(u, q, i + k);
  }

  /** With a '*' to come, text may be put in front. */
  lemma {:induction false} GlobEarlier(u: string, i: nat, q: string)
    requires i <= |u| && QuestionsThenStar(q) && Glob(u[i..], q)
    ensures Glob(u, q)
    decreases |q|
  {
    if q[0] == '*' {
      var k := StarStopsAt(u[i..], q);
      StarEarlier(u, i, q, k);
    } else {
      QuestionTakesOne(u[i..], q);
      assert u[i..][1..] == u[1..][i..];
      GlobEarlier(u[1..], i, q[1..]);
    }
  }

  /** For a settled pattern the first place is as good as any. */
  lemma GlobAtFirst(t: string, p: string)
    requires Glob(t, p) && 1 < |p| && p[0] == '*' && IsPlain(p[1]) && QuestionsThenStar(p[2..])
    ensures FirstIndex(t, p[1]) < |t| && Glob(t[FirstIndex(t, p[1])..], p[1..])
  {
    var k := StarStopsAt(t, p);
    PlainComesNext(t[k..], p[1..]);
    PlainTakesOne(t[k..], p[1..]);
    var j := FirstIndex(t, p[1]);
    GlobBackTo(t, p, k, j);
  }

  lemma PlainTakesOne(t: string, p: string)
    requires Glob(t, p) && p != [] && IsPlain(p[0])
    ensures t != [] && Glob(t[1..], p[1..])
  {
  }

  lemma GlobBackTo(t: string, p: string, k: nat, j: nat)
    requires 1 < |p| && IsPlain(p[1]) && QuestionsThenStar(p[2..])
    requires j <= k < |t| && t[j] == p[1] && Glob(t[k..][1..], p[1..][1..])
    ensures Glob(t[j..], p[1..])
  {
    var u, q := t[j + 1..], p[2..];
    assert t[k..][1..] == u[k - j..] && p[1..][1..] == q;
    GlobEarlier(u, k - j, q);
    GlobPlain(p[1], u, q, t[j..], p[1..]);
  }

  lemma {:induction false} SettledIsCommitted(t: string, p: string)
    requires Settled(p) && Glob(t, p)
    ensures Committed(t, p)
    decreases |p|
  {
    if p == [] || p == ['*'] {
    } else if p[0] == '*' {
      GlobAtFirst(t, p);
      SettledIsCommitted(t[FirstIndex(t, p[1])..], p[1..]);
    } else {
      SettledIsCommitted(t[1..], p[1..]);
    }
  }

  /** A text for the pattern, with nothing for each '*'. */
  function Instance(p: string): (t: string)
    ensures forall c :: c in t ==> IsPlain(c) && (c in p || c == '0')
  {
    if p == [] then []
    else if p[0] == '*' then Instance(p[1..])
    else [if p[0] == '?' then '0' else p[0]] + Instance(p[1..])
  }

  lemma {:induction false} InstanceMatches(p: string)
    ensures Glob(Instance(p), p)
  {
    if p != [] {
      InstanceMatches(p[1..]);
      if p[0] == '*' {
        assert Instance(p)[0..] == Instance(p);
        GlobStar(Instance(p), p, 0);
      }
    }
  }

  /** Text that agrees with the '?' before a plain character or the end, but not there. */
  function Misfit(q: string): (t: string)
    ensures forall c :: c in t ==> c == '0' || c == '1'
  {
    if q != [] && q[0] == '?' then ['0'] + Misfit(q[1..])
    else if q != [] && q[0] == '0' then ['1']
    else ['0']
  }

  lemma {:induction false} MisfitFails(q: string, more: string)
    requires !QuestionsThenStar(q)
    ensures !Committed(Misfit(q) + more, q)
  {
    var t := Misfit(q) + more;
    if q != [] && q[0] == '?' {
      MisfitFails(q[1..], more);
      assert t[1..] == Misfit(q[1..]) + more;
    } else {
      assert t[0] == Misfit(q)[0];
    }
  }

  /** A text that the pattern describes and the matcher misses. */
  function Missed(p: string): (t: string)
    ensures forall c :: c in t ==> IsPlain(c) && (c in p || c == '0' || c == '1')
  {
    if p == [] then []
    else if p[0] == '?' then ['0'] + Missed(p[1..])
    else if p[0] != '*' then [p[0]] + Missed(p[1..])
    else if |p| == 1 then []
    else if !IsPlain(p[1]) then Instance(p[1..])
    else if QuestionsThenStar(p[2..]) then Missed(p[1..])
    else [p[1]] + Misfit(p[2..]) + Instance(p[1..])
  }

  lemma MissedAtStar(p: string)
    requires 1 < |p| && p[0] == '*' && !(IsPlain(p[1]) && QuestionsThenStar(p[2..]))
    ensures Glob(Missed(p), p) && !Committed(Missed(p), p)
  {
    var t, r := Missed(p), p[1..];
    InstanceMatches(r);
    if !IsPlain(p[1]) {
      assert t == Instance(r) && t[0..] == t;
      GlobStar(t, p, 0);
      assert p[1] !in t && FirstIndex(t, p[1]) == |t|;
    } else {
      var n := 1 + |Misfit(p[2..])|;
      assert t[n..] == Instance(r);
      GlobStar(t, p, n);
      MisfitAtStar(t, p, Instance(r));
    }
  }

  lemma MisfitAtStar(t: string, p: string, more: string)
    requires 1 < |p| && p[0] == '*' && IsPlain(p[1]) && !QuestionsThenStar(p[2..])
    requires t == [p[1]] + Misfit(p[2..]) + more
    ensures !Committed(t, p)
  {
    MisfitFails(p[2..], more);
    assert FirstIndex(t, p[1]) == 0 && t[0..] == t;
    assert t[1..] == Misfit(p[2..]) + more && p[1..][1..] == p[2..];
  }

  lemma {:induction false} MissedIsMissed(p: string)
    requires !Settled(p)
    ensures Glob(Missed(p), p) && !Committed(Missed(p), p)
    decreases |p|
  {
    if p[0] != '*' {
      MissedIsMissed(p[1..]);
      assert Missed(p)[1..] == Missed(p[1..]);
    } else if IsPlain(p[1]) && QuestionsThenStar(p[2..]) {
      MissedIsMissed(p[1..]);
      var t := Missed(p);
      PlainComesNext(t, p[1..]);
      assert t[0..] == t && FirstIndex(t, p[1]) == 0;
      GlobStar(t, p, 0);
    } else {
      MissedAtStar(p);
    }
  }

  /** On every text without '*', the matcher does what the pattern means. */
  ghost predicate DecidesGlob(pattern: CString) {
    forall text: CString :: '*' !in text ==>
      (Accepts(Upcase(text), Upcase(pattern)) <==> Glob(Upcase(text), Upcase(pattern)))
  }

  /** The matcher decides what the pattern means, on every text without '*', if
      and only if the pattern is settled. */
  lemma DecidesGlobIffSettled(pattern: CString)
    ensures DecidesGlob(pattern) <==> Settled(Upcase(pattern))
  {
    var p := Upcase(pattern);
    if Settled(p) {
      forall text: CString | '*' !in text
        ensures Accepts(Upcase(text), p) <==> Glob(Upcase(text), p)
      {
        SettledDecides(text, p);
      }
    } else {
      MissedIsMissed(p);
      UpcaseKeeps(pattern, Missed(p));
      AcceptsIsCommitted(Missed(p), p);
    }
  }

  lemma SettledDecides(text: CString, p: CString)
    requires '*' !in text && Settled(p)
    ensures Accepts(Upcase(text), p) <==> Glob(Upcase(text), p)
  {
    var t := Upcase(text);
    AcceptsIsCommitted(t, p);
    if Accepts(t, p) {
      AcceptsIsSound(t, p);
    }
    if Glob(t, p) {
      SettledIsCommitted(t, p);
    }
  }

  lemma UpcaseKeeps(pattern: CString, t: string)
    requires forall c :: c in t ==> c in Upcase(pattern) || c == '0' || c == '1'
    ensures '\0' !in t && Upcase(t) == t
  {
    forall i | 0 <= i < |t|
      ensures t[i] != '\0' && Upper(t[i]) == t[i]
    {
      if t[i] in Upcase(pattern) {
        var j :| 0 <= j < |Upcase(pattern)| && Upcase(pattern)[j] == t[i];
        assert t[i] == Upper(pattern[j]);
      }
    }
  }

  const FOOBAR: CString := "FOOBAR"
  const STAR_OB: CString := "*OB*"
  const STAR_OBA: CString := "*OBA*"
  const STAR_BA: CString := "*BA*"

  /** A pattern's plain first character, matched. */
  lemma GlobPlain(c: char, t: string, p: string, ct: string, cp: string)
    requires IsPlain(c) && Glob(t, p) && ct == [c] + t && cp == [c] + p
    ensures Glob(ct, cp)
  {
    assert ct[1..] == t && cp[1..] == p;
  }

  lemma GlobAll(t: string)
    ensures Glob(t, "*")
  {
    assert t[|t|..] == [] && "*"[1..] == [];
    GlobStar(t, "*", |t|);
  }

  /** A '*' skips to place k. */
  lemma GlobFrom(t: string, k: nat, p: string)
    requires k <= |t| && Glob(t[k..], p)
    ensures Glob(t, ['*'] + p)
  {
    assert (['*'] + p)[1..] == p;
    GlobStar(t, ['*'] + p, k);
  }

  lemma BarIsMeant()
    ensures Glob("BAR", "B*") && Glob("BAR", "BA*")
  {
    GlobAll("AR");
    GlobPlain('B', "AR", "*", "BAR", "B*");
    GlobAll("R");
    GlobPlain('A', "R", "*", "AR", "A*");
    GlobPlain('B', "AR", "A*", "BAR", "BA*");
  }

  lemma FoobarIsMeant()
    ensures Glob(FOOBAR, STAR_OB) && Glob(FOOBAR, STAR_OBA) && Glob(FOOBAR, STAR_BA)
  {
    BarIsMeant();
    GlobPlain('O', "BAR", "B*", FOOBAR[2..], "OB*");
    GlobPlain('O', "BAR", "BA*", FOOBAR[2..], "OBA*");
    assert FOOBAR[3..] == "BAR";
    GlobFrom(FOOBAR, 2, "OB*");
    GlobFrom(FOOBAR, 2, "OBA*");
    GlobFrom(FOOBAR, 3, "BA*");
  }

  /** Taken at the first 'O', the next character must be the second one. */
  lemma FirstOIsTaken(p: CString, more: CString)
    requires p == "*OB" + more
    ensures !Accepts(FOOBAR, p)
  {
    AcceptsIsCommitted(FOOBAR, p);
    assert FOOBAR[0] == 'F' && FOOBAR[1] == 'O' && FirstIndex(FOOBAR, 'O') == 1;
    var t, q := FOOBAR[1..], p[1..];
    assert p[0] == '*' && p[1] == 'O' && Committed(FOOBAR, p) == Committed(t, q);
    assert t[0] == q[0] == 'O' && Committed(t, q) == Committed(t[1..], q[1..]);
    assert t[1..][0] == 'O' && q[1..][0] == 'B';
  }

  lemma OnlyBIsTaken()
    ensures Accepts(FOOBAR, STAR_BA)
  {
    AcceptsIsCommitted(FOOBAR, STAR_BA);
    assert forall j :: 0 <= j < 3 ==> FOOBAR[j] != 'B';
    assert FOOBAR[3] == 'B' && FirstIndex(FOOBAR, 'B') == 3;
    assert FOOBAR[3..] == "BAR" && "BAR"[1..] == "AR" && "AR"[1..] == "R";
    assert STAR_BA[1..] == "BA*" && "BA*"[1..] == "A*" && "A*"[1..] == "*";
    assert Committed("R", "*") && Committed("AR", "A*") && Committed("BAR", "BA*");
  }

  /** The documented miss, and the two cases of the test program: the first 'O'
      is taken, and no second try is made; the only 'B' is taken. */
  lemma NonGreedyMiss()
    ensures Glob(FOOBAR, STAR_OB) && !Accepts(FOOBAR, STAR_OB)
    ensures Glob(FOOBAR, STAR_OBA) && !Accepts(FOOBAR, STAR_OBA)
    ensures Glob(FOOBAR, STAR_BA) && Accepts(FOOBAR, STAR_BA)
  {
    FoobarIsMeant();
    assert "*OB" + "*" == STAR_OB && "*OB" + "A*" == STAR_OBA;
    FirstOIsTaken(STAR_OB, "*");
    FirstOIsTaken(STAR_OBA, "A*");
    OnlyBIsTaken();
  }

  // ------------------------------------------------------------------
  // Substituting the last marker.

  predicate OccursAt(s: string, x: string, i: nat) {
    i + |x| <= |s| && s[i..i + |x|] == x
  }

  /** The last place, no later than `from`, where `x` occurs in `s`, or -1. */
  function LastIndex(s: string, x: string, from: int): (at: int)
    requires -1 <= from
    ensures -1 <= at <= from && (0 <= at ==> OccursAt(s, x, at))
    ensures forall j: nat :: at < j <= from ==> !OccursAt(s, x, j)
    decreases from + 1
  {
    if from == -1 || OccursAt(s, x, from) then from else LastIndex(s, x, from - 1)
  }

  /** The pattern with the last occurrence of `marker`, if any, replaced. */
  function Substituted(pattern: CString, marker: CString, fill: CString): CString {
    var at := LastIndex(pattern, marker, |pattern|);
    if at == -1 then pattern else pattern[..at] + fill + pattern[at + |marker|..]
  }

  /** Whether the pattern accepts, with its last marker replaced if a filling is known. */
  predicate AcceptsWith(text: CString, pattern: CString, marker: CString, fill: Option<CString>) {
    Accepts(Upcase(text), Upcase(if fill.None? then pattern else Substituted(pattern, marker, fill.value)))
  }

  /** The pattern must not be shorter than the marker by two or more: the code
      would index before its start. */
  method MatchReplace(text: CString, pattern: CString, marker: CString, fill: Option<CString>)
    returns (r: bool)
    requires fill.Some? ==> |marker| <= |pattern| + 1
    ensures r == AcceptsWith(text, pattern, marker, fill)
  {
    if fill.None? {
      r := Match(text, pattern);
      return;
    }
    var at: int := |pattern| - |marker|;
    while at >= 0
      invariant -1 <= at <= |pattern|
      invariant forall j: nat :: at < j ==> !OccursAt(pattern, marker, j)
    {
      if pattern[at..at + |marker|] == marker {
        break;
      }
      at := at - 1;
    }
    assert at == LastIndex(pattern, marker, |pattern|) by {
      assert at != -1 ==> OccursAt(pattern, marker, at);
    }
    if at == -1 {
      r := Match(text, pattern);
    } else {
      r := Match(text, pattern[..at] + fill.value + pattern[at + |marker|..]);
    }
  }

  // ------------------------------------------------------------------
  // Permission lists.

  datatype Rule = Rule(name: CString, allowed: int)

  /** The rule's mask, with the last "@@" replaced by the host if that is known. */
  predicate RuleAccepts(rule: Rule, host: Option<CString>, name: CString) {
    AcceptsWith(name, rule.name, "@@", host)
  }

  function Accepting(host: Option<CString>, name: CString): Rule -> bool {
    rule => RuleAccepts(rule, host, name)
  }

  /** The flag of the last of the first n rules that accepts, else 0. */
  function LastFlag(rules: seq<Rule>, accepts: Rule -> bool, n: nat): int
    requires n <= |rules|
  {
    if n == 0 then 0
    else if accepts(rules[n - 1]) then rules[n - 1].allowed
    else LastFlag(rules, accepts, n - 1)
  }

  /** The last rule that accepts decides; with none, the answer is no. */
  lemma {:induction false} LastFlagDecides(rules: seq<Rule>, accepts: Rule -> bool, n: nat) returns (last: int)
    requires n <= |rules|
    ensures -1 <= last < n && forall j :: last < j < n ==> !accepts(rules[j])
    ensures 0 <= last ==> accepts(rules[last])
    ensures LastFlag(rules, accepts, n) == if last == -1 then 0 else rules[last].allowed
  {
    last := n - 1;
    if n != 0 && !accepts(rules[n - 1]) {
      last := LastFlagDecides(rules, accepts, n - 1);
    }
  }

  /** A rule in which the last "@@" stands between `front` and `back` accepts, when
      the host is known, as the mask with the host there; otherwise, and without
      "@@", as it is. */
  lemma RuleTakesHost(rule: Rule, front: CString, back: CString, host: CString, name: CString)
    requires rule.name == front + "@@" + back
    requires forall j: nat :: |front| < j ==> !OccursAt(rule.name, "@@", j)
    ensures RuleAccepts(rule, Some(host), name) == Accepts(Upcase(name), Upcase(front + host + back))
    ensures RuleAccepts(rule, None, name) == Accepts(Upcase(name), Upcase(rule.name))
  {
    assert OccursAt(rule.name, "@@", |front|);
    assert LastIndex(rule.name, "@@", |rule.name|) == |front|;
    assert rule.name[..|front|] == front && rule.name[|front| + 2..] == back;
  }

  lemma RuleWithoutMarker(rule: Rule, host: Option<CString>, name: CString)
    requires forall j: nat :: !OccursAt(rule.name, "@@", j)
    ensures RuleAccepts(rule, host, name) == Accepts(Upcase(name), Upcase(rule.name))
  {
    assert LastIndex(rule.name, "@@", |rule.name|) == -1;
  }

  /** A pattern without wildcards accepts itself only. */
  lemma {:induction false} PlainAcceptsItself(t: CString, p: CString)
    requires '*' !in p && '?' !in p
    ensures Accepts(t, p) <==> t == p
    decreases |p|
  {
    if t != [] && p != [] {
      PlainAcceptsItself(t[1..], p[1..]);
      assert t == [t[0]] + t[1..] && p == [p[0]] + p[1..];
    }
  }

  /** A turn of the walk over the rules. */
  lemma FlagTurn(rules: seq<Rule>, host: Option<CString>, name: CString, n: nat, accepted: bool)
    requires n < |rules| && accepted == AcceptsWith(name, rules[n].name, "@@", host)
    ensures LastFlag(rules, Accepting(host, name), n + 1)
         == if accepted then rules[n].allowed else LastFlag(rules, Accepting(host, name), n)
  {
    assert Accepting(host, name)(rules[n]) == accepted;
  }

  class PermList {
    var rules: seq<Rule>

    constructor ()
      ensures rules == []
    {
      rules := [];
    }

    method Add(name: Option<CString>, allowed: int)
      modifies this
      ensures rules == old(rules) + (if name.None? then [] else [Rule(name.value, allowed)])
    {
      if name.None? {
        return;
      }
      rules := rules + [Rule(name.value, allowed)];
    }

    /** is_perm overwrites its answer at every rule that accepts. */
    method IsPerm(host: Option<CString>, name: CString) returns (allowed: int)
      requires host.Some? ==> forall r :: r in rules ==> r.name != []
      ensures allowed == LastFlag(rules, Accepting(host, name), |rules|)
    {
      allowed := 0;
      var n := 0;
      while n < |rules|
        invariant n <= |rules| && allowed == LastFlag(rules, Accepting(host, name), n)
      {
        var accepted := MatchReplace(name, rules[n].name, "@@", host);
        FlagTurn(rules, host, name, n, accepted);
        if accepted {
          allowed := rules[n].allowed;
        }
        n := n + 1;
      }
    }
  }
}
