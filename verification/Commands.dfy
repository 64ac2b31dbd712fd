/**
 The command table (src/commands.c): sixteen chains indexed by a hash of the
 command name, against the association list it stands for.
 */
module Commands {
  import opened Ascii

  const MAX_CMD := 16

  datatype Command = Command(name: CString, value: int)

  /** The value of the first entry under that name, or 0. */
  function Lookup(entries: seq<Command>, name: string): int {
    if entries == [] then 0
    else if SameName(name, entries[0].name) then entries[0].value
    else Lookup(entries[1..], name)
  }

  predicate Holds(entries: seq<Command>, name: string) {
    exists i :: 0 <= i < |entries| && SameName(name, entries[i].name)
  }

  /** The answer is the value at the first place with that name, in any case. */
  lemma {:induction false} LookupIsFirst(entries: seq<Command>, name: string, k: nat)
    requires k < |entries| && SameName(name, entries[k].name)
    requires forall j :: 0 <= j < k ==> !SameName(name, entries[j].name)
    ensures Lookup(entries, name) == entries[k].value
  {
    if k != 0 {
      LookupIsFirst(entries[1..], name, k - 1);
    }
  }

  /** A byte without its 0x20 bit: `c & 0xDF`. */
  function Masked(c: char): nat {
    var b := c as int % 256;
    if b / 32 % 2 == 1 then b - 32 else b
  }

  function HashSum(s: string): nat {
    if s == [] then 0 else HashSum(s[..|s| - 1]) + Masked(s[|s| - 1])
  }

  function Hash(s: string): nat {
    HashSum(s) % MAX_CMD
  }

  /** The mask forgets the case, so names that differ only in case share a chain. */
  lemma {:induction false} HashRespectsFold(s: string, t: string)
    requires SameName(s, t)
    ensures Hash(s) == Hash(t)
  {
    HashSumRespectsFold(s, t);
  }

  lemma {:induction false} HashSumRespectsFold(s: string, t: string)
    requires SameName(s, t)
    ensures HashSum(s) == HashSum(t)
  {
    assert |Fold(s)| == |s| && |Fold(t)| == |t|;
    if s != [] {
      var n := |s| - 1;
      FoldSplit(s);
      FoldSplit(t);
      HashSumRespectsFold(s[..n], t[..n]);
      MaskedRespectsLower(s[n], t[n]);
    }
  }

  lemma FoldSplit(s: string)
    requires s != []
    ensures var n := |s| - 1; Fold(s)[..n] == Fold(s[..n]) && Fold(s)[n] == Lower(s[n])
  {
  }

  lemma MaskedRespectsLower(c: char, d: char)
    requires Lower(c) == Lower(d)
    ensures Masked(c) == Masked(d)
  {
  }

  /** One addition to a chain: at its end, unless the name is there already. */
  function Extended(chain: seq<Command>, c: Command): seq<Command> {
    if Holds(chain, c.name) then chain else chain + [c]
  }

  /** The chain of bucket `k` after adding the commands of `adds` in turn. */
  function Chain(adds: seq<Command>, k: nat): seq<Command> {
    if adds == [] then []
    else
      var before, c := Chain(adds[..|adds| - 1], k), adds[|adds| - 1];
      if Hash(c.name) == k then Extended(before, c) else before
  }

  lemma {:induction false} LookupAppend(a: seq<Command>, b: seq<Command>, name: string)
    ensures Lookup(a + b, name) == if Holds(a, name) then Lookup(a, name) else Lookup(b, name)
  {
    if a == [] {
      assert a + b == b;
    } else {
      assert (a + b)[0] == a[0] && (a + b)[1..] == a[1..] + b;
      LookupAppend(a[1..], b, name);
      assert Holds(a[1..], name) ==> Holds(a, name);
      assert Holds(a, name) && !SameName(name, a[0].name) ==> Holds(a[1..], name) by {
        if Holds(a, name) && !SameName(name, a[0].name) {
          var i :| 0 <= i < |a| && SameName(name, a[i].name);
          assert a[1..][i - 1] == a[i];
        }
      }
    }
  }

  lemma {:induction false} LookupMissing(a: seq<Command>, name: string)
    requires !Holds(a, name)
    ensures Lookup(a, name) == 0
  {
    if a != [] {
      assert forall i | 0 <= i < |a[1..]| :: a[1..][i] == a[i + 1];
      LookupMissing(a[1..], name);
    }
  }

  lemma HoldsAppend(a: seq<Command>, c: Command, name: string)
    ensures Holds(a + [c], name) <==> Holds(a, name) || SameName(name, c.name)
  {
    if Holds(a, name) {
      var i :| 0 <= i < |a| && SameName(name, a[i].name);
      assert (a + [c])[i] == a[i];
    }
    assert (a + [c])[|a|] == c;
  }

  /** A list and a chain that agree on a name still do after the same addition. */
  lemma ExtendedAgrees(list: seq<Command>, chain: seq<Command>, c: Command, name: string)
    requires Lookup(chain, name) == Lookup(list, name) && (Holds(chain, name) <==> Holds(list, name))
    ensures Lookup(Extended(chain, c), name) == Lookup(list + [c], name)
    ensures Holds(Extended(chain, c), name) <==> Holds(list + [c], name)
  {
    LookupAppend(list, [c], name);
    LookupAppend(chain, [c], name);
    HoldsAppend(list, c, name);
    HoldsAppend(chain, c, name);
    assert SameName(name, c.name) ==> (Holds(chain, c.name) <==> Holds(chain, name));
    if !Holds(list, name) {
      LookupMissing(list, name);
    }
  }

  /** The chain of a name's own bucket answers as the whole list of additions
      does: the first addition under that name, in any case, wins. */
  lemma {:induction false} ChainAnswersAsList(adds: seq<Command>, name: string)
    ensures Lookup(Chain(adds, Hash(name)), name) == Lookup(adds, name)
    ensures Holds(Chain(adds, Hash(name)), name) <==> Holds(adds, name)
  {
    if adds != [] {
      var n := |adds| - 1;
      var init, c := adds[..n], adds[n];
      ChainAnswersAsList(init, name);
      assert adds == init + [c];
      if Hash(c.name) == Hash(name) {
        ExtendedAgrees(init, Chain(init, Hash(name)), c, name);
      } else {
        assert !SameName(name, c.name) by {
          if SameName(name, c.name) { HashRespectsFold(name, c.name); }
        }
        LookupAppend(init, [c], name);
        HoldsAppend(init, c, name);
        if !Holds(init, name) {
          LookupMissing(init, name);
        }
      }
    }
  }

  predicate DuplicateFree(chain: seq<Command>) {
    forall i, j :: 0 <= i < j < |chain| ==> !SameName(chain[i].name, chain[j].name)
  }

  lemma ExtendedDuplicateFree(chain: seq<Command>, c: Command)
    requires DuplicateFree(chain)
    ensures DuplicateFree(Extended(chain, c))
  {
    if !Holds(chain, c.name) {
      forall i | 0 <= i < |chain|
        ensures !SameName(chain[i].name, c.name)
      {
        assert !SameName(c.name, chain[i].name);
      }
    }
  }

  /** No chain holds a name twice, so a chain walk can stop at the first hit. */
  lemma {:induction false} ChainIsDuplicateFree(adds: seq<Command>, k: nat)
    ensures DuplicateFree(Chain(adds, k))
  {
    if adds != [] {
      ChainIsDuplicateFree(adds[..|adds| - 1], k);
      ExtendedDuplicateFree(Chain(adds[..|adds| - 1], k), adds[|adds| - 1]);
    }
  }

  class Table {
    const buckets: array<seq<Command>>
    ghost var adds: seq<Command>

    ghost predicate Valid()
      reads this, buckets
    {
      buckets.Length == MAX_CMD &&
      forall k :: 0 <= k < MAX_CMD ==> buckets[k] == Chain(adds, k)
    }

    constructor ()
      ensures Valid() && adds == [] && fresh(buckets)
    {
      buckets := new seq<Command>[MAX_CMD](_ => []);
      adds := [];
    }

    static method ComputeHash(p: CString) returns (h: nat)
      ensures h == Hash(p)
    {
      var sum, i := 0, 0;
      while i < |p|
        invariant i <= |p| && sum == HashSum(p[..i])
      {
        assert p[..i + 1][..i] == p[..i];
        sum := sum + Masked(p[i]);
        i := i + 1;
      }
      assert p[..i] == p;
      h := sum % MAX_CMD;
    }

    method Add(cmd: CString, value: int)
      requires Valid()
      modifies this, buckets
      ensures Valid() && adds == old(adds) + [Command(cmd, value)]
    {
      var index := ComputeHash(cmd);
      var chain, i := buckets[index], 0;
      adds := adds + [Command(cmd, value)];
      assert adds[..|adds| - 1] == old(adds);
      while i < |chain|
        invariant i <= |chain| && forall j :: 0 <= j < i ==> !SameName(cmd, chain[j].name)
      {
        if SameName(cmd, chain[i].name) {
          return;
        }
        i := i + 1;
      }
      buckets[index] := chain + [Command(cmd, value)];
    }

    /** What an association list of all the additions would answer. */
    method Find(p: CString) returns (value: int)
      requires Valid()
      ensures value == Lookup(adds, p)
    {
      var index := ComputeHash(p);
      var chain, i := buckets[index], 0;
      ChainAnswersAsList(adds, p);
      while i < |chain|
        invariant i <= |chain| && Lookup(chain[i..], p) == Lookup(chain, p)
      {
        assert chain[i..][1..] == chain[i + 1..];
        if SameName(p, chain[i].name) {
          return chain[i].value;
        }
        i := i + 1;
      }
      value := 0;
    }
  }
}
