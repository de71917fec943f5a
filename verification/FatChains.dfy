/** Cluster chains in a FAT32 file allocation table (FAT data structure, Microsoft FAT32 File System
    Specification). */
module FatChains {
  const MASK := 0x1000_0000
  const END: nat := 0x0FFF_FFF8
  const LAST: nat := 0x0FFF_FFFF

  /** The entry of cluster `c`: its low 28 bits. */
  function Value(fat: seq<nat>, c: nat): nat
    requires c < |fat|
  {
    fat[c] % MASK
  }

  /** `s` is a chain: its clusters differ, each leads to the next, and the last one is marked. */
  ghost predicate IsChain(fat: seq<nat>, s: seq<nat>) {
    s != [] && (forall i | 0 <= i < |s| :: 2 <= s[i] < |fat|) && (forall i, j | 0 <= i < j < |s| :: s[i] != s[j])
    && forall i | 0 <= i < |s| :: Link(fat, s, i)
  }

  ghost predicate Link(fat: seq<nat>, s: seq<nat>, i: int)
    requires 0 <= i < |s| && s[i] < |fat|
  {
    if i + 1 < |s| then Value(fat, s[i]) == s[i + 1] else Value(fat, s[i]) >= END
  }

  /** `chains` gives the chain that starts at each head. No cluster is on two of them. */
  ghost predicate Chains(fat: seq<nat>, chains: map<nat, seq<nat>>) {
    |fat| <= END
    && (forall h <- chains :: IsChain(fat, chains[h]) && chains[h][0] == h)
    && forall h <- chains, k <- chains, c <- chains[h] :: h != k ==> c !in chains[k]
  }

  ghost predicate OnChain(chains: map<nat, seq<nat>>, c: nat) {
    exists h <- chains :: c in chains[h]
  }

  /** A free cluster is on no chain. */
  lemma {:induction false} FreeOnNone(fat: seq<nat>, chains: map<nat, seq<nat>>, c: nat)
    requires Chains(fat, chains) && c < |fat| && Value(fat, c) == 0
    ensures !OnChain(chains, c)
  {
    forall h <- chains ensures c !in chains[h] {
      var s := chains[h];
      forall i | 0 <= i < |s| ensures s[i] != c {
        assert Link(fat, s, i);
      }
    }
  }

  lemma {:induction false} NewHead(fat: seq<nat>, chains: map<nat, seq<nat>>, c: nat)
    requires Chains(fat, chains) && !OnChain(chains, c)
    ensures c !in chains
  {
    forall h <- chains ensures h != c {
      assert chains[h][0] in chains[h];
    }
  }

  // ---------------------------------------------------------------- allocation

  /** The table with `c` marked last and, if `prev` is not 0, linked after it. */
  function Linked(fat: seq<nat>, prev: nat, c: nat): seq<nat>
    requires prev < |fat| && c < |fat|
  {
    (if prev != 0 then fat[prev := c % MASK] else fat)[c := LAST]
  }

  /** The chains with `c` added: a chain of its own, or after `prev`, the end of the chain of `h`. */
  function Extended(chains: map<nat, seq<nat>>, h: nat, prev: nat, c: nat): map<nat, seq<nat>>
    requires prev != 0 ==> h in chains
  {
    if prev == 0 then chains[c := [c]] else chains[h := chains[h] + [c]]
  }

  ghost predicate EndOf(chains: map<nat, seq<nat>>, h: nat, prev: nat) {
    prev != 0 ==> h in chains && chains[h] != [] && prev == chains[h][|chains[h]| - 1]
  }

  /** `c` is now a chain of its own, or the last of the chain of `h`; every other chain is as it was. */
  ghost predicate ChainGrows(chains: map<nat, seq<nat>>, chains': map<nat, seq<nat>>, h: nat, prev: nat, c: nat) {
    var head := if prev == 0 then c else h;
    && (if prev == 0 then c !in chains else h in chains)
    && chains'.Keys == chains.Keys + {head} && chains'[head] == (if prev == 0 then [] else chains[h]) + [c]
    && forall k <- chains :: k != head ==> chains'[k] == chains[k]
  }

  /** `c` was the lowest free cluster; only its entry and that of `prev` have changed. */
  ghost predicate EntryTaken(fat: seq<nat>, fat': seq<nat>, prev: nat, c: nat) {
    c < |fat| == |fat'| && Value(fat, c) == 0 && (forall x | 0 <= x < c :: Value(fat, x) != 0)
    && forall x | 0 <= x < |fat| :: x != c && (x != prev || prev == 0) ==> fat'[x] == fat[x]
  }

  lemma {:induction false} ChainKept(fat: seq<nat>, fat': seq<nat>, s: seq<nat>)
    requires IsChain(fat, s) && |fat'| == |fat| && forall c <- s :: c < |fat| ==> fat'[c] == fat[c]
    ensures IsChain(fat', s)
  {
    forall i | 0 <= i < |s| ensures Link(fat', s, i) {
      assert Link(fat, s, i) && s[i] in s;
    }
  }

  lemma {:induction false} ChainGrown(fat: seq<nat>, s: seq<nat>, c: nat)
    requires IsChain(fat, s) && 2 <= c < |fat| <= END && c !in s
    ensures IsChain(Linked(fat, s[|s| - 1], c), s + [c])
  {
    var prev, t := s[|s| - 1], s + [c];
    var fat' := Linked(fat, prev, c);
    forall i | 0 <= i < |t| ensures Link(fat', t, i) {
      if i < |s| {
        assert Link(fat, s, i) && t[i] == s[i] && s[i] in s;
        if i < |s| - 1 {
          assert s[i] != prev && t[i + 1] == s[i + 1];
        }
      }
    }
  }

  /** Adding a free cluster at the end of one chain, or as a chain of its own, keeps all chains finite,
      without cycles, and apart; no other chain changes. */
  lemma {:induction false} Adds(fat: seq<nat>, chains: map<nat, seq<nat>>, h: nat, prev: nat, c: nat)
    requires Chains(fat, chains) && 2 <= c < |fat| && Value(fat, c) == 0 && EndOf(chains, h, prev) && prev < |fat|
    ensures Chains(Linked(fat, prev, c), Extended(chains, h, prev, c))
  {
    hide Link;
    FreeOnNone(fat, chains, c);
    var fat', chains' := Linked(fat, prev, c), Extended(chains, h, prev, c);
    forall k <- chains' ensures IsChain(fat', chains'[k]) && chains'[k][0] == k {
      if prev != 0 && k == h {
        ChainGrown(fat, chains[h], c);
      } else if k in chains {
        assert prev != 0 ==> prev in chains[h];
        ChainKept(fat, fat', chains[k]);
      } else {
        NewChain(fat, c);
      }
    }
    forall k <- chains', l <- chains', x <- chains'[k] ensures k != l ==> x !in chains'[l] {
      assert k in chains && x != c ==> x in chains[k];
    }
  }

  lemma {:induction false} NewChain(fat: seq<nat>, c: nat)
    requires 2 <= c < |fat|
    ensures IsChain(Linked(fat, 0, c), [c])
  {
  }

  // ---------------------------------------------------------------- free clusters

  ghost function Zeros(fat: seq<nat>, n: nat): set<nat>
    requires n <= |fat|
  {
    set c: nat | c < n && Value(fat, c) == 0
  }

  /** The free count is right, and no cluster below the hint is free. */
  ghost predicate Counted(fat: seq<nat>, count: nat, hint: nat) {
    count == |Zeros(fat, |fat|)| && forall c: nat | c < |fat| && c < hint :: Value(fat, c) != 0
  }

  lemma {:induction false} Taken(fat: seq<nat>, prev: nat, c: nat)
    requires prev < |fat| && c < |fat| && Value(fat, c) == 0 && Value(fat, prev) != 0 && 2 <= c < END && |fat| <= END
    ensures var fat' := Linked(fat, prev, c);
      |fat'| == |fat| && Zeros(fat', |fat|) == Zeros(fat, |fat|) - {c} && c in Zeros(fat, |fat|)
  {
  }

  /** While the count is not zero there is a free cluster at or above the hint. */
  lemma {:induction false} SomeFree(fat: seq<nat>, count: nat, hint: nat)
    requires Counted(fat, count, hint) && count > 0
    ensures exists c :: hint <= c < |fat| && Value(fat, c) == 0
  {
    var c :| c in Zeros(fat, |fat|);
  }
}
