/** Remote free lists: taken off whole, worked through record by record. */
module KmRemote {
  import opened KmState
  import opened KmGood

  function Top(abs: Abs): int {
    0 - abs.depth
  }

  /** The remote free list of `cpu` becomes the innermost list in flight. */
  ghost function DetachedAbs(abs: Abs, cpu: nat): Abs
    requires cpu in abs.chains
  {
    abs.(chains := abs.chains[0 - abs.depth - 1 := abs.chains[cpu]][cpu := Chain(cpu, [])], depth := abs.depth + 1)
  }

  lemma {:induction false} GoodDetached(m: Mem, abs: Abs, cpu: nat)
    requires Good(m, abs) && cpu in m.remote
    ensures cpu in abs.chains && abs.chains[cpu].cpu == cpu && Top(DetachedAbs(abs, cpu)) !in abs.chains
    ensures Good(m.(remote := m.remote[cpu := 0]), DetachedAbs(abs, cpu))
  {
    hide PagesOk, BlocksOk, BucketsOk, ExtentsOk, ChainsOk;
    assert abs.chains[cpu].cpu == cpu && 0 - abs.depth - 1 !in abs.chains;
    DetachedChains(m.hdr, m.word, abs.pending, abs.chains, cpu, 0 - abs.depth - 1);
    UsesSame(abs, DetachedAbs(abs, cpu));
  }

  lemma {:induction false} DetachedChains(hdr: map<nat, Header>, word: map<nat, nat>, pending: map<nat, nat>,
                                          chains: map<int, Chain>, cpu: int, top: int)
    requires ChainsOk(hdr, word, pending, chains) && cpu in chains && top !in chains && cpu >= 0
    ensures ChainsOk(hdr, word, pending, chains[top := chains[cpu]][cpu := Chain(cpu, [])])
  {
    var chains' := chains[top := chains[cpu]][cpu := Chain(cpu, [])];
    assert forall id <- chains' :: id == cpu || chains'[id] == if id == top then chains[cpu] else chains[id];
    forall id <- chains' ensures ChainOk(hdr, word, pending, chains'[id]) {
      assert id != cpu && id != top ==> ChainOk(hdr, word, pending, chains[id]);
      assert ChainOk(hdr, word, pending, chains[cpu]);
    }
    forall r <- pending ensures OnChain(chains', r) {
      assert OnChain(chains, r);
      var id :| id in chains && r in chains[id].recs;
      assert r in chains'[if id == cpu then top else id].recs;
    }
  }

  /** The first record of a list in flight is taken: the record and the block it asks to free are in the
      hands of the CPU working through the list. */
  ghost function RecordTakenAbs(abs: Abs, id: int, r: nat): Abs
    requires id in abs.chains && abs.chains[id].recs != [] && r in abs.pending
  {
    abs.(held := abs.held + {r, abs.pending[r]}, pending := abs.pending - {r},
         chains := abs.chains[id := Chain(abs.chains[id].cpu, abs.chains[id].recs[1..])])
  }

  /** What the first record of a list says. */
  ghost predicate FirstRecord(m: Mem, abs: Abs, id: int, r: nat) {
    id in abs.chains && abs.chains[id].recs != [] && r == abs.chains[id].recs[0]
    && r in abs.pending && r in m.word && m.word[r] == At(abs.chains[id].recs, 1) && r > 0
    && RecordOk(m.hdr, m.word, r, abs.pending[r], abs.chains[id].cpu)
    && r !in abs.held && abs.pending[r] !in abs.held && r != abs.pending[r]
  }

  lemma {:induction false} GoodRecordTaken(m: Mem, abs: Abs, id: int, r: nat)
    requires Good(m, abs) && id < 0 && id in abs.chains && abs.chains[id].recs != []
    requires r == abs.chains[id].recs[0]
    ensures FirstRecord(m, abs, id, r) && Good(m, RecordTakenAbs(abs, id, r))
    ensures Live(RecordTakenAbs(abs, id, r)) == Live(abs)
  {
    hide PagesOk, BlocksOk, BucketsOk, ExtentsOk;
    var c := abs.chains[id];
    assert ChainOk(m.hdr, m.word, abs.pending, c) && ThreadRow(m.word, c.recs, 0) && r in c.recs;
    RecordTakenUses(abs, id, r);
    RecordTakenChains(m.hdr, m.word, abs.pending, abs.chains, id);
  }

  lemma {:induction false} RecordTakenUses(abs: Abs, id: int, r: nat)
    requires UsesOk(abs) && id in abs.chains && abs.chains[id].recs != [] && r in abs.pending
    ensures UsesOk(RecordTakenAbs(abs, id, r)) && Live(RecordTakenAbs(abs, id, r)) == Live(abs)
    ensures r !in abs.held && abs.pending[r] !in abs.held && r != abs.pending[r] && abs.pending[r] in abs.pending.Values
  {
    var abs' := RecordTakenAbs(abs, id, r);
    assert abs.pending[r] in abs.pending.Values;
    forall x <- abs.pending.Values ensures x in abs'.pending.Values + {abs.pending[r]} {
      var q :| q in abs.pending && abs.pending[q] == x;
      if q != r {
        assert abs'.pending[q] == x;
      }
    }
    forall x <- abs'.pending.Values ensures x in abs.pending.Values && x != abs.pending[r] {
      var q :| q in abs'.pending && abs'.pending[q] == x;
      assert abs.pending[q] == x && q != r;
    }
  }

  lemma {:induction false} RecordTakenChains(hdr: map<nat, Header>, word: map<nat, nat>, pending: map<nat, nat>,
                                             chains: map<int, Chain>, top: int)
    requires ChainsOk(hdr, word, pending, chains) && top in chains && chains[top].recs != []
    ensures var c := chains[top]; ChainsOk(hdr, word, pending - {c.recs[0]}, chains[top := Chain(c.cpu, c.recs[1..])])
  {
    var c := chains[top];
    var r, rest := c.recs[0], c.recs[1..];
    var pending', chains' := pending - {r}, chains[top := Chain(c.cpu, rest)];
    assert ChainOk(hdr, word, pending, c) && r in c.recs;
    forall q <- rest ensures q in c.recs && q != r {
      var i :| 0 <= i < |rest| && rest[i] == q;
      assert c.recs[i + 1] == q;
    }
    forall i | 0 <= i < |rest| ensures ThreadRow(word, rest, i) {
      assert ThreadRow(word, c.recs, i + 1);
    }
    forall id <- chains' ensures ChainOk(hdr, word, pending', chains'[id]) {
      assert ChainOk(hdr, word, pending, chains[id]);
      forall q <- chains'[id].recs ensures q in pending' {
        assert q in chains[id].recs && (id != top ==> q != r);
      }
    }
    forall q <- pending' ensures OnChain(chains', q) {
      assert OnChain(chains, q);
      var id :| id in chains && q in chains[id].recs;
      if id == top {
        var i :| 0 <= i < |c.recs| && c.recs[i] == q;
        assert rest[i - 1] == q;
      }
      assert q in chains'[id].recs;
    }
  }

  /** A list in flight has been worked through. */
  ghost function ListDoneAbs(abs: Abs, id: int): Abs {
    abs.(chains := abs.chains - {id})
  }

  lemma {:induction false} GoodListDone(m: Mem, abs: Abs, id: int)
    requires Good(m, abs) && id < 0 && id in abs.chains && abs.chains[id].recs == []
    ensures Good(m, ListDoneAbs(abs, id)) && Live(ListDoneAbs(abs, id)) == Live(abs)
  {
    hide PagesOk, BlocksOk, BucketsOk, ExtentsOk;
    var chains, chains' := abs.chains, abs.chains - {id};
    forall j <- chains' ensures ChainOk(m.hdr, m.word, abs.pending, chains'[j]) {
      assert ChainOk(m.hdr, m.word, abs.pending, chains[j]);
    }
    forall r <- abs.pending ensures OnChain(chains', r) {
      assert OnChain(chains, r);
      var j :| j in chains && r in chains[j].recs;
      assert r in chains'[j].recs;
    }
    UsesSame(abs, ListDoneAbs(abs, id));
  }

  /** The innermost list has been worked through, and its number is free again. */
  ghost function FlightEndedAbs(abs: Abs): Abs
    requires abs.depth > 0
  {
    ListDoneAbs(abs, Top(abs)).(depth := abs.depth - 1)
  }

  lemma {:induction false} GoodFlightEnded(m: Mem, abs: Abs)
    requires Good(m, abs) && abs.depth > 0 && Top(abs) in abs.chains && abs.chains[Top(abs)].recs == []
    ensures Good(m, FlightEndedAbs(abs))
  {
    hide PagesOk, BlocksOk, BucketsOk, ExtentsOk, ChainsOk;
    GoodListDone(m, abs, Top(abs));
    UsesSame(abs, FlightEndedAbs(abs));
  }
}
