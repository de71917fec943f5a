/** Why each step of the allocator keeps its state good, part by part. */
module KmSteps {
  import opened Common
  import opened Bits
  import opened KmSlots
  import opened KmState
  import opened KmList

  lemma {:induction false} SlotPage(p: nat, k: nat, a: nat)
    requires IsPower(k) && IsSlot(p, k, a)
    ensures PageOf(a) == p && p * PAGE + HEADER <= a && a + Pow2(k) <= p * PAGE + PAGE && a % Pow2(k) == 0
  {
    var i :| 0 <= i < SlotCount(Pow2(k)) && a == SlotAt(p, k, i);
    SlotInPage(p, k, i);
  }

  lemma {:induction false} LargePage(p: nat)
    ensures PageOf(LargeBlock(p)) == p
  {
  }

  /** Blocks of one page do not overlap. */
  lemma {:induction false} SlotsDisjoint(p: nat, k: nat, a: nat, b: nat)
    requires IsPower(k) && IsSlot(p, k, a) && IsSlot(p, k, b) && a != b
    ensures a + Pow2(k) <= b || b + Pow2(k) <= a
  {
    var i :| 0 <= i < SlotCount(Pow2(k)) && a == SlotAt(p, k, i);
    var j :| 0 <= j < SlotCount(Pow2(k)) && b == SlotAt(p, k, j);
    if i < j {
      SlotsApart(p, k, i, j);
    } else {
      SlotsApart(p, k, j, i);
    }
  }

  // ---------------------------------------------------------------- taking a block off a free list

  lemma {:induction false} TakenPages(hdr: map<nat, Header>, free: map<nat, seq<nat>>, live: set<nat>,
                                      word: map<nat, nat>,
                                      p: nat, next: nat)
    requires PagesOk(hdr, free, live, word) && BlocksOk(hdr, live) && p in hdr && hdr[p].Super? && free[p] != []
    requires hdr[p].free in word ==> next == word[hdr[p].free]
    ensures var fl, h' := free[p], hdr[p].(free := next, freeCount := hdr[p].freeCount - 1);
      PagesOk(hdr[p := h'], free[p := fl[1..]], live + {fl[0]}, word) && BlocksOk(hdr[p := h'], live + {fl[0]})
      && fl[0] == hdr[p].free && fl[0] !in live && IsSlot(p, h'.power, fl[0]) && PageOf(fl[0]) == p
  {
    var fl, a := free[p], free[p][0];
    assert PageOk(p, hdr[p], free, live, word);
    SlotPage(p, hdr[p].power, a);
    var hdr', free', live' := hdr[p := hdr[p].(free := next, freeCount := hdr[p].freeCount - 1)], free[p := fl[1..]],
      live + {a};
    assert FreeListOk(p, hdr'[p], fl[1..], word);
    forall q <- hdr' ensures PageOk(q, hdr'[q], free', live', word) {
      assert PageOk(q, hdr[q], free, live, word);
      if q != p && hdr[q].Super? {
        forall b | IsSlot(q, hdr[q].power, b) ensures b in live' <==> b !in free'[q] {
          SlotPage(q, hdr[q].power, b);
        }
      }
    }
    forall b <- live' ensures IsBlock(hdr', b) {
      assert b == a || IsBlock(hdr, b);
    }
  }

  // ---------------------------------------------------------------- putting a block back

  lemma {:induction false} PutPages(hdr: map<nat, Header>, free: map<nat, seq<nat>>, live: set<nat>,
                                    word: map<nat, nat>, a: nat)
    requires PagesOk(hdr, free, live, word) && BlocksOk(hdr, live) && a in live && PageOf(a) in hdr
    requires hdr[PageOf(a)].Super?
    ensures var p, fl := PageOf(a), free[PageOf(a)];
      var h' := hdr[p].(free := a, freeCount := hdr[p].freeCount + 1);

      PagesOk(hdr[p := h'], free[p := [a] + fl], live - {a}, word[a := hdr[p].free])
      && BlocksOk(hdr[p := h'], live - {a})
  {
    var p := PageOf(a);
    var fl := free[p];
    var hdr', free', live', word' := hdr[p := hdr[p].(free := a, freeCount := hdr[p].freeCount + 1)],
      free[p := [a] + fl],
      live - {a}, word[a := hdr[p].free];
    assert PageOk(p, hdr[p], free, live, word) && IsBlock(hdr, a);
    assert FreeListOk(p, hdr'[p], [a] + fl, word');
    forall q <- hdr' ensures PageOk(q, hdr'[q], free', live', word') {
      assert PageOk(q, hdr[q], free, live, word);
      if q != p && hdr[q].Super? {
        forall b | IsSlot(q, hdr[q].power, b) ensures b != a {
          SlotPage(q, hdr[q].power, b);
        }
        assert FreeListOk(q, hdr'[q], free[q], word');
      } else if q != p {
        LargePage(q);
      }
    }
    forall b <- live' ensures IsBlock(hdr', b) {
      assert IsBlock(hdr, b);
    }
  }

  // ---------------------------------------------------------------- what other parts keep

  /** `hdr'` keeps the page of `a` a superblock of the same kind. */
  ghost predicate SameKind(hdr: map<nat, Header>, hdr': map<nat, Header>, a: nat) {
    PageOf(a) in hdr && hdr[PageOf(a)].Super? ==>
      PageOf(a) in hdr' && hdr'[PageOf(a)].Super? && hdr'[PageOf(a)].power == hdr[PageOf(a)].power
      && hdr'[PageOf(a)].cpu == hdr[PageOf(a)].cpu
  }

  ghost predicate SameWord(word: map<nat, nat>, word': map<nat, nat>, a: nat) {
    a in word ==> a in word' && word'[a] == word[a]
  }

  lemma {:induction false} ChainsFrame(hdr: map<nat, Header>, word: map<nat, nat>, hdr': map<nat, Header>,
                                       word': map<nat, nat>,
                                       pending: map<nat, nat>, chains: map<int, Chain>)
    requires ChainsOk(hdr, word, pending, chains)
    requires forall r <- pending :: SameKind(hdr, hdr', r) && SameKind(hdr, hdr', pending[r])
    requires forall r <- pending :: SameWord(word, word', r) && SameWord(word, word', r + 8)
    ensures ChainsOk(hdr', word', pending, chains)
  {
    forall id <- chains ensures ChainOk(hdr', word', pending, chains[id]) {
      var c := chains[id];
      assert ChainOk(hdr, word, pending, c);
      forall i | 0 <= i < |c.recs| ensures ThreadRow(word', c.recs, i) {
        assert ThreadRow(word, c.recs, i) && c.recs[i] in pending;
      }
      forall r <- c.recs ensures RecordOk(hdr', word', r, pending[r], c.cpu) {
        assert RecordOk(hdr, word, r, pending[r], c.cpu) && SameKind(hdr, hdr', r) && SameKind(hdr, hdr', pending[r]);
        assert SameWord(word, word', r + 8);
      }
    }
  }

  /** Links between superblocks do not matter to blocks, extents and records. */
  lemma {:induction false} RelinkedRest(hdr: map<nat, Header>, hdr': map<nat, Header>, s: seq<nat>,
                                        free: map<nat, seq<nat>>, live: set<nat>, word: map<nat, nat>,
                                        pending: map<nat, nat>, chains: map<int, Chain>)
    requires Relinked(hdr, hdr', s)
    requires PagesOk(hdr, free, live, word) && BlocksOk(hdr, live) && ExtentsOk(hdr)
    requires ChainsOk(hdr, word, pending, chains)
    ensures PagesOk(hdr', free, live, word) && BlocksOk(hdr', live) && ExtentsOk(hdr')
    ensures ChainsOk(hdr', word, pending, chains)
  {
    hide PagesOk, ChainsOk, IsSlot;
    RelinkedPages(hdr, hdr', s, free, live, word);
    forall a <- live ensures IsBlock(hdr', a) {
      assert IsBlock(hdr, a);
    }
    forall p <- hdr', q <- hdr' ensures p < q ==> p + Pages(hdr'[p]) <= q {
      assert p < q ==> p + Pages(hdr[p]) <= q;
    }
    ChainsFrame(hdr, word, hdr', word, pending, chains);
  }

  lemma {:induction false} RelinkedPages(hdr: map<nat, Header>, hdr': map<nat, Header>, s: seq<nat>,
                                         free: map<nat, seq<nat>>,
                                         live: set<nat>, word: map<nat, nat>)
    requires Relinked(hdr, hdr', s) && PagesOk(hdr, free, live, word)
    ensures PagesOk(hdr', free, live, word)
  {
    forall p <- hdr' ensures PageOk(p, hdr'[p], free, live, word) {
      assert PageOk(p, hdr[p], free, live, word);
      if hdr[p].Super? {
        assert FreeListOk(p, hdr'[p], free[p], word);
      }
    }
  }

  /** A record's second word is no other block's first. */
  lemma {:induction false} RecordWords(hdr: map<nat, Header>, free: map<nat, seq<nat>>, live: set<nat>,
                                       word: map<nat, nat>, r: nat, a: nat)
    requires PagesOk(hdr, free, live, word) && IsBlock(hdr, r) && hdr[PageOf(r)].Super?
    requires hdr[PageOf(r)].power == RECORD_POWER
    requires IsBlock(hdr, a) && a != r
    ensures a != r + 8
  {
    Sizes(RECORD_POWER);
    var p := PageOf(r);
    SlotPage(p, RECORD_POWER, r);
    assert PageOk(p, hdr[p], free, live, word);
    if a == r + 8 {
      assert PageOf(a) == p;
      SlotsDisjoint(p, RECORD_POWER, r, a);
    }
  }

  // ---------------------------------------------------------------- whole pages

  predicate FreshPages(hdr: map<nat, Header>, p: nat, n: nat) {
    p > 0 && forall q <- hdr :: q + Pages(hdr[q]) <= p || p + n <= q
  }

  /** A fresh superblock whose slots are all free. */
  lemma {:induction false} SuperAdded(hdr: map<nat, Header>, free: map<nat, seq<nat>>, live: set<nat>,
                                      word: map<nat, nat>,
                                      word': map<nat, nat>, p: nat, h: Header, fl: seq<nat>)
    requires PagesOk(hdr, free, live, word) && BlocksOk(hdr, live) && ExtentsOk(hdr)
    requires FreshPages(hdr, p, 1) && p !in hdr && h.Super? && FreeListOk(p, h, fl, word')
    requires forall a | IsSlot(p, h.power, a) :: a in fl
    requires forall a <- word :: a in word' && (PageOf(a) != p ==> word'[a] == word[a])
    ensures PagesOk(hdr[p := h], free[p := fl], live, word') && BlocksOk(hdr[p := h], live) && ExtentsOk(hdr[p := h])
  {
    var hdr', free' := hdr[p := h], free[p := fl];
    forall a | IsSlot(p, h.power, a) ensures a !in live {
      SlotPage(p, h.power, a);
      assert a in live ==> IsBlock(hdr, a);
    }
    forall q <- hdr' ensures PageOk(q, hdr'[q], free', live, word') {
      if q != p {
        assert PageOk(q, hdr[q], free, live, word);
        if hdr[q].Super? {
          FreeListKept(q, hdr[q], free[q], word, word', p);
        }
      }
    }
    forall a <- live ensures IsBlock(hdr', a) {
      assert IsBlock(hdr, a);
    }
    forall q <- hdr', q' <- hdr' ensures q < q' ==> q + Pages(hdr'[q]) <= q' {
      if q in hdr && q' in hdr {
        assert q < q' ==> q + Pages(hdr[q]) <= q';
      }
    }
  }

  lemma {:induction false} FreeListKept(q: nat, h: Header, fl: seq<nat>, word: map<nat, nat>, word': map<nat, nat>,
                                        p: nat)
    requires FreeListOk(q, h, fl, word) && p != q
    requires forall a <- word :: a in word' && (PageOf(a) != p ==> word'[a] == word[a])
    ensures FreeListOk(q, h, fl, word')
  {
    forall i | 0 <= i < |fl| - 1 ensures fl[i] in word' && word'[fl[i]] == fl[i + 1] {
      assert IsSlot(q, h.power, fl[i]);
      SlotPage(q, h.power, fl[i]);
    }
  }

  /** A page none of whose blocks is live can go. */
  lemma {:induction false} PageDropped(hdr: map<nat, Header>, free: map<nat, seq<nat>>, live: set<nat>, live': set<nat>,
                                       word: map<nat, nat>, p: nat)
    requires PagesOk(hdr, free, live, word) && BlocksOk(hdr, live) && ExtentsOk(hdr) && p in hdr
    requires live' <= live && (forall a <- live' :: PageOf(a) != p)
    requires (forall a <- live :: PageOf(a) != p ==> a in live')
    ensures PagesOk(hdr - {p}, free, live', word) && BlocksOk(hdr - {p}, live') && ExtentsOk(hdr - {p})
  {
    var hdr' := hdr - {p};
    forall q <- hdr' ensures PageOk(q, hdr'[q], free, live', word) {
      assert PageOk(q, hdr[q], free, live, word);
      if hdr[q].Super? {
        forall a | IsSlot(q, hdr[q].power, a) ensures a in live' <==> a !in free[q] {
          SlotPage(q, hdr[q].power, a);
        }
      } else {
        LargePage(q);
      }
    }
    forall a <- live' ensures IsBlock(hdr', a) {
      assert IsBlock(hdr, a);
    }
    forall q <- hdr', q' <- hdr' ensures q < q' ==> q + Pages(hdr'[q]) <= q' {
      assert q < q' ==> q + Pages(hdr[q]) <= q';
    }
  }

  /** A fresh large allocation. */
  lemma {:induction false} LargeAdded(hdr: map<nat, Header>, free: map<nat, seq<nat>>, live: set<nat>,
                                      word: map<nat, nat>, p: nat, n: nat)
    requires PagesOk(hdr, free, live, word) && BlocksOk(hdr, live) && ExtentsOk(hdr)
    requires FreshPages(hdr, p, n) && p !in hdr && n > 0
    ensures var hdr', a := hdr[p := Large(n)], LargeBlock(p);
      a !in live && PagesOk(hdr', free, live + {a}, word) && BlocksOk(hdr', live + {a}) && ExtentsOk(hdr')
  {
    var hdr', a := hdr[p := Large(n)], LargeBlock(p);
    LargePage(p);
    assert a in live ==> IsBlock(hdr, a);
    forall q <- hdr' ensures PageOk(q, hdr'[q], free, live + {a}, word) {
      if q != p {
        assert PageOk(q, hdr[q], free, live, word);
        if hdr[q].Super? {
          forall b | IsSlot(q, hdr[q].power, b) ensures b != a {
            SlotPage(q, hdr[q].power, b);
          }
        }
      }
    }
    forall b <- live + {a} ensures IsBlock(hdr', b) {
      assert b == a || IsBlock(hdr, b);
    }
    forall q <- hdr', q' <- hdr' ensures q < q' ==> q + Pages(hdr'[q]) <= q' {
      if q in hdr && q' in hdr {
        assert q < q' ==> q + Pages(hdr[q]) <= q';
      }
    }
  }
}
