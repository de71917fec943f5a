/** Live blocks do not overlap, and what an operation leaves alone. */
module KmIntact {
  import opened Common
  import opened Bits
  import opened KmSlots
  import opened KmState
  import opened KmSteps
  import opened KmGood

  /** The bytes a caller may use. */
  function BlockSize(h: Header): nat
    requires h.Large? ==> h.pages > 0
  {
    if h.Super? then Pow2(h.power) else h.pages * PAGE - HEADER
  }

  ghost predicate Sized(hdr: map<nat, Header>, a: nat) {
    PageOf(a) in hdr && (hdr[PageOf(a)].Large? ==> hdr[PageOf(a)].pages > 0)
  }

  /** `w` is one of the bytes of the block `a`. */
  ghost predicate Within(hdr: map<nat, Header>, a: nat, w: nat)
    requires Sized(hdr, a)
  {
    a <= w < a + BlockSize(hdr[PageOf(a)])
  }

  /** A block lies behind the header of its page, inside the pages the header stands for. */
  lemma {:induction false} BlockExtent(m: Mem, abs: Abs, a: nat)
    requires Good(m, abs) && IsBlock(m.hdr, a)
    ensures Sized(m.hdr, a) && BlockSize(m.hdr[PageOf(a)]) >= 8
    ensures var p := PageOf(a);
      p > 0 && p * PAGE + HEADER <= a && a + BlockSize(m.hdr[p]) <= (p + Pages(m.hdr[p])) * PAGE
  {
    hide BlocksOk, BucketsOk, ChainsOk, ExtentsOk, UsesOk, RemoteOk;
    var p := PageOf(a);
    assert PageOk(p, m.hdr[p], abs.free, Live(abs), m.word);
    if m.hdr[p].Super? {
      SlotPage(p, m.hdr[p].power, a);
      Sizes(m.hdr[p].power);
    }
  }

  /** Different blocks share no byte; in particular no block covers another's header or start. */
  lemma {:induction false} BlocksApart(m: Mem, abs: Abs, a: nat, b: nat)
    requires Good(m, abs) && IsBlock(m.hdr, a) && IsBlock(m.hdr, b) && a != b
    ensures Sized(m.hdr, a) && Sized(m.hdr, b)
    ensures a + BlockSize(m.hdr[PageOf(a)]) <= b || b + BlockSize(m.hdr[PageOf(b)]) <= a
  {
    hide PagesOk, BlocksOk, BucketsOk, ChainsOk, UsesOk, RemoteOk;
    BlockExtent(m, abs, a);
    BlockExtent(m, abs, b);
    var p: nat, q: nat := PageOf(a), PageOf(b);
    if p == q {
      if m.hdr[p].Super? {
        SuperFacts(m, abs, p);
        SlotsDisjoint(p, m.hdr[p].power, a, b);
      }
    } else {
      assert p < q ==> p + Pages(m.hdr[p]) <= q;
      assert q < p ==> q + Pages(m.hdr[q]) <= p;
    }
  }

  /** Live blocks share no byte with each other or with any header, whoever uses them. */
  lemma {:induction false} LiveDisjoint(m: Mem, abs: Abs, a: nat, w: nat)
    requires Good(m, abs) && a in Live(abs) && Sized(m.hdr, a) && Within(m.hdr, a, w)
    ensures forall b <- Live(abs) :: b != a ==> Sized(m.hdr, b) && !Within(m.hdr, b, w)
    ensures forall p <- m.hdr :: !(p * PAGE <= w < p * PAGE + HEADER)
  {
    hide PagesOk, BlocksOk, BucketsOk, ChainsOk, UsesOk, RemoteOk, Within;
    LiveBlock(m, abs, a);
    forall b <- Live(abs) ensures b != a ==> Sized(m.hdr, b) && !Within(m.hdr, b, w) {
      if b != a {
        LiveBlock(m, abs, b);
        BlocksApart(m, abs, a, b);
        WithinApart(m.hdr, a, b, w);
      }
    }
    BlockExtent(m, abs, a);
    var q: nat := PageOf(a);
    forall p <- m.hdr ensures !(p * PAGE <= w < p * PAGE + HEADER) {
      assert p < q ==> p + Pages(m.hdr[p]) <= q;
      assert q < p ==> q + Pages(m.hdr[q]) <= p;
      HeaderApart(m.hdr, a, p, w);
    }
  }

  lemma {:induction false} WithinApart(hdr: map<nat, Header>, a: nat, b: nat, w: nat)
    requires Sized(hdr, a) && Sized(hdr, b) && Within(hdr, a, w)
    requires a + BlockSize(hdr[PageOf(a)]) <= b || b + BlockSize(hdr[PageOf(b)]) <= a
    ensures !Within(hdr, b, w)
  {
  }

  lemma {:induction false} HeaderApart(hdr: map<nat, Header>, a: nat, p: nat, w: nat)
    requires Sized(hdr, a) && Within(hdr, a, w)
    requires var q := PageOf(a); q * PAGE + HEADER <= a && a + BlockSize(hdr[q]) <= (q + Pages(hdr[q])) * PAGE
    requires PageOf(a) < p ==> PageOf(a) + Pages(hdr[PageOf(a)]) <= p
    ensures !(p * PAGE <= w < p * PAGE + HEADER)
  {
  }

  // ---------------------------------------------------------------- what stays

  ghost predicate BlockKept(hdr: map<nat, Header>, hdr': map<nat, Header>, a: nat) {
    PageOf(a) in hdr && PageOf(a) in hdr' && BlockKind(hdr[PageOf(a)], hdr'[PageOf(a)])
  }

  predicate BlockKind(h: Header, h': Header) {
    if h.Super? then h'.Super? && h'.power == h.power && h'.cpu == h.cpu else h' == h
  }

  ghost predicate WordsKept(hdr: map<nat, Header>, word: map<nat, nat>, word': map<nat, nat>, a: nat)
    requires Sized(hdr, a)
  {
    forall w <- word :: Within(hdr, a, w) ==> w in word' && word'[w] == word[w]
  }

  /** The blocks of `keep` keep their place, size and contents. */
  ghost predicate Intact(m: Mem, m': Mem, keep: set<nat>) {
    forall a <- keep :: Sized(m.hdr, a) && BlockKept(m.hdr, m'.hdr, a) && WordsKept(m.hdr, m.word, m'.word, a)
  }

  lemma {:induction false} IntactTransitive(m: Mem, m': Mem, m'': Mem, keep: set<nat>, keep': set<nat>)
    requires Intact(m, m', keep) && Intact(m', m'', keep') && keep' <= keep
    ensures Intact(m, m'', keep')
  {
    forall a <- keep' ensures WordsKept(m.hdr, m.word, m''.word, a) {
      forall w <- m.word ensures Within(m.hdr, a, w) ==> w in m''.word && m''.word[w] == m.word[w] {
        if Within(m.hdr, a, w) {
          assert w in m'.word && m'.word[w] == m.word[w];
          assert Within(m'.hdr, a, w);
        }
      }
    }
  }

  /** `w` belongs to no block of `keep`. */
  ghost predicate Outside(hdr: map<nat, Header>, keep: set<nat>, w: nat) {
    forall a <- keep :: Sized(hdr, a) && !Within(hdr, a, w)
  }

  /** Writing outside the kept blocks leaves them intact. */
  lemma {:induction false} IntactWrites(m: Mem, abs: Abs, m': Mem, keep: set<nat>)
    requires Good(m, abs) && (forall a <- keep :: IsBlock(m.hdr, a) && BlockKept(m.hdr, m'.hdr, a))
    requires forall w <- m.word :: (w in m'.word && m'.word[w] == m.word[w]) || Outside(m.hdr, keep, w)
    ensures Intact(m, m', keep)
  {
    hide PagesOk, BlocksOk, BucketsOk, ChainsOk, UsesOk, RemoteOk, ExtentsOk, Within;
    forall a <- keep ensures Sized(m.hdr, a) && WordsKept(m.hdr, m.word, m'.word, a) {
      BlockExtent(m, abs, a);
    }
  }

  /** A word in a block is outside all others. */
  lemma {:induction false} OutsideOthers(m: Mem, abs: Abs, keep: set<nat>, b: nat, w: nat)
    requires Good(m, abs) && (forall a <- keep :: IsBlock(m.hdr, a)) && IsBlock(m.hdr, b) && b !in keep
    requires Sized(m.hdr, b) && Within(m.hdr, b, w)
    ensures Outside(m.hdr, keep, w)
  {
    hide PagesOk, BlocksOk, BucketsOk, ChainsOk, UsesOk, RemoteOk, ExtentsOk, IsBlock, Within;
    forall a <- keep ensures Sized(m.hdr, a) && !Within(m.hdr, a, w) {
      BlocksApart(m, abs, a, b);
      WithinApart(m.hdr, b, a, w);
    }
  }

  /** A word of a page no header stands for is outside all blocks. */
  lemma {:induction false} OutsideFresh(m: Mem, abs: Abs, keep: set<nat>, p: nat, n: nat, w: nat)
    requires Good(m, abs) && (forall a <- keep :: IsBlock(m.hdr, a)) && FreshPages(m.hdr, p, n)
    requires p * PAGE <= w < (p + n) * PAGE
    ensures Outside(m.hdr, keep, w)
  {
    hide PagesOk, BlocksOk, BucketsOk, ChainsOk, UsesOk, RemoteOk, ExtentsOk, IsBlock;
    forall a <- keep ensures Sized(m.hdr, a) && !Within(m.hdr, a, w) {
      BlockExtent(m, abs, a);
      var q: nat := PageOf(a);
      assert q + Pages(m.hdr[q]) <= p || p + n <= q;
    }
  }

  // ---------------------------------------------------------------- callers' own writes

  /** A caller may write anything into a block it holds. */
  lemma {:induction false} GoodWritten(m: Mem, abs: Abs, a: nat, word': map<nat, nat>)
    requires Good(m, abs) && a in abs.held && Sized(m.hdr, a)
    requires forall w <- m.word :: w in word' && (word'[w] == m.word[w] || Within(m.hdr, a, w))
    ensures Good(m.(word := word'), abs)
    ensures Intact(m, m.(word := word'), Live(abs) - {a})
  {
    hide PagesOk, BlocksOk, BucketsOk, ChainsOk, RemoteOk, ExtentsOk, IsBlock, Within;
    LiveBlock(m, abs, a);
    var keep := Live(abs) - {a};
    forall b <- keep ensures IsBlock(m.hdr, b) && BlockKept(m.hdr, m.hdr, b) {
      LiveBlock(m, abs, b);
      BlockExtent(m, abs, b);
    }
    forall w <- m.word ensures w in word' && (word'[w] == m.word[w] || Outside(m.hdr, keep, w)) {
      if word'[w] != m.word[w] {
        OutsideOthers(m, abs, keep, a, w);
      }
    }
    IntactWrites(m, abs, m.(word := word'), keep);
    forall w <- m.word ensures IsBlock(m.hdr, w) && w !in Live(abs) ==> word'[w] == m.word[w] {
      if IsBlock(m.hdr, w) && w !in Live(abs) {
        StartOutside(m, abs, a, w);
      }
    }
    WordsWritten(m.hdr, abs.free, Live(abs), m.word, word');
    forall r <- abs.pending ensures SameWord(m.word, word', r) && SameWord(m.word, word', r + 8) {
      RecordOutside(m, abs, a, r);
    }
    ChainsFrame(m.hdr, m.word, m.hdr, word', abs.pending, abs.chains);
  }

  lemma {:induction false} StartOutside(m: Mem, abs: Abs, a: nat, b: nat)
    requires Good(m, abs) && IsBlock(m.hdr, a) && IsBlock(m.hdr, b) && a != b && Sized(m.hdr, a)
    ensures !Within(m.hdr, a, b)
  {
    hide PagesOk, BlocksOk, BucketsOk, ChainsOk, RemoteOk, ExtentsOk, UsesOk, IsBlock;
    BlocksApart(m, abs, a, b);
    BlockExtent(m, abs, b);
  }

  lemma {:induction false} RecordOutside(m: Mem, abs: Abs, a: nat, r: nat)
    requires Good(m, abs) && a in abs.held && r in abs.pending && Sized(m.hdr, a)
    ensures !Within(m.hdr, a, r) && !Within(m.hdr, a, r + 8)
  {
    hide PagesOk, BlocksOk, BucketsOk, ChainsOk, RemoteOk, ExtentsOk, IsBlock;
    LiveBlock(m, abs, a);
    RecordFacts(m, abs, r);
    BlocksApart(m, abs, a, r);
    Sizes(RECORD_POWER);
  }
}
