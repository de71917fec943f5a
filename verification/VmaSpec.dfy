/** Address spaces as sorted lists of areas: finding, carving a range out, putting an area in. */
module VmaSpec {
  import opened Common

  /** `attrs` stands for all of an area's fields besides its bounds. */
  datatype Area<A> = Area(start: nat, end: nat, attrs: A)


  /** Areas are not empty, in order, and do not overlap. */
  ghost predicate Ordered<A>(s: seq<Area<A>>) {
    (forall i | 0 <= i < |s| :: s[i].start < s[i].end) && forall i, j | 0 <= i < j < |s| :: s[i].end <= s[j].start
  }

  function Find<A>(s: seq<Area<A>>, x: nat): Option<A> {
    if s == [] then None
    else if s[0].start <= x < s[0].end then Some(s[0].attrs)
    else Find(s[1..], x)
  }

  function Bytes<A>(s: seq<Area<A>>): int {
    if s == [] then 0 else s[0].end - s[0].start + Bytes(s[1..])
  }

  /** What is left of one area outside `[lo, hi)`. */
  function Cut<A>(a: Area<A>, lo: nat, hi: nat): seq<Area<A>> {
    (if a.start < lo then [a.(end := if a.end < lo then a.end else lo)] else [])
    + (if hi < a.end then [a.(start := if hi < a.start then a.start else hi)] else [])
  }

  function Carve<A>(s: seq<Area<A>>, lo: nat, hi: nat): seq<Area<A>> {
    if s == [] then [] else Cut(s[0], lo, hi) + Carve(s[1..], lo, hi)
  }

  /** How many areas start before `x`. */
  function Place<A>(s: seq<Area<A>>, x: nat): (k: nat)
    ensures k <= |s|
  {
    if s == [] || s[0].start >= x then 0 else 1 + Place(s[1..], x)
  }

  /** Where an area that starts at `x` goes: after all that start before it, and after the first one in
      any case unless it starts before that. */
  function Slot<A>(s: seq<Area<A>>, x: nat): (k: nat)
    ensures k <= |s|
  {
    if s != [] && s[0].start == x then 1 else Place(s, x)
  }

  function Insert<A>(s: seq<Area<A>>, a: Area<A>): seq<Area<A>> {
    var k := Slot(s, a.start);
    s[..k] + [a] + s[k..]
  }

  // ---------------------------------------------------------------- joining lists

  lemma {:induction false} OrderedParts<A>(a: seq<Area<A>>, b: seq<Area<A>>)
    ensures Ordered(a + b)
      <==> Ordered(a) && Ordered(b) && forall i, j | 0 <= i < |a| && 0 <= j < |b| :: a[i].end <= b[j].start
  {
    var s := a + b;
    if Ordered(s) {
      assert forall i | 0 <= i < |a| :: s[i] == a[i];
      assert forall j | 0 <= j < |b| :: s[|a| + j] == b[j];
      forall i, j | 0 <= i < |a| && 0 <= j < |b| ensures a[i].end <= b[j].start {
        assert s[i].end <= s[|a| + j].start;
      }
      forall i, j | 0 <= i < j < |b| ensures b[i].end <= b[j].start {
        assert s[|a| + i].end <= s[|a| + j].start;
      }
      forall j | 0 <= j < |b| ensures b[j].start < b[j].end {
        assert s[|a| + j].start < s[|a| + j].end;
      }
    }
  }

  lemma {:induction false} CarveJoin<A>(a: seq<Area<A>>, b: seq<Area<A>>, lo: nat, hi: nat)
    ensures Carve(a + b, lo, hi) == Carve(a, lo, hi) + Carve(b, lo, hi)
  {
    if a == [] {
      assert a + b == b;
    } else {
      assert (a + b)[1..] == a[1..] + b;
      CarveJoin(a[1..], b, lo, hi);
    }
  }

  lemma {:induction false} BytesJoin<A>(a: seq<Area<A>>, b: seq<Area<A>>)
    ensures Bytes(a + b) == Bytes(a) + Bytes(b)
  {
    if a == [] {
      assert a + b == b;
    } else {
      assert (a + b)[1..] == a[1..] + b;
      BytesJoin(a[1..], b);
    }
  }

  lemma {:induction false} FindJoin<A>(a: seq<Area<A>>, b: seq<Area<A>>, x: nat)
    ensures Find(a + b, x) == if Find(a, x) != None then Find(a, x) else Find(b, x)
  {
    if a == [] {
      assert a + b == b;
    } else {
      assert (a + b)[1..] == a[1..] + b;
      FindJoin(a[1..], b, x);
    }
  }

  /** Areas that lie outside the range are left alone. */
  lemma {:induction false} CarveOutside<A>(s: seq<Area<A>>, lo: nat, hi: nat)
    requires Ordered(s) && lo <= hi && Outside(s, lo, hi)
    ensures Carve(s, lo, hi) == s
  {
    if s != [] {
      HeadFirst(s);
      var t := s[1..];
      assert forall i | 0 <= i < |t| :: t[i] == s[i + 1];
      CarveOutside(t, lo, hi);
      assert Cut(s[0], lo, hi) == [s[0]];
    }
  }

  // ---------------------------------------------------------------- bounds

  ghost predicate From<A>(s: seq<Area<A>>, x: nat) {
    forall i | 0 <= i < |s| :: x <= s[i].start
  }

  ghost predicate Until<A>(s: seq<Area<A>>, x: nat) {
    forall i | 0 <= i < |s| :: s[i].end <= x
  }

  ghost predicate Outside<A>(s: seq<Area<A>>, lo: nat, hi: nat) {
    forall i | 0 <= i < |s| :: s[i].end <= lo || hi <= s[i].start
  }

  lemma {:induction false} Joined<A>(a: seq<Area<A>>, b: seq<Area<A>>, x: nat)
    requires Ordered(a) && Ordered(b) && Until(a, x) && From(b, x)
    ensures Ordered(a + b)
  {
    OrderedParts(a, b);
  }

  lemma {:induction false} BoundsJoin<A>(a: seq<Area<A>>, b: seq<Area<A>>, x: nat, lo: nat, hi: nat)
    ensures From(a, x) && From(b, x) ==> From(a + b, x)
    ensures Outside(a, lo, hi) && Outside(b, lo, hi) ==> Outside(a + b, lo, hi)
  {
  }

  lemma {:induction false} HeadFirst<A>(s: seq<Area<A>>)
    requires Ordered(s) && s != []
    ensures s[0].start < s[0].end && Ordered(s[1..]) && From(s[1..], s[0].end)
  {
    var t := s[1..];
    assert s == [s[0]] + t;
    OrderedParts([s[0]], t);
    forall i | 0 <= i < |t| ensures s[0].end <= t[i].start {
      assert t[i] == s[i + 1];
    }
  }

  lemma {:induction false} CutFacts<A>(a: Area<A>, lo: nat, hi: nat)
    requires a.start < a.end && lo <= hi
    ensures var c := Cut(a, lo, hi); Ordered(c) && Outside(c, lo, hi) && From(c, a.start) && Until(c, a.end)
  {
  }

  // ---------------------------------------------------------------- carving

  /** Carving keeps the order and leaves nothing in the range. */
  lemma {:induction false} CarveOrdered<A>(s: seq<Area<A>>, lo: nat, hi: nat, x: nat)
    requires Ordered(s) && lo <= hi && From(s, x)
    ensures Ordered(Carve(s, lo, hi)) && Outside(Carve(s, lo, hi), lo, hi) && From(Carve(s, lo, hi), x)
  {
    hide Ordered, Outside, Cut;
    if s == [] {
      Nothing<A>(lo, hi, x);
    } else {
      HeadFirst(s);
      var c, d := Cut(s[0], lo, hi), Carve(s[1..], lo, hi);
      CutFacts(s[0], lo, hi);
      CarveOrdered(s[1..], lo, hi, s[0].end);
      Joined(c, d, s[0].end);
      BoundsJoin(c, d, x, lo, hi);
    }
  }

  lemma {:induction false} Nothing<A>(lo: nat, hi: nat, x: nat)
    ensures Ordered<A>([]) && Outside<A>([], lo, hi) && From<A>([], x)
  {
  }

  /** An address in the range finds nothing; any other finds what it found. */
  lemma {:induction false} CarveFind<A>(s: seq<Area<A>>, lo: nat, hi: nat, x: nat)
    requires Ordered(s) && lo <= hi
    ensures Find(Carve(s, lo, hi), x) == if lo <= x < hi then None else Find(s, x)
  {
    if s != [] {
      HeadFirst(s);
      CarveFind(s[1..], lo, hi, x);
      FindJoin(Cut(s[0], lo, hi), Carve(s[1..], lo, hi), x);
      CutFind(s[0], lo, hi, x);
    }
  }

  lemma {:induction false} CutFind<A>(a: Area<A>, lo: nat, hi: nat, x: nat)
    requires a.start < a.end && lo <= hi
    ensures Find(Cut(a, lo, hi), x)
      == if a.start <= x < a.end && !(lo <= x < hi) then Some(a.attrs) else None
  {
    var left := if a.start < lo then [a.(end := if a.end < lo then a.end else lo)] else [];
    var right := if hi < a.end then [a.(start := if hi < a.start then a.start else hi)] else [];
    FindJoin(left, right, x);
    assert left != [] ==> left[1..] == [];
    assert right != [] ==> right[1..] == [];
  }

  // ---------------------------------------------------------------- inserting

  lemma {:induction false} PlaceFacts<A>(s: seq<Area<A>>, x: nat)
    requires Ordered(s)
    ensures forall i | 0 <= i < |s| :: i < Place(s, x) <==> s[i].start < x
  {
    if s != [] {
      var t := s[1..];
      assert s == [s[0]] + t;
      OrderedParts([s[0]], t);
      PlaceFacts(t, x);
      forall i | 0 <= i < |s| ensures i < Place(s, x) <==> s[i].start < x {
        if i > 0 {
          assert s[i] == t[i - 1];
          assert s[0].end <= s[i].start;
        }
      }
    }
  }

  lemma {:induction false} Lengths<A>(s: seq<Area<A>>)
    requires Ordered(s)
    ensures forall i | 0 <= i < |s| :: s[i].start < s[i].end
  {
  }

  lemma {:induction false} SlotIsPlace<A>(s: seq<Area<A>>, a: Area<A>)
    requires Ordered(s) && a.start < a.end && Outside(s, a.start, a.end)
    ensures Slot(s, a.start) == Place(s, a.start)
  {
    hide Ordered, Place;
    PlaceFacts(s, a.start);
    Lengths(s);
    assert s != [] ==> s[0].end <= a.start || a.end <= s[0].start;
  }

  /** The list falls into what ends before and what starts after a place with room. */
  lemma {:induction false} Sides<A>(s: seq<Area<A>>, a: Area<A>)
    requires Ordered(s) && a.start < a.end && Outside(s, a.start, a.end)
    ensures var k := Slot(s, a.start);
      s == s[..k] + s[k..] && Ordered(s[..k]) && Ordered(s[k..]) && Until(s[..k], a.start) && From(s[k..], a.end)
  {
    hide Ordered, Place, Slot;
    var k := Slot(s, a.start);
    SlotIsPlace(s, a);
    PlaceFacts(s, a.start);
    Lengths(s);
    var l, r := s[..k], s[k..];
    assert s == l + r;
    Ends(s, a, k);
    hide Outside, Until, From;
    OrderedParts(l, r);
  }

  lemma {:induction false} Ends<A>(s: seq<Area<A>>, a: Area<A>, k: nat)
    requires k <= |s| && Outside(s, a.start, a.end) && (forall i | 0 <= i < |s| :: s[i].start < s[i].end)
    requires a.start < a.end && forall i | 0 <= i < |s| :: i < k <==> s[i].start < a.start
    ensures Until(s[..k], a.start) && From(s[k..], a.end)
  {
    var l, r := s[..k], s[k..];
    forall i | 0 <= i < |l| ensures l[i].end <= a.start {
      assert l[i] == s[i];
    }
    forall i | 0 <= i < |r| ensures a.end <= r[i].start {
      assert r[i] == s[k + i];
    }
  }

  /** An area put into the list keeps the order exactly if it is not empty and there is room for it. */
  lemma {:induction false} InsertOrdered<A>(s: seq<Area<A>>, a: Area<A>)
    requires Ordered(s)
    ensures Ordered(Insert(s, a)) <==> a.start < a.end && Outside(s, a.start, a.end)
    ensures Bytes(Insert(s, a)) == Bytes(s) + a.end - a.start
  {
    hide Ordered, Outside, Slot;
    var k := Slot(s, a.start);
    var l, r := s[..k], s[k..];
    assert Insert(s, a) == l + ([a] + r) && s == l + r;
    BytesJoin(l, r);
    BytesJoin(l, [a] + r);
    assert ([a] + r)[1..] == r;
    if a.start < a.end && Outside(s, a.start, a.end) {
      Sides(s, a);
      Between(l, a, r);
    }
    if Ordered(Insert(s, a)) {
      Apart(l, a, r);
    }
  }

  lemma {:induction false} Between<A>(l: seq<Area<A>>, a: Area<A>, r: seq<Area<A>>)
    requires Ordered(l) && Ordered(r) && a.start < a.end && Until(l, a.start) && From(r, a.end)
    ensures Ordered(l + ([a] + r))
  {
    hide Ordered;
    One(a);
    Joined([a], r, a.end);
    Joined(l, [a] + r, a.start);
  }

  lemma {:induction false} Apart<A>(l: seq<Area<A>>, a: Area<A>, r: seq<Area<A>>)
    requires Ordered(l + ([a] + r))
    ensures a.start < a.end && Outside(l + r, a.start, a.end)
  {
    var t := [a] + r;
    OrderedParts(l, t);
    OrderedParts([a], r);
    assert t[0] == a;
    forall i | 0 <= i < |l + r| ensures (l + r)[i].end <= a.start || a.end <= (l + r)[i].start {
      if i < |l| {
        assert l[i].end <= t[0].start;
      } else {
        assert [a][0].end <= r[i - |l|].start;
      }
    }
  }

  lemma {:induction false} One<A>(a: Area<A>)
    requires a.start < a.end
    ensures Ordered([a])
  {
  }

  lemma {:induction false} InsertFind<A>(s: seq<Area<A>>, a: Area<A>, x: nat)
    requires Ordered(s) && a.start < a.end && Outside(s, a.start, a.end)
    ensures Find(Insert(s, a), x) == if a.start <= x < a.end then Some(a.attrs) else Find(s, x)
  {
    hide Ordered, Outside;
    Sides(s, a);
    var k := Slot(s, a.start);
    var l, r := s[..k], s[k..];
    assert Insert(s, a) == l + ([a] + r);
    FindJoin(l, r, x);
    FindJoin(l, [a] + r, x);
    assert ([a] + r)[1..] == r;
    if a.start <= x < a.end {
      NotFound(l, x);
    }
  }

  lemma {:induction false} NotFound<A>(s: seq<Area<A>>, x: nat)
    requires forall i | 0 <= i < |s| :: !(s[i].start <= x < s[i].end)
    ensures Find(s, x) == None
  {
    if s != [] {
      assert forall i | 0 <= i < |s[1..]| :: s[1..][i] == s[i + 1];
      NotFound(s[1..], x);
    }
  }

  // ---------------------------------------------------------------- a fixed mapping

  /** The list after a mapping at a fixed range. */
  function Override<A>(s: seq<Area<A>>, a: Area<A>): seq<Area<A>> {
    Insert(Carve(s, a.start, a.end), a)
  }

  /** A fixed mapping overrides: the range finds the new area, every other address finds the attributes it
      found before or still none, and the list stays in order, unless the range is empty. */
  lemma {:induction false} Overrides<A>(s: seq<Area<A>>, a: Area<A>, x: nat)
    requires Ordered(s) && a.start <= a.end
    ensures Ordered(Override(s, a)) <==> a.start < a.end
    ensures a.start < a.end ==> Find(Override(s, a), x) == if a.start <= x < a.end then Some(a.attrs) else Find(s, x)
  {
    CarveOrdered(s, a.start, a.end, 0);
    CarveFind(s, a.start, a.end, x);
    InsertOrdered(Carve(s, a.start, a.end), a);
    if a.start < a.end {
      InsertFind(Carve(s, a.start, a.end), a, x);
    }
  }

  // ---------------------------------------------------------------- what is mapped

  /** How many addresses below `n` lie in an area. */
  function Mapped<A>(s: seq<Area<A>>, n: nat): nat {
    if n == 0 then 0 else Mapped(s, n - 1) + if Find(s, n - 1) != None then 1 else 0
  }

  /** The bytes of a list are the addresses that find an area. */
  lemma {:induction false} BytesMapped<A>(s: seq<Area<A>>, n: nat)
    requires Ordered(s) && Until(s, n)
    ensures Bytes(s) == Mapped(s, n)
  {
    hide Ordered;
    if s == [] {
      NoneMapped<A>(n);
    } else {
      Lengths(s);
      HeadFirst(s);
      assert forall i | 0 <= i < |s[1..]| :: s[1..][i] == s[i + 1];
      BytesMapped(s[1..], n);
      HeadMapped(s, n);
    }
  }

  lemma {:induction false} NoneMapped<A>(n: nat)
    ensures Mapped<A>([], n) == 0
  {
    if n > 0 {
      NoneMapped<A>(n - 1);
    }
  }

  lemma {:induction false} HeadMapped<A>(s: seq<Area<A>>, n: nat)
    requires s != [] && s[0].start < s[0].end && From(s[1..], s[0].end)
    ensures var a, b := s[0].start, s[0].end;
      Mapped(s, n) == Mapped(s[1..], n) + if n <= a then 0 else if n < b then n - a else b - a
  {
    if n > 0 {
      HeadMapped(s, n - 1);
      if n - 1 < s[0].end {
        NotFound(s[1..], n - 1);
      }
    }
  }
}
