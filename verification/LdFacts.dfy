/** What readers of a terminal can rely on. */
module LdFacts {
  import opened LdEditor

  // ---------------------------------------------------------------- reading

  lemma {:induction false} LineLenFacts(s: seq<Byte>, room: nat)
    ensures var n := LineLen(s, room);
      |Clean(s[..n])| <= room && (forall i | 0 <= i < n - 1 :: s[i] != NEWLINE)
      && (n < |s| ==> |Clean(s[..n])| == room || EndsLine(s[..n]))
  {
    if s != [] && room > 0 && s[0] != NEWLINE {
      var room' := if s[0] < 128 then room - 1 else room;
      var n := LineLen(s[1..], room');
      LineLenFacts(s[1..], room');
      assert s[..n + 1][1..] == s[1..][..n];
      forall i | 0 <= i < n ensures s[i] != NEWLINE {
        assert i > 0 ==> s[i] == s[1..][i - 1];
      }
    } else if s != [] && room > 0 {
      assert s[..1] == [NEWLINE];
      CleanOne(NEWLINE);
    }
  }

  lemma {:induction false} RawLenFacts(s: seq<Byte>, room: nat)
    ensures var n := RawLen(s, room); |Clean(s[..n])| <= room && (n < |s| ==> |Clean(s[..n])| == room)
  {
    if s != [] && room > 0 {
      var room' := if s[0] < 128 then room - 1 else room;
      var n := RawLen(s[1..], room');
      RawLenFacts(s[1..], room');
      assert s[..n + 1][1..] == s[1..][..n];
    }
  }

  /** `r` has taken some bytes off the front of what was ready, and got those of 7 bits, in order. */
  ghost predicate TookPrefix(ed: Editor, got: seq<Byte>, r: Reading, n: nat) {
    n <= |ed.committed| && r.ed.committed == ed.committed[n..] && r.out == got + Clean(ed.committed[..n])
    && r.ed.edit == ed.edit
  }

  /** A canonical read takes all that is ready up to `nr` bytes or the end of a line. The end of input is
      over when a read has met it. */
  lemma {:induction false} CanonReadTakes(ed: Editor, got: seq<Byte>, nr: nat) returns (n: nat)
    ensures var r := CanonRead(ed, got, nr);
      TookPrefix(ed, got, r, n) && (|got| <= nr ==> |r.out| <= nr)
      && (forall i | 0 <= i < n - 1 :: ed.committed[i] != NEWLINE)
      && var line := n > 0 && ed.committed[n - 1] == NEWLINE;
      (n < |ed.committed| ==> line || |r.out| >= nr)
      && (r.ed.atEof <==> ed.atEof && (line || |r.out| >= nr))
      && (r.ed.lineReady
          <==> (ed.lineReady && (line || n < |ed.committed| || |got| >= nr || (ed.committed == [] && ed.atEof))))
      && (|got| >= nr ==> n == 0)
  {
    n := LineLen(ed.committed, Room(got, nr));
    LineLenFacts(ed.committed, Room(got, nr));
  }

  /** It waits for more exactly if all that is ready holds no newline and is not enough, and input has not
      ended: the end-of-file character in mid-line makes a line ready but does not end the read. */
  lemma {:induction false} CanonReadWaits(ed: Editor, got: seq<Byte>, nr: nat)
    ensures CanonRead(ed, got, nr).blocked <==>
      |got| + |Clean(ed.committed)| < nr && NEWLINE !in ed.committed && !ed.atEof
  {
    var s, room := ed.committed, Room(got, nr);
    var n := LineLen(s, room);
    LineLenFacts(s, room);
    assert s == s[..n] + s[n..];
    CleanSplit(s[..n], s[n..]);
    if |got| < nr && s != [] && n == |s| {
      assert s[..n] == s;
      assert NEWLINE in s ==> EndsLine(s);
    }
  }

  /** A non-canonical read takes all that is ready, as far as it may go. That is `nr` bytes if it need not
      wait; and, if it must, `vmin` bytes where the time between them counts, and else the more of both. */
  lemma {:induction false} RawReadTakes(ed: Editor, got: seq<Byte>, nr: nat, vmin: nat, vtime: nat) returns (n: nat)
    ensures var r := RawRead(ed, got, nr, vmin, vtime);
      TookPrefix(ed, got, r, n) && r.ed == ed.(committed := r.ed.committed)
      && (vmin == 0 ==> UpTo(ed, got, r, n, nr))
      && (vmin > 0 && vtime == 0 && nr >= vmin ==> UpTo(ed, got, r, n, nr))
      && (vmin > 0 && (vtime > 0 || nr < vmin) ==> UpTo(ed, got, r, n, vmin))
  {
    n := RawLen(ed.committed, Room(got, Limit(nr, vmin, vtime)));
    RawLenFacts(ed.committed, Room(got, Limit(nr, vmin, vtime)));
  }

  /** It has got to `most` bytes and no further, or has taken all there was. */
  ghost predicate UpTo(ed: Editor, got: seq<Byte>, r: Reading, n: nat, most: nat) {
    (n < |ed.committed| ==> |r.out| >= most) && (|got| <= most ==> |r.out| <= most)
    && (|got| >= most ==> n == 0)
  }

  /** It waits exactly while there are fewer than `vmin` bytes. */
  lemma {:induction false} RawReadWaits(ed: Editor, got: seq<Byte>, nr: nat, vmin: nat, vtime: nat)
    ensures RawRead(ed, got, nr, vmin, vtime).blocked <==> |got| + |Clean(ed.committed)| < vmin
  {
    var s, room := ed.committed, Room(got, Limit(nr, vmin, vtime));
    var n := RawLen(s, room);
    RawLenFacts(s, room);
    assert s == s[..n] + s[n..];
    CleanSplit(s[..n], s[n..]);
  }

  // ---------------------------------------------------------------- all runs

  datatype Op =
    | Key(c: Byte)
    | Mode(t: Termios)
    | LineRead(got: seq<Byte>, nr: nat)
    | ByteRead(got: seq<Byte>, nr: nat, vmin: nat, vtime: nat)

  /** The terminal, all bytes that have become ready, and all bytes readers have got. */
  datatype World = World(t: Termios, inp: Input, ready: seq<Byte>, read: seq<Byte>)

  /** What has become ready in a step that drops nothing. */
  function Made(ed: Editor, ed': Editor): seq<Byte> {
    if |ed.committed| <= |ed'.committed| then ed'.committed[|ed.committed|..] else []
  }

  function Do(w: World, op: Op): World {
    match op
    case Key(c) =>
      var inp := Receive(w.t, w.inp, c);
      w.(inp := inp, ready := w.ready + Made(w.inp.ed, inp.ed))
    case Mode(t) =>
      var ed := Switch(w.t, t, w.inp.ed);
      w.(t := t, inp := w.inp.(ed := ed), ready := w.ready + Made(w.inp.ed, ed))
    case LineRead(got, nr) =>
      var r := CanonRead(w.inp.ed, got, nr);
      w.(inp := w.inp.(ed := r.ed), read := w.read + if |got| <= |r.out| then r.out[|got|..] else [])
    case ByteRead(got, nr, vmin, vtime) =>
      var r := RawRead(w.inp.ed, got, nr, vmin, vtime);
      w.(inp := w.inp.(ed := r.ed), read := w.read + if |got| <= |r.out| then r.out[|got|..] else [])
  }

  /** Only an interrupt in non-canonical mode and turning canonical mode on drop what is ready. */
  predicate Drops(w: World, op: Op) {
    w.inp.ed.committed != [] &&
    match op
    case Key(c) =>
      !w.t.icanon && InputChar(w.t, c) != 0 && Signals(w.t, InputChar(w.t, c)) && SignalOf(w.t, InputChar(w.t, c))
      && !(c == 0 && w.t.ignpar)
    case Mode(t) => t.icanon && !w.t.icanon
    case _ => false
  }

  /** Nothing ready is lost exactly when the step does not drop. */
  lemma {:induction false} KeepsReady(w: World, op: Op)
    requires op.Key? || op.Mode?
    ensures w.inp.ed.committed <= Do(w, op).inp.ed.committed <==> !Drops(w, op)
  {
  }

  ghost predicate Run(ws: seq<World>, ops: seq<Op>) {
    |ws| == |ops| + 1 && forall i | 0 <= i < |ops| :: ws[i + 1] == Do(ws[i], ops[i])
  }

  ghost predicate NoDrops(ws: seq<World>, ops: seq<Op>)
    requires |ws| == |ops| + 1
  {
    forall i | 0 <= i < |ops| :: !Drops(ws[i], ops[i])
  }

  /** Over every run that drops nothing, readers get exactly the 7-bit bytes that become ready, in order,
      and what they have not got is still there. */
  lemma {:induction false} ReadInOrder(ws: seq<World>, ops: seq<Op>, i: nat)
    requires Run(ws, ops) && NoDrops(ws, ops) && i <= |ops|
    requires ws[0].read == [] && ws[0].ready == ws[0].inp.ed.committed
    ensures ws[i].read + Clean(ws[i].inp.ed.committed) == Clean(ws[i].ready)
    decreases i
  {
    hide Receive, Switch, CanonRead, RawRead, Drops;
    if i > 0 {
      ReadInOrder(ws, ops, i - 1);
      var w, op := ws[i - 1], ops[i - 1];
      assert ws[i - 1 + 1] == Do(w, op) && !Drops(w, op);
      OneInOrder(w, op);
    } else {
      assert ws[0].read + Clean(ws[0].inp.ed.committed) == Clean(ws[0].ready);
    }
  }

  lemma {:induction false} OneInOrder(w: World, op: Op)
    requires !Drops(w, op) && w.read + Clean(w.inp.ed.committed) == Clean(w.ready)
    ensures Do(w, op).read + Clean(Do(w, op).inp.ed.committed) == Clean(Do(w, op).ready)
  {
    hide Receive, Switch, CanonRead, RawRead, Drops, Clean, UpTo, Made;
    var ed, ed' := w.inp.ed, Do(w, op).inp.ed;
    match op {
      case Key(_) | Mode(_) =>
        KeepsReady(w, op);
        MadeReady(ed, ed', w.read, w.ready);
      case LineRead(got, nr) =>
        var n := CanonReadTakes(ed, got, nr);
        Taken(w.read, ed.committed, n, got);
      case ByteRead(got, nr, vmin, vtime) =>
        var n := RawReadTakes(ed, got, nr, vmin, vtime);
        Taken(w.read, ed.committed, n, got);
    }
  }

  lemma {:induction false} MadeReady(ed: Editor, ed': Editor, read: seq<Byte>, ready: seq<Byte>)
    requires ed.committed <= ed'.committed && read + Clean(ed.committed) == Clean(ready)
    ensures read + Clean(ed'.committed) == Clean(ready + Made(ed, ed'))
  {
    hide Clean;
    var made := Made(ed, ed');
    assert ed'.committed == ed.committed + made;
    CleanSplit(ed.committed, made);
    CleanSplit(ready, made);
    assert read + (Clean(ed.committed) + Clean(made)) == (read + Clean(ed.committed)) + Clean(made);
  }

  lemma {:induction false} Taken(read: seq<Byte>, s: seq<Byte>, n: nat, got: seq<Byte>)
    requires n <= |s|
    ensures read + (got + Clean(s[..n]))[|got|..] + Clean(s[n..]) == read + Clean(s)
  {
    hide Clean;
    assert s == s[..n] + s[n..];
    CleanSplit(s[..n], s[n..]);
    assert (got + Clean(s[..n]))[|got|..] == Clean(s[..n]);
    assert read + Clean(s[..n]) + Clean(s[n..]) == read + (Clean(s[..n]) + Clean(s[n..]));
  }
}
