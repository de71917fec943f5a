/** What a terminal's input is to its reader: bytes that are ready, and a line being edited (canonical
    mode input processing, section 11.1.6 of POSIX.1-2017 Base Definitions). */
module LdEditor {
  type Byte = x: int | 0 <= x < 256

  const CAPACITY := 1023
  const NEWLINE: Byte := 10
  const RETURN: Byte := 13
  const SPACE: Byte := 32
  const TAB: Byte := 9

  /** The settings input processing looks at: modes, input flags, special characters. */
  datatype Termios = Termios(icanon: bool, isig: bool,
                             istrip: bool, ignbrk: bool, ignpar: bool, inlcr: bool, igncr: bool,
                             icrnl: bool, iuclc: bool, ixon: bool, ixany: bool,
                             intr: Byte, quit: Byte, susp: Byte, erase: Byte, kill: Byte, werase: Byte, reprint: Byte,
                             eof: Byte, eol: Byte, start: Byte, stop: Byte, vmin: Byte, vtime: Byte)

  datatype Editor = Editor(committed: seq<Byte>, edit: seq<Byte>, lineReady: bool, atEof: bool)

  function Size(ed: Editor): nat {
    |ed.committed| + |ed.edit|
  }

  // ---------------------------------------------------------------- editing

  function AddEdit(ed: Editor, c: Byte): Editor {
    if Size(ed) < CAPACITY then ed.(edit := ed.edit + [c]) else ed
  }

  function Commit(ed: Editor): Editor {
    Editor(ed.committed + ed.edit, [], true, ed.atEof)
  }

  predicate Blank(c: Byte) {
    c == SPACE || c == TAB
  }

  function DropBlanks(s: seq<Byte>): (r: seq<Byte>)
    ensures r <= s
  {
    if s != [] && Blank(s[|s| - 1]) then DropBlanks(s[..|s| - 1]) else s
  }

  function DropWord(s: seq<Byte>): (r: seq<Byte>)
    ensures r <= s
  {
    if s != [] && !Blank(s[|s| - 1]) then DropWord(s[..|s| - 1]) else s
  }

  /** A typed byte in canonical mode. */
  function CanonChar(t: Termios, ed: Editor, c: Byte): Editor {
    if c == t.erase then ed.(edit := if ed.edit == [] then [] else ed.edit[..|ed.edit| - 1])
    else if c == t.kill then ed.(edit := [])
    else if c == t.werase then ed.(edit := DropWord(DropBlanks(ed.edit)))
    else if c == t.reprint then ed
    else if c == t.eof then if ed.edit != [] then Commit(ed) else ed.(atEof := true)
    else if c == NEWLINE || c == t.eol then Commit(AddEdit(ed, NEWLINE))
    else AddEdit(ed, c)
  }

  /** A typed byte in non-canonical mode: ready at once. */
  function RawChar(ed: Editor, c: Byte): Editor {
    if |ed.committed| < CAPACITY then ed.(committed := ed.committed + [c]) else ed
  }

  /** Interrupts drop the line being edited, or in non-canonical mode everything. */
  function Flush(t: Termios, ed: Editor): Editor {
    if t.icanon then ed.(edit := []) else ed.(committed := [])
  }

  // ---------------------------------------------------------------- from bytes to characters

  /** 0 for a byte that is ignored. */
  function InputChar(t: Termios, c0: Byte): Byte {
    var c1 := if t.istrip then c0 % 128 else c0;
    if c1 == 0 && t.ignbrk then 0
    else
      var c2 := if c1 == NEWLINE && t.inlcr then RETURN else c1;
      if c2 == RETURN && t.igncr then 0
      else
        var c3 := if c2 == RETURN && t.icrnl then NEWLINE else c2;
        if t.iuclc && 65 <= c3 <= 90 then c3 + 32 else c3
  }

  datatype Input = Input(ed: Editor, stopped: bool)

  function SignalOf(t: Termios, c: Byte): (flushes: bool) {
    c == t.intr || c == t.quit
  }

  predicate Signals(t: Termios, c: Byte) {
    t.isig && (c == t.intr || c == t.quit || c == t.susp)
  }

  predicate FlowControl(t: Termios, c: Byte) {
    t.ixon && (c == t.start || c == t.stop)
  }

  /** One byte from the keyboard. */
  function Receive(t: Termios, s: Input, c0: Byte): Input {
    if c0 == 0 && t.ignpar then s
    else
      var c := InputChar(t, c0);
      if c == 0 then s
      else if Signals(t, c) then s.(ed := if SignalOf(t, c) then Flush(t, s.ed) else s.ed)
      else if FlowControl(t, c) then s.(stopped := c != t.start)
      else
        var stopped := if t.ixon && t.ixany then false else s.stopped;
        Input(if t.icanon then CanonChar(t, s.ed, c) else RawChar(s.ed, c), stopped)
  }

  function ReceiveAll(t: Termios, s: Input, cs: seq<Byte>): Input {
    if cs == [] then s else Receive(t, ReceiveAll(t, s, cs[..|cs| - 1]), cs[|cs| - 1])
  }

  // ---------------------------------------------------------------- mode changes

  /** Turning canonical mode on drops what is ready; turning it off makes the edited line ready. */
  function Switch(t: Termios, t': Termios, ed: Editor): Editor {
    if t'.icanon && !t.icanon then ed.(committed := [], edit := [], lineReady := false)
    else if !t'.icanon && t.icanon && ed.edit != [] then Commit(ed)
    else ed
  }

  // ---------------------------------------------------------------- reading

  /** Only 7-bit bytes reach the reader. */
  function Clean(s: seq<Byte>): seq<Byte> {
    if s == [] then []
    else if s[0] < 128 then [s[0]] + Clean(s[1..])
    else Clean(s[1..])
  }

  /** How many bytes it takes to fill `room`. */
  function RawLen(s: seq<Byte>, room: nat): (n: nat)
    ensures n <= |s|
  {
    if s == [] || room == 0 then 0
    else 1 + RawLen(s[1..], if s[0] < 128 then room - 1 else room)
  }

  /** How many bytes it takes to fill `room` or to come to the end of a line. */
  function LineLen(s: seq<Byte>, room: nat): (n: nat)
    ensures n <= |s|
  {
    if s == [] || room == 0 then 0
    else if s[0] == NEWLINE then 1
    else 1 + LineLen(s[1..], if s[0] < 128 then room - 1 else room)
  }

  /** What a stretch of reading, up to the next wait or the end, leaves and has got so far. */
  datatype Reading = Reading(ed: Editor, out: seq<Byte>, blocked: bool)

  function Room(got: seq<Byte>, nr: nat): nat {
    if |got| < nr then nr - |got| else 0
  }

  predicate EndsLine(s: seq<Byte>) {
    s != [] && s[|s| - 1] == NEWLINE
  }

  /** Takes what there is, up to the end of a line or `nr` bytes in all. */
  function Consume(ed: Editor, got: seq<Byte>, nr: nat): Reading {
    var n := LineLen(ed.committed, Room(got, nr));
    Consumed(ed, got + Clean(ed.committed[..n]), EndsLine(ed.committed[..n]), ed.committed[n..], nr)
  }

  /** A line read, or `nr` bytes, or the end of input, ends the read; otherwise it waits. */
  function Consumed(ed: Editor, out: seq<Byte>, line: bool, rest: seq<Byte>, nr: nat): Reading {
    if line then Reading(ed.(committed := rest), out, false)
    else
      var ed' := ed.(committed := rest, lineReady := ed.lineReady && rest != []);
      if |out| >= nr then Reading(ed', out, false)
      else if ed.atEof then Reading(ed'.(atEof := false), out, false)
      else Reading(ed', out, true)
  }

  /** A canonical read of at most `nr` bytes that has got `got`. */
  function CanonRead(ed: Editor, got: seq<Byte>, nr: nat): Reading {
    if |got| >= nr then Reading(ed, got, false)
    else if ed.committed != [] then Consume(ed, got, nr)
    else if ed.atEof then Reading(ed.(atEof := false), got, false)
    else Reading(ed.(lineReady := false), got, true)
  }

  /** Takes what there is, up to `limit` bytes in all. */
  function Take(ed: Editor, got: seq<Byte>, limit: nat): Reading {
    var n := RawLen(ed.committed, Room(got, limit));
    Reading(ed.(committed := ed.committed[n..]), got + Clean(ed.committed[..n]), false)
  }

  /** How much a non-canonical read wants: whatever there is up to `nr`; or `vmin` bytes at least; or,
      with an inter-byte timer, exactly `vmin`. */
  function Limit(nr: nat, vmin: nat, vtime: nat): nat {
    if vmin == 0 then nr else if vtime > 0 || nr < vmin then vmin else nr
  }

  /** A non-canonical read; `vmin` and `vtime` are those it started with. */
  function RawRead(ed: Editor, got: seq<Byte>, nr: nat, vmin: nat, vtime: nat): Reading {
    var r := Take(ed, got, Limit(nr, vmin, vtime));
    r.(blocked := |r.out| < vmin)
  }

  // ---------------------------------------------------------------- reading byte by byte

  lemma {:induction false} CleanSplit(a: seq<Byte>, b: seq<Byte>)
    ensures Clean(a + b) == Clean(a) + Clean(b)
  {
    if a == [] {
      assert a + b == b;
    } else {
      assert (a + b)[1..] == a[1..] + b;
      CleanSplit(a[1..], b);
    }
  }

  lemma {:induction false} CleanOne(c: Byte)
    ensures Clean([c]) == if c < 128 then [c] else []
  {
    assert [c][1..] == [];
  }

  lemma {:induction false} LenStep(s: seq<Byte>, room: nat)
    requires s != [] && room > 0
    ensures RawLen(s, room) == 1 + RawLen(s[1..], if s[0] < 128 then room - 1 else room)
    ensures LineLen(s, room) == if s[0] == NEWLINE then 1
      else 1 + LineLen(s[1..], if s[0] < 128 then room - 1 else room)
  {
  }

  function Plus(got: seq<Byte>, c: Byte): seq<Byte> {
    if c < 128 then got + [c] else got
  }

  /** One byte taken at the front leaves the rest of the reading as it was. */
  lemma {:induction false} ConsumeOne(ed: Editor, got: seq<Byte>, nr: nat)
    requires ed.committed != [] && |got| < nr && ed.committed[0] != NEWLINE
    ensures Consume(ed, got, nr) == Consume(ed.(committed := ed.committed[1..]), Plus(got, ed.committed[0]), nr)
  {
    hide Clean, LineLen, Consumed, EndsLine;
    var c, s := ed.committed[0], ed.committed[1..];
    var n := LineLen(s, Room(Plus(got, c), nr));
    LenStep(ed.committed, Room(got, nr));
    assert ed.committed[..n + 1] == [c] + s[..n] && ed.committed[n + 1..] == s[n..];
    CleanSplit([c], s[..n]);
    CleanOne(c);
    LineStep(c, s[..n]);
    assert got + Clean([c] + s[..n]) == Plus(got, c) + Clean(s[..n]);
    RestOnly(ed, got + Clean([c] + s[..n]), EndsLine(s[..n]), s[n..], nr, s);
  }

  lemma {:induction false} LineStep(c: Byte, s: seq<Byte>)
    requires c != NEWLINE
    ensures EndsLine([c] + s) == EndsLine(s)
  {
  }

  lemma {:induction false} RestOnly(ed: Editor, out: seq<Byte>, line: bool, rest: seq<Byte>, nr: nat, s: seq<Byte>)
    ensures Consumed(ed, out, line, rest, nr) == Consumed(ed.(committed := s), out, line, rest, nr)
  {
  }

  /** There is nothing to take, or enough has been taken. */
  lemma {:induction false} TakeNone(ed: Editor, got: seq<Byte>, limit: nat)
    ensures ed.committed == [] || |got| >= limit ==> Take(ed, got, limit) == Reading(ed, got, false)
  {
  }

  lemma {:induction false} TakeOne(ed: Editor, got: seq<Byte>, limit: nat)
    requires ed.committed != [] && |got| < limit
    ensures Take(ed, got, limit) == Take(ed.(committed := ed.committed[1..]), Plus(got, ed.committed[0]), limit)
  {
    hide Clean, RawLen;
    var c, s := ed.committed[0], ed.committed[1..];
    var n := RawLen(s, Room(Plus(got, c), limit));
    LenStep(ed.committed, Room(got, limit));
    assert ed.committed[..n + 1] == [c] + s[..n] && ed.committed[n + 1..] == s[n..];
    CleanSplit([c], s[..n]);
    CleanOne(c);
  }

  lemma {:induction false} ConsumeLine(ed: Editor, got: seq<Byte>, nr: nat)
    requires ed.committed != [] && |got| < nr && ed.committed[0] == NEWLINE
    ensures Consume(ed, got, nr) == Reading(ed.(committed := ed.committed[1..]), got + [NEWLINE], false)
  {
    hide Clean, LineLen;
    LenStep(ed.committed, Room(got, nr));
    assert ed.committed[..1] == [NEWLINE];
    CleanOne(NEWLINE);
  }
}
