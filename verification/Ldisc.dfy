/** The line discipline: a ring buffer with a read, a commit and an edit cursor, proved to do what the
    line editor does. */
module Ldisc {
  import opened LdEditor
  import opened LdKeys

  const INPUT_BUF_SIZE := 1024

  function Cell(i: nat): (k: nat)
    ensures k < INPUT_BUF_SIZE
  {
    i % INPUT_BUF_SIZE
  }

  /** The bytes between two cursors. */
  function Ring(b: seq<Byte>, lo: nat, hi: nat): (r: seq<Byte>)
    requires |b| == INPUT_BUF_SIZE && lo <= hi
    ensures |r| == hi - lo
  {
    seq(hi - lo, i requires 0 <= i < hi - lo => b[Cell(lo + i)])
  }

  lemma {:induction false} RingMore(b: seq<Byte>, lo: nat, hi: nat)
    requires |b| == INPUT_BUF_SIZE && lo <= hi
    ensures Ring(b, lo, hi + 1) == Ring(b, lo, hi) + [b[Cell(hi)]]
  {
  }

  lemma {:induction false} RingSplit(b: seq<Byte>, lo: nat, mid: nat, hi: nat)
    requires |b| == INPUT_BUF_SIZE && lo <= mid <= hi
    ensures Ring(b, lo, mid) + Ring(b, mid, hi) == Ring(b, lo, hi)
    ensures Ring(b, lo, hi)[..mid - lo] == Ring(b, lo, mid) && Ring(b, lo, hi)[mid - lo..] == Ring(b, mid, hi)
  {
  }

  /** A byte written at `hi` touches none of the fewer than 1024 before it. */
  lemma {:induction false} RingKept(b: seq<Byte>, lo: nat, mid: nat, hi: nat, c: Byte)
    requires |b| == INPUT_BUF_SIZE && lo <= mid <= hi < lo + INPUT_BUF_SIZE
    ensures Ring(b[Cell(hi) := c], lo, mid) == Ring(b, lo, mid)
  {
    var b' := b[Cell(hi) := c];
    forall i | 0 <= i < mid - lo ensures Ring(b', lo, mid)[i] == Ring(b, lo, mid)[i] {
      ModApart(lo + i, hi);
    }
  }

  lemma {:induction false} ModApart(x: nat, y: nat)
    requires x < y < x + INPUT_BUF_SIZE
    ensures Cell(x) != Cell(y)
  {
  }

  function Signed(b: Byte): int {
    var i: int := b;
    if i < 128 then i else i - 256
  }

  ghost predicate FirstByte(ed: Editor, ed': Editor, c: int) {
    ed.committed != [] && c == Signed(ed.committed[0]) && ed' == ed.(committed := ed.committed[1..])
  }

  /** What the loop around the reading of lines makes of a reading. */
  lemma {:induction false} EndsReading(ed0: Editor, got: seq<Byte>, ed: Editor, out: seq<Byte>, nr: nat)
    requires |got| < nr && Consume(ed, out, nr) == Consume(ed0, got, nr) && ed.lineReady == ed0.lineReady
    requires ed.atEof == ed0.atEof
    requires ed0.committed == [] ==> ed == ed0 && out == got
    requires ed0.committed == [] ==> !ed0.atEof
    ensures CanonRead(ed.(lineReady := ed.lineReady && ed.committed != []), out, nr) == CanonRead(ed0, got, nr)
  {
  }

  lemma {:induction false} StartsReading(ed: Editor, got: seq<Byte>, nr: nat)
    requires |got| < nr && ed.committed != []
    ensures CanonRead(ed, got, nr) == Consume(ed, got, nr)
  {
  }

  class Tty {
    const buf: array<Byte>
    var rpos: nat
    var wpos: nat
    var epos: nat
    var lineStart: nat
    var vminCnt: nat
    var lineReady: bool
    var atEof: bool
    var stopped: bool
    var termios: Termios

    predicate Valid()
      reads this, buf
    {
      buf.Length == INPUT_BUF_SIZE && rpos <= wpos <= epos && epos - rpos <= CAPACITY
      && if termios.icanon then wpos == lineStart else wpos == epos && vminCnt == wpos - rpos
    }

    function Ed(): Editor
      requires Valid()
      reads this, buf
    {
      Editor(Ring(buf[..], rpos, wpos), Ring(buf[..], wpos, epos), lineReady, atEof)
    }

    constructor (t: Termios)
      ensures Valid() && fresh(buf) && termios == t && !stopped && Ed() == Editor([], [], false, false)
    {
      buf := new Byte[INPUT_BUF_SIZE](_ => 0);
      rpos, wpos, epos, lineStart, vminCnt := 0, 0, 0, 0, 0;
      lineReady, atEof, stopped := false, false, false;
      termios := t;
    }

    // -------------------------------------------------------------- ring operations

    function BufSpace(): int
      reads this
    {
      INPUT_BUF_SIZE - 1 - (epos - rpos + INPUT_BUF_SIZE) % INPUT_BUF_SIZE
    }

    method NcAddChar(c: Byte)
      requires Valid() && !termios.icanon
      modifies this, buf
      ensures Valid() && termios == old(termios) && stopped == old(stopped) && Ed() == RawChar(old(Ed()), c)
    {
      if BufSpace() > 0 {
        ghost var b := buf[..];
        buf[epos % INPUT_BUF_SIZE] := c;
        assert buf[..] == b[epos % INPUT_BUF_SIZE := c];
        RingKept(b, rpos, epos, epos, c);
        RingMore(buf[..], rpos, epos);
        epos := epos + 1;
        wpos := epos;
        vminCnt := vminCnt + 1;
      }
    }

    method CAddChar(c: Byte)
      requires Valid() && termios.icanon
      modifies this, buf
      ensures Valid() && termios == old(termios) && stopped == old(stopped) && Ed() == AddEdit(old(Ed()), c)
    {
      if BufSpace() > 0 {
        ghost var b := buf[..];
        buf[epos % INPUT_BUF_SIZE] := c;
        assert buf[..] == b[epos % INPUT_BUF_SIZE := c];
        RingKept(b, rpos, wpos, epos, c);
        RingKept(b, wpos, epos, epos, c);
        RingMore(buf[..], wpos, epos);
        epos := epos + 1;
      }
    }

    method CEraseChar() returns (erased: bool)
      requires Valid() && termios.icanon
      modifies this
      ensures Valid() && termios == old(termios) && stopped == old(stopped)
      ensures var e := old(Ed());
        Ed() == e.(edit := if e.edit == [] then [] else e.edit[..|e.edit| - 1]) && erased == (e.edit != [])
    {
      if epos > lineStart {
        RingMore(buf[..], wpos, epos - 1);
        epos := epos - 1;
        return true;
      }
      return false;
    }

    method CKillLine()
      requires Valid() && termios.icanon
      modifies this
      ensures Valid() && termios == old(termios) && stopped == old(stopped) && Ed() == old(Ed()).(edit := [])
    {
      epos := lineStart;
    }

    method CCommitLine()
      requires Valid() && termios.icanon
      modifies this
      ensures Valid() && termios == old(termios) && stopped == old(stopped) && wpos == epos && Ed() == Commit(old(Ed()))
    {
      RingSplit(buf[..], rpos, wpos, epos);
      wpos := epos;
      lineStart := epos;
      lineReady := true;
    }

    method CEraseWord() returns (erased: nat)
      requires Valid() && termios.icanon
      modifies this
      ensures Valid() && termios == old(termios) && stopped == old(stopped)
      ensures var e := old(Ed()); Ed() == e.(edit := DropWord(DropBlanks(e.edit))) && erased == |e.edit| - |Ed().edit|
    {
      var pos := SkipBack(epos, true);
      ghost var p := pos;
      pos := SkipBack(pos, false);
      RingSplit(buf[..], wpos, pos, epos);
      erased := epos - pos;
      epos := pos;
    }

    /** Goes back over blanks, or over what is not blank. */
    method SkipBack(from: nat, blanks: bool) returns (pos: nat)
      requires Valid() && termios.icanon && lineStart <= from <= epos
      ensures lineStart <= pos <= from
      ensures var r := Ring(buf[..], wpos, from);
        Ring(buf[..], wpos, pos) == if blanks then DropBlanks(r) else DropWord(r)
    {
      pos := from;
      ghost var b := buf[..];
      ghost var r := Ring(b, wpos, from);
      while pos > lineStart
        invariant lineStart <= pos <= from && b == buf[..]
        invariant if blanks then DropBlanks(r) == DropBlanks(Ring(b, wpos, pos))
          else DropWord(r) == DropWord(Ring(b, wpos, pos))
      {
        var c := buf[(pos - 1) % INPUT_BUF_SIZE];
        RingMore(b, wpos, pos - 1);
        if (c == SPACE || c == TAB) != blanks {
          break;
        }
        RingSplit(b, wpos, pos - 1, pos);
        pos := pos - 1;
      }
    }

    method FlushInput()
      requires Valid()
      modifies this
      ensures Valid() && termios == old(termios) && stopped == old(stopped) && Ed() == Flush(termios, old(Ed()))
    {
      if termios.icanon {
        epos := lineStart;
      } else {
        rpos, wpos := epos, epos;
        vminCnt := 0;
      }
    }

    // -------------------------------------------------------------- input

    method HandleCChar(c: Byte)
      requires Valid() && termios.icanon
      modifies this, buf
      ensures Valid() && termios == old(termios) && stopped == old(stopped) && Ed() == CanonChar(termios, old(Ed()), c)
      ensures Edited(termios, old(Ed()), Ed(), c)
    {
      hide Edited;
      CharEdits(termios, Ed(), c);
      if c == termios.erase {
        var erased := CEraseChar();
      } else if c == termios.kill {
        CKillLine();
      } else if c == termios.werase {
        var n := CEraseWord();
      } else if c == termios.reprint {
      } else if c == termios.eof {
        if epos - lineStart > 0 {
          CCommitLine();
        } else {
          atEof := true;
        }
      } else if c == NEWLINE || c == termios.eol {
        CAddChar(NEWLINE);
        CCommitLine();
      } else {
        CAddChar(c);
      }
    }

    method SignalChar(c: Byte) returns (handled: bool)
      requires Valid()
      modifies this
      ensures Valid() && termios == old(termios) && stopped == old(stopped)
      ensures handled == (c == termios.intr || c == termios.quit || c == termios.susp)
      ensures Ed() == if handled && SignalOf(termios, c) then Flush(termios, old(Ed())) else old(Ed())
    {
      var flushes := false;
      if c == termios.intr || c == termios.quit {
        flushes := true;
      } else if c != termios.susp {
        return false;
      }
      if flushes {
        FlushInput();
      }
      return true;
    }

    method FlowChar(c: Byte) returns (handled: bool)
      requires Valid()
      modifies this`stopped
      ensures handled == FlowControl(termios, c)
      ensures handled ==> stopped == (c != termios.start)
      ensures !handled ==> stopped == if termios.ixon && termios.ixany then false else old(stopped)
    {
      if !termios.ixon {
        return false;
      }
      if c == termios.start {
        stopped := false;
        return true;
      } else if c == termios.stop {
        stopped := true;
        return true;
      }
      if termios.ixany && stopped {
        stopped := false;
      }
      return false;
    }

    method ReceiveBuf(cp: seq<Byte>)
      requires Valid()
      modifies this, buf
      ensures Valid() && termios == old(termios)
      ensures Input(Ed(), stopped) == ReceiveAll(termios, old(Input(Ed(), stopped)), cp)
    {
      hide Ring, CanonChar, RawChar, Flush, InputChar, Edited;
      var i := 0;
      while i < |cp|
        invariant 0 <= i <= |cp| && Valid() && termios == old(termios)
        invariant Input(Ed(), stopped) == ReceiveAll(termios, old(Input(Ed(), stopped)), cp[..i])
      {
        assert cp[..i + 1][..i] == cp[..i];
        var c := cp[i];
        i := i + 1;
        if c == 0 && termios.ignpar {
          continue;
        }
        c := InputChar(termios, c);
        if c == 0 {
          continue;
        }
        if termios.isig {
          var handled := SignalChar(c);
          if handled {
            continue;
          }
        }
        var flow := FlowChar(c);
        if flow {
          continue;
        }
        if termios.icanon {
          HandleCChar(c);
        } else {
          NcAddChar(c);
        }
      }
      assert cp[..i] == cp;
    }

    // -------------------------------------------------------------- mode changes

    method SetTermios(t: Termios)
      requires Valid()
      modifies this, buf
      ensures Valid() && termios == t && stopped == old(stopped) && Ed() == Switch(old(termios), t, old(Ed()))
      ensures ModeChanged(old(termios), t, old(Ed()), Ed())
    {
      hide ModeChanged, Cell;
      SwitchChanges(termios, t, Ed());
      var wasCanon := termios.icanon;
      termios := t;
      if t.icanon && !wasCanon {
        while rpos != wpos
          invariant rpos <= wpos <= epos && epos - rpos <= CAPACITY && termios == t && stopped == old(stopped)
          invariant atEof == old(atEof)
          decreases wpos - rpos
        {
          var c := buf[rpos % INPUT_BUF_SIZE];
          rpos := rpos + 1;
          if BufSpace() > 0 {
            buf[epos % INPUT_BUF_SIZE] := c;
            epos := epos + 1;
          }
        }
        lineStart := wpos;
        epos := wpos;
        lineReady := false;
      } else if !t.icanon && wasCanon {
        if epos - lineStart > 0 {
          RingSplit(buf[..], rpos, wpos, epos);
          wpos := epos;
          lineStart := epos;
          lineReady := true;
        }
        epos := wpos;
        vminCnt := (wpos - rpos + INPUT_BUF_SIZE) % INPUT_BUF_SIZE;
      }
    }

    // -------------------------------------------------------------- reading

    predicate BufEmpty()
      reads this
    {
      rpos == wpos
    }

    /** The next byte as a signed number; 0 if there is none. */
    method ReadChar() returns (c: int)
      requires Valid()
      modifies this`rpos, this`vminCnt
      ensures Valid() && old(BufEmpty()) == (old(Ed()).committed == [])
      ensures old(BufEmpty()) ==> c == 0 && Ed() == old(Ed())
      ensures !old(BufEmpty()) ==> FirstByte(old(Ed()), Ed(), c)
    {
      if rpos == wpos {
        return 0;
      }
      c := Signed(buf[rpos % INPUT_BUF_SIZE]);
      RingSplit(buf[..], rpos, rpos + 1, wpos);
      RingMore(buf[..], rpos, rpos);
      rpos := rpos + 1;
      if vminCnt > 0 {
        vminCnt := vminCnt - 1;
      }
    }

    /** Reads to the end of a line, as far as there is one, up to `nr` bytes in all. */
    method ReadLine(got: seq<Byte>, nr: nat) returns (out: seq<Byte>, done: bool)
      requires Valid()
      modifies this`rpos, this`vminCnt
      ensures Valid() && |Ed().committed| <= |old(Ed()).committed|
      ensures done ==> Reading(Ed(), out, false) == Consume(old(Ed()), got, nr) && old(Ed()).committed != []
      ensures !done ==> Consume(Ed(), out, nr) == Consume(old(Ed()), got, nr)
      ensures !done ==> Ed().lineReady == old(Ed()).lineReady && Ed().atEof == old(Ed()).atEof
      ensures !done && old(Ed()).committed == [] ==> Ed() == old(Ed()) && out == got
      ensures !done && old(Ed()).committed != [] && |got| < nr ==> |Ed().committed| < |old(Ed()).committed|
    {
      hide Consume, Ring;
      out, done := got, false;
      while |out| < nr && !BufEmpty()
        modifies this`rpos, this`vminCnt
        invariant Valid() && Consume(Ed(), out, nr) == Consume(old(Ed()), got, nr)
        invariant Ed().lineReady == old(Ed()).lineReady && Ed().atEof == old(Ed()).atEof
        invariant |Ed().committed| <= |old(Ed()).committed|
        invariant (Ed() == old(Ed()) && out == got) || |Ed().committed| < |old(Ed()).committed|
        decreases wpos - rpos
      {
        ghost var ed := Ed();
        var c := ReadChar();
        if c < 0 {
          ConsumeOne(ed, out, nr);
          break;
        }
        if c == NEWLINE {
          ConsumeLine(ed, out, nr);
        } else {
          ConsumeOne(ed, out, nr);
        }
        out := out + [c];
        if c == NEWLINE {
          return out, true;
        }
      }
    }

    /** A canonical read from where it starts, or from where it is woken, to where it waits or ends. */
    method CRead(got: seq<Byte>, nr: nat) returns (out: seq<Byte>, blocked: bool)
      requires Valid()
      modifies this
      ensures Valid() && termios == old(termios) && stopped == old(stopped)
      ensures Reading(Ed(), out, blocked) == CanonRead(old(Ed()), got, nr)
    {
      hide Ring, Consume, Consumed;
      out, blocked := got, false;
      while |out| < nr
        invariant Valid() && termios == old(termios) && stopped == old(stopped)
        invariant CanonRead(Ed(), out, nr) == CanonRead(old(Ed()), got, nr)
        decreases |Ed().committed|, lineReady
      {
        ghost var start := Ed();
        if !lineReady && !atEof && BufEmpty() {
          NothingThere();
          return out, true;
        }
        if atEof && BufEmpty() {
          NothingThere();
          atEof := false;
          return;
        }
        var done;
        ghost var before := out;
        out, done := ReadLine(out, nr);
        if done {
          StartsReading(start, before, nr);
          return;
        }
        NothingThere();
        ghost var ed := Ed();
        if BufEmpty() {
          lineReady := false;
        }
        EndsReading(start, before, ed, out, nr);
      }
    }

    lemma {:induction false} NothingThere()
      requires Valid()
      ensures BufEmpty() <==> Ed().committed == []
    {
    }

    /** A non-canonical read, likewise. */
    method NcRead(got: seq<Byte>, nr: nat, vmin: nat, vtime: nat) returns (out: seq<Byte>, blocked: bool)
      requires Valid()
      modifies this
      ensures Valid() && termios == old(termios) && stopped == old(stopped)
      ensures Reading(Ed(), out, blocked) == RawRead(old(Ed()), got, nr, vmin, vtime)
    {
      hide Ring, Take;
      out, blocked := got, false;
      ghost var limit := Limit(nr, vmin, vtime);
      if vmin == 0 {
        out := ReadUpTo(out, nr, limit);
      } else if vtime == 0 {
        while |out| < vmin || (|out| < nr && !BufEmpty())
          invariant Valid() && termios == old(termios) && stopped == old(stopped)
          invariant Take(Ed(), out, limit) == Take(old(Ed()), got, limit)
          decreases wpos - rpos
        {
          TakeNone(Ed(), out, limit);
          if BufEmpty() {
            return out, true;
          }
          TakeOne(Ed(), out, limit);
          var c := ReadChar();
          if c >= 0 {
            out := out + [c];
          }
          if |out| >= vmin {
            out := ReadUpTo(out, nr, limit);
            break;
          }
        }
        TakeNone(Ed(), out, limit);
      } else {
        while |out| < vmin
          invariant Valid() && termios == old(termios) && stopped == old(stopped)
          invariant Take(Ed(), out, limit) == Take(old(Ed()), got, limit)
          decreases wpos - rpos
        {
          TakeNone(Ed(), out, limit);
          if BufEmpty() {
            return out, true;
          }
          TakeOne(Ed(), out, limit);
          var c := ReadChar();
          if c >= 0 {
            out := out + [c];
          }
        }
        TakeNone(Ed(), out, limit);
      }
    }

    /** Reads what there is, up to `nr` bytes in all. */
    method ReadUpTo(got: seq<Byte>, nr: nat, ghost limit: nat) returns (out: seq<Byte>)
      requires Valid() && (limit == nr || (nr < limit <= |got|))
      modifies this
      ensures Valid() && termios == old(termios) && stopped == old(stopped)
      ensures Reading(Ed(), out, false) == Take(old(Ed()), got, limit) && |out| >= |got|
    {
      hide Ring, Take;
      out := got;
      while |out| < nr && !BufEmpty()
        invariant Valid() && termios == old(termios) && stopped == old(stopped)
        invariant Take(Ed(), out, limit) == Take(old(Ed()), got, limit) && |out| >= |got|
        decreases wpos - rpos
      {
        TakeOne(Ed(), out, limit);
        var c := ReadChar();
        if c >= 0 {
          out := out + [c];
        }
      }
      TakeNone(Ed(), out, limit);
    }
  }
}
