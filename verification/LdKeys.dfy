/** What each key and each setting of a terminal does, told by what the reader and the writer of a line see. */
module LdKeys {
  import opened LdEditor

  // ---------------------------------------------------------------- words

  /** `r` is `s` without the blanks at its end and the word before them. */
  ghost predicate WordGone(s: seq<Byte>, r: seq<Byte>) {
    exists word: seq<Byte>, blanks: seq<Byte> :: s == r + word + blanks
      && (forall c <- word :: !Blank(c)) && (forall c <- blanks :: Blank(c))
      && (r == [] || Blank(r[|r| - 1])) && (word == [] ==> r == [])
  }

  /** Erasing a word takes away the blanks at the end and the word before them, and no more. */
  lemma {:induction false} WordErased(s: seq<Byte>)
    ensures WordGone(s, DropWord(DropBlanks(s)))
  {
    var blanks := BlanksDropped(s);
    var word := WordDropped(DropBlanks(s));
    assert s == DropWord(DropBlanks(s)) + word + blanks;
  }

  lemma {:induction false} BlanksDropped(s: seq<Byte>) returns (blanks: seq<Byte>)
    ensures s == DropBlanks(s) + blanks && (forall c <- blanks :: Blank(c))
    ensures DropBlanks(s) == [] || !Blank(DropBlanks(s)[|DropBlanks(s)| - 1])
  {
    blanks := [];
    if s != [] && Blank(s[|s| - 1]) {
      var b := BlanksDropped(s[..|s| - 1]);
      blanks := b + [s[|s| - 1]];
    }
  }

  lemma {:induction false} WordDropped(s: seq<Byte>) returns (word: seq<Byte>)
    ensures s == DropWord(s) + word && (forall c <- word :: !Blank(c))
    ensures DropWord(s) == [] || Blank(DropWord(s)[|DropWord(s)| - 1])
    ensures word == [] ==> s == [] || Blank(s[|s| - 1])
  {
    word := [];
    if s != [] && !Blank(s[|s| - 1]) {
      var w := WordDropped(s[..|s| - 1]);
      word := w + [s[|s| - 1]];
    }
  }

  // ---------------------------------------------------------------- keys

  /** The input flags leave `c` as it is. */
  predicate Untouched(t: Termios, c: Byte) {
    c != 0 && (t.istrip ==> c < 128) && (c == NEWLINE ==> !t.inlcr) && (c == RETURN ==> !t.igncr && !t.icrnl)
    && (t.iuclc ==> c < 65 || 90 < c)
  }

  /** `c` is input: no flag changes it, it sends no signal, and neither stops nor starts output. */
  predicate Reaches(t: Termios, c: Byte) {
    Untouched(t, c) && !(t.isig && c in [t.intr, t.quit, t.susp]) && !(t.ixon && c in [t.start, t.stop])
  }

  /** Only the line being edited has changed, to `edit`. */
  predicate NowEdits(ed: Editor, ed': Editor, edit: seq<Byte>) {
    ed'.committed == ed.committed && ed'.edit == edit && ed'.lineReady == ed.lineReady && ed'.atEof == ed.atEof
  }

  /** `line` is ready, behind what was ready before, and a new line begins. */
  predicate LineMade(ed: Editor, ed': Editor, line: seq<Byte>) {
    ed'.committed == ed.committed + line && ed'.edit == [] && ed'.lineReady && ed'.atEof == ed.atEof
  }

  /** The line with `c` behind it, if the buffer has room. */
  function Longer(ed: Editor, c: Byte): (edit: seq<Byte>)
    ensures |ed.committed| + |ed.edit| < CAPACITY ==> |edit| == |ed.edit| + 1
  {
    ed.edit + if |ed.committed| + |ed.edit| < CAPACITY then [c] else []
  }

  /** What the key `c` does to a line. A key set to do two things does the one that comes first here. */
  ghost predicate Edited(t: Termios, ed: Editor, ed': Editor, c: Byte) {
    var erases, kills, wipes := c == t.erase, c == t.kill && c != t.erase, c == t.werase && c !in [t.erase, t.kill];
    var shows := c == t.reprint && c !in [t.erase, t.kill, t.werase];
    var ends := c == t.eof && c !in [t.erase, t.kill, t.werase, t.reprint];
    var breaks := c in [NEWLINE, t.eol] && c !in [t.erase, t.kill, t.werase, t.reprint, t.eof];
    && (erases && ed.edit == [] ==> ed' == ed)
    && (erases && ed.edit != [] ==> NowEdits(ed, ed', ed.edit[..|ed.edit| - 1]))
    && (kills ==> NowEdits(ed, ed', []))
    && (wipes ==> NowEdits(ed, ed', ed'.edit) && WordGone(ed.edit, ed'.edit))
    && (shows ==> ed' == ed)
    && (ends && ed.edit == [] ==> ed' == ed.(atEof := true))
    && (ends && ed.edit != [] ==> LineMade(ed, ed', ed.edit))
    && (breaks ==> LineMade(ed, ed', Longer(ed, NEWLINE)))
    && (c !in [t.erase, t.kill, t.werase, t.reprint, t.eof, t.eol, NEWLINE] ==> NowEdits(ed, ed', Longer(ed, c)))
  }

  lemma {:induction false} CharEdits(t: Termios, ed: Editor, c: Byte)
    ensures Edited(t, ed, CanonChar(t, ed, c), c)
  {
    hide WordGone, DropWord, DropBlanks;
    WordErased(ed.edit);
  }

  lemma {:induction false} LastTyped(t: Termios, s: Input, cs: seq<Byte>, c: Byte)
    ensures ReceiveAll(t, s, cs + [c]) == Receive(t, ReceiveAll(t, s, cs), c)
  {
    assert (cs + [c])[..|cs|] == cs;
  }

  /** What one more key typed in canonical mode does. */
  lemma {:induction false} KeyEdits(t: Termios, s: Input, cs: seq<Byte>, c: Byte)
    requires t.icanon && Reaches(t, c)
    ensures var a, b := ReceiveAll(t, s, cs), ReceiveAll(t, s, cs + [c]);
      Edited(t, a.ed, b.ed, c) && (b.stopped <==> a.stopped && !(t.ixon && t.ixany))
  {
    hide Edited, CanonChar, ReceiveAll;
    LastTyped(t, s, cs, c);
    CharEdits(t, ReceiveAll(t, s, cs).ed, c);
  }

  /** And in non-canonical mode: the byte is ready at once, if there is room. */
  lemma {:induction false} KeyReady(t: Termios, s: Input, cs: seq<Byte>, c: Byte)
    requires !t.icanon && Reaches(t, c)
    ensures var a, b := ReceiveAll(t, s, cs), ReceiveAll(t, s, cs + [c]);
      b.ed == a.ed.(committed := a.ed.committed + if |a.ed.committed| < CAPACITY then [c] else [])
      && (b.stopped <==> a.stopped && !(t.ixon && t.ixany))
  {
    hide ReceiveAll;
    LastTyped(t, s, cs, c);
  }

  /** Interrupt and quit drop the line being edited, or in non-canonical mode what is ready; suspend drops
      nothing; and where they send signals these keys do nothing else. */
  lemma {:induction false} KeySignals(t: Termios, s: Input, cs: seq<Byte>, c: Byte)
    requires t.isig && Untouched(t, c) && c in [t.intr, t.quit, t.susp]
    ensures var a, b := ReceiveAll(t, s, cs), ReceiveAll(t, s, cs + [c]);
      b.stopped == a.stopped && b.ed.lineReady == a.ed.lineReady && b.ed.atEof == a.ed.atEof
      && b.ed.edit == (if c in [t.intr, t.quit] && t.icanon then [] else a.ed.edit)
      && b.ed.committed == (if c in [t.intr, t.quit] && !t.icanon then [] else a.ed.committed)
  {
    hide ReceiveAll;
    LastTyped(t, s, cs, c);
  }

  /** Stop and start hold output back and let it go, and are not input. */
  lemma {:induction false} KeyHolds(t: Termios, s: Input, cs: seq<Byte>, c: Byte)
    requires t.ixon && Untouched(t, c) && !(t.isig && c in [t.intr, t.quit, t.susp]) && c in [t.start, t.stop]
    ensures var a, b := ReceiveAll(t, s, cs), ReceiveAll(t, s, cs + [c]);
      b.ed == a.ed && (b.stopped <==> c != t.start)
  {
    hide ReceiveAll;
    LastTyped(t, s, cs, c);
  }

  lemma {:induction false} InputFacts(t: Termios, c: Byte)
    ensures c == 0 || (c == RETURN && t.igncr) ==> InputChar(t, c) == 0
    ensures c == NEWLINE && t.inlcr ==> InputChar(t, c) == InputChar(t, RETURN)
    ensures c == RETURN && t.icrnl && !t.igncr ==> InputChar(t, c) == InputChar(t.(inlcr := false), NEWLINE)
  {
  }

  lemma {:induction false} StripFacts(t: Termios, c: Byte)
    requires t.istrip && c >= 128
    ensures InputChar(t, c) == InputChar(t, c - 128)
  {
    assert c % 128 == c - 128 == (c - 128) % 128;
  }

  lemma {:induction false} CaseFacts(t: Termios, c: Byte)
    requires t.iuclc && 65 <= c <= 90
    ensures InputChar(t, c) == InputChar(t, c + 32)
  {
    assert c % 128 == c && (c + 32) % 128 == c + 32;
  }

  lemma {:induction false} CharSame(t: Termios, ed: Editor, c: Byte)
    ensures var t' := t.(inlcr := false);
      CanonChar(t', ed, c) == CanonChar(t, ed, c) && Flush(t', ed) == Flush(t, ed) && SignalOf(t', c) == SignalOf(t, c)
      && (Signals(t', c) <==> Signals(t, c)) && (FlowControl(t', c) <==> FlowControl(t, c))
  {
    hide DropWord, DropBlanks, AddEdit, Commit;
  }

  /** Of a byte only what the flags make of it counts. */
  lemma {:induction false} ReceiveSame(t: Termios, s: Input, c: Byte, d: Byte)
    requires InputChar(t, c) == InputChar(t, d)
    ensures Receive(t, s, c) == Receive(t, s, d)
    ensures InputChar(t, c) == 0 ==> Receive(t, s, c) == s
  {
    hide InputChar, CanonChar, RawChar, Flush, Signals, SignalOf, FlowControl;
    InputFacts(t, c);
    InputFacts(t, d);
  }

  lemma {:induction false} ReceiveReturn(t: Termios, s: Input)
    requires t.icrnl && !t.igncr
    ensures Receive(t, s, RETURN) == Receive(t.(inlcr := false), s, NEWLINE)
  {
    hide InputChar, CanonChar, RawChar, Flush, Signals, SignalOf, FlowControl;
    InputFacts(t, RETURN);
    CharSame(t, s.ed, InputChar(t, RETURN));
  }

  /** What the input flags make of a byte: it is ignored, or is as good as another one. */
  lemma {:induction false} FlagsDo(t: Termios, s: Input, cs: seq<Byte>, c: Byte)
    ensures var typed := ReceiveAll(t, s, cs + [c]);
      (c == 0 || (c == RETURN && t.igncr) ==> typed == ReceiveAll(t, s, cs))
      && (t.istrip && c >= 128 ==> typed == ReceiveAll(t, s, cs + [c - 128]))
      && (c == NEWLINE && t.inlcr ==> typed == ReceiveAll(t, s, cs + [RETURN]))
      && (c == RETURN && t.icrnl && !t.igncr ==>
            typed == ReceiveAll(t.(inlcr := false), ReceiveAll(t, s, cs), [] + [NEWLINE]))
      && (65 <= c <= 90 && t.iuclc ==> typed == ReceiveAll(t, s, cs + [c + 32]))
  {
    hide ReceiveAll, Receive, InputChar;
    var a, t' := ReceiveAll(t, s, cs), t.(inlcr := false);
    LastTyped(t, s, cs, c);
    InputFacts(t, c);
    ReceiveSame(t, a, c, c);
    if t.istrip && c >= 128 {
      LastTyped(t, s, cs, c - 128);
      StripFacts(t, c);
      ReceiveSame(t, a, c, c - 128);
    } else if t.iuclc && 65 <= c <= 90 {
      LastTyped(t, s, cs, c + 32);
      CaseFacts(t, c);
      ReceiveSame(t, a, c, c + 32);
    } else if c == NEWLINE && t.inlcr {
      LastTyped(t, s, cs, RETURN);
      ReceiveSame(t, a, c, RETURN);
    } else if c == RETURN && t.icrnl && !t.igncr {
      LastTyped(t', a, [], NEWLINE);
      NoneTyped(t', a);
      ReceiveReturn(t, a);
    }
  }

  lemma {:induction false} NoneTyped(t: Termios, s: Input)
    ensures ReceiveAll(t, s, []) == s
  {
  }

  /** The return key ends a line where it stands for a newline. */
  lemma {:induction false} ReturnEnds(t: Termios, s: Input, cs: seq<Byte>)
    requires t.icanon && t.icrnl && !t.igncr && !(t.isig && NEWLINE in [t.intr, t.quit, t.susp])
    requires !(t.ixon && NEWLINE in [t.start, t.stop]) && NEWLINE !in [t.erase, t.kill, t.werase, t.reprint, t.eof]
    ensures var a, b := ReceiveAll(t, s, cs), ReceiveAll(t, s, cs + [RETURN]);
      LineMade(a.ed, b.ed, Longer(a.ed, NEWLINE))
  {
    FlagsDo(t, s, cs, RETURN);
    KeyEdits(t.(inlcr := false), ReceiveAll(t, s, cs), [], NEWLINE);
  }

  // ---------------------------------------------------------------- lines

  /** A byte that stands for itself in canonical mode. */
  predicate Plain(t: Termios, c: Byte) {
    t.icanon && Reaches(t, c) && c !in [t.erase, t.kill, t.werase, t.reprint, t.eof, t.eol, NEWLINE]
  }

  lemma {:induction false} PlainTyped(t: Termios, s: Input, cs: seq<Byte>)
    requires (forall c <- cs :: Plain(t, c)) && Size(s.ed) + |cs| <= CAPACITY
    ensures ReceiveAll(t, s, cs).ed == s.ed.(edit := s.ed.edit + cs)
  {
    hide WordGone;
    if cs != [] {
      var most, c := cs[..|cs| - 1], cs[|cs| - 1];
      PlainTyped(t, s, most);
      assert c in cs && cs == most + [c];
      KeyEdits(t, s, most, c);
    }
  }

  /** A line of plain bytes and a newline become ready together, if there is room for them. */
  lemma {:induction false} LineTyped(t: Termios, s: Input, cs: seq<Byte>)
    requires t.icanon && (forall c <- cs :: Plain(t, c)) && Size(s.ed) + |cs| < CAPACITY && s.ed.edit == []
    requires Reaches(t, NEWLINE) && NEWLINE !in [t.erase, t.kill, t.werase, t.reprint, t.eof]
    ensures ReceiveAll(t, s, cs + [NEWLINE]).ed == Editor(s.ed.committed + cs + [NEWLINE], [], true, s.ed.atEof)
  {
    hide WordGone, ReceiveAll, Reaches;
    PlainTyped(t, s, cs);
    KeyEdits(t, s, cs, NEWLINE);
    assert s.ed.committed + (cs + [NEWLINE]) == s.ed.committed + cs + [NEWLINE];
  }

  function Times(c: Byte, n: nat): (r: seq<Byte>)
    ensures |r| == n
  {
    if n == 0 then [] else Times(c, n - 1) + [c]
  }

  /** Erasing undoes typing, byte by byte. */
  lemma {:induction false} EraseUndoes(t: Termios, s: Input, cs: seq<Byte>, n: nat)
    requires t.icanon && (forall c <- cs :: Plain(t, c)) && Size(s.ed) + |cs| <= CAPACITY
    requires Reaches(t, t.erase) && n <= |cs|
    ensures ReceiveAll(t, s, cs + Times(t.erase, n)).ed == s.ed.(edit := s.ed.edit + cs[..|cs| - n])
  {
    hide ReceiveAll, Reaches, WordGone;
    if n == 0 {
      PlainTyped(t, s, cs);
      assert cs + Times(t.erase, n) == cs == cs[..|cs|];
    } else {
      var most := cs + Times(t.erase, n - 1);
      EraseUndoes(t, s, cs, n - 1);
      KeyEdits(t, s, most, t.erase);
      assert cs + Times(t.erase, n) == most + [t.erase];
      var edit := s.ed.edit + cs[..|cs| - (n - 1)];
      assert edit[..|edit| - 1] == s.ed.edit + cs[..|cs| - n];
    }
  }

  // ---------------------------------------------------------------- mode changes

  /** Turning canonical mode off makes the line being edited ready; turning it on drops everything. */
  ghost predicate ModeChanged(t: Termios, t': Termios, ed: Editor, ed': Editor) {
    ed'.atEof == ed.atEof
    && (t.icanon && !t'.icanon ==> ed'.committed == ed.committed + ed.edit && ed'.edit == []
                                   && (ed'.lineReady <==> ed.lineReady || ed.edit != []))
    && (!t.icanon && t'.icanon ==> ed'.committed == [] == ed'.edit && !ed'.lineReady)
    && (t.icanon == t'.icanon ==> ed' == ed)
  }

  lemma {:induction false} SwitchChanges(t: Termios, t': Termios, ed: Editor)
    ensures ModeChanged(t, t', ed, Switch(t, t', ed))
  {
    assert ed.edit == [] ==> ed.committed + ed.edit == ed.committed;
  }
}
