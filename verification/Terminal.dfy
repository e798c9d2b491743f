// The line editor of src/terminal_service.rs and the one-cell-per-character terminal that
// replays its echo.

module TerminalSpec {
  const BACK: char := '\U{8}'
  const ESC: char := '\U{1b}'
  const DEL: char := '\U{7f}'
  const CTRL_C: char := '\U{3}'
  const CTRL_U: char := '\U{15}'

  datatype Line = Line(buffer: string, cursor: nat)
  datatype EscState = Normal | Esc | Csi
  datatype Editor = Editor(line: Line, csi: string, esc: EscState)

  predicate Ordinary(ch: char) { ch >= ' ' && ch != DEL }

  ghost predicate Printable(s: string) { forall i :: 0 <= i < |s| ==> Ordinary(s[i]) }

  ghost predicate Fine(l: Line) { l.cursor <= |l.buffer| && Printable(l.buffer) }

  function Repeat(s: string, n: nat): (r: string)
    ensures |r| == |s| * n
  {
    if n == 0 then [] else Repeat(s, n - 1) + s
  }

  function Backs(n: nat): (r: string) ensures |r| == n { Repeat([BACK], n) }

  // ----- the editing operations: the new line and what is echoed -----

  type Edit = (Line, string)

  function MoveLeft(l: Line): Edit { if l.cursor > 0 then (l.(cursor := l.cursor - 1), [BACK]) else (l, []) }

  function MoveRight(l: Line): Edit
  {
    if l.cursor < |l.buffer| then (l.(cursor := l.cursor + 1), [l.buffer[l.cursor]]) else (l, [])
  }

  function MoveHome(l: Line): Edit { (l.(cursor := 0), Backs(l.cursor)) }

  function MoveEnd(l: Line): Edit
  {
    if l.cursor <= |l.buffer| then (l.(cursor := |l.buffer|), l.buffer[l.cursor..]) else (l, [])
  }

  function DeleteAt(l: Line): Edit
  {
    if l.cursor < |l.buffer| then
      var tail := l.buffer[l.cursor + 1..];
      (Line(l.buffer[..l.cursor] + tail, l.cursor), tail + [' '] + Backs(|tail| + 1))
    else (l, [])
  }

  function Backspace(l: Line): Edit
  {
    if l.cursor > 0 then
      var (m, e) := DeleteAt(l.(cursor := l.cursor - 1));
      (m, [BACK] + e)
    else (l, [])
  }

  function Insert(l: Line, ch: char): Edit
  {
    if l.cursor <= |l.buffer| then
      var tail := l.buffer[l.cursor..];
      (Line(l.buffer[..l.cursor] + [ch] + tail, l.cursor + 1), [ch] + tail + Backs(|tail|))
    else (l, [])
  }

  function Clear(l: Line): Edit { (Line([], 0), MoveEnd(l).1 + Repeat([BACK, ' ', BACK], |l.buffer|)) }

  function ApplyCsi(l: Line, csi: string, final: char): Edit
  {
    match final
    case 'D' => MoveLeft(l)
    case 'C' => MoveRight(l)
    case 'H' => MoveHome(l)
    case 'F' => MoveEnd(l)
    case '~' =>
      if csi == "1" || csi == "7" then MoveHome(l)
      else if csi == "4" || csi == "8" then MoveEnd(l)
      else if csi == "3" then DeleteAt(l)
      else (l, [])
    case _ => (l, [])
  }

  // One character: the editor after it, the echo, lines handed to the shell, and Ctrl-C.
  datatype Out = Out(ed: Editor, echo: string, lines: seq<string>, ctrlC: bool)

  function Edited(ed: Editor, e: Edit): Out { Out(ed.(line := e.0), e.1, [], false) }

  function FinalByte(ch: char): bool { 0x40 <= ch as int <= 0x7E }

  function TypeNormal(ed: Editor, ch: char): Out
  {
    if ch == ESC then Out(ed.(esc := Esc), [], [], false)
    else if ch == '\r' || ch == '\n' then Out(ed.(line := Line([], 0)), "\r\n", [ed.line.buffer + "\r\n"], false)
    else if ch == DEL || ch == BACK then Edited(ed, Backspace(ed.line))
    else if ch == CTRL_U then Edited(ed, Clear(ed.line))
    else if ch == CTRL_C then Out(ed.(line := Line([], 0)), [], [], true)
    else if ch == '\t' then Out(ed, [], [], false)
    else if ch >= ' ' then Edited(ed, Insert(ed.line, ch))
    else Out(ed, [], [], false)
  }

  function Type(ed: Editor, ch: char): Out
  {
    match ed.esc
    case Esc => Out(if ch == '[' then ed.(csi := [], esc := Csi) else ed.(esc := Normal), [], [], false)
    case Csi =>
      if FinalByte(ch) then Edited(ed.(csi := [], esc := Normal), ApplyCsi(ed.line, ed.csi, ch))
      else Out(ed.(csi := ed.csi + [ch]), [], [], false)
    case Normal => TypeNormal(ed, ch)
  }

  // One piece of input after another.
  function Joined(o: Out, p: Out): Out { Out(p.ed, o.echo + p.echo, o.lines + p.lines, o.ctrlC || p.ctrlC) }

  type Typist = (Editor, char) -> Out

  function Keyboard(): Typist { (ed: Editor, ch: char) => Type(ed, ch) }

  // A run of characters, each handled by f.
  function Fold(f: Typist, ed: Editor, input: string): Out
  {
    if input == [] then Out(ed, [], [], false)
    else
      var o := Fold(f, ed, input[..|input| - 1]);
      Joined(o, f(o.ed, input[|input| - 1]))
  }

  function Feed(ed: Editor, input: string): Out { Fold(Keyboard(), ed, input) }

  // ----- the terminal -----

  // One row; cells beyond what was written are blank.
  datatype Screen = Screen(row: string, col: nat)

  function Cell(row: string, i: nat): char { if i < |row| then row[i] else ' ' }

  function Written(row: string, col: nat, ch: char): string
  {
    seq(if col < |row| then |row| else col + 1, i requires i >= 0 => if i == col then ch else Cell(row, i))
  }

  function Receive(s: Screen, ch: char): Screen
  {
    if ch == BACK then s.(col := if s.col > 0 then s.col - 1 else 0)
    else if ch == '\r' then s.(col := 0)
    else if ch == '\n' then Screen([], s.col)
    else Screen(Written(s.row, s.col, ch), s.col + 1)
  }

  function Replay(s: Screen, echo: string): Screen
  {
    if echo == [] then s else Receive(Replay(s, echo[..|echo| - 1]), echo[|echo| - 1])
  }

  // The row shows the prompt and the line, then blanks; the column is the editing position.
  ghost predicate Shows(s: Screen, prompt: string, l: Line)
  {
    s.col == |prompt| + l.cursor && forall i: nat :: Cell(s.row, i) == Cell(prompt + l.buffer, i)
  }
}

module TerminalEcho {
  import opened TerminalSpec

  lemma {:induction false} ReplayConcat(s: Screen, a: string, b: string)
    ensures Replay(s, a + b) == Replay(Replay(s, a), b)
    decreases |b|
  {
    if b == [] {
      assert a + b == a;
    } else {
      var n := |b| - 1;
      assert (a + b)[..|a| + n] == a + b[..n];
      ReplayConcat(s, a, b[..n]);
    }
  }

  // The screen with text over it from the column on.
  ghost predicate Over(s: Screen, text: string, t: Screen)
  {
    && t.col == s.col + |text|
    && forall i: nat :: Cell(t.row, i) == if s.col <= i < s.col + |text| then text[i - s.col] else Cell(s.row, i)
  }

  lemma {:induction false} ReplayText(s: Screen, text: string)
    requires Printable(text)
    ensures Over(s, text, Replay(s, text))
  {
    if text != [] {
      var n := |text| - 1;
      ReplayText(s, text[..n]);
      var m := Replay(s, text[..n]);
      assert Ordinary(text[n]);
      forall i: nat ensures Cell(Written(m.row, m.col, text[n]), i) == if i == m.col then text[n] else Cell(m.row, i) {
      }
    }
  }

  lemma {:induction false} ReplayBacks(s: Screen, n: nat)
    requires n <= s.col
    ensures Replay(s, Backs(n)) == s.(col := s.col - n)
  {
    if n > 0 {
      ReplayBacks(s, n - 1);
      ReplayConcat(s, Backs(n - 1), [BACK]);
      ReplayOne(Replay(s, Backs(n - 1)), BACK);
    }
  }

  lemma ReplayOne(s: Screen, ch: char)
    ensures Replay(s, [ch]) == Receive(s, ch)
  {
    assert [ch][..0] == [];
  }

  // Text and then as many steps back as asked.
  lemma TextThenBacks(s: Screen, text: string, n: nat)
    requires Printable(text) && n <= s.col + |text|
    ensures var t := Replay(s, text + Backs(n)); Over(s, text, t.(col := t.col + n)) && t.col == s.col + |text| - n
  {
    ReplayText(s, text);
    ReplayConcat(s, text, Backs(n));
    ReplayBacks(Replay(s, text), n);
  }

  // Rub out the n cells before the column.
  lemma {:induction false} ReplayRubs(s: Screen, n: nat)
    requires n <= s.col
    ensures var t := Replay(s, Repeat([BACK, ' ', BACK], n));
            && t.col == s.col - n
            && forall i: nat :: Cell(t.row, i) == if s.col - n <= i < s.col then ' ' else Cell(s.row, i)
  {
    if n > 0 {
      ReplayRubs(s, n - 1);
      var t := Replay(s, Repeat([BACK, ' ', BACK], n - 1));
      ReplayConcat(s, Repeat([BACK, ' ', BACK], n - 1), [BACK, ' ', BACK]);
      RubOne(t);
    }
  }

  lemma RubOne(s: Screen)
    requires s.col > 0
    ensures var t := Replay(s, [BACK, ' ', BACK]);
            t.col == s.col - 1 && forall i: nat :: Cell(t.row, i) == if i == s.col - 1 then ' ' else Cell(s.row, i)
  {
    assert [BACK, ' ', BACK] == [BACK] + ([' '] + Backs(1));
    ReplayConcat(s, [BACK], [' '] + Backs(1));
    ReplayOne(s, BACK);
    TextThenBacks(s.(col := s.col - 1), " ", 1);
  }

  // ----- every operation keeps the screen showing the line -----

  ghost predicate Echoes(s: Screen, prompt: string, e: Edit)
  {
    Fine(e.0) && Shows(Replay(s, e.1), prompt, e.0)
  }

  lemma Nothing(s: Screen)
    ensures Replay(s, []) == s
  {
  }

  lemma MoveLeftEchoes(s: Screen, prompt: string, l: Line)
    requires Fine(l) && Shows(s, prompt, l)
    ensures Echoes(s, prompt, MoveLeft(l))
  {
    ReplayOne(s, BACK);
  }

  lemma MoveRightEchoes(s: Screen, prompt: string, l: Line)
    requires Fine(l) && Shows(s, prompt, l)
    ensures Echoes(s, prompt, MoveRight(l))
  {
    if l.cursor < |l.buffer| { ReplayText(s, [l.buffer[l.cursor]]); }
  }

  lemma MoveHomeEchoes(s: Screen, prompt: string, l: Line)
    requires Fine(l) && Shows(s, prompt, l)
    ensures Echoes(s, prompt, MoveHome(l))
  {
    ReplayBacks(s, l.cursor);
  }

  lemma MoveEndEchoes(s: Screen, prompt: string, l: Line)
    requires Fine(l) && Shows(s, prompt, l)
    ensures Echoes(s, prompt, MoveEnd(l))
  {
    ReplayText(s, l.buffer[l.cursor..]);
  }

  lemma DeleteAtEchoes(s: Screen, prompt: string, l: Line)
    requires Fine(l) && Shows(s, prompt, l)
    ensures Echoes(s, prompt, DeleteAt(l))
  {
    if l.cursor < |l.buffer| {
      var tail := l.buffer[l.cursor + 1..];
      TextThenBacks(s, tail + [' '], |tail| + 1);
    }
  }

  lemma BackspaceEchoes(s: Screen, prompt: string, l: Line)
    requires Fine(l) && Shows(s, prompt, l)
    ensures Echoes(s, prompt, Backspace(l))
  {
    if l.cursor > 0 {
      var m := l.(cursor := l.cursor - 1);
      ReplayOne(s, BACK);
      ReplayConcat(s, [BACK], DeleteAt(m).1);
      DeleteAtEchoes(Receive(s, BACK), prompt, m);
    }
  }

  lemma InsertEchoes(s: Screen, prompt: string, l: Line, ch: char)
    requires Fine(l) && Shows(s, prompt, l) && Ordinary(ch)
    ensures Echoes(s, prompt, Insert(l, ch))
  {
    var tail := l.buffer[l.cursor..];
    TextThenBacks(s, [ch] + tail, |tail|);
  }

  lemma ClearEchoes(s: Screen, prompt: string, l: Line)
    requires Fine(l) && Shows(s, prompt, l)
    ensures Echoes(s, prompt, Clear(l))
  {
    var t := Replay(s, MoveEnd(l).1);
    MoveEndEchoes(s, prompt, l);
    ReplayConcat(s, MoveEnd(l).1, Repeat([BACK, ' ', BACK], |l.buffer|));
    ReplayRubs(t, |l.buffer|);
  }

  lemma CsiEchoes(s: Screen, prompt: string, l: Line, csi: string, final: char)
    requires Fine(l) && Shows(s, prompt, l)
    ensures Echoes(s, prompt, ApplyCsi(l, csi, final))
  {
    MoveLeftEchoes(s, prompt, l);
    MoveRightEchoes(s, prompt, l);
    MoveHomeEchoes(s, prompt, l);
    MoveEndEchoes(s, prompt, l);
    DeleteAtEchoes(s, prompt, l);
  }

  // A line no one can see: nothing but blanks, with the column at its start.
  ghost predicate Unseen(l: Line) { l.cursor == 0 && forall i :: 0 <= i < |l.buffer| ==> l.buffer[i] == ' ' }

  // Ctrl-C drops the line without an echo, so the screen is right afterwards exactly when there
  // was nothing to see.
  lemma DroppedLineShows(s: Screen, prompt: string, l: Line)
    requires Fine(l) && Shows(s, prompt, l)
    ensures Shows(s, prompt, Line([], 0)) <==> Unseen(l)
  {
    if Shows(s, prompt, Line([], 0)) {
      forall i | 0 <= i < |l.buffer| ensures l.buffer[i] == ' ' {
        assert Cell(prompt + l.buffer, |prompt| + i) == l.buffer[i];
        assert Cell(prompt + [], |prompt| + i) == ' ';
      }
    }
  }

  lemma NewLineShows(s: Screen)
    ensures Shows(Replay(s, "\r\n"), [], Line([], 0))
  {
    assert "\r\n" == ['\r'] + ['\n'];
    ReplayConcat(s, ['\r'], ['\n']);
    ReplayOne(s, '\r');
    ReplayOne(Receive(s, '\r'), '\n');
  }

  // A Ctrl-C the editor acts on.
  predicate Drops(ed: Editor, ch: char) { ch == CTRL_C && ed.esc == Normal }

  function PromptAfter(prompt: string, o: Out): string { if o.lines == [] then prompt else [] }

  lemma TypeEchoes(s: Screen, prompt: string, ed: Editor, ch: char)
    requires Fine(ed.line) && Shows(s, prompt, ed.line) && (Drops(ed, ch) ==> Unseen(ed.line))
    ensures var o := Type(ed, ch); Fine(o.ed.line) && Shows(Replay(s, o.echo), PromptAfter(prompt, o), o.ed.line)
  {
    var l := ed.line;
    Nothing(s);
    match ed.esc
    case Esc =>
    case Csi => CsiEchoes(s, prompt, l, ed.csi, ch);
    case Normal =>
      if ch == '\r' || ch == '\n' { NewLineShows(s); }
      else if ch == DEL || ch == BACK { BackspaceEchoes(s, prompt, l); }
      else if ch == CTRL_U { ClearEchoes(s, prompt, l); }
      else if ch == CTRL_C { DroppedLineShows(s, prompt, l); }
      else if Ordinary(ch) { InsertEchoes(s, prompt, l, ch); }
  }

  // No Ctrl-C hits a line that can be seen.
  ghost predicate Clean(ed: Editor, input: string)
  {
    forall k :: 0 <= k < |input| && Drops(Feed(ed, input[..k]).ed, input[k]) ==> Unseen(Feed(ed, input[..k]).ed.line)
  }

  // For every input whose Ctrl-C presses find nothing on the line, the replayed echo shows
  // exactly the edit buffer and the cursor.
  lemma {:induction false} EchoFaithful(s: Screen, prompt: string, ed: Editor, input: string)
    requires Fine(ed.line) && Shows(s, prompt, ed.line) && Clean(ed, input)
    ensures ShownAfter(s, prompt, Feed(ed, input))
  {
    if input == [] {
      Nothing(s);
    } else {
      var n := |input| - 1;
      CleanPrefix(ed, input, n);
      EchoFaithful(s, prompt, ed, input[..n]);
      ShownNext(s, prompt, Feed(ed, input[..n]), input[n]);
    }
  }

  // The screen on which o is echoed shows its buffer and its cursor.
  ghost predicate ShownAfter(s: Screen, prompt: string, o: Out)
  {
    Fine(o.ed.line) && Shows(Replay(s, o.echo), PromptAfter(prompt, o), o.ed.line)
  }

  lemma ShownNext(s: Screen, prompt: string, o: Out, ch: char)
    requires ShownAfter(s, prompt, o) && (Drops(o.ed, ch) ==> Unseen(o.ed.line))
    ensures ShownAfter(s, prompt, Joined(o, Type(o.ed, ch)))
  {
    TypeEchoes(Replay(s, o.echo), PromptAfter(prompt, o), o.ed, ch);
    ReplayConcat(s, o.echo, Type(o.ed, ch).echo);
  }

  // The screen shows the edit buffer and the cursor once input is echoed.
  ghost predicate RightAfter(s: Screen, prompt: string, ed: Editor, input: string)
  {
    var o := Feed(ed, input); Shows(Replay(s, o.echo), PromptAfter(prompt, o), o.ed.line)
  }

  ghost predicate AlwaysRight(s: Screen, prompt: string, ed: Editor, input: string)
  {
    forall k :: 0 <= k <= |input| ==> RightAfter(s, prompt, ed, input[..k])
  }

  // It is right at every moment exactly for clean input.
  lemma RightIffClean(s: Screen, prompt: string, ed: Editor, input: string)
    requires Fine(ed.line) && Shows(s, prompt, ed.line)
    ensures AlwaysRight(s, prompt, ed, input) <==> Clean(ed, input)
  {
    if Clean(ed, input) { CleanStaysRight(s, prompt, ed, input); }
    if AlwaysRight(s, prompt, ed, input) { RightStaysClean(s, prompt, ed, input); }
  }

  lemma CleanStaysRight(s: Screen, prompt: string, ed: Editor, input: string)
    requires Fine(ed.line) && Shows(s, prompt, ed.line) && Clean(ed, input)
    ensures AlwaysRight(s, prompt, ed, input)
  {
    forall k | 0 <= k <= |input| ensures RightAfter(s, prompt, ed, input[..k]) {
      CleanPrefix(ed, input, k);
      EchoFaithful(s, prompt, ed, input[..k]);
    }
  }

  lemma CleanPrefix(ed: Editor, input: string, n: nat)
    requires Clean(ed, input) && n <= |input|
    ensures Clean(ed, input[..n])
  {
    assert forall k :: 0 <= k < n ==> input[..n][..k] == input[..k];
  }

  lemma RightStaysClean(s: Screen, prompt: string, ed: Editor, input: string)
    requires Fine(ed.line) && AlwaysRight(s, prompt, ed, input)
    ensures Clean(ed, input)
  {
    forall k | 0 <= k < |input| && Drops(Feed(ed, input[..k]).ed, input[k])
      ensures Unseen(Feed(ed, input[..k]).ed.line)
    {
      assert RightAfter(s, prompt, ed, input[..k]) && RightAfter(s, prompt, ed, input[..k + 1]);
      assert input[..k + 1] == input[..k] + [input[k]];
      DropSeen(s, prompt, ed, input[..k], input[k]);
    }
  }

  // A dropped line that leaves the screen right was invisible.
  lemma DropSeen(s: Screen, prompt: string, ed: Editor, input: string, ch: char)
    requires Fine(ed.line) && Drops(Feed(ed, input).ed, ch)
    requires RightAfter(s, prompt, ed, input) && RightAfter(s, prompt, ed, input + [ch])
    ensures Unseen(Feed(ed, input).ed.line)
  {
    var o := Feed(ed, input);
    LineStaysFine(ed, input);
    DropFed(ed, input, ch, o);
    DroppedLineShows(Replay(s, o.echo), PromptAfter(prompt, o), o.ed.line);
  }

  lemma DropFed(ed: Editor, input: string, ch: char, o: Out)
    requires o == Feed(ed, input) && Drops(o.ed, ch)
    ensures var p := Feed(ed, input + [ch]); p.echo == o.echo && p.lines == o.lines && p.ed.line == Line([], 0)
  {
    assert (input + [ch])[..|input|] == input;
    assert o.echo + [] == o.echo && o.lines + [] == o.lines;
  }

  lemma StaysFine(ed: Editor, ch: char)
    requires Fine(ed.line)
    ensures Fine(Type(ed, ch).ed.line)
  {
    CsiStaysFine(ed.line, ed.csi, ch);
    EditsStayFine(ed.line, ch);
  }

  lemma CsiStaysFine(l: Line, csi: string, final: char)
    requires Fine(l)
    ensures Fine(ApplyCsi(l, csi, final).0)
  {
  }

  lemma EditsStayFine(l: Line, ch: char)
    requires Fine(l)
    ensures Fine(Backspace(l).0) && Fine(Clear(l).0)
    ensures Ordinary(ch) ==> Fine(Insert(l, ch).0)
  {
  }

  // The cursor never leaves the line, and the line never holds a control character.
  lemma {:induction false} LineStaysFine(ed: Editor, input: string)
    requires Fine(ed.line)
    ensures Fine(Feed(ed, input).ed.line)
  {
    if input != [] {
      var n := |input| - 1;
      LineStaysFine(ed, input[..n]);
      StaysFine(Feed(ed, input[..n]).ed, input[n]);
    }
  }

  lemma WithoutCtrlC(ed: Editor, input: string)
    requires CTRL_C !in input
    ensures Clean(ed, input)
  {
  }

  // ----- batches -----

  lemma JoinedAssoc(o: Out, p: Out, t: Out)
    ensures Joined(Joined(o, p), t) == Joined(o, Joined(p, t))
  {
    assert (o.echo + p.echo) + t.echo == o.echo + (p.echo + t.echo);
    assert (o.lines + p.lines) + t.lines == o.lines + (p.lines + t.lines);
  }

  lemma JoinedNothing(o: Out)
    ensures Joined(o, Out(o.ed, [], [], false)) == o
  {
  }

  lemma {:induction false} FoldConcat(f: Typist, ed: Editor, a: string, b: string)
    ensures Fold(f, ed, a + b) == Joined(Fold(f, ed, a), Fold(f, Fold(f, ed, a).ed, b))
    decreases |b|
  {
    if b == [] {
      assert a + b == a;
      JoinedNothing(Fold(f, ed, a));
    } else {
      var n := |b| - 1;
      assert (a + b)[..|a| + n] == a + b[..n];
      FoldConcat(f, ed, a, b[..n]);
      var p := Fold(f, Fold(f, ed, a).ed, b[..n]);
      JoinedAssoc(Fold(f, ed, a), p, f(p.ed, b[n]));
    }
  }

  // Where the input is cut into batches changes neither state nor echo nor submitted lines.
  lemma BatchesDoNotMatter(ed: Editor, a: string, b: string)
    ensures Feed(ed, a + b) == Joined(Feed(ed, a), Feed(Feed(ed, a).ed, b))
  {
    FoldConcat(Keyboard(), ed, a, b);
  }

  // What one batch does to the shell: its lines in order, then at most one Ctrl-C.
  datatype Effect = Submit(text: string) | Interrupt

  function Effects(o: Out): seq<Effect>
  {
    seq(|o.lines|, i requires 0 <= i < |o.lines| => Submit(o.lines[i])) + (if o.ctrlC then [Interrupt] else [])
  }

  // Ctrl-C is held back to the end of its batch: cutting the input keeps its order exactly when
  // nothing is sent after it.
  lemma BatchedInterrupts(o: Out, p: Out)
    ensures Effects(Joined(o, p)) == Effects(o) + Effects(p) <==> !o.ctrlC || (p.lines == [] && !p.ctrlC)
  {
    var all, parts := Effects(Joined(o, p)), Effects(o) + Effects(p);
    if o.ctrlC {
      assert parts[|o.lines|] == Interrupt;
      if p.lines != [] { assert all[|o.lines|] == Submit(p.lines[0]); }
    }
  }

  // ----- what edits undo -----

  lemma BackspaceUndoesInsert(l: Line, ch: char)
    requires Fine(l)
    ensures Backspace(Insert(l, ch).0).0 == l
  {
    var m := Insert(l, ch).0;
    assert m.buffer[l.cursor + 1..] == l.buffer[l.cursor..];
    assert m.buffer[..l.cursor] == l.buffer[..l.cursor];
  }

  // Text typed on an empty line and entered reaches the shell as it was typed.
  lemma {:induction false} TypedLine(text: string)
    requires Printable(text)
    ensures var o := Feed(Editor(Line([], 0), [], Normal), text);
            o.ed == Editor(Line(text, |text|), [], Normal) && o.lines == []
            && Type(o.ed, '\r').lines == [text + "\r\n"]
  {
    if text != [] {
      var n := |text| - 1;
      TypedLine(text[..n]);
      assert Ordinary(text[n]);
      assert text[..n][..n] + [text[n]] + text[..n][n..] == text;
    }
  }
}
