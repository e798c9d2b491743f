// TerminalSession's line editor of src/terminal_service.rs, field by field, against TerminalSpec.

module TerminalCode {
  import opened TerminalSpec
  import opened TerminalEcho

  lemma RepeatCons(s: string, n: nat)
    ensures Repeat(s, n + 1) == s + Repeat(s, n)
  {
    if n > 0 {
      RepeatCons(s, n - 1);
    } else {
      assert Repeat(s, 0) + s == s + Repeat(s, 0);
    }
  }

  // Adds n copies of s to the echo.
  method PushMany(echo0: string, s: string, n: nat) returns (echo: string)
    ensures echo == echo0 + Repeat(s, n)
  {
    echo := echo0;
    for i := 0 to n
      invariant echo == echo0 + Repeat(s, i)
    {
      echo := echo + s;
    }
  }

  class TerminalSession {
    var lineBuffer: string
    var cursor: nat
    var csi: string
    var escState: EscState

    constructor ()
      ensures View() == Editor(Line([], 0), [], Normal)
    {
      lineBuffer, cursor, csi, escState := [], 0, [], Normal;
    }

    ghost function TheLine(): Line
      reads this
    {
      Line(lineBuffer, cursor)
    }

    ghost function View(): Editor
      reads this
    {
      Editor(TheLine(), csi, escState)
    }

    // The line becomes e's and e's echo follows what was echoed before.
    twostate predicate Does(e: Edit, echo0: string, echo: string)
      reads this
    {
      TheLine() == e.0 && echo == echo0 + e.1 && csi == old(csi) && escState == old(escState)
    }

    method LineMoveLeft(echo0: string) returns (echo: string)
      modifies this
      ensures Does(MoveLeft(old(TheLine())), echo0, echo)
    {
      echo := echo0;
      if cursor > 0 {
        cursor := cursor - 1;
        echo := echo + [BACK];
      }
    }

    method LineMoveRight(echo0: string) returns (echo: string)
      modifies this
      ensures Does(MoveRight(old(TheLine())), echo0, echo)
    {
      echo := echo0;
      if cursor < |lineBuffer| {
        echo := echo + [lineBuffer[cursor]];
        cursor := cursor + 1;
      }
    }

    method LineMoveHome(echo0: string) returns (echo: string)
      modifies this
      ensures Does(MoveHome(old(TheLine())), echo0, echo)
    {
      echo := echo0;
      while cursor > 0
        invariant echo + Backs(cursor) == echo0 + Backs(old(cursor)) && cursor <= old(cursor)
        invariant lineBuffer == old(lineBuffer) && csi == old(csi) && escState == old(escState)
      {
        RepeatCons([BACK], cursor - 1);
        assert echo + ([BACK] + Backs(cursor - 1)) == (echo + [BACK]) + Backs(cursor - 1);
        cursor := cursor - 1;
        echo := echo + [BACK];
      }
    }

    method LineMoveEnd(echo0: string) returns (echo: string)
      modifies this
      ensures Does(MoveEnd(old(TheLine())), echo0, echo)
    {
      echo := echo0;
      while cursor < |lineBuffer|
        invariant old(cursor) <= |lineBuffer| ==>
                    old(cursor) <= cursor <= |lineBuffer| && echo == echo0 + lineBuffer[old(cursor)..cursor]
        invariant old(cursor) > |lineBuffer| ==> cursor == old(cursor) && echo == echo0
        invariant lineBuffer == old(lineBuffer) && csi == old(csi) && escState == old(escState)
      {
        assert lineBuffer[old(cursor)..cursor + 1] == lineBuffer[old(cursor)..cursor] + [lineBuffer[cursor]];
        echo := echo + [lineBuffer[cursor]];
        cursor := cursor + 1;
      }
    }

    method LineDeleteAt(echo0: string) returns (echo: string)
      modifies this
      ensures Does(DeleteAt(old(TheLine())), echo0, echo)
    {
      echo := echo0;
      if cursor < |lineBuffer| {
        lineBuffer := lineBuffer[..cursor] + lineBuffer[cursor + 1..];
        var tail := lineBuffer[cursor..];
        assert tail == old(lineBuffer[cursor + 1..]);
        var tailLen := |lineBuffer| - cursor;
        echo := echo + tail;
        echo := echo + [' '];
        echo := PushMany(echo, [BACK], tailLen + 1);
        assert echo0 + tail + [' '] + Backs(tailLen + 1) == echo0 + (tail + [' '] + Backs(tailLen + 1));
      }
    }

    method LineBackspace(echo0: string) returns (echo: string)
      modifies this
      ensures Does(Backspace(old(TheLine())), echo0, echo)
    {
      echo := echo0;
      if cursor > 0 {
        cursor := cursor - 1;
        echo := echo + [BACK];
        ghost var e := DeleteAt(TheLine()).1;
        echo := LineDeleteAt(echo);
        assert echo0 + [BACK] + e == echo0 + ([BACK] + e);
      }
    }

    method LineInsert(ch: char, echo0: string) returns (echo: string)
      requires cursor <= |lineBuffer|
      modifies this
      ensures Does(Insert(old(TheLine()), ch), echo0, echo)
    {
      ghost var behind := lineBuffer[cursor..];
      lineBuffer := lineBuffer[..cursor] + [ch] + lineBuffer[cursor..];
      var tail := lineBuffer[cursor..];
      assert tail == [ch] + behind;
      var tailLen := |lineBuffer| - cursor;
      echo := echo0 + tail;
      cursor := cursor + 1;
      echo := PushMany(echo, [BACK], tailLen - 1);
      assert echo0 + tail + Backs(|behind|) == echo0 + ([ch] + behind + Backs(|behind|));
    }

    method LineClear(echo0: string) returns (echo: string)
      modifies this
      ensures Does(Clear(old(TheLine())), echo0, echo)
    {
      ghost var e := MoveEnd(TheLine()).1;
      echo := LineMoveEnd(echo0);
      var n := |lineBuffer|;
      lineBuffer := [];
      cursor := 0;
      echo := PushMany(echo, [BACK, ' ', BACK], n);
      assert echo0 + e + Repeat([BACK, ' ', BACK], n) == echo0 + (e + Repeat([BACK, ' ', BACK], n));
    }

    method ApplyCsiCode(final: char, echo0: string) returns (echo: string)
      modifies this
      ensures TheLine() == ApplyCsi(old(TheLine()), old(csi), final).0
      ensures echo == echo0 + ApplyCsi(old(TheLine()), old(csi), final).1
      ensures csi == [] && escState == old(escState)
    {
      echo := echo0;
      match final {
        case 'D' => echo := LineMoveLeft(echo);
        case 'C' => echo := LineMoveRight(echo);
        case 'H' => echo := LineMoveHome(echo);
        case 'F' => echo := LineMoveEnd(echo);
        case '~' =>
          if csi == "1" || csi == "7" {
            echo := LineMoveHome(echo);
          } else if csi == "4" || csi == "8" {
            echo := LineMoveEnd(echo);
          } else if csi == "3" {
            echo := LineDeleteAt(echo);
          }
        case _ =>
      }
      csi := [];
    }

    // What one character adds to the batch.
    twostate predicate Adds(o: Out, echo0: string, lines0: seq<string>, ctrlC0: bool, echo: string, lines: seq<string>,
                            ctrlC: bool)
      reads this
    {
      View() == o.ed && echo == echo0 + o.echo && lines == lines0 + o.lines && ctrlC == (ctrlC0 || o.ctrlC)
    }

    method HandleNormal(ch: char, echo0: string, lines0: seq<string>, ctrlC0: bool)
      returns (echo: string, lines: seq<string>, ctrlC: bool)
      requires cursor <= |lineBuffer|
      modifies this
      ensures Adds(TypeNormal(old(View()), ch), echo0, lines0, ctrlC0, echo, lines, ctrlC)
    {
      echo, lines, ctrlC := echo0, lines0, ctrlC0;
      if ch == ESC {
        escState := Esc;
      } else if ch == '\r' || ch == '\n' {
        var line := lineBuffer;
        lineBuffer, cursor := [], 0;
        echo := echo + "\r\n";
        lines := lines + [line + "\r\n"];
      } else if ch == DEL || ch == BACK {
        echo := LineBackspace(echo);
      } else if ch == CTRL_U {
        echo := LineClear(echo);
      } else if ch == CTRL_C {
        lineBuffer, cursor := [], 0;
        ctrlC := true;
      } else if ch == '\t' {
      } else if ch >= ' ' {
        echo := LineInsert(ch, echo);
      }
    }

    method HandleChar(ch: char, echo0: string, lines0: seq<string>, ctrlC0: bool)
      returns (echo: string, lines: seq<string>, ctrlC: bool)
      requires cursor <= |lineBuffer|
      modifies this
      ensures Adds(Type(old(View()), ch), echo0, lines0, ctrlC0, echo, lines, ctrlC)
    {
      echo, lines, ctrlC := echo0, lines0, ctrlC0;
      if escState == Esc {
        if ch == '[' {
          csi := [];
          escState := Csi;
        } else {
          escState := Normal;
        }
      } else if escState == Csi {
        var code := ch as int;
        if 0x40 <= code <= 0x7E {
          echo := ApplyCsiCode(ch, echo);
          escState := Normal;
        } else {
          csi := csi + [ch];
        }
      } else {
        echo, lines, ctrlC := HandleNormal(ch, echo, lines, ctrlC);
      }
    }

    // One batch of input: the echo, the lines for the shell, and whether to send Ctrl-C after them.
    method HandleData(input: string) returns (echo: string, toSend: seq<string>, ctrlC: bool)
      requires Fine(TheLine())
      modifies this
      ensures Out(View(), echo, toSend, ctrlC) == Feed(old(View()), input) && Fine(TheLine())
    {
      echo, toSend, ctrlC := [], [], false;
      assert input[..0] == [];
      for i := 0 to |input|
        invariant Out(View(), echo, toSend, ctrlC) == Feed(old(View()), input[..i]) && Fine(TheLine())
      {
        ghost var before := View();
        echo, toSend, ctrlC := HandleChar(input[i], echo, toSend, ctrlC);
        FeedSnoc(old(View()), input, i);
        StaysFine(before, input[i]);
      }
      assert input[..|input|] == input;
    }
  }

  lemma FeedSnoc(ed: Editor, input: string, i: nat)
    requires i < |input|
    ensures Feed(ed, input[..i + 1]) == Joined(Feed(ed, input[..i]), Type(Feed(ed, input[..i]).ed, input[i]))
  {
    assert input[..i + 1][..i] == input[..i];
  }
}
