// What each key does to the line, and what a line typed, gone back in and typed into comes to.

module TerminalKeys {
  import opened TerminalSpec
  import opened TerminalEcho

  // No escape sequence is under way.
  function At(buffer: string, cursor: nat): Editor { Editor(Line(buffer, cursor), [], Normal) }

  // Keys that change the line and hand nothing to the shell.
  predicate Leaves(o: Out, buffer: string, cursor: nat)
  {
    o.ed == At(buffer, cursor) && o.lines == [] && !o.ctrlC
  }

  lemma FeedOne(ed: Editor, ch: char)
    ensures Feed(ed, [ch]) == Joined(Out(ed, [], [], false), Type(ed, ch))
    ensures Feed(ed, [ch]).ed == Type(ed, ch).ed && Feed(ed, [ch]).lines == Type(ed, ch).lines
    ensures Feed(ed, [ch]).ctrlC == Type(ed, ch).ctrlC
  {
    assert [ch][..0] == "" && Feed(ed, "") == Out(ed, [], [], false);
    assert [] + Type(ed, ch).lines == Type(ed, ch).lines;
  }

  // Keys after keys that leave the line in some state do what they do there.
  lemma Then(ed: Editor, a: string, buffer: string, cursor: nat, b: string)
    requires Leaves(Feed(ed, a), buffer, cursor)
    ensures var o, p := Feed(ed, a + b), Feed(At(buffer, cursor), b);
            o.ed == p.ed && o.lines == p.lines && o.ctrlC == p.ctrlC
  {
    BatchesDoNotMatter(ed, a, b);
    assert [] + Feed(At(buffer, cursor), b).lines == Feed(At(buffer, cursor), b).lines;
  }

  // ESC, a bracket, a digit or none, and a last character.
  lemma FeedCsi(ed: Editor, digit: string, final: char)
    requires ed.esc == Normal && FinalByte(final)
    requires digit == "" || (|digit| == 1 && !FinalByte(digit[0]))
    ensures var o := Feed(ed, [ESC, '['] + digit + [final]);
            && o.ed == Editor(ApplyCsi(ed.line, digit, final).0, [], Normal) && o.lines == [] && !o.ctrlC
  {
    var open := Editor(ed.line, [], Csi);
    OpenCsi(ed);
    BatchesDoNotMatter(ed, [ESC, '['], digit);
    if digit != "" {
      assert digit == [digit[0]];
      FeedOne(open, digit[0]);
    } else {
      assert Feed(open, "") == Out(open, [], [], false);
    }
    BatchesDoNotMatter(ed, [ESC, '['] + digit, [final]);
    FeedOne(open.(csi := digit), final);
  }

  lemma OpenCsi(ed: Editor)
    requires ed.esc == Normal
    ensures var o := Feed(ed, [ESC, '[']); o.ed == Editor(ed.line, [], Csi) && o.lines == [] && !o.ctrlC
  {
    FeedOne(ed, ESC);
    FeedOne(ed.(esc := Esc), '[');
    BatchesDoNotMatter(ed, [ESC], ['[']);
    assert [ESC] + ['['] == [ESC, '['];
  }

  // Left, right, home and end, and the removal of the character the cursor is on.
  lemma CursorKeys(buffer: string, cursor: nat)
    requires cursor <= |buffer|
    ensures Leaves(Feed(At(buffer, cursor), [ESC, '[', 'D']), buffer, if cursor == 0 then 0 else cursor - 1)
    ensures Leaves(Feed(At(buffer, cursor), [ESC, '[', 'C']), buffer, if cursor == |buffer| then cursor else cursor + 1)
    ensures Leaves(Feed(At(buffer, cursor), [ESC, '[', 'H']), buffer, 0)
    ensures Leaves(Feed(At(buffer, cursor), [ESC, '[', 'F']), buffer, |buffer|)
  {
    var ed := At(buffer, cursor);
    forall final | final in ['D', 'C', 'H', 'F']
      ensures [ESC, '[', final] == [ESC, '['] + "" + [final]
      ensures var o := Feed(ed, [ESC, '[', final]);
              o.ed == Editor(ApplyCsi(ed.line, "", final).0, [], Normal) && o.lines == [] && !o.ctrlC
    {
      assert [ESC, '[', final] == [ESC, '['] + "" + [final];
      FeedCsi(ed, "", final);
    }
    assert 'D' in ['D', 'C', 'H', 'F'] && 'C' in ['D', 'C', 'H', 'F'];
    assert 'H' in ['D', 'C', 'H', 'F'] && 'F' in ['D', 'C', 'H', 'F'];
  }

  lemma TildeKey(buffer: string, cursor: nat, d: char)
    requires cursor <= |buffer| && '0' <= d <= '9'
    ensures var o := Feed(At(buffer, cursor), [ESC, '[', d, '~']);
            && (d == '1' || d == '7' ==> Leaves(o, buffer, 0))
            && (d == '4' || d == '8' ==> Leaves(o, buffer, |buffer|))
            && (d == '3' && cursor < |buffer| ==> Leaves(o, buffer[..cursor] + buffer[cursor + 1..], cursor))
            && (d == '3' && cursor == |buffer| ==> Leaves(o, buffer, cursor))
            && (d in "02569" ==> Leaves(o, buffer, cursor))
  {
    assert [ESC, '[', d, '~'] == [ESC, '['] + [d] + ['~'];
    FeedCsi(At(buffer, cursor), [d], '~');
    assert [d] == "1" || [d] == "7" || [d] == "4" || [d] == "8" || [d] == "3" || d in "02569";
  }

  // The keys outside escape sequences.
  lemma PlainKeys(buffer: string, cursor: nat, ch: char)
    requires cursor <= |buffer| && ch != ESC
    ensures var o := Feed(At(buffer, cursor), [ch]);
            if ch == '\r' || ch == '\n' then o.ed == At("", 0) && o.lines == [buffer + "\r\n"] && !o.ctrlC
            else if ch == '\U{3}' then o.ed == At("", 0) && o.lines == [] && o.ctrlC
            else if ch == '\U{8}' || ch == '\U{7f}' then
              if cursor == 0 then Leaves(o, buffer, 0)
              else Leaves(o, buffer[..cursor - 1] + buffer[cursor..], cursor - 1)
            else if ch == '\U{15}' then Leaves(o, "", 0)
            else if ch < ' ' then Leaves(o, buffer, cursor)
            else Leaves(o, buffer[..cursor] + [ch] + buffer[cursor..], cursor + 1)
  {
    FeedOne(At(buffer, cursor), ch);
  }

  // ----- going back and typing -----

  function Lefts(n: nat): string { if n == 0 then "" else Lefts(n - 1) + [ESC, '[', 'D'] }

  lemma {:induction false} GoBack(buffer: string, cursor: nat, n: nat)
    requires n <= cursor <= |buffer|
    ensures Leaves(Feed(At(buffer, cursor), Lefts(n)), buffer, cursor - n)
  {
    if n > 0 {
      GoBack(buffer, cursor, n - 1);
      OneBack(At(buffer, cursor), Lefts(n - 1), buffer, cursor - (n - 1));
    }
  }

  lemma OneBack(ed: Editor, keys: string, buffer: string, cursor: nat)
    requires Leaves(Feed(ed, keys), buffer, cursor) && 0 < cursor <= |buffer|
    ensures Leaves(Feed(ed, keys + [ESC, '[', 'D']), buffer, cursor - 1)
  {
    Then(ed, keys, buffer, cursor, [ESC, '[', 'D']);
    CursorKeys(buffer, cursor);
  }

  lemma {:induction false} TypeIn(a: string, b: string, text: string)
    requires Printable(text)
    ensures Leaves(Feed(At(a + b, |a|), text), a + text + b, |a| + |text|)
  {
    if text == "" {
      assert a + text + b == a + b;
    } else {
      var n := |text| - 1;
      TypeIn(a, b, text[..n]);
      assert text == text[..n] + [text[n]] && Ordinary(text[n]);
      OneTyped(At(a + b, |a|), a, text[..n], b, text[n]);
    }
  }

  lemma OneTyped(ed: Editor, a: string, text: string, b: string, ch: char)
    requires Leaves(Feed(ed, text), a + text + b, |a| + |text|) && Ordinary(ch)
    ensures Leaves(Feed(ed, text + [ch]), a + (text + [ch]) + b, |a| + |text| + 1)
  {
    Then(ed, text, a + text + b, |a| + |text|, [ch]);
    TypeOne(a, text, b, ch);
  }

  lemma TypeOne(a: string, text: string, b: string, ch: char)
    requires Ordinary(ch)
    ensures Leaves(Feed(At(a + text + b, |a| + |text|), [ch]), a + (text + [ch]) + b, |a| + |text| + 1)
  {
    PlainKeys(a + text + b, |a| + |text|, ch);
    assert (a + text + b)[..|a| + |text|] == a + text && (a + text + b)[|a| + |text|..] == b;
    assert (a + text) + [ch] + b == a + (text + [ch]) + b;
  }

  // Text typed, the cursor moved back n places, more typed there, and the line entered: the shell
  // gets it with the later text in its place.
  lemma TypedInto(text: string, n: nat, more: string)
    requires Printable(text) && Printable(more) && n <= |text|
    ensures var o := Feed(At("", 0), text + Lefts(n) + more + "\r");
            o.ed == At("", 0) && !o.ctrlC && o.lines == [text[..|text| - n] + more + text[|text| - n..] + "\r\n"]
  {
    var k := |text| - n;
    var a, b := text[..k], text[k..];
    assert "" + text + "" == text && "" + "" == "" && a + b == text;
    TypeIn("", "", text);
    Then(At("", 0), text, text, |text|, Lefts(n));
    GoBack(text, |text|, n);
    Then(At("", 0), text + Lefts(n), text, k, more);
    TypeIn(a, b, more);
    Then(At("", 0), text + Lefts(n) + more, a + more + b, k + |more|, "\r");
    PlainKeys(a + more + b, k + |more|, '\r');
  }

  // All other sequences leave the line as it is.
  lemma OtherKeys(buffer: string, cursor: nat, final: char)
    requires FinalByte(final) && final !in "DCHF~["
    ensures Leaves(Feed(At(buffer, cursor), [ESC, '[', final]), buffer, cursor)
  {
    assert [ESC, '[', final] == [ESC, '['] + "" + [final];
    FeedCsi(At(buffer, cursor), "", final);
  }
}
