// The text of strings, lines and of a saved configuration, character by character.

module TomlLaws {
  import opened Wrappers
  import opened Toml
  import opened Config2Spec

  // Characters that have to be escaped.
  predicate Special(c: char) { c == '"' || c == '\\' || c as int < 0x20 || 0x7F <= c as int < 0xA0 }

  // Anything else is written as it is, between double quotes.
  lemma {:induction false} PlainText(s: string)
    requires forall i :: 0 <= i < |s| ==> !Special(s[i])
    ensures EncodeStr(s) == ['"'] + s + ['"']
  {
    EscapePlain(s);
  }

  lemma {:induction false} EscapePlain(s: string)
    requires forall i :: 0 <= i < |s| ==> !Special(s[i])
    ensures Escape(s) == s
  {
    if s != "" {
      EscapePlain(s[1..]);
      assert s == [s[0]] + s[1..];
    }
  }

  // A text printed character by character.
  ghost predicate Printed(f: string -> string, one: char -> string)
  {
    f("") == "" && forall c: char, rest: string :: f([c] + rest) == one(c) + f(rest)
  }

  lemma {:induction false} PrintedConcat(f: string -> string, one: char -> string, s: string, t: string)
    requires Printed(f, one)
    ensures f(s + t) == f(s) + f(t)
  {
    if s == "" {
      assert s + t == t;
    } else {
      var c, rest := s[0], s[1..];
      PrintedConcat(f, one, rest, t);
      assert s == [c] + rest && s + t == [c] + (rest + t);
      Regroup(one(c), f(rest), f(t));
    }
  }

  // Escapes are written one behind the other.
  lemma EscapeConcat(s: string, t: string)
    ensures Escape(s + t) == Escape(s) + Escape(t)
  {
    var f, one := (x: string) => Escape(x), (c: char) => Escape1(c);
    forall c: char, rest: string ensures f([c] + rest) == one(c) + f(rest) { EscapeCons([c] + rest, c, rest); }
    PrintedConcat(f, one, s, t);
  }

  lemma EscapeCons(s: string, c: char, rest: string)
    requires s == [c] + rest
    ensures Escape(s) == Escape1(c) + Escape(rest)
  {
    assert s[1..] == rest;
  }

  lemma Regroup(a: string, b: string, c: string)
    ensures a + (b + c) == (a + b) + c
  {
  }

  predicate Named(c: char, x: char)
  {
    || (c == '"' && x == '"') || (c == '\\' && x == '\\') || (c == '\n' && x == 'n') || (c == '\r' && x == 'r')
    || (c == '\t' && x == 't')
  }

  // A backslash and a letter for five of them, and a backslash, u and four digits for the others.
  lemma EscapeSpecial(c: char)
    requires Special(c)
    ensures Escape([c]) == Escape1(c)
    ensures (exists x :: Named(c, x) && Escape([c]) == ['\\', x])
         || (|Escape([c])| == 6 && Escape([c])[..2] == ['\\', 'u'] && forall x :: !Named(c, x))
  {
    assert [c][1..] == "" && Escape1(c) + "" == Escape1(c);
    if c == '"' { assert Named(c, '"'); }
    else if c == '\\' { assert Named(c, '\\'); }
    else if c == '\n' { assert Named(c, 'n'); }
    else if c == '\r' { assert Named(c, 'r'); }
    else if c == '\t' { assert Named(c, 't'); }
  }

  // The digit of value d.
  function HexChar(d: int): int { if d < 10 then 0x30 + d else 0x41 + d - 10 }

  // They are the digits of the character's code, the highest first.
  lemma EscapeDigits(c: char)
    requires Special(c) && forall x :: !Named(c, x)
    ensures var e, n := Escape1(c), c as int;
            && |e| == 6 && e[2] as int == HexChar(n / 0x1000) && e[3] as int == HexChar(n / 0x100 % 16)
            && e[4] as int == HexChar(n / 16 % 16) && e[5] as int == HexChar(n % 16)
  {
    assert !Named(c, '"') && !Named(c, '\\') && !Named(c, 'n') && !Named(c, 'r') && !Named(c, 't');
    DigitChar(c as int / 0x1000);
    DigitChar(c as int / 0x100 % 16);
    DigitChar(c as int / 16 % 16);
    DigitChar(c as int % 16);
  }

  lemma DigitChar(d: int)
    requires 0 <= d < 16
    ensures HexDigit(d) as int == HexChar(d)
  {
  }

  // Between single quotes everything is taken as it is, and so is text without quotes.
  lemma OtherStrings(s: string)
    ensures DecodeStr(['\''] + s + ['\'']) == s
    ensures Trimmed(s) && (s != "" ==> s[0] != '"' && s[0] != '\'') ==> DecodeStr(s) == s
  {
    var q := ['\''] + s + ['\''];
    TrimTrimmed(q);
    assert q[1..|q| - 1] == s;
    if Trimmed(s) { TrimTrimmed(s); }
  }

  // ----- the file -----

  lemma OptionLine(k: string, rest: seq<string>, m: map<string, string>)
    requires k in m && forall l :: l in rest ==> l in m
    ensures OptionLines([k] + rest, m) == k + " = " + EncodeStr(m[k]) + "\n" + OptionLines(rest, m)
    ensures OptionLines([], m) == ""
  {
    assert ([k] + rest)[1..] == rest;
  }

  // The server if there is one, the two numbers, and behind an empty line and a heading the
  // options if there are any.
  lemma SavedText(w: World, c: Cfg)
    requires Lists(w.sorted(c.options), c.options)
    ensures Saved(w, c)
         == (if c.server == "" then "" else "rendezvous_server = " + EncodeStr(c.server) + "\n")
            + ("nat_type = " + w.show(c.natType) + "\n"
               + ("serial = " + w.show(c.serial) + "\n"
                  + (if c.options == map[] then "" else "\n[options]\n" + OptionLines(w.sorted(c.options), c.options))))
  {
    EntryIs("rendezvous_server", EncodeStr(c.server), "rendezvous_server = ");
    EntryIs("nat_type", w.show(c.natType), "nat_type = ");
    EntryIs("serial", w.show(c.serial), "serial = ");
    Heading(OptionLines(w.sorted(c.options), c.options));
  }

  lemma EntryIs(k: string, text: string, start: string)
    requires start == k + " = "
    ensures Entry(k, text) == start + text
  {
  }

  lemma Heading(lines: string)
    ensures "" + "\n" + ("[options]" + "\n" + lines) == "\n[options]\n" + lines
  {
    assert "" + "\n" + ("[options]" + "\n") == "\n[options]\n";
  }

  // ----- reading -----

  // Any heading but one ends the options; a comment changes nothing.
  lemma Headings(w: World, st: State, line: string)
    requires Trimmed(line) && line != ""
    ensures line == "[options]" ==> ReadLine(w, st, line) == st.(inOptions := true)
    ensures line[0] == '[' && line != "[options]" ==> ReadLine(w, st, line) == st.(inOptions := false)
    ensures line[0] == '#' ==> ReadLine(w, st, line) == st
  {
    TrimTrimmed(line);
  }

  // Outside the options three keys are known; a number that cannot be read is zero.
  lemma KnownKeys(w: World, st: State, raw: string, k: string, v: string)
    requires !st.inOptions && Trim(raw) != "" && Trim(raw)[0] != '[' && ParseLine(Trim(raw)) == Some((k, v))
    ensures ReadLine(w, st, raw).cfg
         == if k == "rendezvous_server" then st.cfg.(server := v)
            else if k == "nat_type" then st.cfg.(natType := if w.parse(v).Some? then w.parse(v).value else 0)
            else if k == "serial" then st.cfg.(serial := if w.parse(v).Some? then w.parse(v).value else 0)
            else st.cfg
  {
    assert Trim(raw) != "[options]";
  }

  // An empty value takes the option away, any other one is what is then there; nothing else changes.
  lemma SetExactly(c: Cfg, k: string, v: string)
    ensures var d := Set(c, k, v);
            && d.server == c.server && d.natType == c.natType && d.serial == c.serial
            && (k in d.options <==> v != "") && (v != "" ==> d.options[k] == v)
            && forall l :: l != k ==> (l in d.options <==> l in c.options)
                                      && (l in c.options ==> d.options[l] == c.options[l])
  {
  }
}
