// toml_encode_str, unescape_basic and Config2 of src/config.rs as they run.

module TomlCode {
  import opened Wrappers
  import opened Toml

  method TomlEncodeStr(val: string) returns (out: string)
    ensures out == EncodeStr(val)
  {
    out := "\"";
    for i := 0 to |val|
      invariant out + Escape(val[i..]) == "\"" + Escape(val)
    {
      var c := val[i];
      EscapeStep(val, i);
      Assoc(out, Escape1(c), Escape(val[i + 1..]));
      if c == '"' {
        out := out + "\\\"";
      } else if c == '\\' {
        out := out + "\\\\";
      } else if c == '\n' {
        out := out + "\\n";
      } else if c == '\r' {
        out := out + "\\r";
      } else if c == '\t' {
        out := out + "\\t";
      } else if IsControl(c) {
        out := out + ("\\u" + Hex4(c as int));
      } else {
        out := out + [c];
      }
    }
    assert val[|val|..] == "" && out + "" == out;
    out := out + "\"";
  }

  lemma EscapeStep(val: string, i: nat)
    requires i < |val|
    ensures Escape(val[i..]) == Escape1(val[i]) + Escape(val[i + 1..])
  {
    assert val[i..][1..] == val[i + 1..];
  }

  method UnescapeBasic(s: string) returns (out: string)
    ensures out == Unescape(s)
  {
    out := "";
    var pos := 0;
    assert s[0..] == s;
    while pos < |s|
      invariant 0 <= pos <= |s| && out + Unescape(s[pos..]) == Unescape(s)
      decreases |s| - pos
    {
      var piece, next := UnescapeStep(s, pos);
      Assoc(out, piece, Unescape(s[next..]));
      out, pos := out + piece, next;
    }
    assert s[pos..] == "" && out + "" == out;
  }

  // The next character or escape.
  method UnescapeStep(s: string, pos: nat) returns (piece: string, next: nat)
    requires pos < |s|
    ensures pos < next <= |s| && Unescape(s[pos..]) == piece + Unescape(s[next..])
  {
    ghost var t := s[pos..];
    var c := s[pos];
    if c != '\\' {
      assert t[1..] == s[pos + 1..];
      return [c], pos + 1;
    }
    if pos + 1 == |s| {
      assert s[pos + 1..] == "";
      return "\\", pos + 1;
    }
    var e := s[pos + 1];
    assert t[2..] == s[pos + 2..];
    if Simple(e).Some? {
      return [Simple(e).value], pos + 2;
    }
    if e == 'u' {
      next := if pos + 6 <= |s| then pos + 6 else |s|;
      assert Upto(t[2..], 4) == s[pos + 2..next] && After(t[2..], 4) == s[next..];
      piece := CharOf(FromHex(s[pos + 2..next]));
      return;
    }
    piece, next := ['\\', e], pos + 2;
  }
}

module Config2Code {
  import opened Wrappers
  import opened Toml
  import opened TomlCode
  import opened Config2Spec

  class ConfigFile {
    var content: string
    var readable: bool

    constructor (content: string, readable: bool)
      ensures this.content == content && this.readable == readable
    {
      this.content, this.readable := content, readable;
    }
  }

  lemma OptionLine(keys: seq<string>, m: map<string, string>, i: nat)
    requires i < |keys| && forall k :: k in keys ==> k in m
    ensures OptionLines(keys[i..], m)
         == (keys[i] + " = " + EncodeStr(m[keys[i]]) + "\n") + OptionLines(keys[i + 1..], m)
  {
    assert keys[i..][1..] == keys[i + 1..];
  }

  method EntryLines(keys: seq<string>, m: map<string, string>) returns (lines: string)
    requires forall k :: k in keys ==> k in m
    ensures lines == OptionLines(keys, m)
  {
    lines := "";
    assert keys[0..] == keys;
    for i := 0 to |keys|
      invariant lines + OptionLines(keys[i..], m) == OptionLines(keys, m)
    {
      var val := TomlEncodeStr(m[keys[i]]);
      var line := keys[i] + " = " + val + "\n";
      OptionLine(keys, m, i);
      Assoc(lines, line, OptionLines(keys[i + 1..], m));
      lines := lines + line;
    }
    assert keys[|keys|..] == [] && lines + "" == lines;
  }

  class Config2 {
    var rendezvousServer: string
    var natType: int
    var serial: int
    var options: map<string, string>
    var readFailed: bool

    ghost function View(): Cfg
      reads this
    {
      Cfg(rendezvousServer, natType, serial, options)
    }

    constructor Load(w: World, file: ConfigFile)
      ensures readFailed == !file.readable
      ensures View() == if file.readable then Config2Spec.Read(w, file.content) else EMPTY
    {
      rendezvousServer, natType, serial, options, readFailed := "", 0, 0, map[], false;
      new;
      Read(w, file);
    }

    method Read(w: World, file: ConfigFile)
      modifies this
      ensures readFailed == !file.readable
      ensures View()
           == if file.readable then ReadLines(w, State(false, old(View())), Lines(file.content)).cfg else old(View())
    {
      readFailed := !file.readable;
      if !readFailed {
        var lines := Lines(file.content);
        var inOptions := false;
        ghost var st0 := State(false, View());
        assert lines[0..] == lines;
        for i := 0 to |lines|
          invariant ReadLines(w, State(inOptions, View()), lines[i..]) == ReadLines(w, st0, lines)
          invariant readFailed == !file.readable
        {
          assert lines[i..][1..] == lines[i + 1..];
          inOptions := TakeLine(w, lines[i], inOptions);
        }
        assert lines[|lines|..] == [];
      }
    }

    method TakeLine(w: World, raw: string, inOptions0: bool) returns (inOptions: bool)
      modifies this
      ensures State(inOptions, View()) == ReadLine(w, State(inOptions0, old(View())), raw)
      ensures readFailed == old(readFailed)
    {
      inOptions := inOptions0;
      var line := Trim(raw);
      if line == "[options]" { return true; }
      if line != "" && line[0] == '[' { return false; }
      var entry := ParseLine(line);
      match entry
      case None =>
      case Some((key, val)) =>
        if inOptions {
          options := options[key := val];
        } else if key == "rendezvous_server" {
          rendezvousServer := val;
        } else if key == "nat_type" {
          natType := IntOf(w, val);
        } else if key == "serial" {
          serial := IntOf(w, val);
        }
    }

    method Save(w: World, file: ConfigFile)
      requires Lawful(w)
      modifies file`content
      ensures file.content == if readFailed then old(file.content) else Saved(w, View())
    {
      if readFailed { return; }
      var content := "";
      if rendezvousServer != "" {
        var server := TomlEncodeStr(rendezvousServer);
        content := content + ("rendezvous_server" + " = " + server + "\n");
      }
      assert content == ServerLine(View());
      var body := OptionsText(w);
      content := content + (("nat_type" + " = " + w.show(natType) + "\n")
                            + (("serial" + " = " + w.show(serial) + "\n") + body));
      file.content := content;
    }

    method OptionsText(w: World) returns (text: string)
      requires Lawful(w)
      ensures text == Options(w, options)
    {
      if options == map[] { return ""; }
      var lines := EntryLines(w.sorted(options), options);
      text := "" + "\n" + ("[options]" + "\n" + lines);
    }

    function GetOption(key: string): string
      reads this
    {
      if key in options then options[key] else ""
    }

    method SetOption(w: World, file: ConfigFile, key: string, value: string)
      requires Lawful(w)
      modifies this, file`content
      ensures View() == Set(old(View()), key, value) && readFailed == old(readFailed)
      ensures file.content == if readFailed then old(file.content) else Saved(w, View())
    {
      if value == "" {
        options := options - {key};
      } else {
        options := options[key := value];
      }
      Save(w, file);
    }
  }
}
