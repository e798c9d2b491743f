// Config2 of src/config.rs on the text of its file.

module Config2Spec {
  import opened Wrappers
  import opened Toml

  datatype Cfg = Cfg(server: string, natType: int, serial: int, options: map<string, string>)

  // Printing and parsing of i32, and the sorted keys of a map.
  datatype World = World(show: int -> string, parse: string -> Option<int>, sorted: map<string, string> -> seq<string>)

  ghost predicate Lists(keys: seq<string>, m: map<string, string>)
  {
    (forall k :: k in keys <==> k in m) && forall i, j :: 0 <= i < j < |keys| ==> keys[i] != keys[j]
  }

  predicate Numeral(s: string) { s != "" && forall i :: 0 <= i < |s| ==> s[i] == '-' || '0' <= s[i] <= '9' }

  ghost predicate Lawful(w: World)
  {
    (forall n :: w.parse(w.show(n)) == Some(n) && Numeral(w.show(n))) && forall m :: Lists(w.sorted(m), m)
  }

  // ----- reading -----

  // str::lines: split after each line feed; a carriage return before it is dropped.
  function Lines(s: string): seq<string>
    decreases |s|
  {
    if s == "" then []
    else
      var n := Find(s, '\n');
      if n == |s| then [s] else [DropCr(s[..n])] + Lines(s[n + 1..])
  }

  function DropCr(s: string): string { if s != "" && s[|s| - 1] == '\r' then s[..|s| - 1] else s }

  datatype State = State(inOptions: bool, cfg: Cfg)

  function IntOf(w: World, s: string): int { if w.parse(s).Some? then w.parse(s).value else 0 }

  function ReadLine(w: World, st: State, raw: string): State
  {
    var line := Trim(raw);
    if line == "[options]" then st.(inOptions := true)
    else if line != "" && line[0] == '[' then st.(inOptions := false)
    else
      match ParseLine(line)
      case None => st
      case Some((k, v)) =>
        if st.inOptions then st.(cfg := st.cfg.(options := st.cfg.options[k := v]))
        else if k == "rendezvous_server" then st.(cfg := st.cfg.(server := v))
        else if k == "nat_type" then st.(cfg := st.cfg.(natType := IntOf(w, v)))
        else if k == "serial" then st.(cfg := st.cfg.(serial := IntOf(w, v)))
        else st
  }

  function ReadLines(w: World, st: State, lines: seq<string>): State
    decreases |lines|
  {
    if lines == [] then st else ReadLines(w, ReadLine(w, st, lines[0]), lines[1..])
  }

  const EMPTY: Cfg := Cfg("", 0, 0, map[])

  function Read(w: World, content: string): Cfg { ReadLines(w, State(false, EMPTY), Lines(content)).cfg }

  // ----- saving -----

  function OptionLines(keys: seq<string>, m: map<string, string>): string
    requires forall k :: k in keys ==> k in m
    decreases |keys|
  {
    if keys == [] then "" else Entry(keys[0], EncodeStr(m[keys[0]])) + "\n" + OptionLines(keys[1..], m)
  }

  function ServerLine(c: Cfg): string
  {
    if c.server == "" then "" else Entry("rendezvous_server", EncodeStr(c.server)) + "\n"
  }

  function NumberLine(w: World, k: string, n: int): string { Entry(k, w.show(n)) + "\n" }

  function Options(w: World, m: map<string, string>): string
    requires Lists(w.sorted(m), m)
  {
    if m == map[] then "" else "" + "\n" + ("[options]" + "\n" + OptionLines(w.sorted(m), m))
  }

  function Saved(w: World, c: Cfg): string
    requires Lists(w.sorted(c.options), c.options)
  {
    ServerLine(c) + (NumberLine(w, "nat_type", c.natType) + (NumberLine(w, "serial", c.serial) + Options(w, c.options)))
  }

  // ----- what reading makes of a saved line -----

  lemma LinesCons(a: string, rest: string)
    requires '\n' !in a
    ensures Lines(a + "\n" + rest) == [DropCr(a)] + Lines(rest)
  {
    var s := a + "\n" + rest;
    FoundAt(s, |a|, '\n');
    assert s[..|a|] == a && s[|a| + 1..] == rest;
  }

  lemma CrDoesNotShow(a: string)
    ensures Trim(DropCr(a)) == Trim(a)
  {
    if a != "" && a[|a| - 1] == '\r' {
      assert a == DropCr(a) + ['\r'];
      TrimMore(DropCr(a), '\r');
    }
  }

  lemma TrimTwice(a: string)
    ensures Trim(Trim(a)) == Trim(a)
  {
    TrimTrimmed(a);
    TrimTrimmed(Trim(a));
  }

  // A line is read as its trimmed self.
  lemma ReadsAlike(w: World, st: State, a: string, b: string)
    requires Trim(a) == Trim(b)
    ensures ReadLine(w, st, a) == ReadLine(w, st, b)
  {
  }

  lemma ReadLinesCons(w: World, st: State, a: string, rest: seq<string>)
    ensures ReadLines(w, st, [a] + rest) == ReadLines(w, ReadLine(w, st, a), rest)
  {
    assert ([a] + rest)[1..] == rest;
  }

  lemma ReadsCons(w: World, st: State, a: string, rest: string)
    requires '\n' !in a
    ensures ReadLines(w, st, Lines(a + "\n" + rest)) == ReadLines(w, ReadLine(w, st, a), Lines(rest))
  {
    LinesCons(a, rest);
    CrDoesNotShow(a);
    ReadLinesCons(w, st, DropCr(a), Lines(rest));
    ReadsAlike(w, st, DropCr(a), a);
  }

  // The effect of one entry.
  function Entered(w: World, st: State, k: string, v: string): State
  {
    if st.inOptions then st.(cfg := st.cfg.(options := st.cfg.options[k := v]))
    else if k == "rendezvous_server" then st.(cfg := st.cfg.(server := v))
    else if k == "nat_type" then st.(cfg := st.cfg.(natType := IntOf(w, v)))
    else if k == "serial" then st.(cfg := st.cfg.(serial := IntOf(w, v)))
    else st
  }

  lemma ParsesTrimmed(a: string)
    ensures ParseLine(Trim(a)) == ParseLine(a)
  {
    TrimTwice(a);
  }

  lemma EntryEnters(w: World, st: State, k: string, text: string)
    requires PlainKey(k) && text != "" && Trimmed(text)
    ensures ReadLine(w, st, Entry(k, text)) == Entered(w, st, k, DecodeStr(text))
  {
    EntryParses(k, text);
    ParsesTrimmed(Entry(k, text));
  }

  lemma EntryOneLine(k: string, text: string)
    requires '\n' !in k && '\n' !in text
    ensures '\n' !in Entry(k, text)
  {
  }

  // A quoted entry and what follows.
  lemma ReadsEntry(w: World, st: State, k: string, v: string, rest: string)
    requires PlainKey(k)
    ensures ReadLines(w, st, Lines(Entry(k, EncodeStr(v)) + "\n" + rest))
         == ReadLines(w, Entered(w, st, k, v), Lines(rest))
  {
    StringRoundTrip(v);
    EntryOneLine(k, EncodeStr(v));
    ReadsCons(w, st, Entry(k, EncodeStr(v)), rest);
    EntryEnters(w, st, k, EncodeStr(v));
  }

  lemma NumeralPlain(s: string)
    requires Numeral(s)
    ensures Trimmed(s) && '\n' !in s && DecodeStr(s) == s
  {
    TrimTrimmed(s);
  }

  lemma ReadsNumber(w: World, st: State, k: string, n: int, rest: string)
    requires Lawful(w) && PlainKey(k)
    ensures ReadLines(w, st, Lines(NumberLine(w, k, n) + rest))
         == ReadLines(w, Entered(w, st, k, w.show(n)), Lines(rest))
    ensures IntOf(w, w.show(n)) == n
  {
    NumeralPlain(w.show(n));
    EntryOneLine(k, w.show(n));
    ReadsCons(w, st, Entry(k, w.show(n)), rest);
    EntryEnters(w, st, k, w.show(n));
  }

  function PutAll(o: map<string, string>, keys: seq<string>, m: map<string, string>): map<string, string>
    requires forall k :: k in keys ==> k in m
    decreases |keys|
  {
    if keys == [] then o else PutAll(o[keys[0] := m[keys[0]]], keys[1..], m)
  }

  lemma {:induction false} ReadsOptions(w: World, st: State, keys: seq<string>, m: map<string, string>)
    requires st.inOptions && forall k :: k in keys ==> k in m && PlainKey(k)
    ensures ReadLines(w, st, Lines(OptionLines(keys, m)))
         == st.(cfg := st.cfg.(options := PutAll(st.cfg.options, keys, m)))
    decreases |keys|
  {
    if keys != [] {
      ReadsEntry(w, st, keys[0], m[keys[0]], OptionLines(keys[1..], m));
      ReadsOptions(w, Entered(w, st, keys[0], m[keys[0]]), keys[1..], m);
    }
  }

  lemma {:induction false} PutAllGives(o: map<string, string>, keys: seq<string>, m: map<string, string>)
    requires forall k :: k in keys ==> k in m
    ensures forall k :: k in PutAll(o, keys, m) <==> k in o || k in keys
    ensures forall k :: k in PutAll(o, keys, m) ==> PutAll(o, keys, m)[k] == if k in keys then m[k] else o[k]
    decreases |keys|
  {
    if keys != [] {
      PutAllGives(o[keys[0] := m[keys[0]]], keys[1..], m);
      assert keys == [keys[0]] + keys[1..];
    }
  }

  lemma PutAllIs(keys: seq<string>, m: map<string, string>)
    requires Lists(keys, m)
    ensures PutAll(map[], keys, m) == m
  {
    PutAllGives(map[], keys, m);
  }

  lemma HeadingReads(w: World, st: State)
    ensures ReadLine(w, st, "") == st && ReadLine(w, st, "[options]") == st.(inOptions := true)
  {
    TrimTrimmed("[options]");
    assert Trim("") == "";
  }

  lemma ReadsHeading(w: World, st: State, rest: string)
    ensures ReadLines(w, st, Lines("" + "\n" + ("[options]" + "\n" + rest)))
         == ReadLines(w, st.(inOptions := true), Lines(rest))
  {
    HeadingReads(w, st);
    TwoLines(w, st, "", "[options]", rest);
  }

  lemma TwoLines(w: World, st: State, a: string, b: string, rest: string)
    requires '\n' !in a && '\n' !in b
    ensures ReadLines(w, st, Lines(a + "\n" + (b + "\n" + rest)))
         == ReadLines(w, ReadLine(w, ReadLine(w, st, a), b), Lines(rest))
  {
    ReadsCons(w, st, a, b + "\n" + rest);
    ReadsCons(w, ReadLine(w, st, a), b, rest);
  }

  ghost predicate PlainKeys(c: Cfg) { forall k :: k in c.options ==> PlainKey(k) }

  lemma ReadsAllOptions(w: World, st: State, m: map<string, string>)
    requires Lawful(w) && st.cfg.options == map[] && forall k :: k in m ==> PlainKey(k)
    ensures ReadLines(w, st, Lines(Options(w, m))).cfg == st.cfg.(options := m)
  {
    if m != map[] {
      ReadsHeading(w, st, OptionLines(w.sorted(m), m));
      ReadsOptions(w, st.(inOptions := true), w.sorted(m), m);
      PutAllIs(w.sorted(m), m);
    }
  }

  lemma FixedKeysPlain()
    ensures PlainKey("rendezvous_server") && PlainKey("nat_type") && PlainKey("serial") && PlainKey("2fa")
  {
  }

  lemma SaveReads(w: World, c: Cfg)
    requires Lawful(w) && PlainKeys(c)
    ensures Read(w, Saved(w, c)) == c
  {
    FixedKeysPlain();
    var opts := Options(w, c.options);
    var serial := NumberLine(w, "serial", c.serial) + opts;
    var nat_ := NumberLine(w, "nat_type", c.natType) + serial;
    var st0 := State(false, EMPTY);
    var st1 := State(false, EMPTY.(server := c.server));
    if c.server == "" {
      assert ServerLine(c) + nat_ == nat_;
    } else {
      ReadsEntry(w, st0, "rendezvous_server", c.server, nat_);
    }
    ReadsNumber(w, st1, "nat_type", c.natType, serial);
    var st2 := st1.(cfg := st1.cfg.(natType := c.natType));
    ReadsNumber(w, st2, "serial", c.serial, opts);
    var st3 := st2.(cfg := st2.cfg.(serial := c.serial));
    ReadsAllOptions(w, st3, c.options);
  }

  // ----- and the other direction -----

  lemma {:induction false} LinesUnbroken(s: string)
    ensures forall l :: l in Lines(s) ==> '\n' !in l
    decreases |s|
  {
    if s != "" {
      var n := Find(s, '\n');
      if n < |s| { LinesUnbroken(s[n + 1..]); }
    }
  }

  lemma {:induction false} ReadKeysPlain(w: World, st: State, lines: seq<string>)
    requires PlainKeys(st.cfg) && forall l :: l in lines ==> '\n' !in l
    ensures PlainKeys(ReadLines(w, st, lines).cfg)
    decreases |lines|
  {
    if lines != [] {
      TrimInside(lines[0]);
      ParsedKeyPlain(Trim(lines[0]));
      ReadKeysPlain(w, ReadLine(w, st, lines[0]), lines[1..]);
    }
  }

  // Whatever is in the file, the keys read from it are plain.
  lemma ReadIsPlain(w: World, content: string)
    ensures PlainKeys(Read(w, content))
  {
    LinesUnbroken(content);
    ReadKeysPlain(w, State(false, EMPTY), Lines(content));
  }

  // Saving and reading restores a configuration exactly when all its option keys are plain;
  // their values, and the other fields, may be anything.
  lemma SaveRestores(w: World, c: Cfg)
    requires Lawful(w)
    ensures Read(w, Saved(w, c)) == c <==> PlainKeys(c)
  {
    ReadIsPlain(w, Saved(w, c));
    if PlainKeys(c) { SaveReads(w, c); }
  }

  // set_option: an empty value removes the key.
  function Set(c: Cfg, k: string, v: string): Cfg
  {
    c.(options := if v == "" then c.options - {k} else c.options[k := v])
  }

  function Get(c: Cfg, k: string): string { if k in c.options then c.options[k] else "" }

  // An option set under a plain key in a configuration that was loaded is there after saving and
  // loading again, and so is everything else, whatever the file held before.
  lemma SetSurvives(w: World, content: string, k: string, v: string)
    requires Lawful(w) && PlainKey(k)
    ensures var c := Set(Read(w, content), k, v); Read(w, Saved(w, c)) == c && Get(c, k) == v
  {
    ReadIsPlain(w, content);
    SaveRestores(w, Set(Read(w, content), k, v));
  }
}
