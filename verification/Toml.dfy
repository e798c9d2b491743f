// The TOML-like strings and lines of src/config.rs.

module Toml {
  import opened Wrappers
  // char::is_whitespace and char::is_control
  predicate IsSpace(c: char)
  {
    var n := c as int;
    9 <= n <= 13 || n == 0x20 || n == 0x85 || n == 0xA0 || n == 0x1680 || 0x2000 <= n <= 0x200A
    || n == 0x2028 || n == 0x2029 || n == 0x202F || n == 0x205F || n == 0x3000
  }

  predicate IsControl(c: char) { c as int <= 0x1F || 0x7F <= c as int <= 0x9F }

  // ----- escaping -----

  function HexDigit(d: int): char
    requires 0 <= d < 16
  {
    "0123456789ABCDEF"[d]
  }

  function HexValue(c: char): int
  {
    if '0' <= c <= '9' then c as int - '0' as int
    else if 'a' <= c <= 'f' then c as int - 'a' as int + 10
    else if 'A' <= c <= 'F' then c as int - 'A' as int + 10
    else -1
  }

  function Hex4(n: int): (s: string)
    requires 0 <= n < 0x1_0000
    ensures |s| == 4
  {
    [HexDigit(n / 0x1000), HexDigit(n / 0x100 % 16), HexDigit(n / 16 % 16), HexDigit(n % 16)]
  }

  function Escape1(c: char): (s: string)
    ensures s != ""
  {
    if c == '"' then "\\\""
    else if c == '\\' then "\\\\"
    else if c == '\n' then "\\n"
    else if c == '\r' then "\\r"
    else if c == '\t' then "\\t"
    else if IsControl(c) then "\\u" + Hex4(c as int)
    else [c]
  }

  function Escape(s: string): string
  {
    if s == "" then "" else Escape1(s[0]) + Escape(s[1..])
  }

  function EncodeStr(s: string): string { "\"" + Escape(s) + "\"" }

  // u32::from_str_radix(_, 16): an optional plus sign, then digits only and at least one.
  function Digits(s: string, acc: int): Option<int>
  {
    if s == "" then Some(acc) else if HexValue(s[0]) < 0 then None else Digits(s[1..], 16 * acc + HexValue(s[0]))
  }

  function FromHex(s: string): Option<int>
  {
    var t := if s != "" && s[0] == '+' then s[1..] else s;
    if t == "" then None else Digits(t, 0)
  }

  // A code point, if it is a character.
  function CharOf(n: Option<int>): string
  {
    if n.Some? && (0 <= n.value < 0xD800 || 0xE000 <= n.value < 0x11_0000) then [n.value as char] else ""
  }

  function Upto(s: string, n: nat): string { if |s| <= n then s else s[..n] }
  function After(s: string, n: nat): string { if |s| <= n then "" else s[n..] }

  function Simple(c: char): Option<char>
  {
    if c == '"' then Some('"') else if c == '\\' then Some('\\') else if c == 'n' then Some('\n')
    else if c == 'r' then Some('\r') else if c == 't' then Some('\t') else None
  }

  function Unescape(s: string): string
    decreases |s|
  {
    if s == "" then ""
    else if s[0] != '\\' then [s[0]] + Unescape(s[1..])
    else if |s| == 1 then "\\"
    else if Simple(s[1]).Some? then [Simple(s[1]).value] + Unescape(s[2..])
    else if s[1] == 'u' then CharOf(FromHex(Upto(s[2..], 4))) + Unescape(After(s[2..], 4))
    else ['\\', s[1]] + Unescape(s[2..])
  }

  lemma HexBack(n: int)
    requires 0 <= n < 0x1_0000
    ensures FromHex(Hex4(n)) == Some(n)
  {
    var s := Hex4(n);
    Digit(n / 0x1000);
    Digit(n / 0x100 % 16);
    Digit(n / 16 % 16);
    Digit(n % 16);
    FourDigits(s, n / 0x1000, n / 0x100 % 16, n / 16 % 16, n % 16);
    Nibbles(n);
  }

  lemma Digit(d: int)
    requires 0 <= d < 16
    ensures HexValue(HexDigit(d)) == d && HexDigit(d) != '+'
  {
  }

  lemma Nibbles(n: int)
    requires 0 <= n < 0x1_0000
    ensures 16 * (16 * (16 * (n / 0x1000) + n / 0x100 % 16) + n / 16 % 16) + n % 16 == n
  {
    assert n / 0x100 / 16 == n / 0x1000;
    assert n / 16 / 16 == n / 0x100;
  }

  lemma FourDigits(s: string, a: int, b: int, c: int, d: int)
    requires |s| == 4 && HexValue(s[0]) == a >= 0 && HexValue(s[1]) == b >= 0 && HexValue(s[2]) == c >= 0
    requires HexValue(s[3]) == d >= 0
    ensures Digits(s, 0) == Some(16 * (16 * (16 * a + b) + c) + d)
  {
    assert s[1..][0] == s[1] && s[1..][1..] == s[2..] && s[2..][0] == s[2];
    assert s[2..][1..] == s[3..] && s[3..][0] == s[3] && s[3..][1..] == "";
    assert Digits(s[3..], 16 * (16 * a + b) + c) == Some(16 * (16 * (16 * a + b) + c) + d);
    assert Digits(s[2..], 16 * a + b) == Digits(s[3..], 16 * (16 * a + b) + c);
    assert Digits(s[1..], a) == Digits(s[2..], 16 * a + b);
  }

  lemma UnescapeOne(c: char, rest: string)
    ensures Unescape(Escape1(c) + rest) == [c] + Unescape(rest)
  {
    var e := Escape1(c);
    var s := e + rest;
    if IsControl(c) && c != '\n' && c != '\r' && c != '\t' {
      assert s[2..] == Hex4(c as int) + rest;
      assert Upto(s[2..], 4) == Hex4(c as int) && After(s[2..], 4) == rest;
      HexBack(c as int);
    } else if |e| == 2 {
      assert s[2..] == rest;
    } else {
      assert s[1..] == rest;
    }
  }

  lemma {:induction false} UnescapeEscape(s: string)
    ensures Unescape(Escape(s)) == s
  {
    if s != "" {
      UnescapeOne(s[0], Escape(s[1..]));
      UnescapeEscape(s[1..]);
    }
  }

  lemma {:induction false} EscapeOneLine(s: string)
    ensures '\n' !in Escape(s)
  {
    if s != "" {
      EscapeOneLine(s[1..]);
      NoBreak(s[0]);
    }
  }

  lemma NoBreak(c: char)
    ensures '\n' !in Escape1(c)
  {
    if IsControl(c) { assert forall d :: 0 <= d < 16 ==> HexDigit(d) != '\n'; }
  }

  // ----- trimming -----

  function TrimStart(s: string): string { if s != "" && IsSpace(s[0]) then TrimStart(s[1..]) else s }

  function TrimEnd(s: string): string { if s != "" && IsSpace(s[|s| - 1]) then TrimEnd(s[..|s| - 1]) else s }

  function Trim(s: string): string { TrimEnd(TrimStart(s)) }

  predicate Trimmed(s: string) { s != "" ==> !IsSpace(s[0]) && !IsSpace(s[|s| - 1]) }

  lemma {:induction false} TrimStartIs(s: string)
    ensures TrimStart(s) == "" || !IsSpace(TrimStart(s)[0])
  {
    if s != "" && IsSpace(s[0]) { TrimStartIs(s[1..]); }
  }

  lemma {:induction false} TrimEndIs(s: string)
    ensures TrimEnd(s) == "" || !IsSpace(TrimEnd(s)[|TrimEnd(s)| - 1])
    ensures TrimEnd(s) <= s
  {
    if s != "" && IsSpace(s[|s| - 1]) { TrimEndIs(s[..|s| - 1]); }
  }

  lemma TrimTrimmed(s: string)
    ensures Trimmed(Trim(s))
    ensures Trimmed(s) <==> Trim(s) == s
  {
    TrimStartIs(s);
    TrimEndIs(TrimStart(s));
  }

  lemma {:induction false} TrimEndMore(s: string, c: char)
    requires IsSpace(c)
    ensures TrimEnd(s + [c]) == TrimEnd(s)
    ensures TrimStart(s + [c]) == if TrimStart(s) == "" then "" else TrimStart(s) + [c]
  {
    assert (s + [c])[..|s|] == s;
    TrimStartMore(s, c);
  }

  lemma {:induction false} TrimStartMore(s: string, c: char)
    requires IsSpace(c)
    ensures TrimStart(s + [c]) == if TrimStart(s) == "" then "" else TrimStart(s) + [c]
  {
    if s == "" {
      assert s + [c] == [c] && [c][1..] == "";
    } else if IsSpace(s[0]) {
      assert (s + [c])[1..] == s[1..] + [c];
      TrimStartMore(s[1..], c);
    }
  }

  // A blank at the end does not show.
  lemma TrimMore(s: string, c: char)
    requires IsSpace(c)
    ensures Trim(s + [c]) == Trim(s)
  {
    TrimStartMore(s, c);
    if TrimStart(s) != "" { TrimEndMore(TrimStart(s), c); }
  }

  // Nor one at the front.
  lemma TrimBefore(s: string)
    ensures Trim(" " + s) == Trim(s)
  {
    assert (" " + s)[1..] == s;
  }

  // ----- values and lines -----

  function DecodeStr(v: string): string
  {
    var t := Trim(v);
    if |t| >= 2 && t[0] == '\'' && t[|t| - 1] == '\'' then t[1..|t| - 1]
    else if |t| >= 2 && t[0] == '"' && t[|t| - 1] == '"' then Unescape(t[1..|t| - 1])
    else t
  }

  // Every string comes back from its encoding.
  lemma StringRoundTrip(s: string)
    ensures DecodeStr(EncodeStr(s)) == s && Trimmed(EncodeStr(s)) && '\n' !in EncodeStr(s)
  {
    var e := EncodeStr(s);
    assert e[0] == '"' && e[|e| - 1] == '"' && e[1..|e| - 1] == Escape(s);
    TrimTrimmed(e);
    UnescapeEscape(s);
    EscapeOneLine(s);
  }

  function Find(s: string, c: char): (n: nat)
    ensures n <= |s| && (n < |s| ==> s[n] == c) && forall i :: 0 <= i < n ==> s[i] != c
  {
    if s == "" || s[0] == c then 0 else
      var n := Find(s[1..], c);
      assert forall i :: 1 <= i <= n ==> s[i] == s[1..][i - 1];
      n + 1
  }

  function ParseLine(raw: string): Option<(string, string)>
  {
    var line := Trim(raw);
    if line == "" || line[0] == '#' || line[0] == '[' then None
    else
      var eq := Find(line, '=');
      if eq == |line| then None else Some((Trim(line[..eq]), DecodeStr(Trim(line[eq + 1..]))))
  }

  // A key that can stand at the start of a line.
  predicate PlainKey(k: string) { '=' !in k && '\n' !in k && Trimmed(k) && (k != "" ==> k[0] != '[' && k[0] != '#') }

  function Entry(k: string, text: string): string { k + " = " + text }

  lemma FoundAt(s: string, n: nat, c: char)
    requires n < |s| && s[n] == c && forall i :: 0 <= i < n ==> s[i] != c
    ensures Find(s, c) == n
  {
  }

  // A line for a plain key parses back; an empty key, too.
  lemma EntryParses(k: string, text: string)
    requires PlainKey(k) && text != "" && Trimmed(text)
    ensures ParseLine(Entry(k, text)) == Some((k, DecodeStr(text)))
    ensures Trim(Entry(k, text)) != "" && Trim(Entry(k, text))[0] != '['
  {
    if k == "" { BareEntry(text); } else { KeyedEntry(k, text); }
  }

  lemma BareEntry(text: string)
    requires text != "" && Trimmed(text)
    ensures ParseLine(Entry("", text)) == Some(("", DecodeStr(text)))
    ensures Trim(Entry("", text)) != "" && Trim(Entry("", text))[0] != '['
  {
    EntryTrimmed("", text);
    TrimTrimmed(text);
    TrimBefore(text);
    SplitsAt("= " + text, 0, "", " " + text);
  }

  lemma KeyedEntry(k: string, text: string)
    requires PlainKey(k) && k != "" && text != "" && Trimmed(text)
    ensures ParseLine(Entry(k, text)) == Some((k, DecodeStr(text)))
    ensures Trim(Entry(k, text)) != "" && Trim(Entry(k, text))[0] != '['
  {
    EntryTrimmed(k, text);
    TrimTrimmed(k);
    TrimTrimmed(text);
    TrimBefore(text);
    TrimMore(k, ' ');
    EntrySplits(k, text);
  }

  lemma EntrySplits(k: string, text: string)
    requires PlainKey(k)
    ensures var e := Entry(k, text); var n := Find(e, '=');
            n == |k| + 1 < |e| && e[..n] == k + " " && e[n + 1..] == " " + text
  {
    assert Entry(k, text) == (k + " ") + "=" + (" " + text);
    SplitsAt(Entry(k, text), |k| + 1, k + " ", " " + text);
  }

  // The first equals sign, and what is on its two sides.
  lemma SplitsAt(line: string, n: nat, left: string, right: string)
    requires line == left + "=" + right && n == |left| && '=' !in left
    ensures Find(line, '=') == n < |line| && line[..n] == left && line[n + 1..] == right
  {
    FoundAt(line, n, '=');
  }

  lemma EntryTrimmed(k: string, text: string)
    requires PlainKey(k) && text != "" && Trimmed(text)
    ensures Trim(Entry(k, text)) == if k == "" then "= " + text else Entry(k, text)
  {
    var e := Entry(k, text);
    if k == "" {
      assert e == " " + ("= " + text);
      TrimBefore("= " + text);
      TrimTrimmed("= " + text);
    } else {
      assert e[0] == k[0] && e[|e| - 1] == text[|text| - 1];
      TrimTrimmed(e);
    }
  }

  // And only plain keys ever come out of a line without a break in it.
  lemma ParsedKeyPlain(raw: string)
    requires '\n' !in raw
    ensures ParseLine(raw).Some? ==> PlainKey(ParseLine(raw).value.0)
  {
    var line := Trim(raw);
    TrimInside(raw);
    if line != "" {
      var left := line[..Find(line, '=')];
      TrimInside(left);
      TrimTrimmed(left);
      TrimTrimmed(raw);
      TrimKeepsHead(left);
    }
  }

  lemma TrimKeepsHead(s: string)
    requires s != "" ==> !IsSpace(s[0])
    ensures Trim(s) != "" ==> Trim(s)[0] == s[0]
  {
    TrimEndIs(s);
  }

  lemma {:induction false} TrimStartInside(s: string)
    ensures forall c :: c in TrimStart(s) ==> c in s
  {
    if s != "" && IsSpace(s[0]) { TrimStartInside(s[1..]); }
  }

  lemma TrimInside(s: string)
    ensures forall c :: c in Trim(s) ==> c in s
  {
    TrimStartInside(s);
    TrimEndIs(TrimStart(s));
  }
}
