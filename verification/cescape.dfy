/** `_c_escape_bytes`: the body of a C string literal, read back under C's longest-match escapes. */
module CEscape {
  import opened Json

  type Byte = x: int | 0 <= x < 256

  // ----- writing -----

  predicate OctalDigit(x: int) { 48 <= x <= 55 }

  predicate HexDigit(x: int) { 48 <= x <= 57 || 65 <= x <= 70 || 97 <= x <= 102 }

  function Digit(n: int): (c: char)
    requires 0 <= n < 16
    ensures HexDigit(c as int)
  {
    "0123456789abcdef"[n]
  }

  /** The named escapes: the byte's letter after the backslash. */
  function NamedEscape(b: Byte): Option<char> {
    match b
    case 7 => Some('a')
    case 8 => Some('b')
    case 9 => Some('t')
    case 10 => Some('n')
    case 11 => Some('v')
    case 12 => Some('f')
    case 13 => Some('r')
    case 34 => Some('"')
    case 92 => Some('\\')
    case _ => None
  }

  /** One byte, given the byte after it: the branch that keeps the escape unambiguous. */
  function EscapeByte(b: Byte, following: Option<Byte>): string {
    if NamedEscape(b).Some? then ['\\', NamedEscape(b).value]
    else if 0x20 <= b < 0x7F then [b as char]
    else if b == 0 then
      if following.Some? && OctalDigit(following.value) then "\\000" else "\\0"
    else if following.Some? && HexDigit(following.value) then
      ['\\', Digit(b / 64), Digit(b / 8 % 8), Digit(b % 8)]
    else ['\\', 'x', Digit(b / 16), Digit(b % 16)]
  }

  /** Which bytes are spelled how: printable ASCII stands for itself, quote and backslash apart; the control characters C has
      a letter for, those two and a null no octal digit follows are two characters; any other byte is four. */
  lemma SpelledShortest(b: Byte, following: Option<Byte>)
    ensures var text, octal := EscapeByte(b, following), following.Some? && '0' as int <= following.value <= '7' as int;
            && (|text| == 1 <==> ' ' as int <= b <= '~' as int && b != '"' as int && b != '\\' as int)
            && (|text| == 1 ==> text == [b as char])
            && (|text| == 2 <==> 7 <= b <= 13 || b == '"' as int || b == '\\' as int || (b == 0 && !octal))
            && |text| in {1, 2, 4} && (|text| > 1 ==> text[0] == '\\')
  {
  }

  function Next(data: seq<Byte>, k: int): Option<Byte>
    requires 0 <= k < |data|
  {
    if k + 1 < |data| then Some(data[k + 1]) else None
  }

  function Escape(data: seq<Byte>): string {
    if data == [] then "" else EscapeByte(data[0], Next(data, 0)) + Escape(data[1..])
  }

  lemma {:induction false} EscapeFrom(data: seq<Byte>, k: nat)
    requires k < |data|
    ensures Escape(data[k..]) == EscapeByte(data[k], Next(data, k)) + Escape(data[k + 1..])
  {
    assert data[k..][1..] == data[k + 1..];
    assert Next(data[k..], 0) == Next(data, k);
  }

  /** The append loop. */
  method EscapeBytes(data: seq<Byte>) returns (out: string)
    ensures out == Escape(data)
  {
    out := "";
    for index := 0 to |data|
      invariant out + Escape(data[index..]) == Escape(data)
    {
      EscapeFrom(data, index);
      var following := if index + 1 < |data| then Some(data[index + 1]) else None;
      out := out + EscapeByte(data[index], following);
    }
    assert data[|data|..] == [] && out + "" == out;
  }

  // ----- reading, as a C compiler does -----

  function Value16(c: char): int
    requires HexDigit(c as int)
    ensures 0 <= Value16(c) < 16
  {
    if c <= '9' then c as int - 48 else if c <= 'F' then c as int - 55 else c as int - 87
  }

  /** How many leading characters are octal digits, at most three. */
  function OctalRun(s: string): (n: nat)
    ensures n <= 3 && n <= |s|
    ensures forall k :: 0 <= k < n ==> OctalDigit(s[k] as int)
  {
    if |s| < 1 || !OctalDigit(s[0] as int) then 0
    else if |s| < 2 || !OctalDigit(s[1] as int) then 1
    else if |s| < 3 || !OctalDigit(s[2] as int) then 2
    else 3
  }

  /** How many leading characters are hex digits: as many as there are. */
  function HexRun(s: string): (n: nat)
    ensures n <= |s|
    ensures forall k :: 0 <= k < n ==> HexDigit(s[k] as int)
  {
    if s == "" || !HexDigit(s[0] as int) then 0 else 1 + HexRun(s[1..])
  }

  function Radix(s: string, base: int): int
    requires forall k :: 0 <= k < |s| ==> HexDigit(s[k] as int)
  {
    if s == "" then 0 else Radix(s[..|s| - 1], base) * base + Value16(s[|s| - 1])
  }

  function NamedByte(c: char): Option<Byte> {
    match c
    case 'a' => Some(7)
    case 'b' => Some(8)
    case 't' => Some(9)
    case 'n' => Some(10)
    case 'v' => Some(11)
    case 'f' => Some(12)
    case 'r' => Some(13)
    case '"' => Some(34)
    case '\\' => Some(92)
    case _ => None
  }

  /** One element of a string literal: its byte and its length, or nothing if the literal is broken there:
      a bare quote, a character outside printable ASCII, an unknown escape, or a value over a byte. */
  function ReadOne(s: string): (r: Option<(Byte, nat)>)
    requires s != ""
    ensures r.Some? ==> 1 <= r.value.1 <= |s|
  {
    if s[0] != '\\' then
      if s[0] == '"' || !(0x20 <= s[0] as int < 0x7F) then None else Some((s[0] as int, 1))
    else if |s| == 1 then None
    else if NamedByte(s[1]).Some? then Some((NamedByte(s[1]).value, 2))
    else if s[1] == 'x' then
      var n := HexRun(s[2..]);
      var value := Radix(s[2..][..n], 16);
      if n == 0 || !(0 <= value < 256) then None else Some((value, 2 + n))
    else
      var n := OctalRun(s[1..]);
      var value := Radix(s[1..][..n], 8);
      if n == 0 || !(0 <= value < 256) then None else Some((value, 1 + n))
  }

  function Read(s: string): Option<seq<Byte>>
    decreases |s|
  {
    if s == "" then Some([])
    else
      var one := ReadOne(s);
      if one.None? then None
      else
        var rest := Read(s[one.value.1..]);
        if rest.None? then None else Some([one.value.0] + rest.value)
  }

  // ----- the round trip -----

  predicate Printable(s: string) {
    forall k :: 0 <= k < |s| ==> 0x20 <= s[k] as int < 0x7F
  }

  /** What the text after a byte can start with: the next byte's own character, or a backslash. */
  lemma EscapeStarts(data: seq<Byte>)
    requires data != []
    ensures Escape(data) != ""
    ensures Escape(data)[0] == '\\' || (Escape(data)[0] as int == data[0] && NamedEscape(data[0]).None?)
  {
  }

  lemma RadixOfTwo(s: string, base: int)
    requires |s| == 2 && HexDigit(s[0] as int) && HexDigit(s[1] as int)
    ensures Radix(s, base) == Value16(s[0]) * base + Value16(s[1])
  {
    assert s[..1][..0] == "";
    assert s[..1][0] == s[0];
    assert Radix(s[..1], base) == Value16(s[0]);
  }

  lemma RadixOfThree(s: string)
    requires |s| == 3 && forall k :: 0 <= k < 3 ==> HexDigit(s[k] as int)
    ensures Radix(s, 8) == (Value16(s[0]) * 8 + Value16(s[1])) * 8 + Value16(s[2])
  {
    RadixOfTwo(s[..2], 8);
  }

  lemma DigitReads(n: int)
    requires 0 <= n < 16
    ensures Value16(Digit(n)) == n
    ensures n < 8 ==> OctalDigit(Digit(n) as int)
    ensures NamedByte(Digit(n)).None? || n >= 10
    ensures Digit(n) != 'x'
  {
  }

  lemma HexEscapeReads(b: Byte, tail: string)
    requires tail != "" ==> !HexDigit(tail[0] as int)
    ensures ReadOne(['\\', 'x', Digit(b / 16), Digit(b % 16)] + tail) == Some((b, 4))
  {
    var s := ['\\', 'x', Digit(b / 16), Digit(b % 16)] + tail;
    var body := s[2..];
    assert body[..2] == [Digit(b / 16), Digit(b % 16)] && body[2..] == tail;
    assert HexRun(body[2..]) == 0 && body[1..][1..] == body[2..];
    assert HexRun(body) == 1 + HexRun(body[1..]);
    DigitReads(b / 16);
    DigitReads(b % 16);
    RadixOfTwo(body[..2], 16);
  }

  lemma OctalDigits(b: Byte)
    ensures 0 <= b / 64 < 8 && 0 <= b / 8 % 8 < 8 && 0 <= b % 8 < 8
    ensures (b / 64 * 8 + b / 8 % 8) * 8 + b % 8 == b
  {
  }

  lemma OctalEscapeReads(b: Byte, tail: string)
    ensures ReadOne(['\\', Digit(b / 64), Digit(b / 8 % 8), Digit(b % 8)] + tail) == Some((b, 4))
  {
    OctalDigits(b);
    OctalTripleReads(b / 64, b / 8 % 8, b % 8, tail);
  }

  lemma OctalTripleReads(x: int, y: int, z: int, tail: string)
    requires 0 <= x < 8 && 0 <= y < 8 && 0 <= z < 8 && (x * 8 + y) * 8 + z < 256
    ensures ReadOne(['\\', Digit(x), Digit(y), Digit(z)] + tail) == Some(((x * 8 + y) * 8 + z, 4))
  {
    var s := ['\\', Digit(x), Digit(y), Digit(z)] + tail;
    var body := s[1..];
    DigitReads(x);
    DigitReads(y);
    DigitReads(z);
    assert body[0] == Digit(x) && body[1] == Digit(y) && body[2] == Digit(z);
    assert OctalRun(body) == 3;
    assert body[..3] == [Digit(x), Digit(y), Digit(z)];
    RadixOfThree(body[..3]);
  }

  lemma NulReads(tail: string)
    requires tail != "" ==> !OctalDigit(tail[0] as int)
    ensures ReadOne("\\0" + tail) == Some((0, 2))
  {
    var body := ("\\0" + tail)[1..];
    assert body == ['0'] + tail;
    assert OctalRun(body) == 1 && body[..1] == ['0'];
    assert Radix(['0'], 8) == Radix(['0'][..0], 8) * 8 + 0;
    assert ['0'][..0] == "";
  }

  lemma ShortReads(b: Byte, tail: string)
    requires NamedEscape(b).Some? || 0x20 <= b < 0x7F
    ensures ReadOne(EscapeByte(b, None) + tail) == Some((b, |EscapeByte(b, None)|))
  {
    var s := EscapeByte(b, None) + tail;
    if NamedEscape(b).Some? {
      assert s[0] == '\\' && s[1] == NamedEscape(b).value;
    } else {
      assert s[0] == b as char && b != 34 && b != 92;
    }
  }

  /** Each escape reads back as its byte, whatever the bytes after it. */
  lemma ByteReads(b: Byte, following: Option<Byte>, tail: string)
    requires tail == "" || tail[0] == '\\' || (following.Some? && tail[0] as int == following.value)
    requires following.None? ==> tail == ""
    ensures ReadOne(EscapeByte(b, following) + tail) == Some((b, |EscapeByte(b, following)|))
  {
    if NamedEscape(b).Some? || 0x20 <= b < 0x7F {
      ShortReads(b, tail);
    } else if b == 0 {
      if following.Some? && OctalDigit(following.value) {
        assert EscapeByte(b, following) == ['\\', Digit(0), Digit(0), Digit(0)];
        OctalTripleReads(0, 0, 0, tail);
      } else {
        NulReads(tail);
      }
    } else if following.Some? && HexDigit(following.value) {
      OctalEscapeReads(b, tail);
    } else {
      HexEscapeReads(b, tail);
    }
  }

  /** Any bytes at all come back: the literal is well formed (so no bare quote and nothing unprintable) and
      every escape in it stands for exactly its own byte. */
  lemma EscapeRoundTrips(data: seq<Byte>)
    ensures Read(Escape(data)) == Some(data)
    ensures Printable(Escape(data))
  {
    EscapeReads(data);
    EscapePrints(data);
  }

  lemma {:induction false} EscapePrints(data: seq<Byte>)
    ensures Printable(Escape(data))
    decreases |data|
  {
    if data != [] {
      EscapePrints(data[1..]);
      HeadPrintable(data[0], Next(data, 0));
      PrintableBoth(EscapeByte(data[0], Next(data, 0)), Escape(data[1..]));
    }
  }

  lemma {:induction false} EscapeReads(data: seq<Byte>)
    ensures Read(Escape(data)) == Some(data)
    decreases |data|
  {
    if data != [] {
      EscapeReads(data[1..]);
      HeadReads(data);
      ReadPrepends(EscapeByte(data[0], Next(data, 0)), Escape(data[1..]), data[0], data[1..]);
      assert [data[0]] + data[1..] == data;
    }
  }

  lemma HeadReads(data: seq<Byte>)
    requires data != []
    ensures var head := EscapeByte(data[0], Next(data, 0));
            head != "" && ReadOne(head + Escape(data[1..])) == Some((data[0], |head|))
  {
    if |data| > 1 {
      EscapeStarts(data[1..]);
    }
    ByteReads(data[0], Next(data, 0), Escape(data[1..]));
  }

  lemma PrintableBoth(a: string, b: string)
    requires Printable(a) && Printable(b)
    ensures Printable(a + b)
  {
  }

  lemma HeadPrintable(b: Byte, following: Option<Byte>)
    ensures Printable(EscapeByte(b, following))
  {
  }

  lemma ReadPrepends(head: string, tail: string, b: Byte, rest: seq<Byte>)
    requires head != "" && ReadOne(head + tail) == Some((b, |head|)) && Read(tail) == Some(rest)
    ensures Read(head + tail) == Some([b] + rest)
  {
    assert (head + tail)[|head|..] == tail;
  }

  // ----- the escaped read, 64 bytes a line -----

  const LINE_BYTES := 64

  function Lines(data: seq<Byte>): seq<string>
    decreases |data|
  {
    if data == [] then []
    else if |data| <= LINE_BYTES then [Escape(data)]
    else [Escape(data[..LINE_BYTES])] + Lines(data[LINE_BYTES..])
  }

  /** The literals of `_render_read_escaped_text`, one line at a time by offset. */
  method EscapedLines(data: seq<Byte>) returns (lines: seq<string>)
    ensures lines == Lines(data)
  {
    lines := [];
    var offset := 0;
    while offset < |data|
      invariant 0 <= offset <= |data|
      invariant lines + Lines(data[offset..]) == Lines(data)
    {
      var stop := if offset + LINE_BYTES < |data| then offset + LINE_BYTES else |data|;
      var line := EscapeBytes(data[offset..stop]);
      LinesAt(data, offset, stop);
      Regroup(lines, [line], Lines(data[stop..]));
      lines, offset := lines + [line], stop;
    }
    assert data[offset..] == [] && lines + [] == lines;
  }

  lemma LinesAt(data: seq<Byte>, offset: nat, stop: nat)
    requires offset < |data| && stop == if offset + LINE_BYTES < |data| then offset + LINE_BYTES else |data|
    ensures Lines(data[offset..]) == [Escape(data[offset..stop])] + Lines(data[stop..])
  {
    assert data[offset..][..stop - offset] == data[offset..stop];
    assert data[offset..][stop - offset..] == data[stop..];
    LinesFrom(data[offset..], stop - offset);
  }

  lemma LinesFrom(data: seq<Byte>, n: nat)
    requires data != [] && n == (if LINE_BYTES < |data| then LINE_BYTES else |data|)
    ensures Lines(data) == [Escape(data[..n])] + Lines(data[n..])
  {
    if |data| <= LINE_BYTES {
      assert data[..n] == data && data[n..] == [];
    }
  }

  function ReadAll(lines: seq<string>): Option<seq<Byte>> {
    if lines == [] then Some([])
    else
      var first, rest := Read(lines[0]), ReadAll(lines[1..]);
      if first.None? || rest.None? then None else Some(first.value + rest.value)
  }

  /** The lines of an escaped read, read back one by one, make up the whole payload. */
  lemma {:induction false} LinesRoundTrip(data: seq<Byte>)
    ensures ReadAll(Lines(data)) == Some(data)
    ensures forall k :: 0 <= k < |Lines(data)| ==> Printable(Lines(data)[k])
    decreases |data|
  {
    if data == [] {
    } else if |data| <= LINE_BYTES {
      EscapeRoundTrips(data);
      assert Lines(data)[1..] == [];
      assert data + [] == data;
    } else {
      EscapeRoundTrips(data[..LINE_BYTES]);
      LinesRoundTrip(data[LINE_BYTES..]);
      assert Lines(data)[1..] == Lines(data[LINE_BYTES..]);
      assert data[..LINE_BYTES] + data[LINE_BYTES..] == data;
    }
  }
}
