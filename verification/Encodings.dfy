/** Octets. */
module Octets {
  type Octet = x: int | 0 <= x < 256

  type Bytes = seq<Octet>
}

/** UTF-8, RFC 3629, with a strict decoder: no overlong form, no surrogate, nothing above U+10FFFF. */
module Utf8 {
  import opened Wrappers
  import opened Octets

  function EncodeChar(ch: char): Bytes {
    var c := ch as int;
    if c < 0x80 then [c]
    else if c < 0x800 then [0xC0 + c / 64, 0x80 + c % 64]
    else if c < 0x1_0000 then [0xE0 + c / 64 / 64, 0x80 + c / 64 % 64, 0x80 + c % 64]
    else [0xF0 + c / 64 / 64 / 64, 0x80 + c / 64 / 64 % 64, 0x80 + c / 64 % 64, 0x80 + c % 64]
  }

  function Encode(s: string): Bytes {
    if s == "" then [] else EncodeChar(s[0]) + Encode(s[1..])
  }

  predicate Trail(x: Octet) {
    0x80 <= x < 0xC0
  }

  /** How many octets the lead octet announces; 0 for one that cannot lead. */
  function LengthOf(lead: Octet): nat {
    if lead < 0x80 then 1 else if lead < 0xC0 then 0 else if lead < 0xE0 then 2 else if lead < 0xF0 then 3
    else if lead < 0xF8 then 4 else 0
  }

  /** What an octet carries beyond the marker bits its place calls for. */
  function Bits(b: Bytes, i: nat, marker: int): int
    requires i < |b|
  {
    var octet: int := b[i];
    octet - marker
  }

  /** The code point spelt by a whole sequence of `n` octets. */
  function CodePoint(b: Bytes, n: nat): int
    requires 1 <= n <= 4 && n <= |b|
  {
    match n
    case 1 => b[0]
    case 2 => Bits(b, 0, 0xC0) * 64 + Bits(b, 1, 0x80)
    case 3 => (Bits(b, 0, 0xE0) * 64 + Bits(b, 1, 0x80)) * 64 + Bits(b, 2, 0x80)
    case _ => ((Bits(b, 0, 0xF0) * 64 + Bits(b, 1, 0x80)) * 64 + Bits(b, 2, 0x80)) * 64 + Bits(b, 3, 0x80)
  }

  function Smallest(n: nat): int {
    if n == 1 then 0 else if n == 2 then 0x80 else if n == 3 then 0x800 else 0x1_0000
  }

  function DecodeChar(b: Bytes): (r: Option<(char, nat)>)
    requires b != []
    ensures r.Some? ==> 1 <= r.value.1 <= |b|
  {
    var n := LengthOf(b[0]);
    if n == 0 || n > |b| || !(forall i :: 1 <= i < n ==> Trail(b[i])) then None
    else
      var c := CodePoint(b, n);
      if c < Smallest(n) || 0xD800 <= c < 0xE000 || c >= 0x11_0000 then None else Some((c as char, n))
  }

  function Decode(b: Bytes): Option<string> {
    if b == [] then Some("")
    else
      match DecodeChar(b)
      case None => None
      case Some((c, n)) =>
        match Decode(b[n..])
        case None => None
        case Some(s) => Some([c] + s)
  }

  lemma CodePointOfEncoding(c: char)
    ensures var e := EncodeChar(c);
            && 1 <= |e| <= 4 && LengthOf(e[0]) == |e| && CodePoint(e, |e|) == c as int && c as int >= Smallest(|e|)
            && forall i :: 1 <= i < |e| ==> Trail(e[i])
  {
    var n := c as int;
    Divided(n);
    Divided(n / 64);
    Divided(n / 64 / 64);
  }

  lemma Divided(n: nat)
    ensures n == n / 64 * 64 + n % 64 && 0 <= n % 64 < 64
  {
  }

  lemma CodePointOfPrefix(b: Bytes, e: Bytes, n: nat)
    requires 1 <= n <= 4 && |e| == n && e <= b
    ensures CodePoint(b, n) == CodePoint(e, n) && forall i :: 0 <= i < n ==> b[i] == e[i]
  {
  }

  lemma CharRoundTrip(c: char, rest: Bytes)
    ensures DecodeChar(EncodeChar(c) + rest) == Some((c, |EncodeChar(c)|))
  {
    var e := EncodeChar(c);
    CodePointOfEncoding(c);
    CodePointOfPrefix(e + rest, e, |e|);
    assert (c as int) as char == c;
  }

  lemma {:induction false} DecodeEncode(s: string)
    ensures Decode(Encode(s)) == Some(s)
    decreases |s|
  {
    if s != "" {
      var e, rest := EncodeChar(s[0]), Encode(s[1..]);
      CharRoundTrip(s[0], rest);
      assert (e + rest)[|e|..] == rest;
      DecodeEncode(s[1..]);
      assert [s[0]] + s[1..] == s;
    }
  }

  lemma Recombined(high: nat, low: nat)
    requires low < 64
    ensures (high * 64 + low) / 64 == high && (high * 64 + low) % 64 == low
  {
  }

  lemma CharCanonical(b: Bytes)
    requires b != [] && DecodeChar(b).Some?
    ensures EncodeChar(DecodeChar(b).value.0) == b[..DecodeChar(b).value.1]
  {
    var n := LengthOf(b[0]);
    match n {
      case 1 =>
      case 2 =>
        Recombined(Bits(b, 0, 0xC0), Bits(b, 1, 0x80));
      case 3 =>
        var high := Bits(b, 0, 0xE0);
        Recombined(high, Bits(b, 1, 0x80));
        Recombined(high * 64 + Bits(b, 1, 0x80), Bits(b, 2, 0x80));
      case _ =>
        var high := Bits(b, 0, 0xF0);
        var mid := high * 64 + Bits(b, 1, 0x80);
        Recombined(high, Bits(b, 1, 0x80));
        Recombined(mid, Bits(b, 2, 0x80));
        Recombined(mid * 64 + Bits(b, 2, 0x80), Bits(b, 3, 0x80));
    }
  }

  lemma EncodeCons(c: char, s: string)
    ensures Encode([c] + s) == EncodeChar(c) + Encode(s)
  {
    assert ([c] + s)[1..] == s;
  }

  lemma Reassembled(b: Bytes, n: nat, head: Bytes, tail: Bytes)
    requires n <= |b| && head == b[..n] && tail == b[n..]
    ensures head + tail == b
  {
  }

  lemma EncodeDecodeStep(b: Bytes, c: char, n: nat, s: string)
    requires b != [] && DecodeChar(b) == Some((c, n)) && Encode(s) == b[n..]
    ensures Encode([c] + s) == b
  {
    CharCanonical(b);
    EncodeCons(c, s);
    Reassembled(b, n, EncodeChar(c), Encode(s));
  }

  /** One character of each length: U+0024, U+00A3, U+20AC and U+10348. */
  lemma EncodeExamples()
    ensures Encode(['$']) == [0x24]
    ensures Encode(['\U{A3}']) == [0xC2, 0xA3]
    ensures Encode(['\U{20AC}']) == [0xE2, 0x82, 0xAC]
    ensures Encode(['\U{10348}']) == [0xF0, 0x90, 0x8D, 0x88]
  {
    assert forall c: char :: [c][1..] == "" && Encode([c]) == EncodeChar(c) + Encode("");
  }

  /** Only the encoding of a text decodes to it. */
  lemma {:induction false} EncodeDecode(b: Bytes)
    requires Decode(b).Some?
    ensures Encode(Decode(b).value) == b
    decreases |b|
  {
    if b != [] {
      var (c, n) := DecodeChar(b).value;
      EncodeDecode(b[n..]);
      EncodeDecodeStep(b, c, n, Decode(b[n..]).value);
    }
  }
}

/** base64url, section 5 of RFC 4648, and the lenient reader of Python's standard library. */
module Base64 {
  import opened Wrappers
  import opened Octets

  type Sextet = x: int | 0 <= x < 64

  function Letter(v: Sextet): char {
    if v < 26 then ('A' as int + v) as char
    else if v < 52 then ('a' as int + v - 26) as char
    else if v < 62 then ('0' as int + v - 52) as char
    else if v == 62 then '-' else '_'
  }

  /** Both alphabets read; any other character has no value. */
  function Value(c: char): Option<Sextet> {
    if 'A' <= c <= 'Z' then Some(c as int - 'A' as int)
    else if 'a' <= c <= 'z' then Some(c as int - 'a' as int + 26)
    else if '0' <= c <= '9' then Some(c as int - '0' as int + 52)
    else if c == '-' || c == '+' then Some(62)
    else if c == '_' || c == '/' then Some(63)
    else None
  }

  function Four(a: char, b: char, c: char, d: char, rest: string): string {
    [a] + ([b] + ([c] + ([d] + rest)))
  }

  /** `urlsafe_b64encode`: three octets to four letters, padded. */
  function Encode(b: Bytes): string {
    if b == [] then ""
    else if |b| == 1 then Four(Letter(b[0] / 4), Letter(b[0] % 4 * 16), '=', '=', "")
    else if |b| == 2 then Four(Letter(b[0] / 4), Letter(b[0] % 4 * 16 + b[1] / 16), Letter(b[1] % 16 * 4), '=', "")
    else
      Four(Letter(b[0] / 4), Letter(b[0] % 4 * 16 + b[1] / 16), Letter(b[1] % 16 * 4 + b[2] / 64), Letter(b[2] % 64),
           Encode(b[3..]))
  }

  /** The reader: its place in the group of four, the bits carried over, the octets out, the run of padding. */
  datatype Scan = Scan(pos: nat, left: nat, out: Bytes, pads: nat, done: bool)

  const STARTED := Scan(0, 0, [], 0, false)

  predicate WellFormed(d: Scan) {
    && d.pos < 4
    && (d.pos == 0 ==> d.left == 0)
    && d.left < (if d.pos == 1 then 64 else if d.pos == 2 then 16 else if d.pos == 3 then 4 else 1)
  }

  function Take(d: Scan, v: Sextet): Scan
    requires WellFormed(d)
    ensures WellFormed(Take(d, v))
  {
    match d.pos
    case 0 => d.(pos := 1, left := v, pads := 0)
    case 1 => d.(pos := 2, left := v % 16, out := d.out + [d.left * 4 + v / 16], pads := 0)
    case 2 => d.(pos := 3, left := v % 4, out := d.out + [d.left * 16 + v / 4], pads := 0)
    case _ => d.(pos := 0, left := 0, out := d.out + [d.left * 64 + v], pads := 0)
  }

  /** One character: padding ends the text once the group is complete, strangers are skipped. */
  function Step(d: Scan, c: char): Scan
    requires WellFormed(d)
    ensures WellFormed(Step(d, c))
  {
    if d.done then d
    else if c == '=' then
      if d.pos >= 2 then d.(pads := d.pads + 1, done := d.pos + d.pads + 1 >= 4) else d
    else
      match Value(c)
      case None => d
      case Some(v) => Take(d, v)
  }

  function Read(d: Scan, s: string): Scan
    requires WellFormed(d)
    ensures WellFormed(Read(d, s))
    decreases |s|, d
  {
    if s == "" then d else Read(Step(d, s[0]), s[1..])
  }

  predicate Ascii(s: string) {
    forall i :: 0 <= i < |s| ==> (s[i] as int) < 128
  }

  /** `urlsafe_b64decode` of a text: refused outright unless it is ASCII, then read leniently. */
  function Decode(s: string): Result<Bytes, string> {
    if !Ascii(s) then Err("string argument should contain only ASCII characters")
    else
      var d := Read(STARTED, s);
      if d.done || d.pos == 0 then Ok(d.out) else Err("Incorrect padding")
  }

  lemma {:induction false} EncodeAscii(b: Bytes)
    ensures Ascii(Encode(b))
    decreases |b|
  {
    if |b| >= 3 {
      EncodeAscii(b[3..]);
    }
  }

  lemma ReadCons(d: Scan, c: char, rest: string)
    requires WellFormed(d)
    ensures Read(d, [c] + rest) == Read(Step(d, c), rest)
  {
    assert ([c] + rest)[1..] == rest;
  }

  lemma LetterValue(v: Sextet)
    ensures Value(Letter(v)) == Some(v) && Letter(v) != '='
  {
  }

  lemma ReadLetter(d: Scan, v: Sextet, rest: string)
    requires WellFormed(d) && !d.done
    ensures Read(d, [Letter(v)] + rest) == Read(Take(d, v), rest)
  {
    LetterValue(v);
    assert Step(d, Letter(v)) == Take(d, v);
    ReadCons(d, Letter(v), rest);
  }

  predicate Fresh(d: Scan) {
    d.pos == 0 && d.left == 0 && d.pads == 0 && !d.done
  }

  lemma ReadTwo(d: Scan, v: Sextet, w: Sextet, rest: string)
    requires WellFormed(d) && !d.done
    ensures Read(d, [Letter(v)] + ([Letter(w)] + rest)) == Read(Take(Take(d, v), w), rest)
  {
    ReadLetter(d, v, [Letter(w)] + rest);
    ReadLetter(Take(d, v), w, rest);
  }

  function TakeTwo(s: Scan, v: Sextet, w: Sextet): Scan
    requires WellFormed(s)
  {
    Take(Take(s, v), w)
  }

  lemma TakeGroup(s: Scan, x: Octet, y: Octet, z: Octet)
    requires Fresh(s) && WellFormed(s)
    ensures TakeTwo(TakeTwo(s, x / 4, x % 4 * 16 + y / 16), y % 16 * 4 + z / 64, z % 64) == s.(out := s.out + [x, y, z])
  {
    assert s.out + [x] + [y] + [z] == s.out + [x, y, z];
  }

  lemma GroupReads(s: Scan, x: Octet, y: Octet, z: Octet, rest: string)
    requires Fresh(s)
    ensures Read(s, Four(Letter(x / 4), Letter(x % 4 * 16 + y / 16), Letter(y % 16 * 4 + z / 64), Letter(z % 64), rest))
         == Read(s.(out := s.out + [x, y, z]), rest)
  {
    var a, b, c, d := x / 4, x % 4 * 16 + y / 16, y % 16 * 4 + z / 64, z % 64;
    ReadTwo(s, a, b, [Letter(c)] + ([Letter(d)] + rest));
    ReadTwo(TakeTwo(s, a, b), c, d, rest);
    TakeGroup(s, x, y, z);
  }

  lemma ReadPad(d: Scan, rest: string)
    requires WellFormed(d) && !d.done && d.pos >= 2 && d.pads == 0
    ensures d.pos == 3 ==> Read(d, ['='] + rest) == Read(d.(pads := 1, done := true), rest)
    ensures Read(d.(pads := 1), ['='] + rest) == Read(d.(pads := 2, done := true), rest)
    ensures d.pos == 2 ==> Read(d, ['='] + rest) == Read(d.(pads := 1), rest)
  {
    ReadCons(d, '=', rest);
    ReadCons(d.(pads := 1), '=', rest);
  }

  lemma OneReads(s: Scan, x: Octet)
    requires Fresh(s)
    ensures var f := Read(s, Four(Letter(x / 4), Letter(x % 4 * 16), '=', '=', "")); f.done && f.out == s.out + [x]
  {
    ReadTwo(s, x / 4, x % 4 * 16, ['='] + (['='] + ""));
    var s2 := TakeTwo(s, x / 4, x % 4 * 16);
    ReadPad(s2, ['='] + "");
    ReadPad(s2, "");
  }

  lemma TakeThree(s: Scan, x: Octet, y: Octet)
    requires Fresh(s) && WellFormed(s)
    ensures var f := Take(TakeTwo(s, x / 4, x % 4 * 16 + y / 16), y % 16 * 4);
            f.out == s.out + [x, y] && f.pos == 3 && f.pads == 0 && !f.done
  {
    assert s.out + [x] + [y] == s.out + [x, y];
  }

  lemma TwoRead(s: Scan, x: Octet, y: Octet)
    requires Fresh(s)
    ensures var f := Read(s, Four(Letter(x / 4), Letter(x % 4 * 16 + y / 16), Letter(y % 16 * 4), '=', ""));
            f.done && f.out == s.out + [x, y]
  {
    var a, b, c := x / 4, x % 4 * 16 + y / 16, y % 16 * 4;
    ReadTwo(s, a, b, [Letter(c)] + (['='] + ""));
    var s2 := TakeTwo(s, a, b);
    ReadLetter(s2, c, ['='] + "");
    TakeThree(s, x, y);
    ReadPad(Take(s2, c), "");
  }

  /** The scan has taken in these octets and may stop. */
  predicate Took(s: Scan, f: Scan, b: Bytes) {
    f.out == s.out + b && (f.done || f.pos == 0)
  }

  lemma EncodeGroup(x: Octet, y: Octet, z: Octet, rest: Bytes)
    ensures Encode([x, y, z] + rest)
         == Four(Letter(x / 4), Letter(x % 4 * 16 + y / 16), Letter(y % 16 * 4 + z / 64), Letter(z % 64), Encode(rest))
  {
    var b := [x, y, z] + rest;
    assert b[0] == x && b[1] == y && b[2] == z && b[3..] == rest;
  }

  lemma GroupThenRest(s: Scan, x: Octet, y: Octet, z: Octet, rest: Bytes)
    requires Fresh(s)
    ensures Read(s, Encode([x, y, z] + rest)) == Read(s.(out := s.out + [x, y, z]), Encode(rest))
  {
    EncodeGroup(x, y, z, rest);
    GroupReads(s, x, y, z, Encode(rest));
  }

  lemma Reassociate(a: Bytes, b: Bytes, c: Bytes)
    ensures a + b + c == a + (b + c)
  {
  }

  lemma {:induction false} ReadBack(s: Scan, b: Bytes)
    requires Fresh(s)
    ensures Took(s, Read(s, Encode(b)), b)
    decreases |b|
  {
    if b == [] {
    } else if |b| == 1 {
      OneReads(s, b[0]);
      assert [b[0]] == b;
    } else if |b| == 2 {
      TwoRead(s, b[0], b[1]);
      assert [b[0], b[1]] == b;
    } else {
      var group := [b[0], b[1], b[2]];
      ReadBack(s.(out := s.out + group), b[3..]);
      GroupThenRest(s, b[0], b[1], b[2], b[3..]);
      Reassociate(s.out, group, b[3..]);
      assert group + b[3..] == b;
    }
  }

  /** Table 2 of RFC 4648: capitals, small letters and digits in order, then the hyphen and the underscore. */
  lemma LetterTable(v: Sextet)
    ensures Letter(0) == 'A' && Letter(25) == 'Z' && Letter(26) == 'a' && Letter(51) == 'z'
    ensures Letter(52) == '0' && Letter(61) == '9' && Letter(62) == '-' && Letter(63) == '_'
    ensures v !in {25, 51, 61, 62, 63} ==> Letter(v + 1) as int == Letter(v) as int + 1
  {
  }

  /** The last letters of the alphabet, and both paddings. */
  lemma EncodeExamples()
    ensures Encode([0xFB, 0xEF, 0xFF]) == "--__"
    ensures Encode([0x66]) == "Zg==" && Encode([0x66, 0x6F]) == "Zm8=" && Encode([0x66, 0x6F, 0x6F]) == "Zm9v"
  {
  }

  /** Every octet string survives the trip. */
  lemma DecodeEncode(b: Bytes)
    ensures Decode(Encode(b)) == Ok(b)
  {
    EncodeAscii(b);
    ReadBack(STARTED, b);
    assert [] + b == b;
  }
}
