/** The text form in which the DLQ keeps raw Kafka bytes, and how replay gets the bytes back. */
module RawBytes {
  import opened Basics

  type byte = x: int | 0 <= x < 256

  // ------------------------------------------------------ UTF-8, section 3 of RFC 3629

  function EncodeChar(c: char): (b: seq<byte>)
    ensures 1 <= |b| <= 4
  {
    var n := c as int;
    if n < 0x80 then [n]
    else if n < 0x800 then [0xC0 + n / 64, 0x80 + n % 64]
    else if n < 0x1_0000 then [0xE0 + n / 4096, 0x80 + n / 64 % 64, 0x80 + n % 64]
    else [0xF0 + n / 262144, 0x80 + n / 4096 % 64, 0x80 + n / 64 % 64, 0x80 + n % 64]
  }

  function Encode(s: string): (b: seq<byte>)
    ensures |b| >= |s|
  {
    if s == "" then [] else EncodeChar(s[0]) + Encode(s[1..])
  }

  predicate Trails(b: byte) {
    0x80 <= b < 0xC0
  }

  /** The scalar value encoded at the front and its length. Overlong forms, surrogates and values beyond 10FFFF are
      not UTF-8. */
  function DecodeChar(b: seq<byte>): (r: Option<(char, nat)>)
    requires b != []
    ensures r.Some? ==> 1 <= r.value.1 <= |b|
  {
    if b[0] < 0x80 then Some((b[0] as char, 1))
    else if 0xC0 <= b[0] < 0xE0 && |b| >= 2 && Trails(b[1]) then
      Scalar((b[0] as int - 0xC0) * 64 + (b[1] as int - 0x80), 0x80, 2)
    else if 0xE0 <= b[0] < 0xF0 && |b| >= 3 && Trails(b[1]) && Trails(b[2]) then
      Scalar((b[0] as int - 0xE0) * 4096 + (b[1] as int - 0x80) * 64 + (b[2] as int - 0x80), 0x800, 3)
    else if 0xF0 <= b[0] < 0xF8 && |b| >= 4 && Trails(b[1]) && Trails(b[2]) && Trails(b[3]) then
      Scalar((b[0] as int - 0xF0) * 262144 + (b[1] as int - 0x80) * 4096 + (b[2] as int - 0x80) * 64 +
             (b[3] as int - 0x80), 0x1_0000, 4)
    else None
  }

  function Scalar(n: nat, least: nat, length: nat): Option<(char, nat)> {
    if n >= least && (n < 0xD800 || 0xE000 <= n < 0x11_0000) then Some((n as char, length)) else None
  }

  /** bytes.decode("utf-8"), strict; None is UnicodeDecodeError. */
  function Decode(b: seq<byte>): Option<string> {
    if b == [] then Some("")
    else
      match DecodeChar(b)
      case None => None
      case Some((c, length)) =>
        var rest := Decode(b[length..]);
        if rest.Some? then Some([c] + rest.value) else None
  }

  /** The groups of six bits of a number, from either side. */
  lemma SixBits(a: nat, b: nat, c: nat, d: nat)
    requires b < 64 && c < 64 && d < 64
    ensures var n := a * 262144 + b * 4096 + c * 64 + d;
            n / 262144 == a && n / 4096 % 64 == b && n / 64 % 64 == c && n % 64 == d
  {
    var n := a * 262144 + b * 4096 + c * 64 + d;
    assert n / 64 == a * 4096 + b * 64 + c;
    assert n / 4096 == a * 64 + b;
  }

  lemma FromSixBits(n: nat)
    ensures n == n / 262144 * 262144 + n / 4096 % 64 * 4096 + n / 64 % 64 * 64 + n % 64
  {
    assert n / 4096 / 64 == n / 262144 && n / 64 / 64 == n / 4096;
  }

  lemma EncodeTwo(a: nat, b: nat, c: char)
    requires a < 32 && b < 64 && c as int == a * 64 + b >= 0x80
    ensures EncodeChar(c) == [0xC0 + a, 0x80 + b]
  {
    SixBits(0, 0, a, b);
  }

  lemma EncodeThree(a: nat, b: nat, d: nat, c: char)
    requires a < 16 && b < 64 && d < 64 && c as int == a * 4096 + b * 64 + d >= 0x800
    ensures EncodeChar(c) == [0xE0 + a, 0x80 + b, 0x80 + d]
  {
    SixBits(0, a, b, d);
    assert c as int / 4096 == a;
  }

  lemma EncodeFour(a: nat, b: nat, d: nat, e: nat, c: char)
    requires a < 8 && b < 64 && d < 64 && e < 64 && c as int == a * 262144 + b * 4096 + d * 64 + e >= 0x1_0000
    ensures EncodeChar(c) == [0xF0 + a, 0x80 + b, 0x80 + d, 0x80 + e]
  {
    SixBits(a, b, d, e);
  }

  /** A decoded character encodes to exactly the bytes it came from. */
  lemma DecodedChar(b: seq<byte>)
    requires b != [] && DecodeChar(b).Some?
    ensures EncodeChar(DecodeChar(b).value.0) == b[..DecodeChar(b).value.1]
  {
    var c := DecodeChar(b).value.0;
    if b[0] < 0x80 {
    } else {
      hide EncodeChar;
      if b[0] < 0xE0 {
        EncodeTwo(b[0] - 0xC0, b[1] - 0x80, c);
      } else if b[0] < 0xF0 {
        EncodeThree(b[0] - 0xE0, b[1] - 0x80, b[2] - 0x80, c);
      } else {
        EncodeFour(b[0] - 0xF0, b[1] - 0x80, b[2] - 0x80, b[3] - 0x80, c);
      }
    }
  }

  lemma EncodedChar(c: char, rest: seq<byte>)
    ensures DecodeChar(EncodeChar(c) + rest) == Some((c, |EncodeChar(c)|))
  {
    if c as int < 0x800 {
      EncodedShort(c, rest);
    } else if c as int < 0x1_0000 {
      EncodedThree(c, rest);
    } else {
      EncodedFour(c, rest);
    }
  }

  lemma EncodedShort(c: char, rest: seq<byte>)
    requires c as int < 0x800
    ensures DecodeChar(EncodeChar(c) + rest) == Some((c, |EncodeChar(c)|))
  {
  }

  lemma EncodedThree(c: char, rest: seq<byte>)
    requires 0x800 <= c as int < 0x1_0000
    ensures DecodeChar(EncodeChar(c) + rest) == Some((c, 3))
  {
    var n := c as int;
    FromSixBits(n);
    assert n / 4096 % 64 == n / 4096 && n / 262144 == 0;
    var b := EncodeChar(c) + rest;
    assert b[0] == 0xE0 + n / 4096 && b[1] == 0x80 + n / 64 % 64 && b[2] == 0x80 + n % 64;
  }

  lemma EncodedFour(c: char, rest: seq<byte>)
    requires c as int >= 0x1_0000
    ensures DecodeChar(EncodeChar(c) + rest) == Some((c, 4))
  {
    var n := c as int;
    FromSixBits(n);
    var b := EncodeChar(c) + rest;
    assert b[0] == 0xF0 + n / 262144 && b[1] == 0x80 + n / 4096 % 64;
    assert b[2] == 0x80 + n / 64 % 64 && b[3] == 0x80 + n % 64;
  }

  /** Strict decoding is injective: the bytes come back. */
  lemma {:induction false} DecodeThenEncode(b: seq<byte>)
    requires Decode(b).Some?
    ensures Encode(Decode(b).value) == b
  {
    hide DecodeChar, EncodeChar;
    if b != [] {
      var (c, length) := DecodeChar(b).value;
      DecodedChar(b);
      DecodeThenEncode(b[length..]);
      assert Decode(b).value[1..] == Decode(b[length..]).value;
      assert b == b[..length] + b[length..];
    }
  }

  /** Every text survives the other way round. */
  lemma {:induction false} EncodeThenDecode(s: string)
    ensures Decode(Encode(s)) == Some(s)
  {
    hide DecodeChar, EncodeChar;
    if s != "" {
      var b := Encode(s);
      EncodedChar(s[0], Encode(s[1..]));
      EncodeThenDecode(s[1..]);
      assert b[|EncodeChar(s[0])|..] == Encode(s[1..]);
      assert s == [s[0]] + s[1..];
    }
  }

  // ------------------------------------------------------ base64, section 4 of RFC 4648

  function Symbol(n: nat): char
    requires n < 64
  {
    if n < 26 then ('A' as int + n) as char
    else if n < 52 then ('a' as int + (n - 26)) as char
    else if n < 62 then ('0' as int + (n - 52)) as char
    else if n == 62 then '+'
    else '/'
  }

  function ValueOf(c: char): (r: Option<nat>)
    ensures r.Some? ==> r.value < 64
  {
    if 'A' <= c <= 'Z' then Some(c as int - 'A' as int)
    else if 'a' <= c <= 'z' then Some(c as int - 'a' as int + 26)
    else if '0' <= c <= '9' then Some(c as int - '0' as int + 52)
    else if c == '+' then Some(62)
    else if c == '/' then Some(63)
    else None
  }

  /** b64encode: three bytes in four symbols, a short last group padded with '='. */
  function ToBase64(b: seq<byte>): string {
    if |b| == 0 then ""
    else if |b| == 1 then [Symbol(b[0] / 4), Symbol(b[0] % 4 * 16), '=', '=']
    else if |b| == 2 then
      [Symbol(b[0] / 4), Symbol(b[0] % 4 * 16 + b[1] / 16), Symbol(b[1] % 16 * 4), '=']
    else
      [Symbol(b[0] / 4), Symbol(b[0] % 4 * 16 + b[1] / 16), Symbol(b[1] % 16 * 4 + b[2] / 64), Symbol(b[2] % 64)] +
      ToBase64(b[3..])
  }

  datatype Base64Error = NotAscii | BadPadding

  /** b64decode without validation: symbols outside the alphabet are skipped, and padding that completes a group ends
      the input. `left` holds the bits of an unfinished byte, `quad` the position in the group of four. */
  function Scan(text: string, quad: nat, left: nat, pads: nat): (r: Result<seq<byte>, Base64Error>)
    requires quad < 4 && left < 64 && (quad == 2 ==> left < 16) && (quad == 3 ==> left < 4)
    ensures r.Ok? ==> |r.value| <= |text|
  {
    if text == "" then if quad == 0 then Ok([]) else Err(BadPadding)
    else if text[0] == '=' then
      if quad >= 2 && quad + pads + 1 >= 4 then Ok([])
      else Scan(text[1..], quad, left, if quad >= 2 then pads + 1 else pads)
    else
      match ValueOf(text[0])
      case None => Scan(text[1..], quad, left, pads)
      case Some(v) =>
        if quad == 0 then Scan(text[1..], 1, v, 0)
        else if quad == 1 then Prepend(left * 4 + v / 16, Scan(text[1..], 2, v % 16, 0))
        else if quad == 2 then Prepend(left * 16 + v / 4, Scan(text[1..], 3, v % 4, 0))
        else Prepend(left * 64 + v, Scan(text[1..], 0, 0, 0))
  }

  function Prepend(b: byte, rest: Result<seq<byte>, Base64Error>): Result<seq<byte>, Base64Error> {
    if rest.Ok? then Ok([b] + rest.value) else rest
  }

  function FromBase64(text: string): (r: Result<seq<byte>, Base64Error>)
    ensures r.Ok? ==> |r.value| <= |text|
  {
    if exists c :: c in text && c as int >= 128 then Err(NotAscii) else Scan(text, 0, 0, 0)
  }

  lemma SymbolValue(n: nat)
    requires n < 64
    ensures ValueOf(Symbol(n)) == Some(n) && Symbol(n) != '=' && Symbol(n) as int < 128
  {
  }

  /** One symbol, read in any position. */
  lemma ScanSymbol(v: nat, rest: string, quad: nat, left: nat)
    requires v < 64 && quad < 4 && left < 64 && (quad == 2 ==> left < 16) && (quad == 3 ==> left < 4)
    ensures Scan([Symbol(v)] + rest, quad, left, 0) ==
            if quad == 0 then Scan(rest, 1, v, 0)
            else if quad == 1 then Prepend(left * 4 + v / 16, Scan(rest, 2, v % 16, 0))
            else if quad == 2 then Prepend(left * 16 + v / 4, Scan(rest, 3, v % 4, 0))
            else Prepend(left * 64 + v, Scan(rest, 0, 0, 0))
  {
    SymbolValue(v);
    assert ([Symbol(v)] + rest)[1..] == rest;
  }

  /** A full group of four symbols yields three bytes and leaves nothing over. */
  lemma ScanGroup(s1: nat, s2: nat, s3: nat, s4: nat, rest: string)
    requires s1 < 64 && s2 < 64 && s3 < 64 && s4 < 64
    ensures Scan([Symbol(s1), Symbol(s2), Symbol(s3), Symbol(s4)] + rest, 0, 0, 0) ==
            Prepend(s1 * 4 + s2 / 16,
                    Prepend(s2 % 16 * 16 + s3 / 4, Prepend(s3 % 4 * 64 + s4, Scan(rest, 0, 0, 0))))
  {
    hide Symbol, Scan, Prepend;
    var t3 := [Symbol(s4)] + rest;
    var t2 := [Symbol(s3)] + t3;
    var t1 := [Symbol(s2)] + t2;
    assert [Symbol(s1), Symbol(s2), Symbol(s3), Symbol(s4)] + rest == [Symbol(s1)] + t1;
    ScanSymbol(s1, t1, 0, 0);
    ScanSymbol(s2, t2, 1, s1);
    ScanSymbol(s3, t3, 2, s2 % 16);
    ScanSymbol(s4, rest, 3, s3 % 4);
  }

  lemma ScanOnePad(s1: nat, s2: nat, s3: nat)
    requires s1 < 64 && s2 < 64 && s3 < 64
    ensures Scan([Symbol(s1), Symbol(s2), Symbol(s3), '='], 0, 0, 0) == Ok([s1 * 4 + s2 / 16, s2 % 16 * 16 + s3 / 4])
  {
    var t2 := [Symbol(s3)] + "=";
    var t1 := [Symbol(s2)] + t2;
    assert [Symbol(s1), Symbol(s2), Symbol(s3), '='] == [Symbol(s1)] + t1;
    ScanSymbol(s1, t1, 0, 0);
    ScanSymbol(s2, t2, 1, s1);
    ScanSymbol(s3, "=", 2, s2 % 16);
    assert Scan("=", 3, s3 % 4, 0) == Ok([]);
    var x, y := s1 * 4 + s2 / 16, s2 % 16 * 16 + s3 / 4;
    assert [x] + ([y] + []) == [x, y];
  }

  lemma ScanTwoPads(s1: nat, s2: nat)
    requires s1 < 64 && s2 < 64
    ensures Scan([Symbol(s1), Symbol(s2), '=', '='], 0, 0, 0) == Ok([s1 * 4 + s2 / 16])
  {
    var t1 := [Symbol(s2)] + "==";
    assert [Symbol(s1), Symbol(s2), '=', '='] == [Symbol(s1)] + t1;
    ScanSymbol(s1, t1, 0, 0);
    ScanSymbol(s2, "==", 1, s1);
    assert "==" [1..] == "=";
    assert Scan("=", 2, s2 % 16, 1) == Ok([]);
    assert Scan("==", 2, s2 % 16, 0) == Ok([]);
    var x := s1 * 4 + s2 / 16;
    assert [x] + [] == [x];
  }

  /** The four six-bit groups of three bytes, put together again. */
  lemma Regroup(a: byte, b: byte, c: byte)
    ensures var s1, s2, s3, s4 := a / 4, a % 4 * 16 + b / 16, b % 16 * 4 + c / 64, c % 64;
            && s1 < 64 && s2 < 64 && s3 < 64
            && s1 * 4 + s2 / 16 == a && s2 % 16 * 16 + s3 / 4 == b && s3 % 4 * 64 + s4 == c
  {
  }

  lemma GroupRoundTrip(a: byte, b: byte, c: byte, rest: string)
    ensures Scan([Symbol(a / 4), Symbol(a % 4 * 16 + b / 16), Symbol(b % 16 * 4 + c / 64), Symbol(c % 64)] + rest,
                 0, 0, 0)
            == Prepend(a, Prepend(b, Prepend(c, Scan(rest, 0, 0, 0))))
  {
    hide Symbol, Scan, Prepend;
    Regroup(a, b, c);
    ScanGroup(a / 4, a % 4 * 16 + b / 16, b % 16 * 4 + c / 64, c % 64, rest);
  }

  lemma ScanNothing()
    ensures Scan("", 0, 0, 0) == Ok([])
  {
  }

  /** All three padding cases decode to what was encoded. */
  lemma {:induction false} Base64RoundTrip(b: seq<byte>)
    ensures Scan(ToBase64(b), 0, 0, 0) == Ok(b)
  {
    hide Symbol, Scan;
    if |b| == 1 {
      Regroup(b[0], 0, 0);
      ScanTwoPads(b[0] / 4, b[0] % 4 * 16);
      assert b == [b[0]];
    } else if |b| == 2 {
      Regroup(b[0], b[1], 0);
      ScanOnePad(b[0] / 4, b[0] % 4 * 16 + b[1] / 16, b[1] % 16 * 4);
      assert b == [b[0], b[1]];
    } else if |b| == 0 {
      ScanNothing();
    } else {
      Base64RoundTrip(b[3..]);
      GroupRoundTrip(b[0], b[1], b[2], ToBase64(b[3..]));
      assert b == [b[0]] + ([b[1]] + ([b[2]] + b[3..]));
    }
  }

  lemma {:induction false} Base64IsAscii(b: seq<byte>)
    ensures forall c :: c in ToBase64(b) ==> c as int < 128
  {
    if |b| >= 3 { Base64IsAscii(b[3..]); }
  }

  // ---------------------------------------------------------------- the DLQ and back

  const PREFIX := "base64:"

  predicate HasPrefix(text: string) {
    |text| >= 7 && text[..7] == PREFIX
  }

  /** How a rejected record's key or value is stored. */
  function RawText(data: Option<seq<byte>>): Option<string> {
    match data
    case None => None
    case Some(b) => Some(if Decode(b).Some? then Decode(b).value else PREFIX + ToBase64(b))
  }

  /** What replay sends. */
  function Raw(text: Option<string>): Result<Option<seq<byte>>, Base64Error> {
    match text
    case None => Ok(None)
    case Some(t) =>
      if HasPrefix(t) then
        match FromBase64(t[7..])
        case Ok(b) => Ok(Some(b))
        case Err(e) => Err(e)
      else Ok(Some(Encode(t)))
  }

  /** Base64 as section 10 of RFC 4648 spells it, in all three padding cases, and the last two symbols. */
  lemma Base64Vectors()
    ensures ToBase64([]) == "" && ToBase64([0x66]) == "Zg==" && ToBase64([0x66, 0x6F]) == "Zm8="
    ensures ToBase64([0x66, 0x6F, 0x6F] + [0x62]) == "Zm9v" + "Yg=="
    ensures ToBase64([0xFB, 0xEF, 0xFF] + []) == "++//" + ""
  {
    hide ToBase64;
    ShortVectors();
    ToBase64Group(0x66, 0x6F, 0x6F, [0x62]);
    ToBase64Group(0xFB, 0xEF, 0xFF, []);
  }

  lemma ShortVectors()
    ensures ToBase64([]) == "" && ToBase64([0x66]) == "Zg==" && ToBase64([0x66, 0x6F]) == "Zm8="
    ensures ToBase64([0x62]) == "Yg=="
  {
  }

  lemma ToBase64Group(a: byte, b: byte, c: byte, rest: seq<byte>)
    ensures ToBase64([a, b, c] + rest) ==
            [Symbol(a / 4), Symbol(a % 4 * 16 + b / 16), Symbol(b % 16 * 4 + c / 64), Symbol(c % 64)] + ToBase64(rest)
  {
    assert ([a, b, c] + rest)[3..] == rest;
  }

  /** Decoding is lenient: a character outside the alphabet, wherever it stands, changes nothing. */
  lemma {:induction false} StrayIgnored(before: string, stray: char, rest: string, quad: nat, left: nat, pads: nat)
    requires quad < 4 && left < 64 && (quad == 2 ==> left < 16) && (quad == 3 ==> left < 4)
    requires ValueOf(stray).None? && stray != '='
    ensures Scan(before + [stray] + rest, quad, left, pads) == Scan(before + rest, quad, left, pads)
    decreases |before|
  {
    hide ValueOf;
    if before == "" {
      assert before + [stray] + rest == [stray] + rest && before + rest == rest;
      assert ([stray] + rest)[1..] == rest;
    } else {
      var tail := before[1..];
      var with, without := before + [stray] + rest, before + rest;
      assert with[0] == without[0] == before[0];
      assert with[1..] == tail + [stray] + rest && without[1..] == tail + rest;
      forall q: nat, l: nat, p: nat | q < 4 && l < 64 && (q == 2 ==> l < 16) && (q == 3 ==> l < 4)
        ensures Scan(with[1..], q, l, p) == Scan(without[1..], q, l, p)
      {
        StrayIgnored(tail, stray, rest, q, l, p);
      }
    }
  }

  lemma ScanZg(rest: string)
    ensures Scan("Zg" + rest, 0, 0, 0) == Prepend(0x66, Scan(rest, 2, 0, 0))
  {
    hide Scan, Prepend;
    assert [Symbol(32)] + rest == "g" + rest && [Symbol(25)] + ("g" + rest) == "Zg" + rest;
    ScanSymbol(25, "g" + rest, 0, 0);
    ScanSymbol(32, rest, 1, 25);
  }

  lemma ScanPads(quad: nat, left: nat, rest: string)
    requires 1 <= quad <= 2 && left < 64 && (quad == 2 ==> left < 16)
    ensures Scan("", quad, left, 0) == Scan("=", quad, left, 0) == Err(BadPadding)
    ensures quad == 2 ==> Scan("==" + rest, quad, left, 0) == Ok([])
  {
    assert "="[1..] == "";
    assert ("==" + rest)[1..] == "=" + rest && ("=" + rest)[1..] == rest;
    assert quad == 2 ==> Scan("=" + rest, quad, left, 1) == Ok([]);
  }

  /** Padding ends the input once the group is complete; a group left open, and a single symbol, are errors. */
  lemma PaddingVectors(rest: string)
    ensures Scan("Zg" + "==" + rest, 0, 0, 0) == Ok([0x66])
    ensures Scan("Zg" + "", 0, 0, 0) == Scan("Zg" + "=", 0, 0, 0) == Scan("Z" + "", 0, 0, 0) == Err(BadPadding)
  {
    ScanPads(2, 0, rest);
    ScanPads(1, 25, rest);
    hide Scan;
    assert "Zg" + "==" + rest == "Zg" + ("==" + rest);
    ScanZg("==" + rest);
    ScanZg("");
    ScanZg("=");
    assert [Symbol(25)] + "" == "Z" + "";
    ScanSymbol(25, "", 0, 0);
    assert [0x66] + [] == [0x66];
  }

  /** UTF-8 as section 7 of RFC 3629 spells it: one to four bytes, and what is not UTF-8, the overlong slash and an
      encoded surrogate included. */
  lemma Utf8Vectors()
    ensures EncodeChar('A') == [0x41] && EncodeChar('\U{3A9}') == [0xCE, 0xA9]
    ensures EncodeChar('\U{65E5}') == [0xE6, 0x97, 0xA5] && EncodeChar('\U{233B4}') == [0xF0, 0xA3, 0x8E, 0xB4]
    ensures DecodeChar([0xC0, 0xAF]).None? && DecodeChar([0xE0, 0x80, 0xAF]).None?
    ensures DecodeChar([0xED, 0xA0, 0x80]).None? && DecodeChar([0xF4, 0x90, 0x80, 0x80]).None?
    ensures DecodeChar([0x80]).None? && DecodeChar([0xFF]).None? && DecodeChar([0xE6, 0x97]).None?
  {
  }

  /** How three rejected values are stored: nothing, text, and bytes that are not UTF-8. */
  lemma StoredText()
    ensures RawText(None) == None
    ensures RawText(Some([0x7B, 0x7D])) == Some("{}")
    ensures RawText(Some([0xFF])) == Some("base64:/w==")
  {
    assert Encode("}") == [0x7D] + Encode("") && Encode("{}") == [0x7B] + Encode("}");
    EncodeThenDecode("{}");
    assert Decode([0xFF]).None?;
    assert ToBase64([0xFF]) == "/w==";
    assert "base64:" + "/w==" == "base64:/w==";
  }

  /** Replay sends exactly the bytes that were rejected, with one family of exceptions: UTF-8 text that itself begins
      with "base64:" never comes back. */
  lemma ReplaySendsTheRejectedBytes(data: Option<seq<byte>>)
    ensures Raw(RawText(data)) == Ok(data) <==>
            !(data.Some? && Decode(data.value).Some? && HasPrefix(Decode(data.value).value))
  {
    if data.Some? {
      var b := data.value;
      if Decode(b).Some? {
        DecodeThenEncode(b);
      } else {
        var text := PREFIX + ToBase64(b);
        Base64RoundTrip(b);
        Base64IsAscii(b);
        assert text[..7] == PREFIX && text[7..] == ToBase64(b);
      }
    }
  }

  /** Without exceptions where it matters most: bytes that are not UTF-8 always come back. */
  lemma MalformedBytesComeBack(b: seq<byte>)
    requires Decode(b).None?
    ensures Raw(RawText(Some(b))) == Ok(Some(b))
  {
    ReplaySendsTheRejectedBytes(Some(b));
  }
}
