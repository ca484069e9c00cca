/**
 * The base 64 encoding of section 4 of RFC 4648, used for the row-version
 * token that clients send back on update (`Convert.ToBase64String` /
 * `Convert.FromBase64String`). Padding is required; white space is not
 * accepted; the unused low bits of a final padded group are discarded.
 */
module Base64 {
  import opened Wrappers

  type byte = x: int | 0 <= x < 256
  type sextet = x: int | 0 <= x < 64

  const Pad: char := '='

  /** Table 1 of RFC 4648: the symbol for a 6-bit value. */
  function Symbol(v: sextet): char {
    if v < 26 then ('A' as int + v) as char
    else if v < 52 then ('a' as int + (v - 26)) as char
    else if v < 62 then ('0' as int + (v - 52)) as char
    else if v == 62 then '+'
    else '/'
  }

  /** The 6-bit value of a symbol of Table 1; `None` for every other character, padding included. */
  function SymbolValue(c: char): (r: Option<sextet>)
    ensures r.Some? ==> Symbol(r.value) == c
  {
    if 'A' <= c <= 'Z' then Some(c as int - 'A' as int)
    else if 'a' <= c <= 'z' then Some(c as int - 'a' as int + 26)
    else if '0' <= c <= '9' then Some(c as int - '0' as int + 52)
    else if c == '+' then Some(62)
    else if c == '/' then Some(63)
    else None
  }

  lemma SymbolValueOfSymbol(v: sextet)
    ensures SymbolValue(Symbol(v)) == Some(v)
  {
  }

  /** Four symbols carrying three whole bytes. */
  function EncodeTriple(a: byte, b: byte, c: byte): (s: string)
    ensures |s| == 4
  {
    [Symbol(a / 4), Symbol((a % 4) * 16 + b / 16), Symbol((b % 16) * 4 + c / 64), Symbol(c % 64)]
  }

  /** `Convert.ToBase64String`: whole triples, then a padded final group for one or two leftover bytes. */
  function Encode(bytes: seq<byte>): string
    decreases |bytes|
  {
    if |bytes| == 0 then ""
    else if |bytes| == 1 then
      [Symbol(bytes[0] / 4), Symbol((bytes[0] % 4) * 16), Pad, Pad]
    else if |bytes| == 2 then
      [Symbol(bytes[0] / 4), Symbol((bytes[0] % 4) * 16 + bytes[1] / 16), Symbol((bytes[1] % 16) * 4), Pad]
    else
      EncodeTriple(bytes[0], bytes[1], bytes[2]) + Encode(bytes[3..])
  }

  /** Every group is four symbols, and only the empty input encodes to the empty text. */
  lemma {:induction false} EncodeLength(bytes: seq<byte>)
    ensures |Encode(bytes)| == 4 * ((|bytes| + 2) / 3)
    ensures |bytes| > 0 ==> |Encode(bytes)| >= 4
    decreases |bytes|
  {
    var n := |bytes|;
    if n == 0 {
    } else if n == 1 {
      assert |Encode(bytes)| == 4;
    } else if n == 2 {
      assert |Encode(bytes)| == 4;
    } else {
      var rest := bytes[3..];
      EncodeLength(rest);
      assert |Encode(bytes)| == 4 + |Encode(rest)|;
      assert (n + 2) / 3 == (|rest| + 2) / 3 + 1;
    }
  }

  /** The three bytes that four 6-bit values carry, most significant bits first. */
  function Byte0(v0: sextet, v1: sextet): byte {
    (v0 as int) * 4 + (v1 as int) / 16
  }

  function Byte1(v1: sextet, v2: sextet): byte {
    ((v1 as int) % 16) * 16 + (v2 as int) / 4
  }

  function Byte2(v2: sextet, v3: sextet): byte {
    ((v2 as int) % 4) * 64 + v3 as int
  }

  /** A group of four symbols without padding. */
  function DecodeQuad(c0: char, c1: char, c2: char, c3: char): (r: Option<seq<byte>>)
    ensures r.Some? ==> |r.value| == 3
  {
    var v0, v1, v2, v3 := SymbolValue(c0), SymbolValue(c1), SymbolValue(c2), SymbolValue(c3);
    if v0.Some? && v1.Some? && v2.Some? && v3.Some? then
      Some([Byte0(v0.value, v1.value), Byte1(v1.value, v2.value), Byte2(v2.value, v3.value)])
    else None
  }

  /** The last group, which may end in one or two padding characters. */
  function DecodeFinal(c0: char, c1: char, c2: char, c3: char): (r: Option<seq<byte>>)
    ensures r.Some? ==> 1 <= |r.value| <= 3
  {
    var v0, v1, v2 := SymbolValue(c0), SymbolValue(c1), SymbolValue(c2);
    if c2 == Pad && c3 == Pad then
      if v0.Some? && v1.Some? then Some([Byte0(v0.value, v1.value)]) else None
    else if c3 == Pad then
      if v0.Some? && v1.Some? && v2.Some? then Some([Byte0(v0.value, v1.value), Byte1(v1.value, v2.value)]) else None
    else DecodeQuad(c0, c1, c2, c3)
  }

  /** `Convert.FromBase64String`, `None` standing for its FormatException. */
  function Decode(s: string): (r: Option<seq<byte>>)
    decreases |s|
  {
    if |s| == 0 then Some([])
    else if |s| < 4 then None
    else if |s| == 4 then DecodeFinal(s[0], s[1], s[2], s[3])
    else
      var group := DecodeQuad(s[0], s[1], s[2], s[3]);
      var rest := Decode(s[4..]);
      if group.Some? && rest.Some? then Some(group.value + rest.value) else None
  }

  lemma Byte0RoundTrip(a: byte, b: byte)
    ensures Byte0(a / 4, (a % 4) * 16 + b / 16) == a
  {
    assert ((a % 4) * 16 + b / 16) / 16 == a % 4;
  }

  lemma Byte1RoundTrip(a: byte, b: byte, c: byte)
    ensures Byte1((a % 4) * 16 + b / 16, (b % 16) * 4 + c / 64) == b
  {
    assert ((a % 4) * 16 + b / 16) % 16 == b / 16;
    assert ((b % 16) * 4 + c / 64) / 4 == b % 16;
  }

  lemma Byte2RoundTrip(b: byte, c: byte)
    ensures Byte2((b % 16) * 4 + c / 64, c % 64) == c
  {
    assert ((b % 16) * 4 + c / 64) % 4 == c / 64;
  }

  lemma TripleRoundTrip(a: byte, b: byte, c: byte)
    ensures DecodeQuad(Symbol(a / 4), Symbol((a % 4) * 16 + b / 16), Symbol((b % 16) * 4 + c / 64), Symbol(c % 64))
            == Some([a, b, c])
  {
    SymbolValueOfSymbol(a / 4);
    SymbolValueOfSymbol((a % 4) * 16 + b / 16);
    SymbolValueOfSymbol((b % 16) * 4 + c / 64);
    SymbolValueOfSymbol(c % 64);
    Byte0RoundTrip(a, b);
    Byte1RoundTrip(a, b, c);
    Byte2RoundTrip(b, c);
  }

  lemma OneByteRoundTrip(a: byte)
    ensures Decode(Encode([a])) == Some([a])
  {
    SymbolValueOfSymbol(a / 4);
    SymbolValueOfSymbol((a % 4) * 16);
    Byte0RoundTrip(a, 0);
  }

  lemma TwoByteRoundTrip(a: byte, b: byte)
    ensures Decode(Encode([a, b])) == Some([a, b])
  {
    var v0, v1, v2 := a / 4, (a % 4) * 16 + b / 16, (b % 16) * 4;
    SymbolValueOfSymbol(v0);
    SymbolValueOfSymbol(v1);
    SymbolValueOfSymbol(v2);
    Byte0RoundTrip(a, b);
    Byte1RoundTrip(a, b, 0);
    assert Symbol(v2) != Pad;
    assert Encode([a, b]) == [Symbol(v0), Symbol(v1), Symbol(v2), Pad];
    assert DecodeFinal(Symbol(v0), Symbol(v1), Symbol(v2), Pad) == Some([Byte0(v0, v1), Byte1(v1, v2)]);
  }

  lemma ThreeByteRoundTrip(a: byte, b: byte, c: byte)
    ensures Decode(Encode([a, b, c])) == Some([a, b, c])
  {
    var s := EncodeTriple(a, b, c);
    assert [a, b, c][3..] == [];
    assert Encode([a, b, c]) == s + "" == s;
    TripleRoundTrip(a, b, c);
    assert Symbol(c % 64) != Pad;
  }

  /** A leading group of four is decoded on its own, before the rest. */
  lemma DecodeLeadingGroup(head: string, tail: string, group: seq<byte>, rest: seq<byte>)
    requires |head| == 4 && |tail| > 0
    requires DecodeQuad(head[0], head[1], head[2], head[3]) == Some(group)
    requires Decode(tail) == Some(rest)
    ensures Decode(head + tail) == Some(group + rest)
  {
    var s := head + tail;
    assert s[0] == head[0] && s[1] == head[1] && s[2] == head[2] && s[3] == head[3];
    assert s[4..] == tail;
  }

  /** Three bytes in front encode to their group in front. */
  lemma EncodeFront(a: byte, b: byte, c: byte, rest: seq<byte>)
    requires |rest| > 0
    ensures Encode([a, b, c] + rest) == EncodeTriple(a, b, c) + Encode(rest)
  {
    assert ([a, b, c] + rest)[3..] == rest;
  }

  /** Decoding recovers every byte sequence that was encoded. */
  lemma {:induction false} DecodeEncode(bytes: seq<byte>)
    ensures Decode(Encode(bytes)) == Some(bytes)
    decreases |bytes|
  {
    if 0 < |bytes| <= 3 {
      ShortRoundTrip(bytes);
    } else if |bytes| > 3 {
      var a, b, c, rest := bytes[0], bytes[1], bytes[2], bytes[3..];
      assert bytes == [a, b, c] + rest;
      DecodeEncode(rest);
      TripleFront(a, b, c, rest);
    }
  }

  /** One, two or three bytes: a single final group. */
  lemma ShortRoundTrip(bytes: seq<byte>)
    requires 0 < |bytes| <= 3
    ensures Decode(Encode(bytes)) == Some(bytes)
  {
    if |bytes| == 1 {
      OneByteCase(bytes);
    } else if |bytes| == 2 {
      TwoByteCase(bytes);
    } else {
      ThreeByteCase(bytes);
    }
  }

  lemma OneByteCase(bytes: seq<byte>)
    requires |bytes| == 1
    ensures Decode(Encode(bytes)) == Some(bytes)
  {
    var a := bytes[0];
    assert bytes == [a];
    OneByteRoundTrip(a);
  }

  lemma TwoByteCase(bytes: seq<byte>)
    requires |bytes| == 2
    ensures Decode(Encode(bytes)) == Some(bytes)
  {
    var a, b := bytes[0], bytes[1];
    assert bytes == [a, b];
    TwoByteRoundTrip(a, b);
  }

  lemma ThreeByteCase(bytes: seq<byte>)
    requires |bytes| == 3
    ensures Decode(Encode(bytes)) == Some(bytes)
  {
    var a, b, c := bytes[0], bytes[1], bytes[2];
    assert bytes == [a, b, c];
    ThreeByteRoundTrip(a, b, c);
  }

  /** The step of the induction: a whole leading triple in front of a sequence that round-trips. */
  lemma TripleFront(a: byte, b: byte, c: byte, rest: seq<byte>)
    requires |rest| > 0 && Decode(Encode(rest)) == Some(rest)
    ensures Decode(Encode([a, b, c] + rest)) == Some([a, b, c] + rest)
  {
    var head := EncodeTriple(a, b, c);
    EncodeFront(a, b, c, rest);
    EncodeLength(rest);
    TripleRoundTrip(a, b, c);
    DecodeLeadingGroup(head, Encode(rest), [a, b, c], rest);
  }

  /** `Convert.ToBase64String` of the column default, eight zero bytes. */
  lemma ZeroVersionText()
    ensures Encode([0, 0, 0, 0, 0, 0, 0, 0]) == "AAAAAAAAAAA="
  {
  }

  /**
   * Every text `Convert.FromBase64String` accepts is whole groups of four
   * characters of the alphabet, with padding only in the last two places
   * and, when present, at the very end.
   */
  lemma {:induction false} DecodableText(s: string)
    requires Decode(s).Some?
    ensures |s| % 4 == 0
    ensures forall i :: 0 <= i < |s| ==>
              SymbolValue(s[i]).Some? || (s[i] == Pad && |s| - 2 <= i && s[|s| - 1] == Pad)
    decreases |s|
  {
    if |s| > 4 {
      DecodableText(s[4..]);
      forall i | 4 <= i < |s| ensures SymbolValue(s[i]).Some? || (s[i] == Pad && |s| - 2 <= i && s[|s| - 1] == Pad) {
        assert s[i] == s[4..][i - 4] && s[|s| - 1] == s[4..][|s| - 5];
      }
    }
  }

  /** An example of `DecodableText`: a character outside the alphabet is refused. */
  lemma RejectsForeignCharacter()
    ensures Decode("not-base64!") == None
  {
    var s := "not-base64!";
    assert SymbolValue(s[3]) == None;
    assert DecodeQuad(s[0], s[1], s[2], s[3]) == None;
  }

  /** An example of `DecodableText`: a length that is not a multiple of four is refused. */
  lemma RejectsShortGroup()
    ensures Decode("AAAAAAA") == None
  {
    var s := "AAAAAAA";
    assert s[4..] == "AAA";
    assert Decode("AAA") == None;
  }

  /** An example of `DecodableText`: padding is allowed only at the end. */
  lemma RejectsInnerPadding()
    ensures Decode("AA=A") == None
  {
    assert SymbolValue('=') == None;
  }
}
