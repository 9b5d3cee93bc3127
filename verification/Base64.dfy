/** Base 64 encoding, section 4 of RFC 4648, and a lenient decoder that skips what is not in an alphabet. */
module Base64 {
  import opened Values

  type Sextet = d: int | 0 <= d < 64

  function Letter(d: Sextet): char {
    if d < 26 then ('A' as int + d) as char
    else if d < 52 then ('a' as int + d - 26) as char
    else if d < 62 then ('0' as int + d - 52) as char
    else if d == 62 then '+' else '/'
  }

  /** Both the standard and the URL-safe alphabet are read. */
  function Digit64(c: char): Option<Sextet> {
    if 'A' <= c <= 'Z' then Some(c as int - 'A' as int)
    else if 'a' <= c <= 'z' then Some(c as int - 'a' as int + 26)
    else if '0' <= c <= '9' then Some(c as int - '0' as int + 52)
    else if c == '+' || c == '-' then Some(62)
    else if c == '/' || c == '_' then Some(63)
    else None
  }

  function Letters(ds: seq<Sextet>): (text: string)
    ensures |text| == |ds|
  {
    if ds == [] then "" else [Letter(ds[0])] + Letters(ds[1..])
  }

  function Sextets1(x: Byte): seq<Sextet> { [x / 4, x % 4 * 16] }

  function Sextets2(x: Byte, y: Byte): seq<Sextet> { [x / 4, x % 4 * 16 + y / 16, y % 16 * 4] }

  function Sextets3(x: Byte, y: Byte, z: Byte): seq<Sextet> { [x / 4, x % 4 * 16 + y / 16, y % 16 * 4 + z / 64, z % 64] }

  function Encode64(bytes: seq<Byte>): string {
    if bytes == [] then ""
    else if |bytes| == 1 then Letters(Sextets1(bytes[0])) + "=="
    else if |bytes| == 2 then Letters(Sextets2(bytes[0], bytes[1])) + "="
    else Letters(Sextets3(bytes[0], bytes[1], bytes[2])) + Encode64(bytes[3..])
  }

  function Digits(text: string): seq<Sextet> {
    if text == "" then []
    else (match Digit64(text[0]) case Some(d) => [d] case None => []) + Digits(text[1..])
  }

  function Byte1(a: Sextet, b: Sextet): Byte { (a as int) * 4 + (b as int) / 16 }

  function Byte2(b: Sextet, c: Sextet): Byte { (b as int) % 16 * 16 + (c as int) / 4 }

  function Byte3(c: Sextet, d: Sextet): Byte { (c as int) % 4 * 64 + (d as int) }

  /** Four sextets make three bytes; what is left over at the end makes the bytes it is enough for. */
  function Packed(ds: seq<Sextet>): seq<Byte> {
    if |ds| < 2 then []
    else if |ds| == 2 then [Byte1(ds[0], ds[1])]
    else if |ds| == 3 then [Byte1(ds[0], ds[1]), Byte2(ds[1], ds[2])]
    else [Byte1(ds[0], ds[1]), Byte2(ds[1], ds[2]), Byte3(ds[2], ds[3])] + Packed(ds[4..])
  }

  function Decode64(text: string): seq<Byte> {
    Packed(Digits(text))
  }

  lemma LetterIsDigit(d: Sextet)
    ensures Digit64(Letter(d)) == Some(d) && Letter(d) != '='
  {
  }

  lemma DigitsOfLetter(d: Sextet, rest: string)
    ensures Digits([Letter(d)] + rest) == [d] + Digits(rest)
  {
    LetterIsDigit(d);
    assert ([Letter(d)] + rest)[1..] == rest;
  }

  lemma ConsAppend<T>(x: T, xs: seq<T>, ys: seq<T>)
    ensures [x] + xs + ys == [x] + (xs + ys)
  {
  }

  lemma {:induction false} DigitsOfLetters(ds: seq<Sextet>, rest: string)
    ensures Digits(Letters(ds) + rest) == ds + Digits(rest)
  {
    if ds == [] {
      assert Letters(ds) + rest == rest && ds + Digits(rest) == Digits(rest);
    } else {
      var d, others := ds[0], ds[1..];
      DigitsOfLetters(others, rest);
      DigitsOfLetter(d, Letters(others) + rest);
      ConsAppend(Letter(d), Letters(others), rest);
      ConsAppend(d, others, Digits(rest));
      assert ds == [d] + others;
    }
  }

  lemma PaddingHasNoDigits()
    ensures Digits("=") == [] && Digits("==") == []
  {
    assert "=="[1..] == "=";
  }

  lemma Packs1(x: Byte)
    ensures Packed(Sextets1(x)) == [x]
  {
  }

  lemma Packs2(x: Byte, y: Byte)
    ensures Packed(Sextets2(x, y)) == [x, y]
  {
  }

  lemma Packs3(x: Byte, y: Byte, z: Byte, rest: seq<Sextet>)
    ensures Packed(Sextets3(x, y, z) + rest) == [x, y, z] + Packed(rest)
  {
    assert (Sextets3(x, y, z) + rest)[4..] == rest;
  }

  lemma NothingAfter(ds: seq<Sextet>)
    ensures ds + [] == ds
  {
  }

  /** Decoding what was encoded gives the bytes back. */
  lemma {:induction false} RoundTrip64(bytes: seq<Byte>)
    ensures Decode64(Encode64(bytes)) == bytes
  {
    PaddingHasNoDigits();
    if |bytes| == 1 {
      DigitsOfLetters(Sextets1(bytes[0]), "==");
      NothingAfter(Sextets1(bytes[0]));
      Packs1(bytes[0]);
    } else if |bytes| == 2 {
      DigitsOfLetters(Sextets2(bytes[0], bytes[1]), "=");
      NothingAfter(Sextets2(bytes[0], bytes[1]));
      Packs2(bytes[0], bytes[1]);
    } else if |bytes| > 2 {
      RoundTrip64(bytes[3..]);
      DigitsOfLetters(Sextets3(bytes[0], bytes[1], bytes[2]), Encode64(bytes[3..]));
      Packs3(bytes[0], bytes[1], bytes[2], Digits(Encode64(bytes[3..])));
      assert bytes == [bytes[0], bytes[1], bytes[2]] + bytes[3..];
    }
  }

  /** Four characters for every three bytes begun. */
  lemma {:induction false} EncodedLength(bytes: seq<Byte>)
    ensures |Encode64(bytes)| == (|bytes| + 2) / 3 * 4
  {
    if |bytes| > 2 { EncodedLength(bytes[3..]); }
  }

  lemma LettersOf(ds: seq<Sextet>)
    ensures |ds| == 2 ==> Letters(ds) == [Letter(ds[0]), Letter(ds[1])]
    ensures |ds| == 3 ==> Letters(ds) == [Letter(ds[0]), Letter(ds[1]), Letter(ds[2])]
    ensures |ds| == 4 ==> Letters(ds) == [Letter(ds[0]), Letter(ds[1]), Letter(ds[2]), Letter(ds[3])]
  {
  }

  /** Test vectors of section 10 of RFC 4648. */
  lemma RfcVectors()
    ensures Encode64([102]) == "Zg==" && Encode64([102, 111]) == "Zm8=" && Encode64([102, 111, 111]) == "Zm9v"
    ensures Encode64([102, 111, 111, 98, 97, 114]) == "Zm9vYmFy"
  {
    LettersOf(Sextets1(102));
    LettersOf(Sextets2(102, 111));
    LettersOf(Sextets3(102, 111, 111));
    LettersOf(Sextets3(98, 97, 114));
    assert Encode64([102]) == ['Z', 'g'] + "==";
    assert Encode64([102, 111]) == ['Z', 'm', '8'] + "=";
    assert Encode64([102, 111, 111]) == ['Z', 'm', '9', 'v'] + Encode64([]);
    var tail: seq<Byte> := [98, 97, 114];
    assert Encode64(tail) == ['Y', 'm', 'F', 'y'] + Encode64([]);
    assert [102, 111, 111, 98, 97, 114][3..] == tail;
  }

  // ----- the encoding, group by group -----

  /** The alphabet of table 1. */
  lemma AlphabetIs(d: Sextet)
    ensures d < 26 ==> Letter(d) as int == 'A' as int + d
    ensures 26 <= d < 52 ==> Letter(d) as int == 'a' as int + (d - 26)
    ensures 52 <= d < 62 ==> Letter(d) as int == '0' as int + (d - 52)
    ensures d == 62 ==> Letter(d) == '+'
    ensures d == 63 ==> Letter(d) == '/'
  {
  }

  /** Three bytes are one number of 24 bits, written as four digits of base 64. */
  lemma ThreeBytes(x: Byte, y: Byte, z: Byte, rest: seq<Byte>) returns (a: Sextet, b: Sextet, c: Sextet, d: Sextet)
    ensures 262144 * a + 4096 * b + 64 * c + d == 65536 * x + 256 * y + z
    ensures Encode64([x, y, z] + rest) == [Letter(a), Letter(b), Letter(c), Letter(d)] + Encode64(rest)
  {
    var ds := Sextets3(x, y, z);
    a, b, c, d := ds[0], ds[1], ds[2], ds[3];
    LettersOf(ds);
    assert ([x, y, z] + rest)[3..] == rest;
  }

  /** Two bytes at the end are three digits of 18 bits and one padding character, one byte two digits and two. */
  lemma LastBytes(x: Byte, y: Byte) returns (a: Sextet, b: Sextet, c: Sextet, d: Sextet, e: Sextet)
    ensures 4096 * a + 64 * b + c == 4 * (256 * x + y) && Encode64([x, y]) == [Letter(a), Letter(b), Letter(c), '=']
    ensures 64 * d + e == 16 * x && Encode64([x]) == [Letter(d), Letter(e), '=', '=']
  {
    var two, one := Sextets2(x, y), Sextets1(x);
    a, b, c, d, e := two[0], two[1], two[2], one[0], one[1];
    LettersOf(two);
    LettersOf(one);
  }

  // ----- what the decoder lets pass -----

  lemma {:induction false} DigitsConcat(a: string, b: string)
    ensures Digits(a + b) == Digits(a) + Digits(b)
  {
    if a == "" {
      assert a + b == b;
    } else {
      assert (a + b)[1..] == a[1..] + b;
      DigitsConcat(a[1..], b);
    }
  }

  lemma DigitsAround(a: string, c: char, b: string)
    ensures Digits(a + [c] + b) == Digits(a) + (if Digit64(c).Some? then [Digit64(c).value] else []) + Digits(b)
  {
    DigitsConcat(a + [c], b);
    DigitsConcat(a, [c]);
    assert [c][1..] == "";
  }

  /** The last two letters may be those of section 5 of RFC 4648, and characters of neither alphabet do not count. */
  lemma LenientDecoding(a: string, c: char, b: string)
    ensures Decode64(a + "-" + b) == Decode64(a + "+" + b) && Decode64(a + "_" + b) == Decode64(a + "/" + b)
    ensures !('A' <= c <= 'Z' || 'a' <= c <= 'z' || '0' <= c <= '9') && c !in "+/-_" ==> Decode64(a + [c] + b) == Decode64(a + b)
  {
    DigitsAround(a, '-', b);
    DigitsAround(a, '+', b);
    DigitsAround(a, '_', b);
    DigitsAround(a, '/', b);
    DigitsAround(a, c, b);
    DigitsConcat(a, b);
    assert "+/-_" == ['+', '/', '-', '_'];
    assert '+' in "+/-_" && '/' in "+/-_" && '-' in "+/-_" && '_' in "+/-_";
    assert Digits(a) + [] == Digits(a);
  }
}
