/** Base 64 without padding, with the standard alphabet (sections 3.2 and 4 of RFC 4648), and the
    strict decoder that accepts exactly the encodings. */
module Base64 {
  import opened Wrappers

  type Byte = b: int | 0 <= b < 256

  /** Table 1 of RFC 4648: A-Z, a-z, 0-9, '+' and '/' as character codes. */
  function Digit(v: int): (c: Byte)
    requires 0 <= v < 64
  {
    if v < 26 then 65 + v
    else if v < 52 then 97 + (v - 26)
    else if v < 62 then 48 + (v - 52)
    else if v == 62 then 43
    else 47
  }

  predicate IsDigit(c: Byte) {
    65 <= c <= 90 || 97 <= c <= 122 || 48 <= c <= 57 || c == 43 || c == 47
  }

  function Value(c: Byte): (v: int)
    requires IsDigit(c)
    ensures 0 <= v < 64 && Digit(v) == c
  {
    if 65 <= c <= 90 then c - 65
    else if 97 <= c <= 122 then 26 + (c - 97)
    else if 48 <= c <= 57 then 52 + (c - 48)
    else if c == 43 then 62
    else 63
  }

  lemma DigitValue(v: int)
    requires 0 <= v < 64
    ensures IsDigit(Digit(v)) && Value(Digit(v)) == v
  {
  }

  /** The four 6-bit values of three bytes, and the three bytes of four 6-bit values. */
  function Split(a: Byte, b: Byte, c: Byte): (r: (int, int, int, int))
    ensures 0 <= r.0 < 64 && 0 <= r.1 < 64 && 0 <= r.2 < 64 && 0 <= r.3 < 64
  {
    (a / 4, a % 4 * 16 + b / 16, b % 16 * 4 + c / 64, c % 64)
  }

  function Join(w: int, x: int, y: int, z: int): (Byte, Byte, Byte)
    requires 0 <= w < 64 && 0 <= x < 64 && 0 <= y < 64 && 0 <= z < 64
  {
    (w * 4 + x / 16, x % 16 * 16 + y / 4, y % 4 * 64 + z)
  }

  lemma JoinSplit(a: Byte, b: Byte, c: Byte)
    ensures var r := Split(a, b, c); Join(r.0, r.1, r.2, r.3) == (a, b, c)
  {
    HighAndLow(a % 4, b / 16, 16);
    HighAndLow(b % 16, c / 64, 4);
    TakenApart(a, 4);
    TakenApart(b, 16);
    TakenApart(c, 64);
  }

  lemma SplitJoin(w: int, x: int, y: int, z: int)
    requires 0 <= w < 64 && 0 <= x < 64 && 0 <= y < 64 && 0 <= z < 64
    ensures var r := Join(w, x, y, z); Split(r.0, r.1, r.2) == (w, x, y, z)
  {
    HighAndLow(w, x / 16, 4);
    HighAndLow(x % 16, y / 4, 16);
    HighAndLow(y % 4, z, 64);
    TakenApart(x, 16);
    TakenApart(y, 4);
  }

  lemma HighAndLow(high: int, low: int, factor: int)
    requires (factor == 4 || factor == 16 || factor == 64) && 0 <= high && 0 <= low < factor
    ensures (high * factor + low) / factor == high && (high * factor + low) % factor == low
  {
  }

  lemma TakenApart(n: int, unit: int)
    requires 0 <= n && unit > 0
    ensures n == n / unit * unit + n % unit
  {
  }

  function Encode(bytes: seq<Byte>): seq<Byte> {
    if |bytes| == 0 then []
    else if |bytes| == 1 then
      var r := Split(bytes[0], 0, 0);
      [Digit(r.0), Digit(r.1)]
    else if |bytes| == 2 then
      var r := Split(bytes[0], bytes[1], 0);
      [Digit(r.0), Digit(r.1), Digit(r.2)]
    else
      var r := Split(bytes[0], bytes[1], bytes[2]);
      [Digit(r.0), Digit(r.1), Digit(r.2), Digit(r.3)] + Encode(bytes[3..])
  }

  function Decode(text: seq<Byte>): Option<seq<Byte>> {
    if |text| == 0 then Some([])
    else if |text| == 1 || !IsDigit(text[0]) || !IsDigit(text[1]) then None
    else if |text| == 2 then
      var r := Join(Value(text[0]), Value(text[1]), 0, 0);
      if r.1 == 0 then Some([r.0]) else None
    else if !IsDigit(text[2]) then None
    else if |text| == 3 then
      var r := Join(Value(text[0]), Value(text[1]), Value(text[2]), 0);
      if r.2 == 0 then Some([r.0, r.1]) else None
    else if !IsDigit(text[3]) then None
    else
      var r := Join(Value(text[0]), Value(text[1]), Value(text[2]), Value(text[3]));
      match Decode(text[4..])
      case None => None
      case Some(rest) => Some([r.0, r.1, r.2] + rest)
  }

  lemma DecodePartial(w: int, x: int, y: int)
    requires 0 <= w < 64 && 0 <= x < 64 && 0 <= y < 64
    ensures x % 16 == 0 ==> Decode([Digit(w), Digit(x)]) == Some([Join(w, x, 0, 0).0])
    ensures y % 4 == 0 ==> Decode([Digit(w), Digit(x), Digit(y)]) == Some([Join(w, x, y, 0).0, Join(w, x, y, 0).1])
  {
    DigitValue(w);
    DigitValue(x);
    DigitValue(y);
  }

  lemma DecodeGroup(w: int, x: int, y: int, z: int, rest: seq<Byte>)
    requires 0 <= w < 64 && 0 <= x < 64 && 0 <= y < 64 && 0 <= z < 64
    requires Decode(rest).Some?
    ensures var r := Join(w, x, y, z);
            Decode([Digit(w), Digit(x), Digit(y), Digit(z)] + rest) == Some([r.0, r.1, r.2] + Decode(rest).value)
  {
    DigitValue(w);
    DigitValue(x);
    DigitValue(y);
    DigitValue(z);
    var text := [Digit(w), Digit(x), Digit(y), Digit(z)] + rest;
    assert text[4..] == rest;
  }

  lemma {:induction false} DecodeEncode(bytes: seq<Byte>)
    ensures Decode(Encode(bytes)) == Some(bytes)
  {
    if |bytes| == 1 {
      var r := Split(bytes[0], 0, 0);
      JoinSplit(bytes[0], 0, 0);
      DecodePartial(r.0, r.1, 0);
      assert bytes == [bytes[0]];
    } else if |bytes| == 2 {
      var r := Split(bytes[0], bytes[1], 0);
      JoinSplit(bytes[0], bytes[1], 0);
      DecodePartial(r.0, r.1, r.2);
      assert bytes == [bytes[0], bytes[1]];
    } else if |bytes| >= 3 {
      var r := Split(bytes[0], bytes[1], bytes[2]);
      JoinSplit(bytes[0], bytes[1], bytes[2]);
      DecodeEncode(bytes[3..]);
      DecodeGroup(r.0, r.1, r.2, r.3, Encode(bytes[3..]));
      assert bytes == [bytes[0], bytes[1], bytes[2]] + bytes[3..];
    }
  }

  lemma EncodePartial(w: int, x: int, y: int)
    requires 0 <= w < 64 && 0 <= x < 64 && 0 <= y < 64
    ensures Join(w, x, 0, 0).1 == 0 ==> Encode([Join(w, x, 0, 0).0]) == [Digit(w), Digit(x)]
    ensures Join(w, x, y, 0).2 == 0 ==>
              Encode([Join(w, x, y, 0).0, Join(w, x, y, 0).1]) == [Digit(w), Digit(x), Digit(y)]
  {
    SplitJoin(w, x, 0, 0);
    SplitJoin(w, x, y, 0);
  }

  lemma EncodeGroup(w: int, x: int, y: int, z: int, rest: seq<Byte>)
    requires 0 <= w < 64 && 0 <= x < 64 && 0 <= y < 64 && 0 <= z < 64
    ensures var r := Join(w, x, y, z);
            Encode([r.0, r.1, r.2] + rest) == [Digit(w), Digit(x), Digit(y), Digit(z)] + Encode(rest)
  {
    SplitJoin(w, x, y, z);
    var r := Join(w, x, y, z);
    assert ([r.0, r.1, r.2] + rest)[3..] == rest;
  }

  lemma {:induction false} EncodeDecode(text: seq<Byte>)
    requires Decode(text).Some?
    ensures Encode(Decode(text).value) == text
  {
    if |text| == 2 {
      EncodePartial(Value(text[0]), Value(text[1]), 0);
      assert text == [text[0], text[1]];
    } else if |text| == 3 {
      EncodePartial(Value(text[0]), Value(text[1]), Value(text[2]));
      assert text == [text[0], text[1], text[2]];
    } else if |text| >= 4 {
      EncodeDecode(text[4..]);
      EncodeGroup(Value(text[0]), Value(text[1]), Value(text[2]), Value(text[3]), Decode(text[4..]).value);
      assert text == [text[0], text[1], text[2], text[3]] + text[4..];
    }
  }

  /** The alphabet. */
  lemma DigitExactly(v: int)
    requires 0 <= v < 64
    ensures Digit(v) as char ==
            if v < 26 then 'A' + v as char
            else if v < 52 then 'a' + (v - 26) as char
            else if v < 62 then '0' + (v - 52) as char
            else "+/"[v - 62]
  {
  }

  /** Three bytes are read as one number of 24 bits, whose four digits to the base 64 are written from the most
      significant on; at the end missing bytes are read as zero, and only the digits that hold a bit are written. */
  lemma EncodeExactly(a: Byte, b: Byte, c: Byte, rest: seq<Byte>)
    ensures var n := a * 0x1_0000 + b * 0x100 + c;
            Encode([a, b, c] + rest) ==
            [Digit(n / 0x4_0000), Digit(n / 0x1000 % 64), Digit(n / 64 % 64), Digit(n % 64)] + Encode(rest)
    ensures var n := a * 0x1_0000 + b * 0x100;
            Encode([a, b]) == [Digit(n / 0x4_0000), Digit(n / 0x1000 % 64), Digit(n / 64 % 64)]
    ensures var n := a * 0x1_0000;
            Encode([a]) == [Digit(n / 0x4_0000), Digit(n / 0x1000 % 64)]
    ensures Encode([]) == []
  {
    SplitOfNumber(a, b, c);
    SplitOfNumber(a, b, 0);
    SplitOfNumber(a, 0, 0);
    assert ([a, b, c] + rest)[3..] == rest;
  }

  lemma SplitOfNumber(a: Byte, b: Byte, c: Byte)
    ensures var n := a * 0x1_0000 + b * 0x100 + c;
            Split(a, b, c) == (n / 0x4_0000, n / 0x1000 % 64, n / 64 % 64, n % 64)
  {
    TakenApart(a, 4);
    TakenApart(b, 16);
    TakenApart(c, 64);
    DigitsOfParts(a * 0x1_0000 + b * 0x100 + c, a / 4, a % 4, b / 16, b % 16, c / 64, c % 64);
  }

  lemma DigitsOfParts(n: int, a: int, a': int, b: int, b': int, c: int, c': int)
    requires 0 <= a && 0 <= a' < 4 && 0 <= b < 16 && 0 <= b' < 16 && 0 <= c < 4 && 0 <= c' < 64
    requires n == (a * 4 + a') * 0x1_0000 + (b * 16 + b') * 0x100 + (c * 64 + c')
    ensures n / 0x4_0000 == a && n / 0x1000 % 64 == a' * 16 + b && n / 64 % 64 == b' * 4 + c && n % 64 == c'
  {
    var second, third := a * 64 + (a' * 16 + b), (a * 64 + (a' * 16 + b)) * 64 + (b' * 4 + c);
    Quotient(n, 0x4_0000, a, a' * 0x1_0000 + (b * 16 + b') * 0x100 + (c * 64 + c'));
    Quotient(n, 0x1000, second, b' * 0x100 + c * 64 + c');
    Quotient(second, 64, a, a' * 16 + b);
    Quotient(n, 64, third, c');
    Quotient(third, 64, second, b' * 4 + c);
  }

  lemma Quotient(n: int, d: int, q: int, r: int)
    requires (d == 64 || d == 0x1000 || d == 0x4_0000) && n == q * d + r && 0 <= r < d
    ensures n / d == q && n % d == r
  {
  }

  lemma {:induction false} EncodeHasNoColon(bytes: seq<Byte>)
    ensures 58 !in Encode(bytes)
  {
    if |bytes| >= 3 {
      EncodeHasNoColon(bytes[3..]);
    }
  }

  lemma {:induction false} EncodedLength(bytes: seq<Byte>)
    ensures |Encode(bytes)| == (|bytes| * 4 + 2) / 3
  {
    if |bytes| >= 3 {
      EncodedLength(bytes[3..]);
    }
  }
}
