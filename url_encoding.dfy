/** PHP's `urlencode` (the RFC 1738 form encoding that `http_build_query` applies by
    default) and its inverse `urldecode`. */
module UrlEncoding {
  import opened PhpStrings

  /** The bytes `urlencode` leaves alone: letters, digits, `-`, `_` and `.`. */
  predicate IsUnreserved(c: char) {
    ('A' <= c <= 'Z') || ('a' <= c <= 'z') || ('0' <= c <= '9') || c == '-' || c == '_' || c == '.'
  }

  /** The characters that can occur in the output of `urlencode`. */
  predicate IsEncodedChar(c: char) {
    IsUnreserved(c) || c == '+' || c == '%'
  }

  function HexDigit(d: int): (c: char)
    requires 0 <= d < 16
  {
    "0123456789ABCDEF"[d]
  }

  /** The hexadecimal digits `urldecode` accepts after a `%`, in either case. */
  predicate IsHexDigit(c: char) {
    ('0' <= c <= '9') || ('A' <= c <= 'F') || ('a' <= c <= 'f')
  }

  function HexValue(c: char): (d: int)
    requires IsHexDigit(c)
    ensures 0 <= d < 16
  {
    if '0' <= c <= '9' then c as int - '0' as int
    else if 'A' <= c <= 'F' then c as int - 'A' as int + 10
    else c as int - 'a' as int + 10
  }

  lemma HexDigitValue(d: int)
    requires 0 <= d < 16
    ensures IsHexDigit(HexDigit(d)) && HexValue(HexDigit(d)) == d
  {
  }

  /** Encoding of one byte: kept, `+` for a space, or `%` and two upper-case hex digits. */
  function EncodeByte(c: char): (r: string)
    requires c as int < 256
  {
    if IsUnreserved(c) then [c]
    else if c == ' ' then "+"
    else ['%', HexDigit(c as int / 16), HexDigit(c as int % 16)]
  }

  /** PHP's `urlencode`, byte by byte. */
  function Encode(s: Bytes): (r: string)
    ensures |r| >= |s|
    ensures forall i | 0 <= i < |r| :: IsEncodedChar(r[i])
  {
    if s == [] then [] else EncodeByte(s[0]) + Encode(s[1..])
  }

  /** PHP's `urldecode`: `+` becomes a space, `%` with two hex digits becomes that byte,
      everything else (a stray `%` included) is copied. */
  function Decode(s: string): string
  {
    if s == [] then []
    else if s[0] == '+' then " " + Decode(s[1..])
    else if s[0] == '%' && |s| >= 3 && IsHexDigit(s[1]) && IsHexDigit(s[2]) then
      [(HexValue(s[1]) * 16 + HexValue(s[2])) as char] + Decode(s[3..])
    else [s[0]] + Decode(s[1..])
  }

  lemma DecodeEncodeByte(c: char, t: string)
    requires c as int < 256
    ensures Decode(EncodeByte(c) + t) == [c] + Decode(t)
  {
    var e := EncodeByte(c) + t;
    if IsUnreserved(c) {
      assert e[1..] == t;
    } else if c == ' ' {
      assert e[1..] == t;
    } else {
      HexDigitValue(c as int / 16);
      HexDigitValue(c as int % 16);
      assert e[3..] == t;
      assert (c as int / 16) * 16 + c as int % 16 == c as int;
    }
  }

  /** `urlencode` works byte by byte, so it distributes over concatenation. */
  lemma {:induction false} EncodeAppend(a: Bytes, b: Bytes)
    ensures Encode(a + b) == Encode(a) + Encode(b)
  {
    if a == [] {
      assert a + b == b;
    } else {
      assert (a + b)[1..] == a[1..] + b;
      EncodeAppend(a[1..], b);
    }
  }

  /** `urldecode` undoes `urlencode` on every byte string. */
  lemma {:induction false} DecodeEncode(s: Bytes)
    ensures Decode(Encode(s)) == s
  {
    if s != [] {
      DecodeEncode(s[1..]);
      DecodeEncodeByte(s[0], Encode(s[1..]));
      assert [s[0]] + s[1..] == s;
    }
  }

  /** `urlencode` changes a byte string exactly when it holds a byte other than a letter,
      a digit, `-`, `_` or `.`. */
  lemma {:induction false} EncodeIdentity(s: Bytes)
    ensures Encode(s) == s <==> forall i | 0 <= i < |s| :: IsUnreserved(s[i])
  {
    if s != [] {
      EncodeIdentity(s[1..]);
      if IsUnreserved(s[0]) {
        assert Encode(s) == [s[0]] + Encode(s[1..]);
        assert s == [s[0]] + s[1..];
        if Encode(s) == s {
          assert Encode(s[1..]) == Encode(s)[1..];
        }
        if forall i | 0 <= i < |s| :: IsUnreserved(s[i]) {
          assert forall i | 0 <= i < |s[1..]| :: IsUnreserved(s[1..][i]) by {
            forall i | 0 <= i < |s[1..]| ensures IsUnreserved(s[1..][i]) {
              assert s[1..][i] == s[i + 1];
            }
          }
        }
      } else if s[0] == ' ' {
        assert Encode(s)[0] == '+';
      } else {
        assert |Encode(s)| == 3 + |Encode(s[1..])|;
      }
    }
  }

  // Worked examples.

  lemma ExampleTexts()
    ensures "192" + ("|" + "224") == "192|224"
    ensures "192" + ("%7C" + "224") == "192%7C224"
  {
  }

  lemma ExamplePieces()
    ensures Encode("192") == "192" && Encode("224") == "224" && Encode("|") == "%7C"
  {
    EncodeIdentity("192");
    EncodeIdentity("224");
    assert EncodeByte('|') == "%7C";
  }

  /** `urlencode("192|224")` keeps the digits and writes the `|` as `%7C`. */
  lemma EncodeExample()
    ensures Encode("192|224") == "192%7C224"
  {
    ExamplePieces();
    ExampleTexts();
    EncodeAppend("192", "|" + "224");
    EncodeAppend("|", "224");
  }
}
