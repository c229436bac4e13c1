/** The pieces of PHP's string library that the client relies on: byte strings, `join`,
    `rtrim` and integer-to-string conversion. `explode` (`Split`) is not called by the
    client; it is the inverse of `join` used to read joined values back in the proofs. */
module PhpStrings {

  /** A PHP string is a sequence of bytes; here each byte is a `char` below 256. */
  predicate IsByteString(s: string) {
    forall i | 0 <= i < |s| :: s[i] as int < 256
  }

  type Bytes = s: string | IsByteString(s)

  /** Splits `s` at every occurrence of `sep`, as PHP's `explode` does; used only to read
      joined values back. */
  function Split(s: string, sep: char): (parts: seq<string>)
    ensures |parts| >= 1
    ensures forall i | 0 <= i < |parts| :: sep !in parts[i]
  {
    if s == [] then [[]]
    else
      var rest := Split(s[1..], sep);
      if s[0] == sep then [[]] + rest
      else [[s[0]] + rest[0]] + rest[1..]
  }

  /** The summed length of `parts`. */
  function TotalLength(parts: seq<string>): nat
  {
    if parts == [] then 0 else |parts[0]| + TotalLength(parts[1..])
  }

  /** Glues `parts` together with `sep` between neighbours, as PHP's `implode`/`join` does:
      the result starts with the first part and holds every part and one separator between
      each two neighbours. */
  function Join(parts: seq<string>, sep: char): (r: string)
    ensures parts == [] ==> r == []
    ensures parts != [] ==> parts[0] <= r
    ensures parts != [] ==> |r| == TotalLength(parts) + |parts| - 1
    ensures |parts| > 1 ==> r[|parts[0]|] == sep
  {
    if parts == [] then []
    else if |parts| == 1 then parts[0]
    else parts[0] + [sep] + Join(parts[1..], sep)
  }

  /** Every character of a join is the separator or a character of one of the parts. */
  lemma {:induction false} JoinPreserves(parts: seq<string>, sep: char, ok: char -> bool)
    requires ok(sep)
    requires forall i, j | 0 <= i < |parts| && 0 <= j < |parts[i]| :: ok(parts[i][j])
    ensures forall j | 0 <= j < |Join(parts, sep)| :: ok(Join(parts, sep)[j])
  {
    if |parts| > 1 {
      JoinPreserves(parts[1..], sep, ok);
      var tail := Join(parts[1..], sep);
      forall j | 0 <= j < |parts[0] + [sep] + tail| ensures ok((parts[0] + [sep] + tail)[j]) {
        if j < |parts[0]| {
        } else if j == |parts[0]| {
        } else {
          assert (parts[0] + [sep] + tail)[j] == tail[j - |parts[0]| - 1];
        }
      }
    }
  }

  /** The join of byte strings with a byte separator is a byte string. */
  lemma JoinBytes(parts: seq<Bytes>, sep: char)
    requires sep as int < 256
    ensures IsByteString(Join(parts, sep))
  {
    JoinPreserves(parts, sep, c => c as int < 256);
  }

  /** Splitting a string whose first piece `p` holds no separator. */
  lemma {:induction false} SplitPrefix(p: string, t: string, sep: char)
    requires sep !in p
    ensures Split(p + t, sep) == [p + Split(t, sep)[0]] + Split(t, sep)[1..]
  {
    if p == [] {
      assert p + t == t;
      assert p + Split(t, sep)[0] == Split(t, sep)[0];
    } else {
      assert (p + t)[1..] == p[1..] + t;
      SplitPrefix(p[1..], t, sep);
      assert [p[0]] + (p[1..] + Split(t, sep)[0]) == p + Split(t, sep)[0];
    }
  }

  /** `explode` undoes `implode` when no part holds the separator. */
  lemma {:induction false} SplitJoin(parts: seq<string>, sep: char)
    requires |parts| >= 1
    requires forall i | 0 <= i < |parts| :: sep !in parts[i]
    ensures Split(Join(parts, sep), sep) == parts
  {
    if |parts| == 1 {
      SplitPrefix(parts[0], [], sep);
      assert parts[0] + [] == parts[0];
    } else {
      var tail := Join(parts[1..], sep);
      SplitJoin(parts[1..], sep);
      assert parts[0] + [sep] + tail == parts[0] + ([sep] + tail);
      SplitPrefix(parts[0], [sep] + tail, sep);
      assert ([sep] + tail)[1..] == tail;
      assert parts[0] + [] == parts[0];
    }
  }

  /** `implode` undoes `explode`. */
  lemma {:induction false} JoinSplit(s: string, sep: char)
    ensures Join(Split(s, sep), sep) == s
  {
    if s != [] {
      var rest := Split(s[1..], sep);
      JoinSplit(s[1..], sep);
      if s[0] == sep {
        assert ([[]] + rest)[1..] == rest;
      } else if |rest| == 1 {
      } else {
        var parts := [[s[0]] + rest[0]] + rest[1..];
        assert parts[1..] == rest[1..];
        assert Join(rest, sep) == rest[0] + [sep] + Join(rest[1..], sep);
        assert [s[0]] + s[1..] == s;
      }
    }
  }

  /** PHP's `rtrim(s, c)` for a single character: strips every trailing `c`. */
  function RTrim(s: string, c: char): (r: string)
    ensures r <= s
    ensures r == [] || r[|r| - 1] != c
    ensures forall i | |r| <= i < |s| :: s[i] == c
  {
    if s != [] && s[|s| - 1] == c then RTrim(s[..|s| - 1], c) else s
  }

  /** Trimming a single `c` appended to a string that holds no `c` gives the string back. */
  lemma RTrimOne(p: string, c: char)
    requires c !in p
    ensures RTrim(p + [c], c) == p
  {
    assert (p + [c])[..|p|] == p;
  }

  predicate IsDigit(c: char) {
    '0' <= c <= '9'
  }

  function DigitChar(d: int): (c: char)
    requires 0 <= d < 10
  {
    "0123456789"[d]
  }

  function DigitValue(c: char): int
    requires IsDigit(c)
  {
    c as int - '0' as int
  }

  /** Base-10 digits of a natural number, most significant first, with no leading zero. */
  function NaturalDigits(n: nat): (r: string)
    ensures |r| >= 1
    ensures forall i | 0 <= i < |r| :: IsDigit(r[i])
    ensures |r| > 1 ==> r[0] != '0'
  {
    if n < 10 then [DigitChar(n)] else NaturalDigits(n / 10) + [DigitChar(n % 10)]
  }

  /** PHP's conversion of an integer to a string: optional `-`, then the decimal digits. */
  function Decimal(n: int): (r: Bytes)
    ensures r != []
    ensures forall i | 0 <= i < |r| :: IsDigit(r[i]) || (i == 0 && r[i] == '-')
    ensures n < 0 <==> r[0] == '-'
    ensures n < 0 ==> |r| >= 2 && r[1] != '0'
    ensures n >= 0 && |r| > 1 ==> r[0] != '0'
  {
    if n < 0 then "-" + NaturalDigits(-n) else NaturalDigits(n)
  }

  /** Reads back a string of decimal digits. */
  function ParseNatural(s: string): nat
    requires forall i | 0 <= i < |s| :: IsDigit(s[i])
  {
    if s == [] then 0 else ParseNatural(s[..|s| - 1]) * 10 + DigitValue(s[|s| - 1])
  }

  /** Reads back the output of `Decimal`. */
  function ParseDecimal(s: string): int
    requires s != [] && (s[0] == '-' || IsDigit(s[0]))
    requires forall i | 1 <= i < |s| :: IsDigit(s[i])
  {
    if s[0] == '-' then 0 - ParseNatural(s[1..]) as int else ParseNatural(s)
  }

  lemma {:induction false} NaturalDigitsRoundTrip(n: nat)
    ensures ParseNatural(NaturalDigits(n)) == n
  {
    if n >= 10 {
      NaturalDigitsRoundTrip(n / 10);
      var s := NaturalDigits(n / 10) + [DigitChar(n % 10)];
      assert s == NaturalDigits(n);
      assert s[..|s| - 1] == NaturalDigits(n / 10);
      assert DigitValue(s[|s| - 1]) == n % 10;
      assert ParseNatural(s) == ParseNatural(NaturalDigits(n / 10)) * 10 + n % 10;
    }
  }

  /** `Decimal` is injective: the integer can always be read back from its text. */
  lemma DecimalRoundTrip(n: int)
    ensures var s := Decimal(n); s != [] && (s[0] == '-' || IsDigit(s[0]))
    ensures forall i | 1 <= i < |Decimal(n)| :: IsDigit(Decimal(n)[i])
    ensures ParseDecimal(Decimal(n)) == n
  {
    if n < 0 {
      assert Decimal(n)[1..] == NaturalDigits(-n);
      NaturalDigitsRoundTrip(-n);
    } else {
      NaturalDigitsRoundTrip(n);
    }
  }
}
