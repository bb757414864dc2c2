/** `HashPassword` and `VerifyPassword`: the stored form scheme$iterations$salt$key. */
module Password {
  import opened Common
  import opened Text
  import opened Numbers
  import opened Blocks
  import opened Pbkdf2

  const SCHEME := "pbkdf2_sha256"
  const ITERATIONS := 600_000
  const KEY_LENGTH := 32
  const MIN_PASSWORD := 12

  // ---------------------------------------------------------------- base64.RawStdEncoding

  function Symbol(x: nat): char
    requires x < 64
  {
    if x < 26 then ('A' as int + x) as char
    else if x < 52 then ('a' as int + x - 26) as char
    else if x < 62 then ('0' as int + x - 52) as char
    else if x == 62 then '+' else '/'
  }

  function Digit(c: char): (d: Option<nat>)
    ensures d.Some? ==> d.value < 64 && Symbol(d.value) == c
  {
    if 'A' <= c <= 'Z' then Some(c as int - 'A' as int)
    else if 'a' <= c <= 'z' then Some(c as int - 'a' as int + 26)
    else if '0' <= c <= '9' then Some(c as int - '0' as int + 52)
    else if c == '+' then Some(62)
    else if c == '/' then Some(63)
    else None
  }

  function Encode(b: Octets): string {
    if |b| == 0 then ""
    else if |b| == 1 then [Symbol(b[0] / 4), Symbol(b[0] % 4 * 16)]
    else if |b| == 2 then
      [Symbol(b[0] / 4), Symbol(b[0] % 4 * 16 + b[1] / 16), Symbol(b[1] % 16 * 4)]
    else
      [Symbol(b[0] / 4), Symbol(b[0] % 4 * 16 + b[1] / 16), Symbol(b[1] % 16 * 4 + b[2] / 64), Symbol(b[2] % 64)]
      + Encode(b[3..])
  }

  /** Line breaks are skipped; a lone trailing symbol or a foreign character is an error; spare trailing
      bits are ignored. */
  function Decode(s: string): Option<Octets> {
    DecodeSymbols(WithoutBreaks(s))
  }

  function WithoutBreaks(s: string): string {
    if s == "" then "" else (if s[0] == '\r' || s[0] == '\n' then "" else [s[0]]) + WithoutBreaks(s[1..])
  }

  function DecodeSymbols(s: string): Option<Octets> {
    if |s| == 0 then Some([])
    else if |s| == 1 || Digit(s[0]).None? || Digit(s[1]).None? then None
    else
      var x, y := Digit(s[0]).value, Digit(s[1]).value;
      var first := x * 4 + y / 16;
      if |s| == 2 then Some([first])
      else if Digit(s[2]).None? then None
      else
        var z := Digit(s[2]).value;
        var second := y % 16 * 16 + z / 4;
        if |s| == 3 then Some([first, second])
        else if Digit(s[3]).None? || DecodeSymbols(s[4..]).None? then None
        else Some([first, second, z % 4 * 64 + Digit(s[3]).value] + DecodeSymbols(s[4..]).value)
  }

  /** Neither the field separator nor a line break. */
  predicate Plain(c: char) {
    c != '$' && c != '\r' && c != '\n'
  }

  lemma DigitOfSymbol(x: nat)
    requires x < 64
    ensures Digit(Symbol(x)) == Some(x)
    ensures Plain(Symbol(x))
  {
  }

  /** Three octets from the four digits that carry them. */
  lemma DigitArithmetic(x: Octet, y: Octet, z: Octet)
    ensures var d1, d2 := x % 4 * 16 + y / 16, y % 16 * 4 + z / 64;
            && 0 <= d1 < 64 && 0 <= d2 < 64
            && x / 4 * 4 + d1 / 16 == x && d1 % 16 * 16 + d2 / 4 == y && d2 % 4 * 64 + z % 64 == z
  {
    var d1, d2 := x % 4 * 16 + y / 16, y % 16 * 4 + z / 64;
    assert d1 / 16 == x % 4 && d1 % 16 == y / 16;
    assert d2 / 4 == y % 16 && d2 % 4 == z / 64;
  }

  lemma EncodedOne(b: Octets)
    requires |b| == 1
    ensures DecodeSymbols(Encode(b)) == Some(b)
    ensures forall i :: 0 <= i < |Encode(b)| ==> Plain(Encode(b)[i])
  {
    DigitArithmetic(b[0], 0, 0);
    var d0, d1 := b[0] / 4, b[0] % 4 * 16;
    DigitOfSymbol(d0);
    DigitOfSymbol(d1);
    assert Encode(b) == [Symbol(d0), Symbol(d1)];
    assert b == [b[0]];
  }

  lemma DecodeThree(d0: nat, d1: nat, d2: nat)
    requires d0 < 64 && d1 < 64 && d2 < 64
    ensures DecodeSymbols([Symbol(d0), Symbol(d1), Symbol(d2)]) == Some([d0 * 4 + d1 / 16, d1 % 16 * 16 + d2 / 4])
    ensures Plain(Symbol(d0)) && Plain(Symbol(d1)) && Plain(Symbol(d2))
  {
    DigitOfSymbol(d0);
    DigitOfSymbol(d1);
    DigitOfSymbol(d2);
  }

  lemma EncodedPair(x: Octet, y: Octet)
    ensures DecodeSymbols([Symbol(x / 4), Symbol(x % 4 * 16 + y / 16), Symbol(y % 16 * 4)]) == Some([x, y])
    ensures Plain(Symbol(x / 4)) && Plain(Symbol(x % 4 * 16 + y / 16)) && Plain(Symbol(y % 16 * 4))
  {
    DigitArithmetic(x, y, 0);
    var d0, d1, d2 := x / 4, x % 4 * 16 + y / 16, y % 16 * 4;
    DecodeThree(d0, d1, d2);
    assert d0 * 4 + d1 / 16 == x && d1 % 16 * 16 + d2 / 4 == y;
  }

  lemma EncodedTwo(b: Octets)
    requires |b| == 2
    ensures DecodeSymbols(Encode(b)) == Some(b)
    ensures forall i :: 0 <= i < |Encode(b)| ==> Plain(Encode(b)[i])
  {
    EncodedPair(b[0], b[1]);
    assert b == [b[0], b[1]];
  }

  lemma EncodedThree(x: Octet, y: Octet, z: Octet, tail: string, rest: Octets)
    requires DecodeSymbols(tail) == Some(rest)
    ensures var head := [Symbol(x / 4), Symbol(x % 4 * 16 + y / 16), Symbol(y % 16 * 4 + z / 64), Symbol(z % 64)];
            && DecodeSymbols(head + tail) == Some([x, y, z] + rest)
            && forall i :: 0 <= i < 4 ==> Plain(head[i])
  {
    DigitArithmetic(x, y, z);
    var d0, d1, d2, d3 := x / 4, x % 4 * 16 + y / 16, y % 16 * 4 + z / 64, z % 64;
    DigitOfSymbol(d0);
    DigitOfSymbol(d1);
    DigitOfSymbol(d2);
    DigitOfSymbol(d3);
    var s := [Symbol(d0), Symbol(d1), Symbol(d2), Symbol(d3)] + tail;
    assert s[4..] == tail;
  }

  lemma EncodedMore(b: Octets)
    requires |b| >= 3 && DecodeSymbols(Encode(b[3..])) == Some(b[3..])
    requires forall i :: 0 <= i < |Encode(b[3..])| ==> Plain(Encode(b[3..])[i])
    ensures DecodeSymbols(Encode(b)) == Some(b)
    ensures forall i :: 0 <= i < |Encode(b)| ==> Plain(Encode(b)[i])
  {
    var x, y, z, tail := b[0], b[1], b[2], Encode(b[3..]);
    var head := [Symbol(x / 4), Symbol(x % 4 * 16 + y / 16), Symbol(y % 16 * 4 + z / 64), Symbol(z % 64)];
    assert Encode(b) == head + tail;
    EncodedThree(x, y, z, tail, b[3..]);
    assert b == [x, y, z] + b[3..];
  }

  lemma {:induction false} EncodedSymbols(b: Octets)
    ensures DecodeSymbols(Encode(b)) == Some(b)
    ensures forall i :: 0 <= i < |Encode(b)| ==> Plain(Encode(b)[i])
    decreases |b|
  {
    if |b| == 1 {
      EncodedOne(b);
    } else if |b| == 2 {
      EncodedTwo(b);
    } else if |b| >= 3 {
      EncodedSymbols(b[3..]);
      EncodedMore(b);
    }
  }

  lemma {:induction false} NoBreaks(s: string)
    requires forall i :: 0 <= i < |s| ==> Plain(s[i])
    ensures WithoutBreaks(s) == s
  {
    if s != "" {
      assert forall i :: 0 <= i < |s[1..]| ==> s[1..][i] == s[i + 1];
      NoBreaks(s[1..]);
    }
  }

  /** Decoding inverts encoding, and the encoding never contains the field separator. */
  lemma Base64RoundTrip(b: Octets)
    ensures Decode(Encode(b)) == Some(b)
    ensures '$' !in Encode(b)
  {
    EncodedSymbols(b);
    NoBreaks(Encode(b));
  }

  const UPPER := "ABCDEFGHIJKLMNOPQRSTUVWXYZ"
  const LOWER := "abcdefghijklmnopqrstuvwxyz"

  /** The 64 symbols of section 4 of RFC 4648, in the order of their values. */
  const ALPHABET := UPPER + LOWER + "0123456789+/"

  lemma UpperAt(x: nat)
    requires x < 26
    ensures UPPER[x] == ('A' as int + x) as char
  {
  }

  lemma LowerAt(x: nat)
    requires x < 26
    ensures LOWER[x] == ('a' as int + x) as char
  {
  }

  lemma SymbolIsAlphabet(x: nat)
    requires x < 64
    ensures |ALPHABET| == 64 && Symbol(x) == ALPHABET[x]
  {
    if x < 26 {
      UpperAt(x);
    } else if x < 52 {
      LowerAt(x - 26);
    }
  }

  /** The 24-bit number of three octets. */
  function Number(x: nat, y: nat, z: nat): nat {
    x * 0x1_0000 + y * 0x100 + z
  }

  /** The four symbols of a 24-bit number, highest bits first. */
  function Group(n: nat): string
    requires n < 0x100_0000
  {
    [ALPHABET[n / 0x4_0000], ALPHABET[n / 0x1000 % 64], ALPHABET[n / 64 % 64], ALPHABET[n % 64]]
  }

  lemma DigitsOf(a: nat, b: nat, c: nat, d: nat)
    requires b < 64 && c < 64 && d < 64
    ensures var n := a * 0x4_0000 + b * 0x1000 + c * 64 + d;
            n / 0x4_0000 == a && n / 0x1000 % 64 == b && n / 64 % 64 == c && n % 64 == d
  {
    DivideBlock(a, 0x4_0000, b * 0x1000 + c * 64 + d);
    DivideBlock(a * 64 + b, 0x1000, c * 64 + d);
    DivideBlock(a, 64, b);
    DivideBlock(a * 0x1000 + b * 64 + c, 64, d);
    DivideBlock(a * 64 + b, 64, c);
  }

  lemma GroupDigits(x: nat, y: nat, z: nat)
    requires x < 256 && y < 256 && z < 256
    ensures var n := Number(x, y, z);
            && n < 0x100_0000 && n / 0x4_0000 == x / 4 && n / 0x1000 % 64 == x % 4 * 16 + y / 16
            && n / 64 % 64 == y % 16 * 4 + z / 64 && n % 64 == z % 64
  {
    assert x == x / 4 * 4 + x % 4 && y == y / 16 * 16 + y % 16 && z == z / 64 * 64 + z % 64;
    var a, b, c, d := x / 4, x % 4 * 16 + y / 16, y % 16 * 4 + z / 64, z % 64;
    assert Number(x, y, z) == a * 0x4_0000 + b * 0x1000 + c * 64 + d;
    DigitsOf(a, b, c, d);
  }

  function Symbols(x: nat, y: nat, z: nat): (s: string)
    requires x < 256 && y < 256 && z < 256
    ensures |s| == 4
  {
    [Symbol(x / 4), Symbol(x % 4 * 16 + y / 16), Symbol(y % 16 * 4 + z / 64), Symbol(z % 64)]
  }

  lemma GroupSymbols(x: nat, y: nat, z: nat)
    requires x < 256 && y < 256 && z < 256
    ensures Number(x, y, z) < 0x100_0000 && Group(Number(x, y, z)) == Symbols(x, y, z)
  {
    GroupDigits(x, y, z);
    SymbolIsAlphabet(x / 4);
    SymbolIsAlphabet(x % 4 * 16 + y / 16);
    SymbolIsAlphabet(y % 16 * 4 + z / 64);
    SymbolIsAlphabet(z % 64);
  }

  lemma EncodeSymbols(b: Octets)
    ensures Encode(b) ==
            if |b| == 0 then ""
            else if |b| == 1 then Symbols(b[0], 0, 0)[..2]
            else if |b| == 2 then Symbols(b[0], b[1], 0)[..3]
            else Symbols(b[0], b[1], b[2]) + Encode(b[3..])
  {
  }

  /** Three octets make the four symbols of their number; two octets at the end make three symbols, one makes two. */
  lemma EncodeGroups(b: Octets)
    ensures |b| >= 1 ==> Number(b[0], if |b| > 1 then b[1] else 0, if |b| > 2 then b[2] else 0) < 0x100_0000
    ensures Encode(b) ==
            if |b| == 0 then ""
            else if |b| == 1 then Group(Number(b[0], 0, 0))[..2]
            else if |b| == 2 then Group(Number(b[0], b[1], 0))[..3]
            else Group(Number(b[0], b[1], b[2])) + Encode(b[3..])
  {
    EncodeSymbols(b);
    if |b| == 1 {
      GroupSymbols(b[0], 0, 0);
    } else if |b| == 2 {
      GroupSymbols(b[0], b[1], 0);
    } else if |b| >= 3 {
      GroupSymbols(b[0], b[1], b[2]);
    }
  }

  // ---------------------------------------------------------------- decimal numbers

  /** `fmt.Sscanf(s, "%d", &n)`: blanks, an optional sign, then at least one digit; the rest is ignored. */
  function ScanInt(s: string): Option<int> {
    var t := TrimLeft(s, c => IsSpace(c) && c != '\n');
    var negative := t != "" && t[0] == '-';
    var digits := if t != "" && (t[0] == '-' || t[0] == '+') then t[1..] else t;
    if digits == "" || !IsDigit(digits[0]) then None
    else
      var n := LeadingDigits(digits, 0);
      if n > MAX_INT then None else Some(if negative then 0 - n as int else n)
  }

  lemma ScanDecimal(n: nat)
    requires n <= MAX_INT
    ensures ScanInt(Decimal(n)) == Some(n)
    ensures '$' !in Decimal(n)
  {
    DecimalDigits(n, "", 0);
    assert Decimal(n) + "" == Decimal(n);
    assert !IsSpace(Decimal(n)[0]);
  }

  // ---------------------------------------------------------------- the stored form

  function Stored(iterations: nat, salt: Octets, key: Octets): string {
    SCHEME + "$" + Decimal(iterations) + "$" + Encode(salt) + "$" + Encode(key)
  }

  /** The parameters `VerifyPassword` reads from a stored form. */
  datatype Parsed = Parsed(iterations: nat, salt: Octets, key: Octets)

  function Parse(encoded: string): Option<Parsed> {
    var parts := Split(encoded, '$');
    if |parts| != 4 || parts[0] != SCHEME then None
    else
      var n := ScanInt(parts[1]);
      if n.None? || n.value <= 0 then None
      else
        var salt, want := Decode(parts[2]), Decode(parts[3]);
        if salt.None? || want.None? || want.value == [] then None
        else Some(Parsed(n.value, salt.value, want.value))
  }

  lemma SplitFour(a: string, b: string, c: string, d: string, sep: char)
    requires sep !in a && sep !in b && sep !in c && sep !in d
    ensures Split(a + [sep] + b + [sep] + c + [sep] + d, sep) == [a, b, c, d]
  {
    SplitWhole(a, sep);
    SplitWhole(b, sep);
    SplitWhole(c, sep);
    SplitWhole(d, sep);
    SplitAppend(a, b, sep);
    SplitAppend(a + [sep] + b, c, sep);
    SplitAppend(a + [sep] + b + [sep] + c, d, sep);
  }

  /** The stored form reads back to exactly its parameters, for every salt, key and iteration count. */
  lemma StoredParses(iterations: nat, salt: Octets, key: Octets)
    requires key != [] && 0 < iterations <= MAX_INT
    ensures Parse(Stored(iterations, salt, key)) == Some(Parsed(iterations, salt, key))
  {
    Base64RoundTrip(salt);
    Base64RoundTrip(key);
    ScanDecimal(iterations);
    SplitFour(SCHEME, Decimal(iterations), Encode(salt), Encode(key), '$');
  }

  /** `HashPassword`; the random salt and the text's UTF-8 octets are parameters. */
  method HashPassword(hmac: Prf, utf8: string -> Octets, password: string, salt: Octets) returns (r: Result<string>)
    requires FixedLength(hmac, 32)
    ensures r.Ok? <==> |utf8(TrimSpace(password))| >= MIN_PASSWORD
    ensures r.Ok? ==>
              r.value == Stored(ITERATIONS, salt, DK(hmac, 32, utf8(TrimSpace(password)), salt, ITERATIONS, KEY_LENGTH))
  {
    var text := TrimSpace(password);
    if |utf8(text)| < MIN_PASSWORD {
      return Err("password must be at least 12 characters");
    }
    var key := Pbkdf2Key(hmac, 32, utf8(text), salt, ITERATIONS, KEY_LENGTH);
    return Ok(Stored(ITERATIONS, salt, key));
  }

  /** `VerifyPassword` */
  ghost predicate Accepts(hmac: Prf, utf8: string -> Octets, password: string, encoded: string)
    requires FixedLength(hmac, 32)
  {
    var p := Parse(encoded);
    p.Some? && DK(hmac, 32, utf8(password), p.value.salt, p.value.iterations, |p.value.key|) == p.value.key
  }

  method VerifyPassword(hmac: Prf, utf8: string -> Octets, password: string, encoded: string) returns (ok: bool)
    requires FixedLength(hmac, 32)
    ensures ok == Accepts(hmac, utf8, password, encoded)
  {
    var parts := Split(encoded, '$');
    if |parts| != 4 || parts[0] != SCHEME {
      return false;
    }
    var iterations := ScanInt(parts[1]);
    if iterations.None? || iterations.value <= 0 {
      return false;
    }
    var salt := Decode(parts[2]);
    if salt.None? {
      return false;
    }
    var want := Decode(parts[3]);
    if want.None? || |want.value| == 0 {
      return false;
    }
    var got := Pbkdf2Key(hmac, 32, utf8(password), salt.value, iterations.value, |want.value|);
    return got == want.value;
  }

  /** Against what `HashPassword` stored, a text is accepted exactly when it derives the same key as the
      trimmed password; the trimmed password itself always is. */
  lemma VerifyAfterHash(hmac: Prf, utf8: string -> Octets, password: string, salt: Octets, attempt: string)
    requires FixedLength(hmac, 32)
    ensures var key := DK(hmac, 32, utf8(TrimSpace(password)), salt, ITERATIONS, KEY_LENGTH);
            && (Accepts(hmac, utf8, attempt, Stored(ITERATIONS, salt, key)) <==>
                DK(hmac, 32, utf8(attempt), salt, ITERATIONS, KEY_LENGTH) == key)
            && Accepts(hmac, utf8, TrimSpace(password), Stored(ITERATIONS, salt, key))
  {
    var key := DK(hmac, 32, utf8(TrimSpace(password)), salt, ITERATIONS, KEY_LENGTH);
    assert |key| == KEY_LENGTH;
    StoredParses(ITERATIONS, salt, key);
  }
}
