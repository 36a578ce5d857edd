/** Base64 as `btoa` and `atob` implement it: the alphabet and padding of section 4
    of RFC 4648 for encoding, and the "forgiving-base64 decode" of the WHATWG
    Infra standard for decoding (padding may be left off; a length that leaves a
    remainder of 1 when divided by 4, or any character outside the alphabet once
    the padding is removed, is rejected). JavaScript "binary strings" are strings
    whose characters all have codes below 256. */
module Base64 {
  import opened Wrappers

  type Byte = x: int | 0 <= x < 256
  type Sextet = x: int | 0 <= x < 64

  /** The DOMException that `atob` and `btoa` throw. */
  datatype DomError = InvalidCharacterError

  /** The alphabet of section 4 of RFC 4648, in value order. */
  const Upper: string := "ABCDEFGHIJKLMNOPQRSTUVWXYZ"
  const Lower: string := "abcdefghijklmnopqrstuvwxyz"
  const Digits: string := "0123456789"
  const Alphabet: string := Upper + Lower + Digits + "+/"

  /** The character that encodes a six-bit value. */
  function Char(v: Sextet): char
  {
    if v < 26 then ('A' as int + v) as char
    else if v < 52 then ('a' as int + v - 26) as char
    else if v < 62 then ('0' as int + v - 52) as char
    else if v == 62 then '+'
    else '/'
  }

  /** The six-bit value a character encodes, or -1 for a character outside the alphabet. */
  function Value(c: char): (v: int)
    ensures -1 <= v < 64
  {
    if 'A' <= c <= 'Z' then c as int - 'A' as int
    else if 'a' <= c <= 'z' then c as int - 'a' as int + 26
    else if '0' <= c <= '9' then c as int - '0' as int + 52
    else if c == '+' then 62
    else if c == '/' then 63
    else -1
  }

  predicate InAlphabet(c: char)
  {
    Value(c) >= 0
  }

  /** `Char` is the table of section 4 of RFC 4648, `Value` inverts it, and it
      never yields the pad character. */
  lemma CharIsAlphabet(v: Sextet)
    ensures Char(v) == Alphabet[v]
    ensures Value(Char(v)) == v
    ensures Char(v) != '='
  {
    if v < 26 {
      assert Alphabet[v] == Upper[v];
    } else if v < 52 {
      assert Alphabet[v] == Lower[v - 26];
    } else if v < 62 {
      assert Alphabet[v] == Digits[v - 52];
    }
  }

  /** Every character `InAlphabet` accepts is in the RFC 4648 table, at the index
      of its value. */
  lemma ValueThenChar(c: char)
    requires InAlphabet(c)
    ensures Char(Value(c)) == c
    ensures Alphabet[Value(c)] == c
  {
    CharIsAlphabet(Value(c));
  }

  // ---- encoding ----

  /** The six-bit groups of the encoding of `b`, before padding: four for every
      three bytes, then two for a trailing byte or three for two trailing bytes. */
  function Sextets(b: seq<Byte>): (r: seq<Sextet>)
    ensures |r| == |b| / 3 * 4 + (if |b| % 3 == 0 then 0 else |b| % 3 + 1)
  {
    if |b| == 0 then []
    else if |b| == 1 then [b[0] / 4, b[0] % 4 * 16]
    else if |b| == 2 then [b[0] / 4, b[0] % 4 * 16 + b[1] / 16, b[1] % 16 * 4]
    else [b[0] / 4, b[0] % 4 * 16 + b[1] / 16, b[1] % 16 * 4 + b[2] / 64, b[2] % 64] + Sextets(b[3..])
  }

  function Chars(vs: seq<Sextet>): (s: string)
    ensures |s| == |vs|
    ensures forall k :: 0 <= k < |vs| ==> s[k] == Char(vs[k])
  {
    if vs == [] then [] else [Char(vs[0])] + Chars(vs[1..])
  }

  /** '=' padding up to a multiple of four characters. */
  function Padding(n: nat): string
  {
    if n % 3 == 1 then "==" else if n % 3 == 2 then "=" else ""
  }

  /** Standard base64 with '=' padding (section 4 of RFC 4648). */
  function Encode(b: seq<Byte>): string
  {
    Chars(Sextets(b)) + Padding(|b|)
  }

  /** `String.fromCharCode(...bytes)`: one character per byte. */
  function BinaryString(b: seq<Byte>): (s: string)
    ensures |s| == |b|
    ensures forall k :: 0 <= k < |b| ==> s[k] as int == b[k]
  {
    if b == [] then [] else [b[0] as char] + BinaryString(b[1..])
  }

  /** The character codes of a binary string. */
  function CharCodes(s: string): (b: seq<Byte>)
    requires forall k :: 0 <= k < |s| ==> s[k] as int < 256
    ensures |b| == |s|
    ensures forall k :: 0 <= k < |s| ==> b[k] == s[k] as int
  {
    if s == [] then [] else [s[0] as int] + CharCodes(s[1..])
  }

  /** `btoa(s)`: InvalidCharacterError when a character code is 256 or more,
      otherwise the encoding of the character codes. */
  function Btoa(s: string): Result<string, DomError>
  {
    if forall k :: 0 <= k < |s| ==> s[k] as int < 256 then Ok(Encode(CharCodes(s)))
    else Err(InvalidCharacterError)
  }

  /** `ab2base64(bytes)` = `btoa(String.fromCharCode(...bytes))`. */
  function Ab2Base64(b: seq<Byte>): string
  {
    Encode(b)
  }

  /** The arithmetic of the encoded length: four characters per started group
      of three bytes. */
  lemma EncodedLength(n: nat)
    ensures n / 3 * 4 + (if n % 3 == 0 then 0 else n % 3 + 1) + |Padding(n)| == 4 * ((n + 2) / 3)
  {
    var q := n / 3;
    assert n == 3 * q + n % 3;
    assert (n + 2) / 3 == if n % 3 == 0 then q else q + 1;
  }

  /** The encoding has 4·⌈n/3⌉ characters. */
  lemma Ab2Base64Length(b: seq<Byte>)
    ensures |Ab2Base64(b)| == 4 * ((|b| + 2) / 3)
  {
    EncodedLength(|b|);
  }

  /** Every character of the encoding is from the alphabet except a '=' among
      the last two. */
  lemma Ab2Base64Alphabet(b: seq<Byte>)
    ensures var r := Ab2Base64(b);
      && (forall k :: 0 <= k < |r| ==> InAlphabet(r[k]) || r[k] == '=')
      && (forall k :: 0 <= k < |r| && r[k] == '=' ==> k >= |r| - 2)
  {
    var body := Chars(Sextets(b));
    ValuesOfChars(Sextets(b));
    var r := body + Padding(|b|);
    assert Ab2Base64(b) == r;
    forall k | 0 <= k < |body|
      ensures r[k] != '='
    {
      assert r[k] == body[k];
    }
  }

  /** `btoa` never throws on the binary string of a byte sequence, and its result
      is `Ab2Base64`: 4·⌈n/3⌉ characters, every one from the alphabet except a '='
      among the last two. */
  lemma Ab2Base64Spec(b: seq<Byte>)
    ensures var r := Ab2Base64(b);
      && Btoa(BinaryString(b)) == Ok(r)
      && |r| == 4 * ((|b| + 2) / 3)
      && (forall k :: 0 <= k < |r| ==> InAlphabet(r[k]) || r[k] == '=')
      && (forall k :: 0 <= k < |r| && r[k] == '=' ==> k >= |r| - 2)
  {
    assert CharCodes(BinaryString(b)) == b;
    Ab2Base64Length(b);
    Ab2Base64Alphabet(b);
  }

  // ---- decoding ----

  /** Forgiving-base64 step 2: when the length is a multiple of four, one or two
      trailing '=' are removed. */
  function StripPadding(s: string): string
  {
    if |s| % 4 == 0 && |s| >= 2 && s[|s| - 1] == '=' && s[|s| - 2] == '=' then s[..|s| - 2]
    else if |s| % 4 == 0 && |s| >= 1 && s[|s| - 1] == '=' then s[..|s| - 1]
    else s
  }

  function Values(s: string): (vs: seq<Sextet>)
    requires forall k :: 0 <= k < |s| ==> InAlphabet(s[k])
    ensures |vs| == |s|
    ensures forall k :: 0 <= k < |s| ==> vs[k] == Value(s[k])
  {
    if s == [] then [] else assert InAlphabet(s[0]); [Value(s[0]) as Sextet] + Values(s[1..])
  }

  /** Bytes from six-bit groups: three per full group of four; a trailing two or
      three groups give one or two bytes and their leftover bits are dropped. */
  function Bytes(vs: seq<Sextet>): seq<Byte>
  {
    if |vs| < 2 then []
    else
      var b0: Byte := vs[0] as int * 4 + vs[1] as int / 16;
      if |vs| == 2 then [b0]
      else
        var b1: Byte := vs[1] as int % 16 * 16 + vs[2] as int / 4;
        if |vs| == 3 then [b0, b1]
        else
          var b2: Byte := vs[2] as int % 4 * 64 + vs[3] as int;
          [b0, b1, b2] + Bytes(vs[4..])
  }

  /** `atob(s)`: the binary string `s` decodes to, or InvalidCharacterError. */
  function Atob(s: string): (r: Result<string, DomError>)
    ensures r.Ok? ==> forall k :: 0 <= k < |r.value| ==> r.value[k] as int < 256
  {
    var t := StripPadding(s);
    if |t| % 4 == 1 then Err(InvalidCharacterError)
    else if exists k :: 0 <= k < |t| && !InAlphabet(t[k]) then Err(InvalidCharacterError)
    else Ok(BinaryString(Bytes(Values(t))))
  }

  /** The bytes `base642ab(s)` produces: `atob` followed by the character codes. */
  function Base64ToBytes(s: string): Result<seq<Byte>, DomError>
  {
    match Atob(s)
    case Ok(bin) => Ok(CharCodes(bin))
    case Err(e) => Err(e)
  }

  /** `base642ab(s)`: decodes with `atob`, then copies the character codes of the
      result into a fresh byte array. */
  method Base642Ab(base64: string) returns (r: Result<seq<Byte>, DomError>)
    ensures r == Base64ToBytes(base64)
  {
    var decoded := Atob(base64);
    if decoded.Err? {
      return Err(decoded.error);
    }
    var bytes := CopyCharCodes(decoded.value);
    return Ok(bytes);
  }

  /** The loop of `base642ab`: a fresh byte array filled one index at a time with
      the character codes of the binary string. */
  method CopyCharCodes(binary: string) returns (b: seq<Byte>)
    requires forall k :: 0 <= k < |binary| ==> binary[k] as int < 256
    ensures b == CharCodes(binary)
  {
    var bytes := new Byte[|binary|];
    for i := 0 to |binary|
      invariant forall k :: 0 <= k < i ==> bytes[k] == binary[k] as int
    {
      bytes[i] := binary[i] as int;
    }
    assert bytes[..] == CharCodes(binary);
    return bytes[..];
  }

  // ---- round trip ----

  lemma {:induction false} BytesOfSextets(b: seq<Byte>)
    ensures Bytes(Sextets(b)) == b
    decreases |b|
  {
    if |b| >= 3 {
      BytesOfSextets(b[3..]);
      var head := Sextets(b)[..4];
      assert Sextets(b)[4..] == Sextets(b[3..]);
      assert Bytes(Sextets(b)) == [b[0], b[1], b[2]] + Bytes(Sextets(b[3..]));
      assert b == [b[0], b[1], b[2]] + b[3..];
    }
  }

  lemma {:induction false} ValuesOfChars(vs: seq<Sextet>)
    ensures forall k :: 0 <= k < |vs| ==> InAlphabet(Chars(vs)[k])
    ensures Values(Chars(vs)) == vs
  {
    forall k | 0 <= k < |vs| ensures Value(Chars(vs)[k]) == vs[k] {
      CharIsAlphabet(vs[k]);
    }
  }

  /** Removing the padding of an unpadded body followed by the padding that
      completes it to a multiple of four characters gives back the body. */
  lemma StripPaddingOfPadded(body: string, pad: string)
    requires |body| == 0 || body[|body| - 1] != '='
    requires (pad == "" && |body| % 4 == 0) || (pad == "=" && |body| % 4 == 3) || (pad == "==" && |body| % 4 == 2)
    ensures StripPadding(body + pad) == body
  {
    var e := body + pad;
    if pad == "==" {
      assert e[..|e| - 2] == body;
    } else if pad == "=" {
      assert e[|e| - 2] == body[|body| - 1];
      assert e[..|e| - 1] == body;
    } else {
      assert e == body;
    }
  }

  lemma StripPaddingOfEncode(b: seq<Byte>)
    ensures StripPadding(Encode(b)) == Chars(Sextets(b))
  {
    var body := Chars(Sextets(b));
    var q := |b| / 3;
    assert |b| == 3 * q + |b| % 3;
    if |body| > 0 {
      CharIsAlphabet(Sextets(b)[|body| - 1]);
    }
    StripPaddingOfPadded(body, Padding(|b|));
  }

  lemma RemainderOfFour(q: nat, c: nat)
    requires c < 4
    ensures (4 * q + c) % 4 == c
  {
  }

  /** Decoding inverts encoding: `base642ab(ab2base64(b))` gives back `b`. */
  lemma RoundTrip(b: seq<Byte>)
    ensures Atob(Ab2Base64(b)) == Ok(BinaryString(b))
    ensures Base64ToBytes(Ab2Base64(b)) == Ok(b)
  {
    AtobOfEncoding(b);
    assert CharCodes(BinaryString(b)) == b;
  }

  /** `atob` of the encoding is the binary string of the bytes encoded. */
  lemma AtobOfEncoding(b: seq<Byte>)
    ensures Atob(Ab2Base64(b)) == Ok(BinaryString(b))
  {
    var t := StripPadding(Ab2Base64(b));
    StripPaddingOfEncode(b);
    StrippedLength(b);
    ValuesOfChars(Sextets(b));
    assert !exists k :: 0 <= k < |t| && !InAlphabet(t[k]);
    assert Values(t) == Sextets(b);
    BytesOfSextets(b);
  }

  /** The sextets of some bytes never number 1 more than a multiple of four. */
  lemma StrippedLength(b: seq<Byte>)
    ensures |Sextets(b)| % 4 != 1
  {
    var q := |b| / 3;
    assert |b| == 3 * q + |b| % 3;
    var c := if |b| % 3 == 0 then 0 else |b| % 3 + 1;
    assert |Sextets(b)| == 4 * q + c;
    RemainderOfFour(q, c);
  }

  /** A string whose length leaves a remainder of 1 when divided by 4 is always
      rejected (padding is only removed from lengths that are multiples of 4). */
  lemma RejectsRemainderOne(s: string)
    requires |s| % 4 == 1
    ensures Atob(s) == Err(InvalidCharacterError)
  {
  }
}
