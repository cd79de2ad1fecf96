// Decoding one code point from UTF-8 (section 3 of RFC 3629), as Go's utf8.DecodeRuneInString does:
// a byte that starts no well-formed sequence is U+FFFD of size one. A string holds bytes.
module Utf8 {

  datatype Rune = Rune(code: int, size: nat)

  const INVALID := 0xFFFD

  predicate Continuation(c: char) {
    0x80 <= c as int <= 0xBF
  }

  // Length of the sequence a byte starts, 0 when it starts none.
  function Length(first: int): nat {
    if first < 0x80 then 1
    else if 0xC2 <= first <= 0xDF then 2
    else if 0xE0 <= first <= 0xEF then 3
    else if 0xF0 <= first <= 0xF4 then 4
    else 0
  }

  // Overlong forms, surrogates and codes beyond U+10FFFF are excluded by the second byte.
  predicate Second(first: int, c: char) {
    && Continuation(c)
    && (first == 0xE0 ==> c as int >= 0xA0)
    && (first == 0xED ==> c as int <= 0x9F)
    && (first == 0xF0 ==> c as int >= 0x90)
    && (first == 0xF4 ==> c as int <= 0x8F)
  }

  predicate WellFormed(s: string)
    requires s != ""
  {
    var n := Length(s[0] as int);
    && 0 < n <= |s|
    && (n > 1 ==> Second(s[0] as int, s[1]))
    && (n > 2 ==> Continuation(s[2]))
    && (n > 3 ==> Continuation(s[3]))
  }

  function Code(s: string): int
    requires s != "" && WellFormed(s)
  {
    var first := s[0] as int;
    match Length(first)
    case 1 => first
    case 2 => (first - 0xC0) * 64 + (s[1] as int - 0x80)
    case 3 => ((first - 0xE0) * 64 + (s[1] as int - 0x80)) * 64 + (s[2] as int - 0x80)
    case _ => (((first - 0xF0) * 64 + (s[1] as int - 0x80)) * 64 + (s[2] as int - 0x80)) * 64 + (s[3] as int - 0x80)
  }

  function Decode(s: string): (r: Rune)
    requires s != ""
    ensures 0 < r.size <= |s|
  {
    if WellFormed(s) then Rune(Code(s), Length(s[0] as int)) else Rune(INVALID, 1)
  }

  // A text that cannot continue a code point begun before it.
  predicate Fresh(t: string) {
    t == "" || !Continuation(t[0])
  }

  // Putting another text after k bytes changes the first code point only if it cuts it, and then
  // what is left of it is malformed.
  lemma DecodeCut(s: string, k: nat, t: string)
    requires 0 < k <= |s| && Fresh(t)
    ensures Decode(s[..k] + t) == if Decode(s).size <= k then Decode(s) else Rune(INVALID, 1)
  {
    var cut := s[..k] + t;
    assert cut[0] == s[0];
    assert forall i :: 0 <= i < k ==> cut[i] == s[i];
    assert t != "" ==> cut[k] == t[0];
    if WellFormed(cut) {
      assert Length(s[0] as int) <= k;
      assert WellFormed(s);
    } else if WellFormed(s) {
      assert Length(s[0] as int) > k;
    }
  }

  // A well-formed code point is decoded whatever follows it.
  lemma DecodeWhole(g: string, t: string)
    requires g != "" && WellFormed(g)
    ensures Decode(g + t) == Decode(g)
  {
    assert forall i :: 0 <= i < |g| ==> (g + t)[i] == g[i];
  }

  // How many characters a text has; a byte that starts no well-formed sequence counts as one.
  function Characters(s: string): nat
    decreases |s|
  {
    if s == "" then 0 else 1 + Characters(s[Decode(s).size..])
  }

  lemma {:induction false} AsciiCharacters(s: string)
    requires forall i :: 0 <= i < |s| ==> s[i] as int < 0x80
    ensures Characters(s) == |s|
  {
    if s != "" {
      assert Decode(s).size == 1;
      AsciiCharacters(s[1..]);
    }
  }

  // ----- Encoding -----

  // Unicode scalar values: all but the surrogates.
  predicate Scalar(code: int) {
    0 <= code < 0xD800 || 0xE000 <= code <= 0x10FFFF
  }

  function Tail(bits: int): char
    requires 0 <= bits < 64
  {
    (0x80 + bits) as char
  }

  function Encode(code: int): string
    requires Scalar(code)
  {
    if code < 0x80 then [code as char]
    else if code < 0x800 then [(0xC0 + code / 64) as char, Tail(code % 64)]
    else if code < 0x10000 then [(0xE0 + code / 4096) as char, Tail(code / 64 % 64), Tail(code % 64)]
    else [(0xF0 + code / 262144) as char, Tail(code / 4096 % 64), Tail(code / 64 % 64), Tail(code % 64)]
  }

  lemma Digits(code: int)
    requires 0 <= code
    ensures code == code / 64 * 64 + code % 64
    ensures code == (code / 4096 * 64 + code / 64 % 64) * 64 + code % 64
    ensures code == ((code / 262144 * 64 + code / 4096 % 64) * 64 + code / 64 % 64) * 64 + code % 64
  {
    assert code / 64 / 64 == code / 4096;
    assert code / 4096 / 64 == code / 262144;
  }

  lemma DecodeTwo(a: int, b: int, t: string)
    requires 2 <= a < 32 && 0 <= b < 64
    ensures Decode([(0xC0 + a) as char, Tail(b)] + t) == Rune(a * 64 + b, 2)
  {
  }

  lemma DecodeThree(a: int, b: int, c: int, t: string)
    requires 0 <= a < 16 && 0 <= b < 64 && 0 <= c < 64
    requires Scalar((a * 64 + b) * 64 + c) && (a * 64 + b) * 64 + c >= 0x800
    ensures Decode([(0xE0 + a) as char, Tail(b), Tail(c)] + t) == Rune((a * 64 + b) * 64 + c, 3)
  {
  }

  lemma DecodeFour(a: int, b: int, c: int, d: int, t: string)
    requires 0 <= a && 0 <= b < 64 && 0 <= c < 64 && 0 <= d < 64
    requires 0x10000 <= ((a * 64 + b) * 64 + c) * 64 + d <= 0x10FFFF
    ensures a <= 4 && Decode([(0xF0 + a) as char, Tail(b), Tail(c), Tail(d)] + t) ==
      Rune(((a * 64 + b) * 64 + c) * 64 + d, 4)
  {
  }

  // Decoding takes exactly the encodings of scalar values for well formed, and gives them back.
  lemma DecodeEncoded(code: int, t: string)
    requires Scalar(code)
    ensures Decode(Encode(code) + t) == Rune(code, |Encode(code)|)
  {
    Digits(code);
    if code < 0x80 {
      assert ([code as char] + t)[0] as int == code;
    } else if code < 0x800 {
      DecodeTwo(code / 64, code % 64, t);
    } else if code < 0x10000 {
      DecodeThree(code / 4096, code / 64 % 64, code % 64, t);
    } else {
      DecodeFour(code / 262144, code / 4096 % 64, code / 64 % 64, code % 64, t);
    }
  }

  lemma DigitsOf(a: int, b: int, c: int, d: int)
    requires 0 <= a && 0 <= b < 64 && 0 <= c < 64 && 0 <= d < 64
    ensures var code := ((a * 64 + b) * 64 + c) * 64 + d;
      code / 262144 == a && code / 4096 % 64 == b && code / 64 % 64 == c && code % 64 == d
  {
    var code := ((a * 64 + b) * 64 + c) * 64 + d;
    assert code / 64 == (a * 64 + b) * 64 + c;
    assert code / 4096 == a * 64 + b;
    assert code / 262144 == a;
  }

  lemma TwoAreEncoded(s: string)
    requires s != "" && WellFormed(s) && Length(s[0] as int) == 2
    ensures Scalar(Code(s)) && s[..2] == Encode(Code(s))
  {
    DigitsOf(0, 0, s[0] as int - 0xC0, s[1] as int - 0x80);
  }

  lemma ThreeAreEncoded(s: string)
    requires s != "" && WellFormed(s) && Length(s[0] as int) == 3
    ensures Scalar(Code(s)) && s[..3] == Encode(Code(s))
  {
    DigitsOf(0, s[0] as int - 0xE0, s[1] as int - 0x80, s[2] as int - 0x80);
  }

  lemma FourAreEncoded(s: string)
    requires s != "" && WellFormed(s) && Length(s[0] as int) == 4
    ensures Scalar(Code(s)) && s[..4] == Encode(Code(s))
  {
    DigitsOf(s[0] as int - 0xF0, s[1] as int - 0x80, s[2] as int - 0x80, s[3] as int - 0x80);
  }

  lemma WellFormedIsEncoded(s: string)
    requires s != "" && WellFormed(s)
    ensures Scalar(Decode(s).code) && s[..Decode(s).size] == Encode(Decode(s).code)
  {
    match Length(s[0] as int)
    case 1 =>
    case 2 => TwoAreEncoded(s);
    case 3 => ThreeAreEncoded(s);
    case _ => FourAreEncoded(s);
  }
}
