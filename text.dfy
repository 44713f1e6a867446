/** Bytes, ASCII text and decimal numbers, as the .NET runtime treats them. */
module Text {

  newtype byte = b: int | 0 <= b < 256

  /** The byte value of '\n'. */
  const NewLineByte: byte := 10

  /** The platform line break `Environment.NewLine` that `AppendLine` and `WriteLine` emit. */
  datatype LineBreak = Lf | CrLf {
    function Chars(): (s: string)
      ensures |s| > 0
    {
      if Lf? then "\n" else "\r\n"
    }
  }

  predicate IsAsciiChar(c: char) {
    c as int < 128
  }

  predicate IsAscii(s: string) {
    forall i :: 0 <= i < |s| ==> IsAsciiChar(s[i])
  }

  /** `Encoding.ASCII.GetString` on one byte: bytes above 0x7F become '?'. */
  function DecodeByte(b: byte): char {
    if b < 128 then b as int as char else '?'
  }

  function DecodeAscii(bs: seq<byte>): (s: string)
    ensures |s| == |bs|
    ensures IsAscii(s)
  {
    seq(|bs|, i requires 0 <= i < |bs| => DecodeByte(bs[i]))
  }

  /** `Encoding.ASCII.GetBytes` on one character: characters above U+007F become '?'. */
  function EncodeChar(c: char): byte {
    if c as int < 128 then c as int as byte else '?' as int as byte
  }

  function EncodeAscii(s: string): (bs: seq<byte>)
    ensures |bs| == |s|
  {
    seq(|s|, i requires 0 <= i < |s| => EncodeChar(s[i]))
  }

  /** ASCII text survives encoding then decoding. */
  lemma DecodeOfEncode(s: string)
    requires IsAscii(s)
    ensures DecodeAscii(EncodeAscii(s)) == s
  {
  }

  /** Bytes below 0x80 survive decoding then encoding. */
  lemma EncodeOfDecode(bs: seq<byte>)
    requires forall i :: 0 <= i < |bs| ==> bs[i] < 128
    ensures EncodeAscii(DecodeAscii(bs)) == bs
  {
  }

  /** The characters a regular expression's `\d` matches in ASCII text. */
  predicate IsDigit(c: char) {
    '0' <= c <= '9'
  }

  predicate AllDigits(s: string) {
    forall i :: 0 <= i < |s| ==> IsDigit(s[i])
  }

  /** The characters a regular expression's `\s` matches in ASCII text. */
  predicate IsWhiteSpace(c: char) {
    c == ' ' || c == '\t' || c == '\n' || c == '\r' || c == '\U{B}' || c == '\U{C}'
  }

  function DigitChar(d: nat): (c: char)
    requires d < 10
    ensures IsDigit(c)
  {
    ('0' as int + d) as char
  }

  /** The value of a run of decimal digits, most significant first. */
  function DecimalValue(s: string): nat
    requires AllDigits(s)
  {
    if s == [] then 0 else DecimalValue(s[..|s| - 1]) * 10 + (s[|s| - 1] as int - '0' as int)
  }

  /** The decimal text of a number, as `int.ToString()` writes it. */
  function ShowNat(n: nat): (s: string)
    ensures |s| > 0 && AllDigits(s)
    ensures s[0] == '0' ==> n == 0
  {
    if n < 10 then [DigitChar(n)] else ShowNat(n / 10) + [DigitChar(n % 10)]
  }

  /** Reading back the decimal text of a number gives the number. */
  lemma {:induction false} DecimalValueOfShowNat(n: nat)
    ensures DecimalValue(ShowNat(n)) == n
  {
    if n >= 10 {
      var s := ShowNat(n);
      assert s[..|s| - 1] == ShowNat(n / 10);
      DecimalValueOfShowNat(n / 10);
    }
  }

  /** Decimal text without a leading zero is the text of its value. */
  lemma {:induction false} ShowNatOfDecimalValue(s: string)
    requires AllDigits(s) && |s| > 0
    requires s[0] != '0' || |s| == 1
    ensures ShowNat(DecimalValue(s)) == s
  {
    if |s| > 1 {
      var init := s[..|s| - 1];
      assert init[0] == s[0];
      ShowNatOfDecimalValue(init);
      var v := DecimalValue(init);
      assert v > 0;
      var n := DecimalValue(s);
      assert n / 10 == v && n % 10 == s[|s| - 1] as int - '0' as int;
    }
  }

  /** Letters A-Z lowered, every other character kept, as `ToLowerInvariant` does in ASCII text. */
  function ToLowerChar(c: char): char {
    if 'A' <= c <= 'Z' then (c as int + 32) as char else c
  }

  function ToLower(s: string): (r: string)
    ensures |r| == |s|
  {
    seq(|s|, i requires 0 <= i < |s| => ToLowerChar(s[i]))
  }

  /** Equal up to the case of ASCII letters, as an independent reference for comparisons after `ToLower`. */
  predicate EqualsIgnoringCase(s: string, t: string) {
    |s| == |t| &&
    forall i :: 0 <= i < |s| ==> s[i] == t[i] || (IsLetter(t[i]) && SwapCase(t[i]) == s[i])
  }

  predicate IsLetter(c: char) {
    'a' <= c <= 'z' || 'A' <= c <= 'Z'
  }

  function SwapCase(c: char): char
    requires IsLetter(c)
  {
    if 'a' <= c <= 'z' then (c as int - 32) as char else (c as int + 32) as char
  }

  predicate IsLowerCase(s: string) {
    forall i :: 0 <= i < |s| ==> !('A' <= s[i] <= 'Z')
  }

  /** Lowering a string and comparing with a lower-case word is comparison ignoring case. */
  lemma ToLowerMatchesIgnoringCase(s: string, word: string)
    requires IsLowerCase(word)
    ensures ToLower(s) == word <==> EqualsIgnoringCase(s, word)
  {
    if EqualsIgnoringCase(s, word) {
      assert forall i :: 0 <= i < |s| ==> ToLower(s)[i] == word[i];
    }
  }

  /** The number of UTF-16 code units of a string, which is what .NET's `String.Length` counts. */
  function Utf16Length(s: string): (n: nat)
    ensures |s| <= n <= 2 * |s|
  {
    if s == [] then 0 else Utf16Length(s[..|s| - 1]) + (if s[|s| - 1] as int >= 0x1_0000 then 2 else 1)
  }

  /** The number of bytes of the UTF-8 encoding of a string. */
  function Utf8Length(s: string): (n: nat)
    ensures |s| <= n <= 4 * |s|
  {
    if s == [] then 0
    else
      var c := s[|s| - 1] as int;
      Utf8Length(s[..|s| - 1]) + (if c < 0x80 then 1 else if c < 0x800 then 2 else if c < 0x1_0000 then 3 else 4)
  }

  /** A character from U+0080 to U+07FF is one UTF-16 code unit but two UTF-8 bytes. */
  lemma TwoByteChar(c: char)
    requires 0x80 <= c as int < 0x800
    ensures Utf16Length([c]) == 1 && Utf8Length([c]) == 2
  {
    assert [c][..0] == [];
  }

  /** In ASCII text a character is one UTF-16 code unit and one UTF-8 byte. */
  lemma {:induction false} AsciiLengthsAgree(s: string)
    requires IsAscii(s)
    ensures Utf16Length(s) == |s| && Utf8Length(s) == |s|
  {
    if s != [] {
      assert IsAsciiChar(s[|s| - 1]);
      AsciiLengthsAgree(s[..|s| - 1]);
    }
  }

  /** A text made of three parts gives each part back. */
  lemma Parts(t: string, a: string, b: string, c: string)
    requires t == a + b + c
    ensures |t| == |a| + |b| + |c|
    ensures t[..|a|] == a && t[|a|..|a| + |b|] == b && t[|a| + |b|..] == c
    ensures t[|a|..] == b + c
  {
  }

  /** The longest run of decimal digits at the start of a string. */
  function DigitRun(s: string): (r: string)
    ensures |r| <= |s| && r == s[..|r|] && AllDigits(r)
    ensures |r| < |s| ==> !IsDigit(s[|r|])
  {
    if s == [] || !IsDigit(s[0]) then [] else [s[0]] + DigitRun(s[1..])
  }

  /** Digits followed by anything that does not start with a digit read back as those digits. */
  lemma {:induction false} DigitRunOfDigits(digits: string, rest: string)
    requires AllDigits(digits)
    requires rest == [] || !IsDigit(rest[0])
    ensures DigitRun(digits + rest) == digits
  {
    if digits != [] {
      assert (digits + rest)[1..] == digits[1..] + rest;
      DigitRunOfDigits(digits[1..], rest);
    } else {
      assert digits + rest == rest;
    }
  }
}
