/** Hex text, as the `hex` crate reads and writes it: written in lower case, read in either case,
    refused when a character is left over or is no digit. */
module Hex {
  import opened Wrappers

  function DigitText(n: nat): char
    requires n < 16
  {
    "0123456789abcdef"[n]
  }

  function DigitValue(c: char): (r: Option<nat>)
    ensures r.Some? ==> r.value < 16
  {
    if '0' <= c <= '9' then Some(c as int - '0' as int)
    else if 'a' <= c <= 'f' then Some(c as int - 'a' as int + 10)
    else if 'A' <= c <= 'F' then Some(c as int - 'A' as int + 10)
    else None
  }

  function Encode(b: Bytes): string {
    if b == [] then "" else [DigitText(b[0] / 16), DigitText(b[0] % 16)] + Encode(b[1..])
  }

  function Decode(s: string): Option<Bytes> {
    if s == "" then Some([])
    else if |s| == 1 then None
    else
      var high, low, rest := DigitValue(s[0]), DigitValue(s[1]), Decode(s[2..]);
      if high.Some? && low.Some? && rest.Some? then Some([high.value * 16 + low.value] + rest.value) else None
  }

  lemma {:induction false} DecodeEncode(b: Bytes)
    ensures Decode(Encode(b)) == Some(b)
  {
    if b != [] {
      DecodeEncode(b[1..]);
      assert Encode(b)[2..] == Encode(b[1..]);
      DigitRoundTrip(b[0] / 16);
      DigitRoundTrip(b[0] % 16);
      assert b == [b[0] / 16 * 16 + b[0] % 16] + b[1..];
    }
  }

  lemma DigitRoundTrip(n: nat)
    requires n < 16
    ensures DigitValue(DigitText(n)) == Some(n)
  {}

  predicate IsDigit(c: char) {
    '0' <= c <= '9' || 'a' <= c <= 'f' || 'A' <= c <= 'F'
  }

  function LowerCase(s: string): string {
    if s == "" then "" else [if 'A' <= s[0] <= 'F' then (s[0] as int + 32) as char else s[0]] + LowerCase(s[1..])
  }

  /** Text decodes exactly when it is pairs of hex digits of either case, and then to half as many bytes. */
  lemma {:induction false} DecodesIff(s: string)
    ensures Decode(s).Some? <==> |s| % 2 == 0 && forall c <- s :: IsDigit(c)
    ensures Decode(s).Some? ==> |Decode(s).value| * 2 == |s|
  {
    if |s| >= 2 {
      DecodesIff(s[2..]);
      assert s == [s[0], s[1]] + s[2..];
      assert s[0] in s && s[1] in s && forall c <- s[2..] :: c in s;
      assert forall c <- s :: c == s[0] || c == s[1] || c in s[2..];
    } else if |s| == 1 {
      assert s[0] in s;
    }
  }

  /** Digits mean the same in either case. */
  lemma {:induction false} CaseBlind(s: string)
    ensures Decode(LowerCase(s)) == Decode(s)
  {
    if |s| >= 2 {
      CaseBlind(s[2..]);
      assert s[1..][1..] == s[2..];
      assert LowerCase(s)[2..] == LowerCase(s[2..]);
    }
  }
}
