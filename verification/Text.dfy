/** Hex text, prefix trimming and substring search: what the broadcaster does to strings. */
module Text {
  import opened Domain

  // ---- hex.EncodeToString and hex.DecodeString ----

  function Digit(n: nat): char
    requires n < 16
  {
    "0123456789abcdef"[n]
  }

  /** A hex digit in either case, as DecodeString accepts it. */
  function DigitValue(c: char): (v: Option<nat>)
    ensures v.Some? ==> v.value < 16
  {
    if '0' <= c <= '9' then Some(c as int - '0' as int)
    else if 'a' <= c <= 'f' then Some(c as int - 'a' as int + 10)
    else if 'A' <= c <= 'F' then Some(c as int - 'A' as int + 10)
    else None
  }

  function HexEncode(raw: Bytes): string {
    if raw == [] then "" else [Digit(raw[0] / 16), Digit(raw[0] % 16)] + HexEncode(raw[1..])
  }

  /** None is DecodeString's error: an odd length or a character that is no hex digit. */
  function HexDecode(text: string): Option<Bytes> {
    if text == "" then Some([])
    else if |text| == 1 then None
    else
      match (DigitValue(text[0]), DigitValue(text[1]), HexDecode(text[2..]))
      case (Some(high), Some(low), Some(rest)) => Some([high * 16 + low] + rest)
      case _ => None
  }

  /** strings.TrimPrefix(s, "0x") */
  function TrimHexPrefix(s: string): string { if |s| >= 2 && s[..2] == "0x" then s[2..] else s }

  lemma {:induction false} HexRoundTrip(raw: Bytes)
    ensures HexDecode(HexEncode(raw)) == Some(raw)
    ensures |HexEncode(raw)| == 2 * |raw|
  {
    if raw != [] {
      HexRoundTrip(raw[1..]);
      var text := HexEncode(raw);
      assert text[2..] == HexEncode(raw[1..]);
      DigitRoundTrip(raw[0] / 16);
      DigitRoundTrip(raw[0] % 16);
      assert raw == [raw[0]] + raw[1..];
    }
  }

  lemma DigitRoundTrip(n: nat)
    requires n < 16
    ensures DigitValue(Digit(n)) == Some(n) && Digit(n) != 'x'
  {
  }

  /** What is read back from a stored row is exactly what was stored: encoded text never looks prefixed. */
  lemma StoredRoundTrip(raw: Bytes)
    ensures HexDecode(TrimHexPrefix(HexEncode(raw))) == Some(raw)
  {
    HexRoundTrip(raw);
    if raw != [] {
      DigitRoundTrip(raw[0] % 16);
      assert HexEncode(raw)[1] != 'x';
    }
  }

  // ---- isAlreadyKnownError ----

  function LowerChar(c: char): char { if 'A' <= c <= 'Z' then (c as int + 32) as char else c }

  function Lower(s: string): (low: string)
    ensures |low| == |s| && forall i :: 0 <= i < |s| ==> low[i] == LowerChar(s[i])
  {
    seq(|s|, i requires 0 <= i < |s| => LowerChar(s[i]))
  }

  predicate Contains(s: string, part: string) { exists i :: 0 <= i <= |s| && OccursAt(s, part, i) }

  predicate OccursAt(s: string, part: string, i: nat) { i + |part| <= |s| && s[i..i + |part|] == part }

  const ALREADY_KNOWN := "already known"
  const NONCE_TOO_LOW := "nonce too low"

  /** The two phrasings, in any case and anywhere in the message, that the sender takes for success. */
  predicate IsAlreadyKnownError(message: string) {
    Contains(Lower(message), ALREADY_KNOWN) || Contains(Lower(message), NONCE_TOO_LOW)
  }
}
