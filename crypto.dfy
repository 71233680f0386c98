/**
 * The cryptographic collaborators of the account-access core:
 * Node's `randomBytes(n).toString('hex')` rendering of a recovery token,
 * and bcrypt's `hash`/`compare` pair, kept abstract.
 */
module Crypto {
  import opened Wrappers

  newtype byte = x: int | 0 <= x < 256

  /** Number of random bytes behind a recovery token (`randomBytes(32)`). */
  const RecoveryTokenBytes := 32

  predicate IsLowerHexDigit(c: char) {
    '0' <= c <= '9' || 'a' <= c <= 'f'
  }

  predicate IsLowerHex(s: string) {
    forall i :: 0 <= i < |s| ==> IsLowerHexDigit(s[i])
  }

  function HexDigit(n: int): (c: char)
    requires 0 <= n < 16
    ensures IsLowerHexDigit(c)
  {
    if n < 10 then ('0' as int + n) as char else ('a' as int + n - 10) as char
  }

  function HexValue(c: char): (n: int)
    requires IsLowerHexDigit(c)
    ensures 0 <= n < 16 && HexDigit(n) == c
  {
    if c <= '9' then c as int - '0' as int else c as int - 'a' as int + 10
  }

  lemma HexDigitValue(n: int)
    requires 0 <= n < 16
    ensures HexValue(HexDigit(n)) == n
  {
  }

  /** `Buffer.toString('hex')`: two lower-case digits per byte, high nibble first. */
  function HexEncode(bytes: seq<byte>): (s: string)
    ensures |s| == 2 * |bytes|
    ensures IsLowerHex(s)
  {
    if bytes == [] then []
    else [HexDigit(bytes[0] as int / 16), HexDigit(bytes[0] as int % 16)] + HexEncode(bytes[1..])
  }

  /** Reads a lower-case hex string back into bytes; `None` on an odd length or a non-digit. */
  function HexDecode(s: string): (r: Option<seq<byte>>)
    ensures r.Some? ==> 2 * |r.value| == |s|
    decreases |s|
  {
    if s == [] then Some([])
    else if |s| == 1 || !IsLowerHexDigit(s[0]) || !IsLowerHexDigit(s[1]) then None
    else match HexDecode(s[2..])
      case None => None
      case Some(rest) => Some([(HexValue(s[0]) * 16 + HexValue(s[1])) as byte] + rest)
  }

  /** Decoding recovers every encoded byte string, so distinct byte strings give distinct tokens. */
  lemma {:induction false} HexDecodeEncode(bytes: seq<byte>)
    ensures HexDecode(HexEncode(bytes)) == Some(bytes)
    decreases |bytes|
  {
    if bytes != [] {
      var b := bytes[0] as int;
      var s := HexEncode(bytes);
      assert s[0] == HexDigit(b / 16) && s[1] == HexDigit(b % 16) && s[2..] == HexEncode(bytes[1..]);
      HexDecodeEncode(bytes[1..]);
      HexDigitValue(b / 16);
      HexDigitValue(b % 16);
      assert (b / 16) * 16 + b % 16 == b;
      assert [bytes[0]] + bytes[1..] == bytes;
    }
  }

  /** Every string that decodes is the encoding of what it decodes to. */
  lemma {:induction false} HexEncodeDecode(s: string, bytes: seq<byte>)
    requires HexDecode(s) == Some(bytes)
    ensures HexEncode(bytes) == s
    decreases |s|
  {
    if s != [] {
      var rest := HexDecode(s[2..]).value;
      HexEncodeDecode(s[2..], rest);
      var b := HexValue(s[0]) * 16 + HexValue(s[1]);
      assert bytes == [b as byte] + rest;
      assert b / 16 == HexValue(s[0]) && b % 16 == HexValue(s[1]);
      assert s == [s[0], s[1]] + s[2..];
    }
  }

  /** Two byte strings encode to the same token only when they are equal. */
  lemma HexEncodeInjective(a: seq<byte>, b: seq<byte>)
    requires HexEncode(a) == HexEncode(b)
    ensures a == b
  {
    HexDecodeEncode(a);
    HexDecodeEncode(b);
  }

  /**
   * bcryptjs as the controller uses it: `hash(password, salt)` and
   * `compare(password, hash)`. Salts come from the caller (they stand for
   * `genSalt(10)`); work factor and salt randomness are not modelled.
   */
  datatype Bcrypt = Bcrypt(hash: (string, string) -> string, compare: (string, string) -> bool) {

    /** The one property the controller relies on: a password verifies against any hash of itself. */
    ghost predicate Sound() {
      forall password, salt :: compare(password, hash(password, salt))
    }
  }
}
