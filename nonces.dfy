/**
 * Nonce selection and the hex step of nonce generation
 * (lib/index.js:76-98). The random bytes themselves are an input.
 */
module Nonces {
  import opened Wrappers
  import opened Directives

  newtype byte = x: int | 0 <= x < 256

  /** Number of random bytes behind one nonce (`Crypto.randomBytes(16)`). */
  const NonceBytes: nat := 16

  /** The random bytes behind one nonce. */
  type Seed = b: seq<byte> | |b| == NonceBytes witness seq(NonceBytes, _ => 0 as byte)

  const HexDigits: string := "0123456789abcdef"

  /** `bytes.toString('hex')`: two lower-case hex digits per byte, high nibble first. */
  function Hex(bytes: seq<byte>): (s: string)
    ensures |s| == 2 * |bytes|
    ensures forall i :: 0 <= i < |s| ==> s[i] in HexDigits
    decreases |bytes|
  {
    if |bytes| == 0 then ""
    else
      var b := bytes[0] as int;
      [HexDigits[b / 16], HexDigits[b % 16]] + Hex(bytes[1..])
  }

  /** The value of one lower-case hex digit. */
  function DigitValue(c: char): (r: Option<int>)
    ensures r.Some? ==> 0 <= r.value < 16
  {
    if '0' <= c <= '9' then Some(c as int - '0' as int)
    else if 'a' <= c <= 'f' then Some(c as int - 'a' as int + 10)
    else None
  }

  /** Reads hex text back into bytes; the inverse of Hex. */
  function Unhex(s: string): Option<seq<byte>>
    decreases |s|
  {
    if |s| == 0 then Some([])
    else if |s| == 1 then None
    else
      var hi, lo, rest := DigitValue(s[0]), DigitValue(s[1]), Unhex(s[2..]);
      if hi.Some? && lo.Some? && rest.Some? then Some([(hi.value * 16 + lo.value) as byte] + rest.value)
      else None
  }

  lemma DigitValueOfDigit(n: int)
    requires 0 <= n < 16
    ensures DigitValue(HexDigits[n]) == Some(n)
  {
  }

  /** Hex text reads back as the bytes it was made from. */
  lemma {:induction false} UnhexHex(bytes: seq<byte>)
    ensures Unhex(Hex(bytes)) == Some(bytes)
    decreases |bytes|
  {
    if |bytes| > 0 {
      UnhexHex(bytes[1..]);
      UnhexPair(bytes[0] as int, Hex(bytes[1..]), bytes[1..]);
      assert [bytes[0]] + bytes[1..] == bytes;
    }
  }

  /** The two digits of one byte, read back in front of text that reads as `tail`. */
  lemma UnhexPair(n: int, rest: string, tail: seq<byte>)
    requires 0 <= n < 256 && Unhex(rest) == Some(tail)
    ensures Unhex([HexDigits[n / 16], HexDigits[n % 16]] + rest) == Some([n as byte] + tail)
  {
    DigitValueOfDigit(n / 16);
    DigitValueOfDigit(n % 16);
    var s := [HexDigits[n / 16], HexDigits[n % 16]] + rest;
    assert s[2..] == rest;
  }

  /** `generateNonce`, with the random bytes supplied by the caller. */
  function GenerateNonce(bytes: Seed): (n: string)
    ensures |n| == 32
    ensures forall i :: 0 <= i < |n| ==> n[i] in HexDigits
  {
    Hex(bytes)
  }

  /** Distinct random bytes give distinct nonces. */
  lemma NonceInjective(a: Seed, b: Seed)
    requires GenerateNonce(a) == GenerateNonce(b)
    ensures a == b
  {
    UnhexHex(a);
    UnhexHex(b);
  }

  /**
   * `nonceShouldBeGenerated`: `generateNonces === true`, or it equals the
   * selector `keyToConfigMap[key]` (which is `undefined` for every other key).
   */
  function NonceShouldBeGenerated(o: Options, key: string): (b: bool)
    ensures o.generateNonces == Bool(true) ==> b
    ensures o.generateNonces == Bool(false) ==> !b
  {
    o.generateNonces == Bool(true)
    || (if key in KeyToConfigMap then o.generateNonces == Text(KeyToConfigMap[key])
        else o.generateNonces == Unset)
  }

  /** The selector as the documentation promises it for the two nonce-bearing directives. */
  lemma NonceSelection(o: Options)
    ensures NonceShouldBeGenerated(o, "scriptSrc") <==>
      o.generateNonces == Bool(true) || o.generateNonces == Text("script")
    ensures NonceShouldBeGenerated(o, "styleSrc") <==>
      o.generateNonces == Bool(true) || o.generateNonces == Text("style")
    ensures o.generateNonces == Text("script") ==> !NonceShouldBeGenerated(o, "styleSrc")
    ensures o.generateNonces == Text("style") ==> !NonceShouldBeGenerated(o, "scriptSrc")
    ensures o.generateNonces == Bool(false) ==>
      !NonceShouldBeGenerated(o, "scriptSrc") && !NonceShouldBeGenerated(o, "styleSrc")
  {
  }

  /**
   * For any key without a selector the JavaScript comparison is
   * `generateNonces === undefined`, so it also holds when the setting is
   * absent. The callers only ask about scriptSrc and styleSrc.
   */
  lemma NonceSelectionOtherKeys(o: Options, key: string)
    requires key != "scriptSrc" && key != "styleSrc"
    ensures NonceShouldBeGenerated(o, key) <==>
      o.generateNonces == Bool(true) || o.generateNonces == Unset
  {
  }
}
