/** Lower-case hexadecimal text of identifiers (encoding/hex as the source uses it). */
module Hex {
  import opened Common
  import opened KademliaIds

  function Digit(n: nat): char
    requires n < 16
  {
    if n < 10 then n as char + '0' else (n - 10) as char + 'a'
  }

  function DigitValue(c: char): (n: Option<nat>)
    ensures n.Some? ==> n.value < 16
  {
    if '0' <= c <= '9' then Some(c as int - '0' as int)
    else if 'a' <= c <= 'f' then Some(c as int - 'a' as int + 10)
    else if 'A' <= c <= 'F' then Some(c as int - 'A' as int + 10)
    else None
  }

  function EncodeBytes(s: seq<Byte>): (t: string)
    ensures |t| == 2 * |s|
  {
    if s == [] then "" else [Digit(s[0] / 16), Digit(s[0] % 16)] + EncodeBytes(s[1..])
  }

  function DecodeBytes(t: string): (s: Option<seq<Byte>>)
    ensures s.Some? ==> 2 * |s.value| == |t|
  {
    if |t| == 0 then Some([])
    else if |t| == 1 then None
    else match (DigitValue(t[0]), DigitValue(t[1]), DecodeBytes(t[2..]))
      case (Some(hi), Some(lo), Some(rest)) => Some([16 * hi + lo] + rest)
      case _ => None
  }

  /** hex.EncodeToString of a 32-byte digest. */
  function Encode(id: KademliaId): string {
    EncodeBytes(id)
  }

  /** hex.DecodeString together with the length check of the record getter and saver. */
  function Decode(t: string): Option<KademliaId> {
    var s := DecodeBytes(t);
    if s.Some? && |s.value| == ID_LENGTH then Some(s.value) else None
  }

  lemma {:induction false} DecodeOfEncodeBytes(s: seq<Byte>)
    ensures DecodeBytes(EncodeBytes(s)) == Some(s)
  {
    if s != [] {
      DecodeOfEncodeBytes(s[1..]);
      assert EncodeBytes(s)[2..] == EncodeBytes(s[1..]);
      assert [s[0]] + s[1..] == s;
    }
  }

  lemma DecodeOfEncode(id: KademliaId)
    ensures Decode(Encode(id)) == Some(id)
  {
    DecodeOfEncodeBytes(id);
  }

  /** The text has two lower-case digits per byte, the higher one first. */
  lemma {:induction false} EncodeMeans(s: seq<Byte>, i: nat)
    requires i < |s|
    ensures EncodeBytes(s)[2 * i] == "0123456789abcdef"[s[i] / 16] && EncodeBytes(s)[2 * i + 1] == "0123456789abcdef"[s[i] % 16]
  {
    DigitMeans(s[0] / 16);
    DigitMeans(s[0] % 16);
    if i > 0 {
      EncodeMeans(s[1..], i - 1);
      assert EncodeBytes(s)[2..] == EncodeBytes(s[1..]);
    }
  }

  lemma DigitMeans(n: nat)
    requires n < 16
    ensures Digit(n) == "0123456789abcdef"[n]
  {
  }

  lemma EncodeInjective(a: KademliaId, b: KademliaId)
    ensures Encode(a) == Encode(b) <==> a == b
  {
    DecodeOfEncode(a);
    DecodeOfEncode(b);
  }
}
