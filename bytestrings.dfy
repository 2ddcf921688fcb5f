/** PHP strings are byte strings: `strlen` and `substr` count bytes, not characters. */
module ByteStrings {

  newtype byte = b: int | 0 <= b < 256

  type Bytes = seq<byte>

  const Tab: byte := 9
  const LineFeed: byte := 10
  const VerticalTab: byte := 11
  const CarriageReturn: byte := 13
  const Space: byte := 32
  const Nul: byte := 0
  const Comma: byte := 44
  const Minus: byte := 45
  const Dot: byte := 46
  const Zero: byte := 48
  const Semicolon: byte := 59
  const Underscore: byte := 95

  /** The bytes of a string literal written in ASCII (every character below 128 stands for itself). */
  function Ascii(s: string): (r: Bytes)
    ensures |r| == |s|
  {
    seq(|s|, i requires 0 <= i < |s| => (s[i] as int % 256) as byte)
  }

  /** UTF-8 encodings of the non-ASCII characters the application writes. */
  const AGrave: Bytes := [0xC3, 0xA0]   // à
  const EAcute: Bytes := [0xC3, 0xA9]   // é
  const EuroSign: Bytes := [0xE2, 0x82, 0xAC]   // €

  /** Number of occurrences of `b` in `s`. */
  function CountByte(s: Bytes, b: byte): (n: nat)
    ensures n <= |s|
  {
    if s == [] then 0 else CountByte(s[..|s| - 1], b) + (if s[|s| - 1] == b then 1 else 0)
  }

  lemma {:induction false} CountByteAppend(s: Bytes, t: Bytes, b: byte)
    ensures CountByte(s + t, b) == CountByte(s, b) + CountByte(t, b)
    decreases |t|
  {
    if t == [] {
      assert s + t == s;
    } else {
      assert (s + t)[..|s + t| - 1] == s + t[..|t| - 1];
      CountByteAppend(s, t[..|t| - 1], b);
    }
  }

  lemma {:induction false} CountByteAbsent(s: Bytes, b: byte)
    requires forall i :: 0 <= i < |s| ==> s[i] != b
    ensures CountByte(s, b) == 0
    decreases |s|
  {
    if s != [] {
      CountByteAbsent(s[..|s| - 1], b);
    }
  }
}
