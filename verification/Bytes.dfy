/** Byte strings and the string helpers the server takes from its standard library.
    A Go string is a byte sequence, so text and wire data share one type here. */
module Bytes {
  type byte = b: int | 0 <= b < 256
  type Text = seq<byte>
  type u16 = x: int | 0 <= x < 0x1_0000
  type u32 = x: int | 0 <= x < 0x1_0000_0000
  type i32 = x: int | -0x8000_0000 <= x < 0x8000_0000

  datatype Option<+T> = None | Some(value: T)

  const NUL: byte := 0
  const QUOTE: byte := 34
  const STAR: byte := 42
  const HYPHEN: byte := 45
  const DOT: byte := 46
  const SLASH: byte := 47
  const AT: byte := 64
  const BACKSLASH: byte := 92
  const UNDERSCORE: byte := 95

  predicate HasPrefix(s: Text, p: Text) {
    p <= s
  }

  predicate HasSuffix(s: Text, t: Text) {
    |t| <= |s| && s[|s| - |t|..] == t
  }

  /** The ASCII white space that `strings.TrimSpace` removes. */
  const SPACE: byte := 32

  predicate IsSpace(b: byte) {
    9 <= b <= 13 || b == SPACE
  }

  function TrimLeft(s: Text): Text {
    if s != [] && IsSpace(s[0]) then TrimLeft(s[1..]) else s
  }

  function TrimRight(s: Text): Text {
    if s != [] && IsSpace(s[|s| - 1]) then TrimRight(s[..|s| - 1]) else s
  }

  function TrimSpace(s: Text): Text {
    TrimRight(TrimLeft(s))
  }

  /** `strings.TrimSuffix(s, ".")`. */
  function TrimDot(s: Text): Text {
    if s != [] && s[|s| - 1] == DOT then s[..|s| - 1] else s
  }

  function LowerByte(b: byte): byte {
    if 65 <= b <= 90 then b + 32 else b
  }

  function Lower(s: Text): (r: Text)
    ensures |r| == |s|
    ensures forall i :: 0 <= i < |s| ==> r[i] == LowerByte(s[i])
  {
    seq(|s|, i requires 0 <= i < |s| => LowerByte(s[i]))
  }

  /** Strict byte-wise lexicographic order: the order of a `COLLATE "C"` column. */
  predicate Less(a: Text, b: Text) {
    b != [] && (a == [] || a[0] < b[0] || (a[0] == b[0] && Less(a[1..], b[1..])))
  }

  /** Lower-casing twice is lower-casing once. */
  lemma LowerIdempotent(s: Text)
    ensures Lower(Lower(s)) == Lower(s)
  {
  }

  /** Text with no white space at either end is left alone by `TrimSpace`. */
  lemma TrimSpaceFixed(s: Text)
    requires s == [] || (!IsSpace(s[0]) && !IsSpace(s[|s| - 1]))
    ensures TrimSpace(s) == s
  {
  }

  lemma {:induction false} TrimLeftShrinks(s: Text)
    ensures |TrimLeft(s)| <= |s|
  {
    if s != [] && IsSpace(s[0]) { TrimLeftShrinks(s[1..]); }
  }
}
