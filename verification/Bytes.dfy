/** Bytes, ASCII letters and the optional values the other modules share. */
module Bytes {

  type byte = x: int | 0 <= x < 256

  datatype Option<+T> = None | Some(value: T)

  const STAR: byte := 42
  const DOT: byte := 46
  const NEWLINE: byte := 10
  const PIPE: byte := 124

  predicate IsUpper(b: byte) { 65 <= b <= 90 }
  predicate IsLower(b: byte) { 97 <= b <= 122 }
  predicate IsDigit(b: byte) { 48 <= b <= 57 }

  /** `to_ascii_lowercase` of one byte. */
  function Lower(b: byte): byte {
    if IsUpper(b) then b + 32 else b
  }

  /** `to_ascii_lowercase` of a text. */
  function Lowercase(s: seq<byte>): (r: seq<byte>)
    ensures |r| == |s|
    ensures forall i :: 0 <= i < |s| ==> r[i] == Lower(s[i])
  {
    seq(|s|, i requires 0 <= i < |s| => Lower(s[i]))
  }

  /** Whether lowercasing changes nothing. */
  predicate AllLower(s: seq<byte>) {
    forall i :: 0 <= i < |s| ==> Lower(s[i]) == s[i]
  }

  predicate EndsWith(s: seq<byte>, tail: seq<byte>) {
    |tail| <= |s| && s[|s| - |tail|..] == tail
  }

  /** `name` is what follows some dot of `host`. */
  predicate IsParent(host: seq<byte>, name: seq<byte>) {
    exists i :: 0 <= i < |host| && host[i] == DOT && host[i + 1..] == name
  }

  /** `name` is `host` or one of its parents. */
  predicate IsSelfOrParent(host: seq<byte>, name: seq<byte>) {
    host == name || IsParent(host, name)
  }

  lemma LowercaseSplit(s: seq<byte>, i: nat)
    requires i <= |s|
    ensures Lowercase(s[..i]) == Lowercase(s)[..i]
    ensures Lowercase(s[i..]) == Lowercase(s)[i..]
  {
  }

  // ----- numbers and sets

  const U16_MAX: nat := 0xffff
  const U32_MAX: nat := 0xffff_ffff

  /** Two bytes, the more significant one first. */
  function Be16(hi: byte, lo: byte): (n: nat)
    ensures n <= U16_MAX
  {
    var h: int, l: int := hi, lo;
    256 * h + l
  }

  function ToBe16(n: nat): (s: seq<byte>)
    requires n <= U16_MAX
    ensures |s| == 2 && Be16(s[0], s[1]) == n
  {
    [n / 256, n % 256]
  }

  lemma SubsetSize<T>(a: set<T>, b: set<T>)
    requires a <= b
    ensures |a| <= |b|
  {
    assert b == a + (b - a);
  }
}
