// Bytes, C strings and the fixed-width readings of them that the proxy uses.
module Bytes {

  type byte = b: int | 0 <= b < 256

  const DOT: byte := 46

  /** strlen: the index of the first zero byte. */
  function StrLen(s: seq<byte>): (n: nat)
    requires 0 in s
    ensures n < |s| && s[n] == 0 && 0 !in s[..n]
  {
    if s[0] == 0 then 0 else
    var n := 1 + StrLen(s[1..]);
    assert s[..n] == [s[0]] + s[1..][..n - 1];
    n
  }

  /** The text a C string holds: everything before its first zero byte. */
  function CString(s: seq<byte>): (t: seq<byte>)
    requires 0 in s
    ensures 0 !in t && t + [0] <= s
  {
    s[..StrLen(s)]
  }

  /** strlen is determined by its two promises. */
  lemma StrLenIs(s: seq<byte>, n: nat)
    requires n < |s| && s[n] == 0 && 0 !in s[..n]
    ensures 0 in s && StrLen(s) == n && CString(s) == s[..n]
  {
  }

  /** What recv leaves in a buffer: the message, then whatever was there before. */
  function Overlay(data: seq<byte>, old': seq<byte>): (s: seq<byte>)
    requires |data| <= |old'|
    ensures |s| == |old'| && data <= s
  {
    data + old'[|data|..]
  }

  /** ntohs of the two bytes at p. */
  function U16(b: seq<byte>, p: nat): (v: nat)
    requires p + 1 < |b|
    ensures v < 0x1_0000
  {
    (b[p] as int) * 256 + b[p + 1]
  }

  /** The number a little-endian machine reads from these bytes. */
  function LittleEndian(b: seq<byte>): nat {
    if b == [] then 0 else b[0] + 256 * LittleEndian(b[1..])
  }

  /** The k low-order bytes of v in the order a little-endian machine stores them. */
  function StoreLow(v: nat, k: nat): (b: seq<byte>)
    ensures |b| == k
  {
    if k == 0 then [] else [v % 256] + StoreLow(v / 256, k - 1)
  }

  /** Reading a number from memory and storing its low part gives back the first bytes read. */
  lemma {:induction false} StoreLowOfLittleEndian(b: seq<byte>, k: nat)
    requires k <= |b|
    ensures StoreLow(LittleEndian(b), k) == b[..k]
  {
    if k > 0 {
      var rest := LittleEndian(b[1..]);
      assert LittleEndian(b) % 256 == b[0] && LittleEndian(b) / 256 == rest;
      StoreLowOfLittleEndian(b[1..], k - 1);
      assert b[..k] == [b[0]] + b[1..][..k - 1];
    }
  }

  /** A long read from memory: the word whose eight bytes are the first eight there. */
  function ReadLong(memory: seq<byte>): (word: nat)
    requires |memory| >= 8
    ensures StoreLow(word, 8) == memory[..8]
  {
    StoreLowOfLittleEndian(memory[..8], 8);
    LittleEndian(memory[..8])
  }

  // ---------------------------------------------------------------- slices

  lemma SubSlice<T>(s: seq<T>, i: nat, j: nat, p: nat, q: nat)
    requires i <= j <= |s| && p <= q <= j - i
    ensures s[i..j][p..q] == s[i + p..i + q]
  {
    var t := s[i..j];
    assert forall k :: 0 <= k < q - p ==> t[p..q][k] == t[p + k] == s[i + p + k];
  }

  lemma SameSlice<T>(s: seq<T>, t: seq<T>, i: nat, j: nat)
    requires i <= j <= |s| == |t| && s[i..] == t[i..]
    ensures s[i..j] == t[i..j]
  {
  }

  lemma SliceOfPrefix<T>(s: seq<T>, t: seq<T>, i: nat, j: nat)
    requires i <= j <= |t| <= |s| && s[..|t|] == t
    ensures s[i..j] == t[i..j]
  {
    assert forall k :: i <= k < j ==> s[k] == s[..|t|][k];
  }

  lemma SeqAssociates<T>(a: seq<T>, b: seq<T>, c: seq<T>)
    ensures a + (b + c) == a + b + c
  {
  }
}
