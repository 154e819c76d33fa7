/** Little-endian integers in byte sequences. */
module Bytes {
  type byte = x: int | 0 <= x < 0x100

  type Bytes = seq<byte>

  function Le16(n: int): (b: Bytes)
    requires 0 <= n < 0x1_0000
    ensures |b| == 2
  {
    [n % 0x100, n / 0x100]
  }

  function Le32(n: int): (b: Bytes)
    requires 0 <= n < 0x1_0000_0000
    ensures |b| == 4
  {
    Le16(n % 0x1_0000) + Le16(n / 0x1_0000)
  }

  function Le64(n: int): (b: Bytes)
    requires 0 <= n < 0x1_0000_0000_0000_0000
    ensures |b| == 8
  {
    Le32(n % 0x1_0000_0000) + Le32(n / 0x1_0000_0000)
  }

  function Get16(s: Bytes, at: nat): (n: int)
    requires at + 2 <= |s|
    ensures 0 <= n < 0x1_0000
  {
    var low: int, high: int := s[at], s[at + 1];
    low + 0x100 * high
  }

  function Get32(s: Bytes, at: nat): (n: int)
    requires at + 4 <= |s|
    ensures 0 <= n < 0x1_0000_0000
  {
    Get16(s, at) + 0x1_0000 * Get16(s, at + 2)
  }

  function Get64(s: Bytes, at: nat): (n: int)
    requires at + 8 <= |s|
    ensures 0 <= n < 0x1_0000_0000_0000_0000
  {
    Get32(s, at) + 0x1_0000_0000 * Get32(s, at + 4)
  }

  lemma Get16Of(s: Bytes, at: nat, n: int)
    requires 0 <= n < 0x1_0000 && at + 2 <= |s| && s[at..at + 2] == Le16(n)
    ensures Get16(s, at) == n
  {
    assert s[at] == s[at..at + 2][0] && s[at + 1] == s[at..at + 2][1];
  }

  lemma Get32Of(s: Bytes, at: nat, n: int)
    requires 0 <= n < 0x1_0000_0000 && at + 4 <= |s| && s[at..at + 4] == Le32(n)
    ensures Get32(s, at) == n
  {
    assert s[at..at + 2] == s[at..at + 4][..2] && s[at + 2..at + 4] == s[at..at + 4][2..];
    Get16Of(s, at, n % 0x1_0000);
    Get16Of(s, at + 2, n / 0x1_0000);
  }

  lemma Get64Of(s: Bytes, at: nat, n: int)
    requires 0 <= n < 0x1_0000_0000_0000_0000 && at + 8 <= |s| && s[at..at + 8] == Le64(n)
    ensures Get64(s, at) == n
  {
    assert s[at..at + 4] == s[at..at + 8][..4] && s[at + 4..at + 8] == s[at..at + 8][4..];
    Get32Of(s, at, n % 0x1_0000_0000);
    Get32Of(s, at + 4, n / 0x1_0000_0000);
  }

  /** A slice of a slice. */
  lemma Slice<T>(s: seq<T>, from: nat, to: nat, i: nat, j: nat)
    requires from <= to <= |s| && i <= j <= to - from
    ensures s[from..to][i..j] == s[from + i..from + j]
  {
    var a, b := s[from..to][i..j], s[from + i..from + j];
    assert |a| == |b|;
    assert forall k | 0 <= k < |a| :: a[k] == s[from + i + k] == b[k];
  }

  /** `n` copies of `b`. */
  function Fill(b: byte, n: nat): (s: Bytes)
    ensures |s| == n && forall i | 0 <= i < n :: s[i] == b
  {
    seq(n, _ => b)
  }

  /** `b` written over `s` at `at`. */
  function Put(s: Bytes, at: nat, b: Bytes): (t: Bytes)
    requires at + |b| <= |s|
    ensures |t| == |s|
  {
    s[..at] + b + s[at + |b|..]
  }

  /** The concatenation of the four-byte forms of `words`. */
  function Words(words: seq<int>): (b: Bytes)
    requires forall i | 0 <= i < |words| :: 0 <= words[i] < 0x1_0000_0000
    ensures |b| == 4 * |words|
  {
    if words == [] then [] else Le32(words[0]) + Words(words[1..])
  }

  function GetWords(b: Bytes): (words: seq<int>)
    ensures |words| == |b| / 4
  {
    if |b| < 4 then [] else [Get32(b, 0)] + GetWords(b[4..])
  }

  lemma {:induction false} WordsRoundTrip(words: seq<int>, rest: Bytes)
    requires forall i | 0 <= i < |words| :: 0 <= words[i] < 0x1_0000_0000
    ensures |GetWords(Words(words) + rest)| >= |words| && GetWords(Words(words) + rest)[..|words|] == words
  {
    if words != [] {
      var b := Words(words) + rest;
      assert b[0..4] == Le32(words[0]);
      Get32Of(b, 0, words[0]);
      assert b[4..] == Words(words[1..]) + rest;
      WordsRoundTrip(words[1..], rest);
    }
  }

  lemma {:induction false} WordsBack(words: seq<int>)
    requires forall i | 0 <= i < |words| :: 0 <= words[i] < 0x1_0000_0000
    ensures GetWords(Words(words)) == words
  {
    if words != [] {
      var b := Words(words);
      assert b[0..4] == Le32(words[0]);
      Get32Of(b, 0, words[0]);
      assert b[4..] == Words(words[1..]);
      WordsBack(words[1..]);
    }
  }

  lemma Appended<T>(a: seq<T>, b: seq<T>, n: nat)
    requires n == |b|
    ensures (a + b)[|a|..|a| + n] == b
  {
  }
}
