/** 32-bit words in a byte buffer, copied with memcpy on a little-endian host. */
module Bytes {
  import opened Base

  function LE(x: u32): (b: seq<u8>)
    ensures |b| == 4
  {
    [x % 0x100, x / 0x100 % 0x100, x / 0x1_0000 % 0x100, x / 0x100_0000]
  }

  function FromLE(b: seq<u8>): u32
    requires |b| == 4
  {
    b[0] as int + 0x100 * b[1] as int + 0x1_0000 * b[2] as int + 0x100_0000 * b[3] as int
  }

  lemma LERoundTrip(x: u32)
    ensures FromLE(LE(x)) == x
  {
    assert x / 0x1_0000 == x / 0x100 / 0x100;
    assert x / 0x100_0000 == x / 0x100 / 0x100 / 0x100;
  }

  function LEs(xs: seq<u32>): (b: seq<u8>)
    ensures |b| == 4 * |xs|
  {
    if xs == [] then [] else LEs(xs[..|xs| - 1]) + LE(xs[|xs| - 1])
  }

  /** The n words of b from byte at on. */
  function Words(b: seq<u8>, at: nat, n: nat): (xs: seq<u32>)
    requires at + 4 * n <= |b|
    ensures |xs| == n
  {
    if n == 0 then [] else Words(b, at, n - 1) + [FromLE(b[at + 4 * (n - 1)..at + 4 * n])]
  }

  lemma {:induction false} WordsOfLEs(b: seq<u8>, at: nat, xs: seq<u32>)
    requires at + 4 * |xs| <= |b| && b[at..at + 4 * |xs|] == LEs(xs)
    ensures Words(b, at, |xs|) == xs
  {
    hide LE, FromLE;
    if xs != [] {
      var n := |xs| - 1;
      var whole := b[at..at + 4 * |xs|];
      assert whole == LEs(xs[..n]) + LE(xs[n]);
      assert b[at..at + 4 * n] == whole[..4 * n];
      assert b[at + 4 * n..at + 4 * |xs|] == whole[4 * n..];
      WordsOfLEs(b, at, xs[..n]);
      LERoundTrip(xs[n]);
      assert xs == xs[..n] + [xs[n]];
    }
  }

  /** The word at a place of a buffer, least significant byte first. */
  function WordAt(b: seq<u8>, at: nat): u32
    requires at + 4 <= |b|
  {
    b[at] as int + 256 * b[at + 1] as int + 65536 * b[at + 2] as int + 16777216 * b[at + 3] as int
  }

  lemma WordIs(b: seq<u8>, at: nat)
    requires at + 4 <= |b|
    ensures FromLE(b[at..at + 4]) == WordAt(b, at)
  {
  }

  lemma LEIs(b: seq<u8>, at: nat, x: u32)
    requires at + 4 <= |b| && b[at..at + 4] == LE(x)
    ensures WordAt(b, at) == x
  {
    WordIs(b, at);
    LERoundTrip(x);
    hide LE;
  }

  lemma {:induction false} LEsAt(xs: seq<u32>, i: nat)
    requires i < |xs|
    ensures LEs(xs)[4 * i..4 * i + 4] == LE(xs[i])
  {
    hide LE;
    var n := |xs| - 1;
    if i < n {
      LEsAt(xs[..n], i);
      assert LEs(xs)[4 * i..4 * i + 4] == LEs(xs[..n])[4 * i..4 * i + 4];
    }
  }

  lemma SliceOfSlice(b: seq<u8>, at: nat, n: nat, lo: nat, hi: nat)
    requires at + n <= |b| && lo <= hi <= n
    ensures b[at..at + n][lo..hi] == b[at + lo..at + hi]
  {
    var part, whole := b[at..at + n], b[at + lo..at + hi];
    assert forall k :: lo <= k < hi ==> part[k] == b[at + k] == whole[k - lo];
    assert forall k :: 0 <= k < hi - lo ==> part[lo..hi][k] == part[lo + k];
  }

  lemma WordInPlace(b: seq<u8>, at: nat, xs: seq<u32>, i: nat)
    requires at + 4 * |xs| <= |b| && b[at..at + 4 * |xs|] == LEs(xs) && i < |xs|
    ensures WordAt(b, at + 4 * i) == xs[i]
  {
    hide LE, LEs, WordAt;
    LEsAt(xs, i);
    SliceOfSlice(b, at, 4 * |xs|, 4 * i, 4 * i + 4);
    LEIs(b, at + 4 * i, xs[i]);
  }

  lemma {:induction false} WordsAt(b: seq<u8>, at: nat, n: nat, i: nat)
    requires at + 4 * n <= |b| && i < n
    ensures Words(b, at, n)[i] == WordAt(b, at + 4 * i)
  {
    hide FromLE, WordAt;
    if i < n - 1 {
      WordsAt(b, at, n - 1, i);
    } else {
      WordIs(b, at + 4 * i);
    }
  }

  lemma LEsAppend(xs: seq<u32>, x: u32)
    ensures LEs(xs + [x]) == LEs(xs) + LE(x)
  {
  }

  method PutWord(buf: array<u8>, at: nat, x: u32)
    requires at + 4 <= buf.Length
    modifies buf
    ensures buf[..at + 4] == old(buf[..at]) + LE(x)
    ensures forall k :: at + 4 <= k < buf.Length ==> buf[k] == old(buf[k])
  {
    var b := LE(x);
    buf[at], buf[at + 1], buf[at + 2], buf[at + 3] := b[0], b[1], b[2], b[3];
  }

  method GetWord(buf: array<u8>, at: nat) returns (x: u32)
    requires at + 4 <= buf.Length
    ensures x == FromLE(buf[at..at + 4])
  {
    x := buf[at] as int + 0x100 * buf[at + 1] as int + 0x1_0000 * buf[at + 2] as int + 0x100_0000 * buf[at + 3] as int;
  }

  /** A loop of memcpys behind a running offset. */
  method PutWords(buf: array<u8>, at: nat, xs: seq<u32>) returns (len: nat)
    requires at + 4 * |xs| <= buf.Length
    modifies buf
    ensures len == at + 4 * |xs| && buf[..len] == old(buf[..at]) + LEs(xs)
    ensures forall k :: len <= k < buf.Length ==> buf[k] == old(buf[k])
  {
    hide LE, LEs;
    len := at;
    var i := 0;
    LEsNone();
    while i != |xs|
      invariant 0 <= i <= |xs| && len == at + 4 * i
      invariant buf[..len] == old(buf[..at]) + LEs(xs[..i])
      invariant forall k :: len <= k < buf.Length ==> buf[k] == old(buf[k])
    {
      PutWord(buf, len, xs[i]);
      LEsAppend(xs[..i], xs[i]);
      assert xs[..i + 1] == xs[..i] + [xs[i]];
      len := len + 4;
      i := i + 1;
    }
    assert xs[..i] == xs;
  }

  lemma LEsNone()
    ensures LEs([]) == []
  {
  }

  method GetWords(buf: array<u8>, at: nat, n: nat) returns (xs: seq<u32>, len: nat)
    requires at + 4 * n <= buf.Length
    ensures len == at + 4 * n && xs == Words(buf[..], at, n)
  {
    xs, len := [], at;
    var i := 0;
    while i != n
      invariant 0 <= i <= n && len == at + 4 * i
      invariant xs == Words(buf[..], at, i)
    {
      var x := GetWord(buf, len);
      assert buf[..][len..len + 4] == buf[len..len + 4];
      xs := xs + [x];
      len := len + 4;
      i := i + 1;
    }
  }
}
