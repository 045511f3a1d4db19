/** The wire form of a RERR: rerr.cc, section 5.3 of RFC 3561. */
module RerrCodec {
  import opened Base
  import opened Bytes
  import opened Node

  /** A whole RERR object; Rerr is the part that routing looks at. */
  datatype Packet = Packet(kind: u8, reserved2: u8, rerr: Rerr)

  /** Destination and sequence number of every item, in turn. */
  function Flat(dests: seq<Unreach>): (xs: seq<u32>)
    ensures |xs| == 2 * |dests|
  {
    if dests == [] then []
    else Flat(dests[..|dests| - 1]) + [dests[|dests| - 1].dest, dests[|dests| - 1].seqNum]
  }

  function Header(p: Packet): seq<u8> {
    [p.kind, if p.rerr.nFlag then 0x80 else 0, p.reserved2, p.rerr.destCnt]
  }

  function Print(p: Packet): (b: seq<u8>)
    ensures |b| == 4 + 8 * |p.rerr.dests|
  {
    Header(p) + LEs(Flat(p.rerr.dests))
  }

  function Pairs(xs: seq<u32>): (dests: seq<Unreach>)
    requires |xs| % 2 == 0
    ensures 2 * |dests| == |xs|
  {
    if xs == [] then [] else Pairs(xs[..|xs| - 2]) + [Unreach(xs[|xs| - 2], xs[|xs| - 1])]
  }

  /** None when the buffer is shorter than its own count says. */
  function Parse(b: seq<u8>): Option<Packet> {
    if |b| < 4 || |b| < 4 + 8 * b[3] as int then None
    else Some(Packet(b[0], b[2], Rerr(b[1] >= 0x80, b[3], Pairs(Words(b, 4, 2 * b[3] as int)))))
  }

  lemma {:induction false} PairsOfFlat(dests: seq<Unreach>)
    ensures Pairs(Flat(dests)) == dests
  {
    if dests != [] {
      var k := dests[..|dests| - 1];
      assert Flat(dests)[..|Flat(dests)| - 2] == Flat(k);
      PairsOfFlat(k);
    }
  }

  /** Printing then parsing, with anything behind, gives the packet back iff it counts its own items. */
  lemma RoundTripIff(p: Packet, rest: seq<u8>)
    ensures Parse(Print(p) + rest) == Some(p) <==> p.rerr.destCnt == |p.rerr.dests|
  {
    var b, n := Print(p) + rest, |p.rerr.dests|;
    if p.rerr.destCnt == n {
      assert b[4..4 + 8 * n] == LEs(Flat(p.rerr.dests));
      WordsOfLEs(b, 4, Flat(p.rerr.dests));
      PairsOfFlat(p.rerr.dests);
    } else {
      assert b[3] == p.rerr.destCnt;
    }
  }

  lemma {:induction false} FlatAt(dests: seq<Unreach>, i: nat)
    requires i < |dests|
    ensures Flat(dests)[2 * i] == dests[i].dest && Flat(dests)[2 * i + 1] == dests[i].seqNum
  {
    if i < |dests| - 1 {
      FlatAt(dests[..|dests| - 1], i);
    }
  }

  lemma {:induction false} PairsAt(xs: seq<u32>, i: nat)
    requires |xs| % 2 == 0 && 2 * i < |xs|
    ensures Pairs(xs)[i] == Unreach(xs[2 * i], xs[2 * i + 1])
  {
    if 2 * i < |xs| - 2 {
      PairsAt(xs[..|xs| - 2], i);
    }
  }

  /** Where everything lies: four bytes of header, then eight bytes for each item, the address first. */
  lemma {:induction false} PrintLayout(p: Packet, rest: seq<u8>, i: nat)
    ensures var b := Print(p) + rest;
            && b[0] == p.kind && (b[1] == if p.rerr.nFlag then 128 else 0) && b[2] == p.reserved2
            && b[3] == p.rerr.destCnt
            && (i < |p.rerr.dests| ==> WordAt(b, 4 + 8 * i) == p.rerr.dests[i].dest
                                       && WordAt(b, 8 + 8 * i) == p.rerr.dests[i].seqNum)
  {
    hide LE, LEs, Flat, WordAt;
    var b, xs := Print(p) + rest, Flat(p.rerr.dests);
    if i < |p.rerr.dests| {
      FlatAt(p.rerr.dests, i);
      assert b[4..4 + 4 * |xs|] == LEs(xs);
      WordInPlace(b, 4, xs, 2 * i);
      WordInPlace(b, 4, xs, 2 * i + 1);
    }
  }

  /** The same places are read, from any buffer that is as long as its count says. */
  lemma {:induction false} ParseLayout(b: seq<u8>, i: nat)
    ensures Parse(b).Some? <==> |b| >= 4 && |b| >= 4 + 8 * b[3] as int
    ensures Parse(b).Some? ==>
              var p := Parse(b).value;
              && p.kind == b[0] && (p.rerr.nFlag <==> b[1] >= 128) && p.reserved2 == b[2] && p.rerr.destCnt == b[3]
              && |p.rerr.dests| == b[3]
              && (i < |p.rerr.dests| ==> p.rerr.dests[i] == Unreach(WordAt(b, 4 + 8 * i), WordAt(b, 8 + 8 * i)))
  {
    hide Words, Pairs, WordAt;
    if Parse(b).Some? && i < b[3] {
      PairsAt(Words(b, 4, 2 * b[3] as int), i);
      WordsAt(b, 4, 2 * b[3] as int, 2 * i);
      WordsAt(b, 4, 2 * b[3] as int, 2 * i + 1);
    }
  }

  lemma FlatNone()
    ensures LEs(Flat([])) == []
  {
  }

  lemma FlatAppend(dests: seq<Unreach>, u: Unreach)
    ensures Flat(dests + [u]) == Flat(dests) + [u.dest, u.seqNum]
    ensures LEs(Flat(dests + [u])) == LEs(Flat(dests)) + LE(u.dest) + LE(u.seqNum)
  {
    assert (dests + [u])[..|dests|] == dests;
    LEsAppend(Flat(dests), u.dest);
    LEsAppend(Flat(dests) + [u.dest], u.seqNum);
    assert Flat(dests) + [u.dest] + [u.seqNum] == Flat(dests) + [u.dest, u.seqNum];
  }

  method CopyIntoBuf(p: Packet, buf: array<u8>)
    requires 4 + 8 * |p.rerr.dests| <= buf.Length
    modifies buf
    ensures buf[..|Print(p)|] == Print(p)
    ensures forall k :: |Print(p)| <= k < buf.Length ==> buf[k] == old(buf[k])
  {
    hide LE, LEs, Flat;
    buf[0] := p.kind;
    buf[1] := if p.rerr.nFlag then 0x80 else 0;
    buf[2] := p.reserved2;
    buf[3] := p.rerr.destCnt;
    assert buf[..4] == Header(p);
    hide Header;
    var dests := p.rerr.dests;
    var i := 0;
    FlatNone();
    while i != |dests|
      invariant 0 <= i <= |dests|
      invariant buf[..4 + 8 * i] == Header(p) + LEs(Flat(dests[..i]))
      invariant forall k :: 4 + 8 * i <= k < buf.Length ==> buf[k] == old(buf[k])
    {
      PutItem(buf, 4 + i * 8, dests[i]);
      FlatAppend(dests[..i], dests[i]);
      assert dests[..i + 1] == dests[..i] + [dests[i]];
      i := i + 1;
    }
    assert dests[..i] == dests;
  }

  method PutItem(buf: array<u8>, at: nat, u: Unreach)
    requires at + 8 <= buf.Length
    modifies buf
    ensures buf[..at + 8] == old(buf[..at]) + LE(u.dest) + LE(u.seqNum)
    ensures forall k :: at + 8 <= k < buf.Length ==> buf[k] == old(buf[k])
  {
    hide LE;
    PutWord(buf, at, u.dest);
    PutWord(buf, at + 4, u.seqNum);
  }

  method CreateRERR(buf: array<u8>) returns (p: Packet)
    requires 4 <= buf.Length && 4 + 8 * buf[3] as int <= buf.Length
    ensures Parse(buf[..]) == Some(p)
  {
    hide FromLE, Words, Pairs;
    NoWords(buf[..]);
    var dests := [];
    var i: int := 0;
    while i < buf[3]
      invariant 0 <= i <= buf[3]
      invariant dests == Pairs(Words(buf[..], 4, 2 * i))
    {
      var dst := GetWord(buf, 4 + i * 8);
      var seqNum := GetWord(buf, 8 + i * 8);
      WordsNext(buf[..], i, dst, seqNum);
      dests := dests + [Unreach(dst, seqNum)];
      i := i + 1;
    }
    p := Packet(buf[0], buf[2], Rerr(buf[1] >= 0x80, buf[3], dests));
  }

  lemma NoWords(b: seq<u8>)
    requires 4 <= |b|
    ensures Pairs(Words(b, 4, 0)) == []
  {
  }

  lemma WordsNext(b: seq<u8>, i: nat, dst: u32, seqNum: u32)
    requires 12 + 8 * i <= |b| && dst == FromLE(b[4 + 8 * i..8 + 8 * i]) && seqNum == FromLE(b[8 + 8 * i..12 + 8 * i])
    ensures Pairs(Words(b, 4, 2 * (i + 1))) == Pairs(Words(b, 4, 2 * i)) + [Unreach(dst, seqNum)]
  {
    var xs := Words(b, 4, 2 * (i + 1));
    assert xs == Words(b, 4, 2 * i + 1) + [seqNum] == Words(b, 4, 2 * i) + [dst] + [seqNum];
    assert xs[..2 * i] == Words(b, 4, 2 * i);
  }
}
