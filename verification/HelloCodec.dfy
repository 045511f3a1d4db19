/** The wire form of a hello of lib/ND: counts, addresses, statuses, live time. */
module HelloCodec {
  import opened Base
  import opened Bytes
  import opened Neighbors

  const MESSAGE_BUFFER_SIZE := 32 * 1024
  const IPV4_ADDR_LEN: u8 := 4

  function Ips(nbrs: seq<Listing>): seq<Addr> {
    seq(|nbrs|, i requires 0 <= i < |nbrs| => nbrs[i].ip)
  }

  function Statuses(nbrs: seq<Listing>): seq<u8> {
    seq(|nbrs|, i requires 0 <= i < |nbrs| => nbrs[i].status)
  }

  function Listings(ips: seq<Addr>, statuses: seq<u8>): seq<Listing>
    requires |ips| == |statuses|
  {
    seq(|ips|, i requires 0 <= i < |ips| => Listing(ips[i], statuses[i]))
  }

  function Header(h: Hello): seq<u8> {
    [IPV4_ADDR_LEN, U8(|h.locals|), U8(|h.nbrs|), 1]
  }

  function Length(locals: nat, nbrs: nat): nat {
    8 + 4 * locals + 5 * nbrs
  }

  /** The two counts are narrowed to a byte, the items are not. */
  function Encode(h: Hello): (b: seq<u8>)
    ensures |b| == Length(|h.locals|, |h.nbrs|)
  {
    Header(h) + LEs(h.locals) + LEs(Ips(h.nbrs)) + Statuses(h.nbrs) + LE(h.live)
  }

  /** Is this a message the decoder can read without leaving it? The address length must be an IPv4 one. */
  predicate Readable(b: seq<u8>) {
    |b| >= 4 && b[0] == IPV4_ADDR_LEN && Length(b[1], b[2]) <= |b|
  }

  /** The hello, and the number of bytes read. */
  function Decode(b: seq<u8>): Option<(Hello, nat)> {
    if !Readable(b) then None
    else
      var i, n := b[1] as int, b[2] as int;
      var at := 4 + 4 * i;
      Some((Hello(Words(b, 4, i), Listings(Words(b, at, n), b[at + 4 * n..at + 5 * n]),
                  FromLE(b[at + 5 * n..at + 5 * n + 4])), at + 5 * n + 4))
  }

  lemma ListingsOf(nbrs: seq<Listing>)
    ensures Listings(Ips(nbrs), Statuses(nbrs)) == nbrs
  {
  }

  lemma IpsLength(nbrs: seq<Listing>)
    ensures |Ips(nbrs)| == |Statuses(nbrs)| == |nbrs|
  {
  }

  /** Where each part of an encoded hello lies. */
  lemma Parts(h: Hello, rest: seq<u8>)
    ensures var b, i, n := Encode(h) + rest, |h.locals|, |h.nbrs|;
            var at := 4 + 4 * i;
            && b[..4] == Header(h) && b[4..at] == LEs(h.locals) && b[at..at + 4 * n] == LEs(Ips(h.nbrs))
            && b[at + 4 * n..at + 5 * n] == Statuses(h.nbrs) && b[at + 5 * n..at + 5 * n + 4] == LE(h.live)
  {
    hide LEs, LE;
  }

  /**
   Decoding an encoded hello gives it back and reads as many bytes as were written, whatever lies
   behind, iff both lists fit their one-byte counts.
   */
  lemma RoundTripIff(h: Hello, rest: seq<u8>)
    ensures Decode(Encode(h) + rest) == Some((h, |Encode(h)|)) <==> |h.locals| <= 255 && |h.nbrs| <= 255
  {
    hide Encode, LEs, LE, Words, FromLE, Listings, Ips, Statuses;
    var b, i, n := Encode(h) + rest, |h.locals|, |h.nbrs|;
    Parts(h, rest);
    assert |Ips(h.nbrs)| == n == |Statuses(h.nbrs)| by { IpsLength(h.nbrs); }
    assert b[1] == b[..4][1] == U8(i) && b[2] == b[..4][2] == U8(n) && b[0] == b[..4][0] == IPV4_ADDR_LEN;
    if i <= 255 && n <= 255 {
      WordsOfLEs(b, 4, h.locals);
      WordsOfLEs(b, 4 + 4 * i, Ips(h.nbrs));
      LERoundTrip(h.live);
      ListingsOf(h.nbrs);
    }
  }

  lemma AddressPlaces(h: Hello, rest: seq<u8>, i: nat)
    ensures var b, l, n := Encode(h) + rest, |h.locals|, |h.nbrs|;
            && (i < l ==> WordAt(b, 4 + 4 * i) == h.locals[i])
            && (i < n ==> WordAt(b, 4 + 4 * l + 4 * i) == h.nbrs[i].ip)
  {
    hide LE, LEs, WordAt, Encode, Header;
    Parts(h, rest);
    var b := Encode(h) + rest;
    if i < |h.locals| {
      WordInPlace(b, 4, h.locals, i);
    }
    if i < |h.nbrs| {
      WordInPlace(b, 4 + 4 * |h.locals|, Ips(h.nbrs), i);
    }
  }

  /**
   Where everything lies: the address length, the two counts and the number 1, the local addresses, the
   neighbours' addresses, their statuses, and the live time.
   */
  lemma {:induction false} EncodeLayout(h: Hello, rest: seq<u8>, i: nat)
    ensures var b, l, n := Encode(h) + rest, |h.locals|, |h.nbrs|;
            && b[0] == 4 && b[1] == l % 256 && b[2] == n % 256 && b[3] == 1
            && (i < l ==> WordAt(b, 4 + 4 * i) == h.locals[i])
            && (i < n ==> WordAt(b, 4 + 4 * l + 4 * i) == h.nbrs[i].ip && b[4 + 4 * l + 4 * n + i] == h.nbrs[i].status)
            && WordAt(b, 4 + 4 * l + 5 * n) == h.live
  {
    hide LE, LEs, WordAt, Encode;
    var b, l, n := Encode(h) + rest, |h.locals|, |h.nbrs|;
    var at := 4 + 4 * l;
    Parts(h, rest);
    AddressPlaces(h, rest, i);
    assert forall k :: 0 <= k < 4 ==> b[k] == b[..4][k];
    LEIs(b, at + 5 * n, h.live);
    if i < n {
      assert b[at + 4 * n + i] == b[at + 4 * n..at + 5 * n][i];
    }
  }

  /** The same places are read, from any readable buffer. */
  lemma {:induction false} DecodeLayout(b: seq<u8>, i: nat)
    requires Readable(b)
    ensures Decode(b).Some?
    ensures var (h, read) := Decode(b).value;
            var l, n := b[1] as int, b[2] as int;
            && |h.locals| == l && |h.nbrs| == n && read == 8 + 4 * l + 5 * n
            && (i < l ==> h.locals[i] == WordAt(b, 4 + 4 * i))
            && (i < n ==> h.nbrs[i] == Listing(WordAt(b, 4 + 4 * l + 4 * i), b[4 + 4 * l + 4 * n + i]))
            && h.live == WordAt(b, 4 + 4 * l + 5 * n)
  {
    hide WordAt, Words, FromLE;
    var l, n := b[1] as int, b[2] as int;
    WordIs(b, 4 + 4 * l + 5 * n);
    if i < l {
      WordsAt(b, 4, l, i);
    }
    if i < n {
      WordsAt(b, 4 + 4 * l, n, i);
    }
  }

  /** A hello whose lists fit their counts also fits the send buffer. */
  lemma CountedFits(h: Hello)
    requires |h.locals| <= 255 && |h.nbrs| <= 255
    ensures |Encode(h)| == 8 + 4 * |h.locals| + 5 * |h.nbrs| <= MESSAGE_BUFFER_SIZE
  {
  }

  /** The buffer part of generate_and_send_hello_message. */
  method EncodeInto(h: Hello, buf: array<u8>) returns (len: nat)
    requires Length(|h.locals|, |h.nbrs|) <= buf.Length
    modifies buf
    ensures len == Length(|h.locals|, |h.nbrs|)
    ensures buf[..len] == Encode(h)
    ensures forall k :: len <= k < buf.Length ==> buf[k] == old(buf[k])
  {
    hide LE, LEs;
    buf[0] := IPV4_ADDR_LEN;
    buf[1] := U8(|h.locals|);
    buf[2] := U8(|h.nbrs|);
    buf[3] := 1;
    assert buf[..4] == Header(h);
    len := PutWords(buf, 4, h.locals);
    len := PutWords(buf, len, Ips(h.nbrs));
    len := PutBytes(buf, len, Statuses(h.nbrs));
    PutWord(buf, len, h.live);
    len := len + 4;
  }

  method PutBytes(buf: array<u8>, at: nat, xs: seq<u8>) returns (len: nat)
    requires at + |xs| <= buf.Length
    modifies buf
    ensures len == at + |xs| && buf[..len] == old(buf[..at]) + xs
    ensures forall k :: len <= k < buf.Length ==> buf[k] == old(buf[k])
  {
    len := at;
    while len != at + |xs|
      invariant at <= len <= at + |xs|
      invariant buf[..len] == old(buf[..at]) + xs[..len - at]
      invariant forall k :: len <= k < buf.Length ==> buf[k] == old(buf[k])
    {
      buf[len] := xs[len - at];
      len := len + 1;
    }
  }

  lemma FullBufferReadable(b: seq<u8>)
    requires |b| == MESSAGE_BUFFER_SIZE && b[0] == IPV4_ADDR_LEN
    ensures Readable(b)
  {
  }

  /** The decoder of handle_hello_message, on its buffer of fixed size, whatever a short message left in it. */
  method DecodeFrom(buf: array<u8>) returns (h: Hello, nowLen: nat)
    requires buf.Length == MESSAGE_BUFFER_SIZE && buf[0] == IPV4_ADDR_LEN
    ensures Decode(buf[..]) == Some((h, nowLen))
  {
    hide Words, FromLE, Listings;
    FullBufferReadable(buf[..]);
    var localIfNumber, neighborNumber := buf[1] as int, buf[2] as int;
    var locals, ips, statuses := [], [], [];
    locals, nowLen := GetWords(buf, 4, localIfNumber);
    ips, nowLen := GetWords(buf, nowLen, neighborNumber);
    var i := 0;
    while i != neighborNumber
      invariant 0 <= i <= neighborNumber && nowLen == 4 + 4 * localIfNumber + 4 * neighborNumber + i
      invariant statuses == buf[nowLen - i..nowLen]
    {
      statuses := statuses + [buf[nowLen]];
      nowLen := nowLen + 1;
      i := i + 1;
    }
    assert statuses == buf[..][nowLen - i..nowLen];
    var live := GetWord(buf, nowLen);
    assert buf[..][nowLen..nowLen + 4] == buf[nowLen..nowLen + 4];
    nowLen := nowLen + 4;
    h := Hello(locals, Listings(ips, statuses), live);
  }
}
