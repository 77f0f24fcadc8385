/** The wire format of a multiplexed connection: a 12-byte big-endian header
    (command, channel, payload size) followed by the payload. */
module Frames {

  type byte = x: int | 0 <= x < 256

  const WORD_LIMIT := 0x1_0000_0000

  /** The source's uint32_t. */
  type word = x: int | 0 <= x < WORD_LIMIT

  const CHANNEL_OPEN: word := 0
  const CHANNEL_CLOSE: word := 1
  const CHANNEL_DATA: word := 2

  const HEADER_SIZE := 12

  datatype Packet = Packet(cmd: word, channel: word, payload: seq<byte>) {
    /** The size of the whole packet still fits into 32 bits. */
    predicate Fits() { |payload| + HEADER_SIZE < WORD_LIMIT }
  }

  /** htonl() */
  function PutWord(n: word): (s: seq<byte>)
    ensures |s| == 4
  {
    [n / 0x100_0000, n / 0x1_0000 % 0x100, n / 0x100 % 0x100, n % 0x100]
  }

  /** ntohl() */
  function GetWord(s: seq<byte>): word
    requires |s| == 4
  {
    (s[0] as int) * 0x100_0000 + (s[1] as int) * 0x1_0000 + (s[2] as int) * 0x100 + s[3] as int
  }

  lemma GetPutWord(n: word)
    ensures GetWord(PutWord(n)) == n
  {
    assert n / 0x1_0000 == n / 0x100_0000 * 0x100 + n / 0x1_0000 % 0x100;
    assert n / 0x100 == n / 0x1_0000 * 0x100 + n / 0x100 % 0x100;
  }

  function Header(cmd: word, channel: word, count: word): (s: seq<byte>)
    ensures |s| == HEADER_SIZE
  {
    PutWord(cmd) + PutWord(channel) + PutWord(count)
  }

  function Encode(p: Packet): (s: seq<byte>)
    requires p.Fits()
    ensures |s| == HEADER_SIZE + |p.payload|
  {
    Header(p.cmd, p.channel, |p.payload|) + p.payload
  }

  function HeaderCmd(s: seq<byte>): word
    requires |s| >= HEADER_SIZE
  {
    GetWord(s[0..4])
  }

  function HeaderChannel(s: seq<byte>): word
    requires |s| >= HEADER_SIZE
  {
    GetWord(s[4..8])
  }

  function HeaderCount(s: seq<byte>): word
    requires |s| >= HEADER_SIZE
  {
    GetWord(s[8..12])
  }

  /** What the receiver computes from a complete header. The sum is stored in
      an unsigned int, hence the wrap-around. */
  function PacketSize(s: seq<byte>): word
    requires |s| >= HEADER_SIZE
  {
    (HeaderCount(s) + HEADER_SIZE) % WORD_LIMIT
  }

  /** What the receiver makes of a buffer that holds one whole packet. */
  function Decode(s: seq<byte>): Packet
    requires |s| >= HEADER_SIZE
  {
    Packet(HeaderCmd(s), HeaderChannel(s), s[HEADER_SIZE..])
  }

  function EncodeAll(ps: seq<Packet>): seq<byte>
    requires forall p <- ps :: p.Fits()
  {
    if ps == [] then [] else Encode(ps[0]) + EncodeAll(ps[1..])
  }

  /** The header fields survive whatever follows the packet. */
  lemma HeaderOfEncoded(p: Packet, rest: seq<byte>)
    requires p.Fits()
    ensures var s := Encode(p) + rest;
            && HeaderCmd(s) == p.cmd
            && HeaderChannel(s) == p.channel
            && HeaderCount(s) == |p.payload|
            && PacketSize(s) == |Encode(p)|
  {
    var s := Encode(p) + rest;
    assert s[0..4] == PutWord(p.cmd);
    assert s[4..8] == PutWord(p.channel);
    assert s[8..12] == PutWord(|p.payload|);
    GetPutWord(p.cmd);
    GetPutWord(p.channel);
    GetPutWord(|p.payload|);
  }

  lemma DecodeEncode(p: Packet)
    requires p.Fits()
    ensures Decode(Encode(p)) == p
  {
    HeaderOfEncoded(p, []);
    assert Encode(p) + [] == Encode(p);
  }

  lemma PutGetWord(s: seq<byte>)
    requires |s| == 4
    ensures PutWord(GetWord(s)) == s
  {
    var n := GetWord(s);
    assert n / 0x100 == (s[0] as int) * 0x1_0000 + (s[1] as int) * 0x100 + s[2] as int;
    assert n / 0x1_0000 == (s[0] as int) * 0x100 + s[1] as int;
    assert n / 0x100_0000 == s[0] as int;
  }

  /** Decoding loses nothing: a buffer exactly as long as its header says is
      the encoding of the packet it decodes to. */
  lemma EncodeDecode(s: seq<byte>)
    requires |s| >= HEADER_SIZE && HeaderCount(s) + HEADER_SIZE == |s| < WORD_LIMIT
    ensures Decode(s).Fits() && Encode(Decode(s)) == s
  {
    PutGetWord(s[0..4]);
    PutGetWord(s[4..8]);
    PutGetWord(s[8..12]);
    assert s == s[0..4] + s[4..8] + s[8..12] + s[12..];
  }

  lemma {:induction false} EncodeAllAppend(ps: seq<Packet>, qs: seq<Packet>)
    requires forall p <- ps + qs :: p.Fits()
    ensures (forall p <- ps :: p.Fits()) && (forall p <- qs :: p.Fits())
    ensures EncodeAll(ps + qs) == EncodeAll(ps) + EncodeAll(qs)
  {
    assert forall p <- ps :: p in ps + qs;
    assert forall p <- qs :: p in ps + qs;
    if ps == [] {
      assert ps + qs == qs;
    } else {
      assert (ps + qs)[1..] == ps[1..] + qs;
      EncodeAllAppend(ps[1..], qs);
    }
  }

  /** Two packets at the start of the same bytes are the same packet. */
  lemma SameFirstPacket(h: Packet, t: seq<byte>, p: Packet, u: seq<byte>)
    requires h.Fits() && p.Fits()
    requires Encode(h) + t <= Encode(p) + u
    ensures h == p && t <= u
  {
    var s := Encode(p) + u;
    var n := |Encode(h)|;
    HeaderOfEncoded(p, u);
    HeaderOfEncoded(h, s[n..]);
    assert s[..n] == (Encode(h) + t)[..n] == Encode(h);
    assert s == Encode(h) + s[n..];
    assert Encode(p) == s[..n];
    DecodeEncode(h);
    DecodeEncode(p);
    assert t == (Encode(h) + t)[n..] && u == s[n..];
  }

  /** Frames are self-delimiting: packets whose encodings, followed by an
      unfinished remainder, are an initial piece of a well-formed stream are
      the first packets of that stream. */
  lemma {:induction false} UniqueFraming(hs: seq<Packet>, r: seq<byte>, ps: seq<Packet>)
    requires (forall p <- hs :: p.Fits()) && (forall p <- ps :: p.Fits())
    requires EncodeAll(hs) + r <= EncodeAll(ps)
    ensures hs <= ps
  {
    if hs != [] {
      var t := EncodeAll(hs[1..]) + r;
      assert EncodeAll(hs) + r == Encode(hs[0]) + t;
      assert ps != [];
      SameFirstPacket(hs[0], t, ps[0], EncodeAll(ps[1..]));
      UniqueFraming(hs[1..], r, ps[1..]);
      assert hs == [hs[0]] + hs[1..] && ps == [ps[0]] + ps[1..];
    }
  }

  /** The number that bytes stand for in network order, the most significant one
      first. */
  function BigEndian(s: seq<byte>): nat {
    if s == [] then 0 else BigEndian(s[..|s| - 1]) * 256 + s[|s| - 1]
  }

  lemma FourBytes(s: seq<byte>)
    requires |s| == 4
    ensures BigEndian(s) == GetWord(s)
  {
    assert s[..3][..2] == s[..2] && s[..3][..2][..1] == s[..1] && s[..1][..0] == [];
    assert BigEndian(s[..1]) == s[0] as int && BigEndian(s[..2]) == s[0] as int * 256 + s[1] as int;
    assert BigEndian(s[..3]) == (s[0] as int * 256 + s[1] as int) * 256 + s[2] as int;
  }

  /** On the wire: the command, the channel and the size of the payload, each as
      four bytes in network order, and then the payload. */
  lemma Layout(p: Packet)
    requires p.Fits()
    ensures var s := Encode(p);
      && BigEndian(s[0..4]) == p.cmd && BigEndian(s[4..8]) == p.channel && BigEndian(s[8..12]) == |p.payload|
      && s[12..] == p.payload
  {
    var s := Encode(p);
    HeaderOfEncoded(p, []);
    assert s + [] == s;
    FourBytes(s[0..4]);
    FourBytes(s[4..8]);
    FourBytes(s[8..12]);
  }
}
