// PROXY protocol version 2 headers: the encoder, a decoder written from section 2.2 of the
// HAProxy "PROXY protocol" specification, and the proof that they undo each other.

module ProxyProtocol {
  import opened Common

  type Byte = n: nat | n < 0x100

  type U16 = n: nat | n < 0x1_0000

  type Octets4 = s: seq<Byte> | |s| == 4 witness [0, 0, 0, 0]

  type Octets16 = s: seq<Byte> | |s| == 16 witness [0, 0, 0, 0, 0, 0, 0, 0, 0, 0, 0, 0, 0, 0, 0, 0]

  datatype Ip = V4(v4: Octets4) | V6(v6: Octets16)

  datatype Socket = Socket(ip: Ip, port: U16)

  datatype Tlv = Tlv(tlvType: Byte, value: seq<Byte>)

  const SIGNATURE: seq<Byte> := [0x0D, 0x0A, 0x0D, 0x0A, 0x00, 0x0D, 0x0A, 0x51, 0x55, 0x49, 0x54, 0x0A]
  const VERSION_PROXY: Byte := 0x21
  const INET_STREAM: Byte := 0x11
  const INET6_STREAM: Byte := 0x21
  const TYPE_AUTHORITY: Byte := 0x02

  /** `(n as u16).to_be_bytes()`: longer numbers lose their high bits. */
  function BigEndian(n: nat): (b: seq<Byte>)
    ensures |b| == 2
  {
    [n / 0x100 % 0x100, n % 0x100]
  }

  function FromBigEndian(hi: Byte, lo: Byte): (n: nat)
    ensures n < 0x1_0000
  {
    0x100 * hi + lo
  }

  /** IPv4-mapped form of section 2.5.5.2 of RFC 4291. */
  function ToV6(ip: Ip): Octets16 {
    match ip
    case V4(o) => [0, 0, 0, 0, 0, 0, 0, 0, 0, 0, 0xFF, 0xFF] + o
    case V6(o) => o
  }

  // ---------- What a header looks like ----------

  function EncodedLen(t: Tlv): nat { 3 + |t.value| }

  function TotalLen(ts: seq<Tlv>): nat { if ts == [] then 0 else EncodedLen(ts[0]) + TotalLen(ts[1..]) }

  function EncodeTlv(t: Tlv): (b: seq<Byte>)
    ensures |b| == EncodedLen(t)
  {
    [t.tlvType] + BigEndian(|t.value|) + t.value
  }

  function EncodeTlvs(ts: seq<Tlv>): (b: seq<Byte>)
    ensures |b| == TotalLen(ts)
  {
    if ts == [] then [] else EncodeTlv(ts[0]) + EncodeTlvs(ts[1..])
  }

  function Family(src: Socket, dst: Socket): Byte { if src.ip.V4? && dst.ip.V4? then INET_STREAM else INET6_STREAM }

  function AddressLen(src: Socket, dst: Socket): nat { if src.ip.V4? && dst.ip.V4? then 12 else 36 }

  function Addresses(src: Socket, dst: Socket): (b: seq<Byte>)
    ensures |b| == AddressLen(src, dst)
  {
    (if src.ip.V4? && dst.ip.V4? then src.ip.v4 + dst.ip.v4 else ToV6(src.ip) + ToV6(dst.ip))
    + BigEndian(src.port) + BigEndian(dst.port)
  }

  function PayloadLen(src: Socket, dst: Socket, ts: seq<Tlv>): nat { AddressLen(src, dst) + TotalLen(ts) }

  /** The complete header; its length is as stated for every input, also one whose length field wraps. */
  function Encoding(src: Socket, dst: Socket, ts: seq<Tlv>): (b: seq<Byte>)
    ensures |b| == 16 + PayloadLen(src, dst, ts)
  {
    SIGNATURE + [VERSION_PROXY, Family(src, dst)] + BigEndian(PayloadLen(src, dst, ts))
    + Addresses(src, dst) + EncodeTlvs(ts)
  }

  class Builder {
    const src: Socket
    const dst: Socket
    var tlvs: seq<Tlv>

    constructor (source: Socket, destination: Socket)
      ensures src == source && dst == destination && tlvs == []
    {
      src, dst, tlvs := source, destination, [];
    }

    method AddTlv(tlvType: Byte, value: seq<Byte>)
      modifies this
      ensures tlvs == old(tlvs) + [Tlv(tlvType, value)]
    {
      tlvs := tlvs + [Tlv(tlvType, value)];
    }

    method AddAuthority(hostname: seq<Byte>)
      modifies this
      ensures tlvs == old(tlvs) + [Tlv(TYPE_AUTHORITY, hostname)]
    {
      AddTlv(TYPE_AUTHORITY, hostname);
    }

    method Build() returns (buf: seq<Byte>)
      ensures buf == Encoding(src, dst, tlvs)
    {
      hide BigEndian, EncodeTlvs, TotalLen;
      var family, addrLen, addr;
      match (src.ip, dst.ip) {
        case (V4(s), V4(d)) => family, addrLen, addr := INET_STREAM, 12, s + d;
        case (V6(s), V6(d)) => family, addrLen, addr := INET6_STREAM, 36, s + d;
        case (V4(_), V6(d)) => family, addrLen, addr := INET6_STREAM, 36, ToV6(src.ip) + d;
        case (V6(s), V4(_)) => family, addrLen, addr := INET6_STREAM, 36, s + ToV6(dst.ip);
      }
      addr := addr + BigEndian(src.port) + BigEndian(dst.port);
      var tlvTotal := SumLen(tlvs);
      buf := SIGNATURE;
      buf := buf + [VERSION_PROXY];
      buf := buf + [family];
      buf := buf + BigEndian(addrLen + tlvTotal);
      buf := buf + addr;
      assert buf == SIGNATURE + [VERSION_PROXY, Family(src, dst)] + BigEndian(PayloadLen(src, dst, tlvs)) + Addresses(src, dst);
      buf := AppendAll(buf, tlvs);
    }
  }

  method SumLen(ts: seq<Tlv>) returns (n: nat)
    ensures n == TotalLen(ts)
  {
    n := 0;
    for i := 0 to |ts|
      invariant n + TotalLen(ts[i..]) == TotalLen(ts)
    {
      n := n + EncodedLen(ts[i]);
      assert ts[i..][1..] == ts[i + 1..];
    }
  }

  method AppendAll(buf: seq<Byte>, ts: seq<Tlv>) returns (out: seq<Byte>)
    ensures out == buf + EncodeTlvs(ts)
  {
    hide EncodeTlv;
    out := buf;
    for i := 0 to |ts|
      invariant out + EncodeTlvs(ts[i..]) == buf + EncodeTlvs(ts)
    {
      assert ts[i..][1..] == ts[i + 1..];
      assert out + EncodeTlvs(ts[i..]) == (out + EncodeTlv(ts[i])) + EncodeTlvs(ts[i + 1..]);
      out := EncodeInto(ts[i], out);
    }
  }

  /** `Tlv::encode`: appends to a buffer. */
  method EncodeInto(t: Tlv, buf: seq<Byte>) returns (out: seq<Byte>)
    ensures out == buf + EncodeTlv(t)
  {
    out := buf + [t.tlvType];
    out := out + BigEndian(|t.value|);
    out := out + t.value;
  }

  // ---------- The receiver ----------

  datatype Header = Header(src: Socket, dst: Socket, tlvs: seq<Tlv>)

  function DecodeTlvs(b: seq<Byte>): Option<seq<Tlv>> {
    if b == [] then Some([])
    else if |b| < 3 then None
    else
      var n := FromBigEndian(b[1], b[2]);
      if |b| < 3 + n then None
      else
        match DecodeTlvs(b[3 + n..])
        case None => None
        case Some(ts) => Some([Tlv(b[0], b[3..3 + n])] + ts)
  }

  /** Two addresses of `size` octets and two ports. */
  function DecodeAddresses(size: nat, b: seq<Byte>): (Socket, Socket)
    requires size == 4 || size == 16
    requires |b| == 2 * size + 4
  {
    var a, c := b[..size], b[size..2 * size];
    (Socket(if size == 4 then V4(a) else V6(a), FromBigEndian(b[2 * size], b[2 * size + 1])),
     Socket(if size == 4 then V4(c) else V6(c), FromBigEndian(b[2 * size + 2], b[2 * size + 3])))
  }

  /** A version 2 PROXY header for TCP over IPv4 or IPv6, and the bytes that follow it. */
  function Decode(b: seq<Byte>): Option<(Header, seq<Byte>)> {
    if |b| < 16 || b[..12] != SIGNATURE || b[12] != VERSION_PROXY then None
    else if b[13] != INET_STREAM && b[13] != INET6_STREAM then None
    else
      var n := FromBigEndian(b[14], b[15]);
      var size := if b[13] == INET_STREAM then 4 else 16;
      if |b| < 16 + n || n < 2 * size + 4 then None
      else
        var payload := b[16..16 + n];
        var (src, dst) := DecodeAddresses(size, payload[..2 * size + 4]);
        match DecodeTlvs(payload[2 * size + 4..])
        case None => None
        case Some(ts) => Some((Header(src, dst, ts), b[16 + n..]))
  }

  /** Addresses of mixed families as the receiver sees them. */
  function Canonical(src: Socket, dst: Socket, ts: seq<Tlv>): Header {
    if src.ip.V4? && dst.ip.V4? then Header(src, dst, ts)
    else Header(Socket(V6(ToV6(src.ip)), src.port), Socket(V6(ToV6(dst.ip)), dst.port), ts)
  }

  // ---------- Encoding and decoding undo each other ----------

  lemma Low16(n: nat, top: nat, low: nat)
    requires low < 0x1_0000 && n == 0x1_0000 * top + low
    ensures n % 0x1_0000 == low
  {
  }

  lemma BigEndianRoundTrip(n: nat)
    ensures FromBigEndian(BigEndian(n)[0], BigEndian(n)[1]) == n % 0x1_0000
  {
    var q, low := n / 0x100, n % 0x100;
    var top, high := q / 0x100, q % 0x100;
    assert n == 0x100 * q + low && q == 0x100 * top + high;
    Low16(n, top, 0x100 * high + low);
  }

  lemma BigEndianOf(hi: Byte, lo: Byte)
    ensures BigEndian(FromBigEndian(hi, lo)) == [hi, lo]
  {
  }

  /** What is read from three octets, a value of the length they say, and the rest. */
  lemma DecodeStep(kind: Byte, hi: Byte, lo: Byte, value: seq<Byte>, rest: seq<Byte>)
    requires |value| == FromBigEndian(hi, lo) && DecodeTlvs(rest).Some?
    ensures DecodeTlvs([kind, hi, lo] + value + rest) == Some([Tlv(kind, value)] + DecodeTlvs(rest).value)
  {
    hide FromBigEndian;
    var b := [kind, hi, lo] + value + rest;
    assert b[3..3 + |value|] == value && b[3 + |value|..] == rest;
  }

  lemma DecodeOne(t: Tlv, rest: seq<Byte>)
    requires |t.value| < 0x1_0000 && DecodeTlvs(rest).Some?
    ensures DecodeTlvs(EncodeTlv(t) + rest) == Some([t] + DecodeTlvs(rest).value)
  {
    hide BigEndian, FromBigEndian, DecodeTlvs;
    var n := |t.value|;
    var hi, lo := BigEndian(n)[0], BigEndian(n)[1];
    BigEndianRoundTrip(n);
    assert EncodeTlv(t) + rest == [t.tlvType, hi, lo] + t.value + rest;
    DecodeStep(t.tlvType, hi, lo, t.value, rest);
  }

  lemma {:induction false} TlvsRoundTrip(ts: seq<Tlv>)
    requires TotalLen(ts) < 0x1_0000
    ensures DecodeTlvs(EncodeTlvs(ts)) == Some(ts)
  {
    if ts != [] {
      TlvsRoundTrip(ts[1..]);
      DecodeOne(ts[0], EncodeTlvs(ts[1..]));
      assert [ts[0]] + ts[1..] == ts;
    }
  }

  lemma EncodeOne(b: seq<Byte>)
    requires |b| >= 3 && |b| >= 3 + FromBigEndian(b[1], b[2])
    ensures var n := FromBigEndian(b[1], b[2]); EncodeTlv(Tlv(b[0], b[3..3 + n])) == b[..3 + n]
  {
    hide BigEndian, FromBigEndian;
    BigEndianOf(b[1], b[2]);
  }

  lemma {:induction false} TlvsReencode(b: seq<Byte>)
    ensures DecodeTlvs(b).Some? ==> EncodeTlvs(DecodeTlvs(b).value) == b
  {
    hide FromBigEndian, EncodeTlv;
    if DecodeTlvs(b).Some? && b != [] {
      var n := FromBigEndian(b[1], b[2]);
      EncodeOne(b);
      TlvsReencode(b[3 + n..]);
      var ts := DecodeTlvs(b).value;
      assert ts[0] == Tlv(b[0], b[3..3 + n]) && ts[1..] == DecodeTlvs(b[3 + n..]).value;
      assert b == b[..3 + n] + b[3 + n..];
    }
  }

  /** Reads two addresses and two ports from their octets. */
  lemma DecodeParts(size: nat, a: seq<Byte>, c: seq<Byte>, p: seq<Byte>, q: seq<Byte>)
    requires (size == 4 || size == 16) && |a| == |c| == size && |p| == |q| == 2
    ensures var (src, dst) := DecodeAddresses(size, a + c + p + q);
      src.port == FromBigEndian(p[0], p[1]) && dst.port == FromBigEndian(q[0], q[1]) &&
      if size == 4 then src.ip == V4(a) && dst.ip == V4(c) else src.ip == V6(a) && dst.ip == V6(c)
  {
    hide FromBigEndian;
    var b := a + c + p + q;
    assert b[..size] == a && b[size..2 * size] == c;
  }

  lemma AddressesReencode(size: nat, b: seq<Byte>)
    requires size == 4 || size == 16
    requires |b| == 2 * size + 4
    ensures var (src, dst) := DecodeAddresses(size, b);
      Addresses(src, dst) == b && Canonical(src, dst, []) == Header(src, dst, []) && AddressLen(src, dst) == |b|
  {
    hide BigEndian, FromBigEndian;
    BigEndianOf(b[2 * size], b[2 * size + 1]);
    BigEndianOf(b[2 * size + 2], b[2 * size + 3]);
    assert b == b[..size] + b[size..2 * size] + [b[2 * size], b[2 * size + 1]] + [b[2 * size + 2], b[2 * size + 3]];
  }

  /** A receiver gets back addresses, ports, TLVs and the following bytes exactly when the payload
      fits its 16-bit length field. */
  lemma RoundTripIff(src: Socket, dst: Socket, ts: seq<Tlv>, rest: seq<Byte>)
    ensures Decode(Encoding(src, dst, ts) + rest) == Some((Canonical(src, dst, ts), rest)) <==>
            PayloadLen(src, dst, ts) < 0x1_0000
  {
    hide EncodeTlvs, DecodeTlvs, DecodeAddresses, TotalLen, BigEndian, FromBigEndian;
    var b := Encoding(src, dst, ts) + rest;
    var n := PayloadLen(src, dst, ts);
    BigEndianRoundTrip(n);
    assert b[..12] == SIGNATURE;
    assert b[14] == BigEndian(n)[0] && b[15] == BigEndian(n)[1];
    if n < 0x1_0000 {
      var payload := b[16..16 + n];
      assert payload == Addresses(src, dst) + EncodeTlvs(ts);
      assert payload[..AddressLen(src, dst)] == Addresses(src, dst);
      assert payload[AddressLen(src, dst)..] == EncodeTlvs(ts);
      TlvsRoundTrip(ts);
      BigEndianRoundTrip(src.port);
      BigEndianRoundTrip(dst.port);
      if src.ip.V4? && dst.ip.V4? {
        DecodeParts(4, src.ip.v4, dst.ip.v4, BigEndian(src.port), BigEndian(dst.port));
      } else {
        DecodeParts(16, ToV6(src.ip), ToV6(dst.ip), BigEndian(src.port), BigEndian(dst.port));
      }
      assert b[16 + n..] == rest;
    }
  }

  lemma Reassemble(b: seq<Byte>, n: nat)
    requires |b| >= 16 + n
    ensures b == b[..12] + [b[12], b[13]] + [b[14], b[15]] + b[16..16 + n] + b[16 + n..]
  {
  }

  /** The parts of an accepted header. */
  lemma AcceptedParts(b: seq<Byte>) returns (n: nat, size: nat)
    requires Decode(b).Some?
    ensures |b| >= 16 + n && n >= 2 * size + 4 && (size == 4 || size == 16) && BigEndian(n) == [b[14], b[15]] && n < 0x1_0000
    ensures b[..12] == SIGNATURE && b[12] == VERSION_PROXY && b[13] == if size == 4 then INET_STREAM else INET6_STREAM
    ensures var payload := b[16..16 + n];
      var (src, dst) := DecodeAddresses(size, payload[..2 * size + 4]);
      DecodeTlvs(payload[2 * size + 4..]).Some? &&
      Decode(b) == Some((Header(src, dst, DecodeTlvs(payload[2 * size + 4..]).value), b[16 + n..]))
  {
    hide DecodeTlvs, DecodeAddresses, BigEndian, FromBigEndian;
    n := FromBigEndian(b[14], b[15]);
    size := if b[13] == INET_STREAM then 4 else 16;
    BigEndianOf(b[14], b[15]);
  }

  /** Whatever the receiver accepts is the encoding of what it read, and it read canonical addresses. */
  lemma DecodeThenEncode(b: seq<Byte>)
    requires Decode(b).Some?
    ensures var (h, rest) := Decode(b).value;
      b == Encoding(h.src, h.dst, h.tlvs) + rest && h == Canonical(h.src, h.dst, h.tlvs) &&
      PayloadLen(h.src, h.dst, h.tlvs) < 0x1_0000
  {
    hide Decode, EncodeTlvs, DecodeTlvs, Addresses, DecodeAddresses, TotalLen, BigEndian;
    var n, size := AcceptedParts(b);
    var payload := b[16..16 + n];
    AddressesReencode(size, payload[..2 * size + 4]);
    TlvsReencode(payload[2 * size + 4..]);
    assert payload == payload[..2 * size + 4] + payload[2 * size + 4..];
    Reassemble(b, n);
  }

  /** Headers are self-delimiting, and equal only for inputs that differ by the IPv4-mapped form. */
  lemma EncodingInjective(src: Socket, dst: Socket, ts: seq<Tlv>, rest: seq<Byte>,
                          src': Socket, dst': Socket, ts': seq<Tlv>, rest': seq<Byte>)
    requires PayloadLen(src, dst, ts) < 0x1_0000 && PayloadLen(src', dst', ts') < 0x1_0000
    ensures Encoding(src, dst, ts) + rest == Encoding(src', dst', ts') + rest' <==>
            Canonical(src, dst, ts) == Canonical(src', dst', ts') && rest == rest'
  {
    hide Decode, EncodeTlvs;
    RoundTripIff(src, dst, ts, rest);
    RoundTripIff(src', dst', ts', rest');
  }

  lemma BigEndianWraps(n: nat)
    ensures BigEndian(n + 0x1_0000) == BigEndian(n)
  {
    var q, low := n / 0x100, n % 0x100;
    assert n + 0x1_0000 == 0x100 * (q + 0x100) + low;
    assert (n + 0x1_0000) / 0x100 == q + 0x100 && (n + 0x1_0000) % 0x100 == low;
    var top, high := q / 0x100, q % 0x100;
    assert q + 0x100 == 0x100 * (top + 1) + high;
  }

  lemma OneTlv(t: Tlv)
    ensures EncodeTlvs([t]) == EncodeTlv(t) && TotalLen([t]) == EncodedLen(t)
  {
    assert [t][1..] == [] && EncodeTlv(t) + [] == EncodeTlv(t);
  }

  /** A TLV of 65536 bytes wraps both length fields: the receiver gets it empty, and its value as what follows the header. */
  lemma LongTlvSpills(src: Socket, dst: Socket, tlvType: Byte, value: seq<Byte>, rest: seq<Byte>)
    requires |value| == 0x1_0000
    ensures Decode(Encoding(src, dst, [Tlv(tlvType, value)]) + rest) == Some((Canonical(src, dst, [Tlv(tlvType, [])]), value + rest))
  {
    hide Decode, BigEndian, Addresses, EncodeTlvs, TotalLen;
    var long, short := Tlv(tlvType, value), Tlv(tlvType, []);
    OneTlv(long);
    OneTlv(short);
    BigEndianWraps(0);
    BigEndianWraps(PayloadLen(src, dst, [short]));
    assert Encoding(src, dst, [long]) + rest == Encoding(src, dst, [short]) + (value + rest);
    RoundTripIff(src, dst, [short], value + rest);
  }
}
