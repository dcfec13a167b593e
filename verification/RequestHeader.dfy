/**
 * Requests and replies on their way between DDS and zenoh: the request header is taken out of the DDS
 * payload, travels as an attachment, and is put back on the other side.
 */
module RequestHeader {
  import opened Wrappers

  newtype byte = x: int | 0 <= x < 256

  type Bytes = seq<byte>

  /** Client GUID and sequence number as transferred, and the endianness of the message they came with. */
  datatype Header = Header(bytes: Bytes, littleEndian: bool)

  predicate ValidHeader(h: Header) {
    |h.bytes| == 16
  }

  const ATTACHMENT_KEY: Bytes := [0x72, 0x71, 0x68]
  const CDR_HEADER_LE: Bytes := [0, 1, 0, 0]
  const CDR_HEADER_BE: Bytes := [0, 0, 0, 0]

  /** The endianness flag is the last bit of the representation identifier, section 10.2 of DDSI-RTPS 2.5. */
  function LittleEndian(cdr: Bytes): Option<bool> {
    if |cdr| > 3 then Some(cdr[1] % 2 == 1) else None
  }

  // ---- Creating and attaching headers -----------------------------------------------------

  /** The `n` low bytes of a number, least significant first. */
  function LeBytes(v: nat, n: nat): (b: Bytes)
    ensures |b| == n
  {
    if n == 0 then [] else [(v % 256) as byte] + LeBytes(v / 256, n - 1)
  }

  function Reversed(b: Bytes): (r: Bytes)
    ensures |r| == |b|
  {
    if b == [] then [] else Reversed(b[1..]) + [b[0]]
  }

  function U64Bytes(v: nat, littleEndian: bool): Bytes {
    if littleEndian then LeBytes(v, 8) else Reversed(LeBytes(v, 8))
  }

  /** `CddsRequestHeader::create`. */
  function Create(client: nat, sequence: nat, littleEndian: bool): (h: Header)
    ensures ValidHeader(h)
  {
    Header(U64Bytes(client, littleEndian) + U64Bytes(sequence, littleEndian), littleEndian)
  }

  function Pow256(n: nat): nat {
    if n == 0 then 1 else 256 * Pow256(n - 1)
  }

  lemma {:induction false} LeBytesInjective(v: nat, w: nat, n: nat)
    requires v < Pow256(n) && w < Pow256(n) && LeBytes(v, n) == LeBytes(w, n)
    ensures v == w
  {
    if n > 0 {
      assert LeBytes(v, n)[0] == LeBytes(w, n)[0] && LeBytes(v, n)[1..] == LeBytes(w, n)[1..];
      LeBytesInjective(v / 256, w / 256, n - 1);
    }
  }

  lemma {:induction false} ReversedInjective(a: Bytes, b: Bytes)
    requires Reversed(a) == Reversed(b)
    ensures a == b
  {
    assert |a| == |Reversed(a)| && |b| == |Reversed(b)|;
    if a != [] {
      var r, s := Reversed(a), Reversed(b);
      assert r[..|r| - 1] == Reversed(a[1..]) && s[..|s| - 1] == Reversed(b[1..]);
      assert r[|r| - 1] == a[0] && s[|s| - 1] == b[0];
      ReversedInjective(a[1..], b[1..]);
      assert a == [a[0]] + a[1..] && b == [b[0]] + b[1..];
    }
  }

  /** Headers a bridge creates with different sequence numbers are different. */
  lemma CreatedDistinct(client: nat, s: nat, t: nat, littleEndian: bool)
    requires s < Pow256(8) && t < Pow256(8) && s != t
    ensures Create(client, s, littleEndian) != Create(client, t, littleEndian)
  {
    var a, b := U64Bytes(s, littleEndian), U64Bytes(t, littleEndian);
    if a == b {
      if !littleEndian {
        ReversedInjective(LeBytes(s, 8), LeBytes(t, 8));
      }
      LeBytesInjective(s, t, 8);
    }
    assert (U64Bytes(client, littleEndian) + a)[8..] == a && (U64Bytes(client, littleEndian) + b)[8..] == b;
  }

  function AsAttachment(h: Header): Bytes
    requires ValidHeader(h)
  {
    ATTACHMENT_KEY + h.bytes + [if h.littleEndian then 1 else 0]
  }

  function FromAttachment(b: Bytes): (r: Option<Header>)
    ensures r.Some? ==> ValidHeader(r.value)
  {
    if |b| < 3 || b[..3] != ATTACHMENT_KEY || |b| != 20 then None
    else Some(Header(b[3..19], b[19] != 0))
  }

  /** A header survives the way through an attachment. */
  lemma AttachmentRoundTrip(h: Header)
    requires ValidHeader(h)
    ensures FromAttachment(AsAttachment(h)) == Some(h)
  {
  }

  // ---- Messages ---------------------------------------------------------------------------

  /** A DDS message without its request header, and that header; shorter messages are dropped. */
  function Strip(dds: Bytes): (r: Option<(Header, Bytes)>)
    ensures r.Some? ==> ValidHeader(r.value.0)
  {
    if |dds| < 20 then None else Some((Header(dds[4..20], LittleEndian(dds).value), dds[..4] + dds[20..]))
  }

  /** A zenoh message with the request header inserted; invalid messages are dropped. */
  function Wrap(zenoh: Bytes, h: Header): Option<Bytes>
    requires ValidHeader(h)
  {
    if |zenoh| < 4 || zenoh[1] > 1 then None else Some(zenoh[..4] + h.bytes + zenoh[4..])
  }

  /** A query: what the client's bridge, or another zenoh application, sends. */
  datatype Query = Query(payload: Option<Bytes>, attachment: Option<Bytes>)

  /** What the client's bridge makes of a DDS request. */
  function ToQuery(dds: Bytes): Option<Query> {
    match Strip(dds)
    case None => None
    case Some((h, zenoh)) => Some(Query(Some(zenoh), Some(AsAttachment(h))))
  }

  /** The request id the server's bridge uses, `sequence` being its own next number. */
  function RequestId(q: Query, client: nat, sequence: nat): (h: Header)
    ensures ValidHeader(h)
  {
    var littleEndian := if q.payload.Some? && |q.payload.value| > 4 then LittleEndian(q.payload.value).value else true;
    match if q.attachment.Some? then FromAttachment(q.attachment.value) else None
    case Some(h) => h
    case None => Create(client, sequence, littleEndian)
  }

  /** The DDS request the server's bridge writes. */
  function ToDdsRequest(q: Query, h: Header): Option<Bytes>
    requires ValidHeader(h)
  {
    match q.payload
    case Some(zenoh) => Wrap(zenoh, h)
    case None => Some((if h.littleEndian then CDR_HEADER_LE else CDR_HEADER_BE) + h.bytes)
  }

  /** Wrapping what was stripped gives the message back, exactly if its second byte is at most 1. */
  lemma WrapStripped(dds: Bytes)
    requires Strip(dds).Some?
    ensures var (h, zenoh) := Strip(dds).value; Wrap(zenoh, h) == if dds[1] <= 1 then Some(dds) else None
  {
    var (h, zenoh) := Strip(dds).value;
    assert zenoh[1] == dds[1] && zenoh[..4] == dds[..4] && zenoh[4..] == dds[20..];
    assert dds == dds[..4] + dds[4..20] + dds[20..];
  }

  /**
   * A request arrives at the server as the client sent it, under the id the client gave it, exactly if
   * the second byte of its header is at most 1, and is dropped otherwise.
   */
  lemma RequestArrives(dds: Bytes, client: nat, sequence: nat)
    requires |dds| >= 20
    ensures var q := ToQuery(dds).value;
            var id := RequestId(q, client, sequence);
            id == Strip(dds).value.0 && ToDdsRequest(q, id) == if dds[1] <= 1 then Some(dds) else None
  {
    AttachmentRoundTrip(Strip(dds).value.0);
    WrapStripped(dds);
  }

  /** The reply as the client's bridge writes it, from what the server's bridge sent for it. */
  function ReplyAtClient(reply: Bytes, asked: Header): Option<Bytes>
    requires ValidHeader(asked)
  {
    match Strip(reply)
    case None => None
    case Some((id, zenoh)) => if id == asked then Wrap(zenoh, asked) else None
  }

  /**
   * A reply reaches the client, unchanged, exactly if the server kept the request id and the endianness,
   * and the second byte of the reply is at most 1.
   */
  lemma ReplyArrives(dds: Bytes, reply: Bytes)
    requires |dds| >= 20 && |reply| >= 20
    ensures ReplyAtClient(reply, Strip(dds).value.0)
         == if reply[4..20] == dds[4..20] && reply[1] % 2 == dds[1] % 2 && reply[1] <= 1 then Some(reply) else None
  {
    WrapStripped(reply);
  }
}
