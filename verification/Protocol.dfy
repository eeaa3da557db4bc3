/** The records that proxies and clients exchange. */
module Protocol {
  type Byte = x: int | 0 <= x < 256
  type Short = x: int | 0 <= x < 65536
  type Word = x: int | 0 <= x < 0x1_0000_0000

  const MAX_TTL: Byte := 4
  const MAX_ADVICED_RELAYS := 20

  /** A node: autonomous system, port, address and network mask, as they stand on the wire. */
  datatype EndPoint = EndPoint(asn: Short, port: Short, addr: Word, mask: Word)

  datatype Inquiry = Inquiry(ttl: Byte, demand: Byte, source: EndPoint, destination: EndPoint, proxy: EndPoint)

  /** The key of the relay knowledge: source and destination autonomous systems. */
  datatype AsnPair = AsnPair(src: Short, dst: Short)

  function Key(q: Inquiry): AsnPair {
    AsnPair(q.source.asn, q.destination.asn)
  }

  /** `uint8_t` decrement of a time to live. */
  function Decremented(ttl: Byte): (r: Byte)
    ensures (r + 1) % 256 == ttl
  {
    if ttl == 0 then 255 else ttl - 1
  }

  /** The first `n` of a list, or all of a shorter one. */
  function AtMost<T>(n: nat, s: seq<T>): seq<T> {
    if |s| <= n then s else s[..n]
  }
}
