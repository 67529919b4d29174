/** Values shared by every part of the relay session: bytes, socket addresses,
    the item of the shared outbound queue, and the constants of the relay. */
module RelayTypes {
  /** Length of the reader's receive buffer, 64 KiB. */
  const BUF_LEN: nat := 64 * 1024

  /** Number of consecutive failed receives after which the writer declares the
      session idle. */
  const IDLE_LIMIT: nat := 2

  newtype Byte = b: int | 0 <= b < 256

  type Payload = seq<Byte>

  newtype Port = p: int | 0 <= p < 0x1_0000

  /** A socket address: the octets of an IPv4 or IPv6 address, and a port. */
  datatype SocketAddr = SocketAddr(ip: seq<Byte>, port: Port)

  /** An item of the shared outbound queue: the client address a reply goes to,
      and the reply's bytes. */
  datatype OutboundItem = OutboundItem(dest: SocketAddr, payload: Payload)

  datatype Option<+T> = None | Some(value: T)

  datatype Result<+T, +E> = Ok(value: T) | Err(error: E)

  lemma AppendAssoc<T>(a: seq<T>, b: seq<T>, c: seq<T>)
    ensures (a + b) + c == a + (b + c)
  {
  }

  lemma TakeFront<T>(s: seq<T>, x: T)
    ensures (s + [x])[..|s|] == s
  {}

  lemma TakeSnoc<T>(s: seq<T>, i: nat)
    requires i < |s|
    ensures s[..i + 1] == s[..i] + [s[i]]
  {
  }

  function Min(a: int, b: int): int
  {
    if a <= b then a else b
  }
}
