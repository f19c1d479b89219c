/** A connection as the receive thread meets it, on values. */
module Connection {
  import opened Bytes

  /** The bytes in buf, and those that recv can still deliver on the socket. */
  datatype Conn = Conn(open: bool, held: seq<byte>, wire: seq<byte>)

  const CLOSED := Conn(false, [], [])

  /** recvBody has nothing more to hand out. */
  predicate Ended(c: Conn) {
    c.held == [] && (!c.open || c.wire == [])
  }

  /** recvBody of up to size bytes may hand out n: what buf holds, or else what recv delivers. */
  predicate CanGive(c: Conn, size: nat, n: nat) {
    if c.held != [] then n == Min(|c.held|, size)
    else c.open && 1 <= n <= size && n <= |c.wire|
  }

  function Given(c: Conn, n: nat): seq<byte>
    requires n <= if c.held != [] then |c.held| else |c.wire|
  {
    if c.held != [] then c.held[..n] else c.wire[..n]
  }

  function Remaining(c: Conn, n: nat): Conn
    requires n <= if c.held != [] then |c.held| else |c.wire|
  {
    if c.held != [] then c.(held := c.held[n..]) else c.(wire := c.wire[n..])
  }

  /** What is handed out comes first in the order of the response. */
  lemma GivenFirst(c: Conn, n: nat)
    requires n <= if c.held != [] then |c.held| else |c.wire|
    ensures c.held + c.wire == Given(c, n) + (Remaining(c, n).held + Remaining(c, n).wire)
  {
  }
}
