/** memcpy and memmove. */
module Memory {
  import opened Bytes

  method CopyMemory(dst: array<byte>, to: nat, src: array<byte>, from: nat, n: nat)
    requires dst != src && to + n <= dst.Length && from + n <= src.Length
    modifies dst
    ensures dst[..] == old(dst[..to]) + src[from..from + n] + old(dst[to + n..])
  {
    for i := 0 to n
      invariant dst[to..to + i] == src[from..from + i]
      invariant dst[..to] == old(dst[..to]) && dst[to + i..] == old(dst[to + i..])
    {
      dst[to + i] := src[from + i];
    }
    assert dst[..] == dst[..to] + dst[to..to + n] + dst[to + n..];
  }

  /** Moves bytes towards the start of the same buffer. */
  method MoveMemory(buf: array<byte>, to: nat, from: nat, n: nat)
    requires to <= from && from + n <= buf.Length
    modifies buf
    ensures buf[to..to + n] == old(buf[from..from + n])
  {
    for i := 0 to n
      invariant buf[to..to + i] == old(buf[from..from + i])
      invariant forall k :: to + i <= k < buf.Length ==> buf[k] == old(buf[k])
    {
      buf[to + i] := buf[from + i];
    }
  }

  /** Copies a value into the start of a buffer. */
  method StoreBytes(dst: array<byte>, data: seq<byte>)
    requires |data| <= dst.Length
    modifies dst
    ensures dst[..] == data + old(dst[|data|..])
  {
    for i := 0 to |data|
      invariant dst[..i] == data[..i]
      invariant forall k :: i <= k < dst.Length ==> dst[k] == old(dst[k])
    {
      dst[i] := data[i];
    }
  }
}
