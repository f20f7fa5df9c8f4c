/** Byte buffers that are filled in place. */
module Buffers {
  import opened Bytes

  /** memcpy into a packet buffer */
  method CopyInto(buf: array<Byte>, at: nat, data: Data)
    requires at + |data| <= buf.Length
    modifies buf
    ensures buf[..at] == old(buf[..at])
    ensures buf[at..at + |data|] == data
    ensures forall i :: at + |data| <= i < buf.Length ==> buf[i] == old(buf[i])
  {
    for i := 0 to |data|
      invariant buf[..at] == old(buf[..at])
      invariant forall j :: 0 <= j < i ==> buf[at + j] == data[j]
      invariant forall j :: at + |data| <= j < buf.Length ==> buf[j] == old(buf[j])
    {
      buf[at + i] := data[i];
    }
  }
}
