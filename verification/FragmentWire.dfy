/**
 FragmentProto on the wire: a packet is a sequence of chunks, each a 7-byte packed header
 (frame id, start, length, is_last) followed by its payload.
 */
module FragmentWire {
  import opened Prelude
  import opened Bytes

  const HEADER: nat := 7

  datatype Chunk = Chunk(id: nat, start: nat, data: Data, last: bool)

  /** Field widths of struct fragmentproto_chunk_header. */
  predicate Wire(c: Chunk) {
    c.id < 0x1_0000 && c.start < 0x1_0000 && |c.data| < 0x1_0000
  }

  function Encode(c: Chunk): (r: Data)
    requires Wire(c)
    ensures |r| == HEADER + |c.data|
  {
    Le16(c.id) + Le16(c.start) + Le16(|c.data|) + [if c.last then 1 else 0] + c.data
  }

  function EncodeAll(cs: seq<Chunk>): Data
    requires forall c :: c in cs ==> Wire(c)
  {
    if cs == [] then [] else EncodeAll(cs[..|cs|-1]) + Encode(cs[|cs|-1])
  }

  /** The chunk at the head of the remaining packet data, or None where the receiver gives
      up on the packet: header cut short, is_last neither 0 nor 1, payload cut short. */
  function Decode(s: Data): (r: Option<Chunk>)
    ensures r.Some? ==> Wire(r.value) && HEADER + |r.value.data| <= |s|
  {
    if |s| < HEADER then None
    else
      var len := FromLe16(s, 4);
      if s[6] != 0 && s[6] != 1 then None
      else if |s| - HEADER < len then None
      else Some(Chunk(FromLe16(s, 0), FromLe16(s, 2), s[HEADER..HEADER + len], s[6] == 1))
  }

  /** All chunks a receiver reads from a packet. */
  function Chunks(s: Data): seq<Chunk>
    decreases |s|
  {
    var c := Decode(s);
    if c.None? then [] else [c.value] + Chunks(s[HEADER + |c.value.data|..])
  }

  lemma DecodeEncode(c: Chunk, rest: Data)
    requires Wire(c)
    ensures Decode(Encode(c) + rest) == Some(c)
    ensures (Encode(c) + rest)[HEADER + |c.data|..] == rest
  {
    var s := Encode(c) + rest;
    assert FromLe16(s, 0) == c.id && FromLe16(s, 2) == c.start && FromLe16(s, 4) == |c.data|;
    assert s[HEADER..HEADER + |c.data|] == c.data;
  }

  lemma {:induction false} EncodeAllAppend(cs: seq<Chunk>, c: Chunk)
    requires Wire(c) && forall d :: d in cs ==> Wire(d)
    ensures EncodeAll(cs + [c]) == EncodeAll(cs) + Encode(c)
  {
    assert (cs + [c])[..|cs|] == cs;
  }

  lemma {:induction false} EncodeAllFront(c: Chunk, cs: seq<Chunk>)
    requires Wire(c) && forall d :: d in cs ==> Wire(d)
    ensures EncodeAll([c] + cs) == Encode(c) + EncodeAll(cs)
  {
    hide Encode;
    if cs == [] {
      EncodeAllAppend([], c);
      assert [c] + cs == [] + [c];
    } else {
      var init, z := cs[..|cs|-1], cs[|cs|-1];
      EncodeAllFront(c, init);
      EncodeAllAppend([c] + init, z);
      assert [c] + cs == ([c] + init) + [z];
      assert Encode(c) + EncodeAll(init) + Encode(z) == Encode(c) + EncodeAll(cs);
    }
  }

  /** Encoding and parsing are inverse, for any packet that is made of chunks. */
  lemma {:induction false} ChunksOfEncoding(cs: seq<Chunk>)
    requires forall c :: c in cs ==> Wire(c)
    ensures Chunks(EncodeAll(cs)) == cs
  {
    if cs != [] {
      EncodeAllFront(cs[0], cs[1..]);
      assert cs == [cs[0]] + cs[1..];
      DecodeEncode(cs[0], EncodeAll(cs[1..]));
      ChunksOfEncoding(cs[1..]);
    }
  }
}
