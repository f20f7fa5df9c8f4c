/** Reassembly over whole packet sequences. */
module AssemblerRuns {
  import opened Prelude
  import opened Bytes
  import opened FragmentWire
  import opened AssemblerSpec

  // An input packet, and whether the code's clock is full when the packet ends.
  datatype Packet = Packet(bytes: Data, purge: bool)

  const Empty := Asm(0, [])

  /** The chunks of one packet, in order.  (The code hands a completed frame to its output and
      resumes the packet when the output is done; no other input can come in between.) */
  function ReceiveAll(p: Params, a: Asm, cs: seq<Chunk>): (Asm, seq<Data>)
    requires ValidParams(p)
  {
    if cs == [] then (a, [])
    else
      var (a1, out) := ReceiveAll(p, a, cs[..|cs|-1]);
      var (a2, d) := Receive(p, a1, cs[|cs|-1]);
      (a2, if d.Some? then out + [d.value] else out)
  }

  function Feed(p: Params, packets: seq<Packet>): (Asm, seq<Data>)
    requires ValidParams(p)
  {
    if packets == [] then (Empty, [])
    else
      var z := packets[|packets|-1];
      var (a, out) := Feed(p, packets[..|packets|-1]);
      var (a1, more) := ReceiveAll(p, a, Chunks(z.bytes));
      (EndPacket(p, a1, z.purge), out + more)
  }

  // ---- Reading a packet in installments ---------------------------------------------------

  /** Reads chunks until a frame is complete or the packet is used up: the new state, the frame, and
      the data left to read once the frame has been passed on. */
  function Read(p: Params, a: Asm, s: Data): (Asm, Option<Data>, Data)
    requires ValidParams(p)
    decreases |s|
  {
    var c := Decode(s);
    if c.None? then (a, None, [])
    else
      var (a1, d) := Receive(p, a, c.value);
      var rest := s[HEADER + |c.value.data|..];
      if d.Some? then (a1, d, rest) else Read(p, a1, rest)
  }

  lemma {:induction false} ReceiveNothing(p: Params, a: Asm)
    requires ValidParams(p)
    ensures ReceiveAll(p, a, []) == (a, [])
  {
  }

  lemma {:induction false} ReceiveAllLast(p: Params, a: Asm, cs: seq<Chunk>)
    requires ValidParams(p) && cs != []
    ensures var (a1, out) := ReceiveAll(p, a, cs[..|cs|-1]);
      var (a2, d) := Receive(p, a1, cs[|cs|-1]);
      ReceiveAll(p, a, cs) == (a2, if d.Some? then out + [d.value] else out)
  {
    hide Receive;
  }

  lemma {:induction false} ReceiveAllFront(p: Params, a: Asm, cs: seq<Chunk>)
    requires ValidParams(p) && cs != []
    ensures var (a1, d) := Receive(p, a, cs[0]);
      var (a2, out) := ReceiveAll(p, a1, cs[1..]);
      ReceiveAll(p, a, cs) == (a2, if d.Some? then [d.value] + out else out)
  {
    hide Receive, ReceiveAll;
    ReceiveAllLast(p, a, cs);
    if |cs| > 1 {
      var init := cs[..|cs|-1];
      ReceiveAllFront(p, a, init);
      ReceiveAllLast(p, Receive(p, a, cs[0]).0, cs[1..]);
      assert init[1..] == cs[1..][..|cs|-2] && cs[1..][|cs|-2] == cs[|cs|-1];
      var (a1, d) := Receive(p, a, cs[0]);
      var (a2, out) := ReceiveAll(p, a1, init[1..]);
      var e := Receive(p, a2, cs[|cs|-1]).1;
      assert d.Some? && e.Some? ==> ([d.value] + out) + [e.value] == [d.value] + (out + [e.value]);
    } else {
      assert cs[..0] == [] && cs[1..] == [];
      ReceiveNothing(p, a);
      ReceiveNothing(p, Receive(p, a, cs[0]).0);
      var d := Receive(p, a, cs[0]).1;
      assert d.Some? ==> [d.value] + [] == [] + [d.value];
    }
  }

  /** Reading in installments comes to the same as reading all chunks of the packet at once. */
  lemma {:induction false} ReadIsReceiveAll(p: Params, a: Asm, s: Data)
    requires ValidParams(p)
    ensures var (a1, d, rest) := Read(p, a, s);
      var (a2, out) := ReceiveAll(p, a1, Chunks(rest));
      ReceiveAll(p, a, Chunks(s)) == (a2, if d.Some? then [d.value] + out else [])
    ensures Read(p, a, s).1.None? ==> Read(p, a, s).2 == []
    decreases |s|
  {
    var c := Decode(s);
    if c.Some? {
      var rest := s[HEADER + |c.value.data|..];
      assert Chunks(s) == [c.value] + Chunks(rest);
      ReceiveAllFront(p, a, Chunks(s));
      var (a1, d) := Receive(p, a, c.value);
      if d.None? {
        ReadIsReceiveAll(p, a1, rest);
      }
    } else {
      assert Chunks(s) == [] && Chunks([]) == [];
    }
  }

  lemma {:induction false} ReadNothing(p: Params, a: Asm)
    requires ValidParams(p)
    ensures Read(p, a, []) == (a, None, [])
  {
  }
}
