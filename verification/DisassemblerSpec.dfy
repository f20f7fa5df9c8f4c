/**
 Cutting frames into chunks: the reference for FragmentProtoDisassembler, as a machine over
 its events.  The output packet under construction is kept both as bytes and as the list of
 chunks written into it.
 */
module DisassemblerSpec {
  import opened Prelude
  import opened Bytes
  import opened FragmentWire

  // chunkMtu and latency are negative when there is no limit and no packing delay
  datatype Config = Config(inputMtu: nat, outputMtu: nat, chunkMtu: int, latency: int)

  predicate ValidConfig(g: Config) {
    g.inputMtu < 0x1_0000 && g.outputMtu > HEADER && g.chunkMtu != 0
  }

  datatype Dis = Dis(
    frame: Option<Data>,       // frame being cut
    used: nat,                 // how much of it has been written
    out: Option<seq<Chunk>>,   // chunks in the open output packet
    bytes: Data,               // the open output packet
    frameId: nat,
    timer: bool,
    count: nat)                // chunks written for the latest frame

  const Start := Dis(None, 0, None, [], 0, false, 0)

  datatype Event =
    | Input(frame: Data)  // a frame is submitted
    | Output              // an output packet buffer becomes available
    | Timer               // the packing delay expires
    | Cancel              // the frame being cut is given up

  function OutAvail(g: Config, d: Dis): int {
    g.outputMtu - |d.bytes| - HEADER
  }

  function ChunkLen(g: Config, inAvail: nat, outAvail: int): int {
    var len := Min(inAvail, outAvail);
    if g.chunkMtu > 0 then Min(len, g.chunkMtu) else len
  }

  /** There is a frame and a packet with room, so a chunk can be written. */
  predicate Ready(g: Config, d: Dis) {
    && ValidConfig(g)
    && d.frameId < 0x1_0000
    && d.frame.Some? && d.used <= |d.frame.value| <= g.inputMtu
    && d.out.Some? && OutAvail(g, d) > 0
  }

  function NextChunk(g: Config, d: Dis): (c: Chunk)
    requires Ready(g, d)
    ensures Wire(c) && HEADER + |c.data| <= g.outputMtu - |d.bytes|
  {
    var frame := d.frame.value;
    var len := ChunkLen(g, |frame| - d.used, OutAvail(g, d));
    Chunk(d.frameId, d.used, frame[d.used..d.used + len], d.used + len == |frame|)
  }

  /** One round of the loop in write_chunks. */
  function WriteOne(g: Config, d: Dis): (d': Dis)
    requires Ready(g, d)
    ensures d.used < |d.frame.value| ==> d.used < d'.used
    ensures d'.used <= |d.frame.value| && |d'.bytes| <= g.outputMtu
  {
    var c := NextChunk(g, d);
    d.(used := d.used + |c.data|, out := Some(d.out.value + [c]), bytes := d.bytes + Encode(c),
       count := d.count + 1)
  }

  function WriteLoop(g: Config, d: Dis): (d': Dis)
    requires Ready(g, d)
    ensures d'.used == |d.frame.value| || OutAvail(g, d') <= 0
    ensures d'.out.Some? && d'.out.value != [] && d'.frame == d.frame && d'.used <= |d.frame.value|
    decreases |d.frame.value| - d.used, if d.used < |d.frame.value| then 0 else 1
  {
    var d1 := WriteOne(g, d);
    if d1.used < |d.frame.value| && OutAvail(g, d1) > 0 then WriteLoop(g, d1) else d1
  }

  /** Finish the frame if all of it is written. */
  function FinishInput(d: Dis): Dis
    requires d.frame.Some?
  {
    if d.used == |d.frame.value| then d.(frame := None, frameId := (d.frameId + 1) % 0x1_0000) else d
  }

  function Close(d: Dis): (Dis, Option<seq<Chunk>>) {
    (d.(out := None, bytes := [], timer := false), d.out)
  }

  /** Finish the packet if it is full or nothing may be delayed, else make sure the timer runs. */
  function FinishOutput(g: Config, d: Dis): (Dis, Option<seq<Chunk>>)
    requires d.out.Some?
  {
    if OutAvail(g, d) <= 0 || g.latency < 0 then Close(d) else (d.(timer := true), None)
  }

  predicate Enabled(g: Config, d: Dis, e: Event) {
    match e
    case Input(frame) => d.frame.None? && |frame| <= g.inputMtu
    case Output => d.out.None?
    case Timer => d.timer
    case Cancel => d.frame.Some?
  }

  function Submit(d: Dis, frame: Data): Dis {
    d.(frame := Some(frame), used := 0, count := 0)
  }

  /** A step and the packet it sends, if any. */
  function Step(g: Config, d: Dis, e: Event): (Dis, Option<seq<Chunk>>)
    requires ValidConfig(g) && Inv(g, d) && Enabled(g, d, e)
  {
    match e
    case Input(frame) =>
      var d1 := Submit(d, frame);
      if d.out.None? then (d1, None)
      else FinishOutput(g, FinishInput(WriteLoop(g, d1)))
    case Output =>
      var d1 := d.(out := Some([]));
      if d.frame.None? then (d1, None)
      else FinishOutput(g, FinishInput(WriteLoop(g, d1)))
    case Timer =>
      Close(d)
    case Cancel =>
      // the frame id stays, even if a part of the frame has been sent
      (d.(frame := None), None)
  }

  // ---- Invariant ---------------------------------------------------------------------

  /** The open packet is the encoding of its chunks. */
  predicate Packed(d: Dis) {
    if d.out.Some? then (forall c :: c in d.out.value ==> Wire(c)) && d.bytes == EncodeAll(d.out.value)
    else d.bytes == []
  }

  predicate Inv(g: Config, d: Dis) {
    && d.frameId < 0x1_0000
    && Packed(d)
    // a frame and a packet are never both left waiting for each other
    && (d.frame.Some? ==> d.out.None? && |d.frame.value| <= g.inputMtu && (d.used < |d.frame.value| || d.used == 0))
    && (d.out.Some? ==> OutAvail(g, d) > 0)
    && (d.timer <==> d.out.Some? && d.out.value != [])
  }

  lemma {:induction false} WriteLoopKeeps(g: Config, d: Dis)
    requires Ready(g, d) && Packed(d)
    ensures var d' := WriteLoop(g, d);
      d'.frameId == d.frameId && d'.timer == d.timer && Packed(d') && |d'.bytes| <= g.outputMtu
    decreases |d.frame.value| - d.used, if d.used < |d.frame.value| then 0 else 1
  {
    var d1 := WriteOne(g, d);
    EncodeAllAppend(d.out.value, NextChunk(g, d));
    if d1.used < |d.frame.value| && OutAvail(g, d1) > 0 {
      WriteLoopKeeps(g, d1);
    }
  }

  ghost predicate Sendable(g: Config, cs: seq<Chunk>) {
    cs != [] && (forall c :: c in cs ==> Wire(c)) && |EncodeAll(cs)| <= g.outputMtu
  }

  lemma {:induction false} WriteKeepsInv(g: Config, d: Dis)
    requires Ready(g, d) && Packed(d)
    ensures var r := FinishOutput(g, FinishInput(WriteLoop(g, d)));
      Inv(g, r.0) && (r.1.Some? ==> Sendable(g, r.1.value))
  {
    WriteLoopKeeps(g, d);
    FinishKeepsInv(g, WriteLoop(g, d));
  }

  lemma FinishKeepsInv(g: Config, d: Dis)
    requires d.frameId < 0x1_0000 && d.frame.Some? && d.used <= |d.frame.value| <= g.inputMtu
    requires d.out.Some? && d.out.value != [] && Packed(d) && |d.bytes| <= g.outputMtu
    requires d.used == |d.frame.value| || OutAvail(g, d) <= 0
    ensures var r := FinishOutput(g, FinishInput(d));
      Inv(g, r.0) && (r.1.Some? ==> Sendable(g, r.1.value))
  {
  }

  /** Every step keeps the machine in order, and a packet that is sent carries at least one
      chunk and never exceeds the output MTU. */
  lemma StepKeepsInv(g: Config, d: Dis, e: Event)
    requires ValidConfig(g) && Inv(g, d) && Enabled(g, d, e)
    ensures Inv(g, Step(g, d, e).0)
    ensures Step(g, d, e).1.Some? ==> Sendable(g, Step(g, d, e).1.value)
  {
    match e
    case Input(frame) =>
      if d.out.Some? {
        WriteKeepsInv(g, Submit(d, frame));
      }
    case Output =>
      if d.frame.Some? {
        WriteKeepsInv(g, d.(out := Some([])));
      }
    case Timer =>
    case Cancel =>
  }
}
