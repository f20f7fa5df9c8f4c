/**
 FragmentProtoDisassembler as the C code runs it: chunk headers and payloads are written byte by
 byte into a caller-supplied packet buffer.  Every method follows one step of the reference machine
 of DisassemblerSpec.dfy.
 */
module DisassemblerImpl {
  import opened Prelude
  import opened Bytes
  import opened Buffers
  import opened FragmentWire
  import opened DisassemblerSpec

  /** Writes a chunk header and its payload after the first `at` bytes. */
  method PutChunk(buf: array<Byte>, at: nat, id: nat, start: nat, data: Data, last: bool)
    requires Wire(Chunk(id, start, data, last)) && at + HEADER + |data| <= buf.Length
    modifies buf
    ensures buf[..at + HEADER + |data|] == old(buf[..at]) + Encode(Chunk(id, start, data, last))
  {
    var header := Le16(id) + Le16(start) + Le16(|data|) + [if last then 1 else 0];
    CopyInto(buf, at, header);
    assert buf[..at + HEADER] == buf[..at] + buf[at..at + HEADER];
    CopyInto(buf, at + HEADER, data);
    assert buf[..at + HEADER + |data|] == buf[..at + HEADER] + buf[at + HEADER..at + HEADER + |data|];
  }

  lemma EncodeNothing()
    ensures EncodeAll([]) == []
  {
  }

  class Disassembler {
    const g: Config
    var inLen: int           // -1 when there is no input frame
    var input: Data
    var inUsed: nat
    var out: array?<Byte>    // null when there is no output packet
    var outUsed: nat
    var frameId: nat
    var timerRunning: bool
    ghost var model: Dis

    ghost predicate Mirrors()
      reads this, out
    {
      && model.frame == (if inLen < 0 then None else Some(input))
      && (inLen < 0 ==> inLen == -1) && (inLen >= 0 ==> inLen == |input|)
      && model.used == inUsed && model.frameId == frameId && model.timer == timerRunning
      && (model.out.None? <==> out == null)
      && (out != null ==>
            && out.Length == g.outputMtu
            && outUsed == |model.bytes| <= out.Length && out[..outUsed] == model.bytes)
    }

    ghost predicate Valid()
      reads this, out
    {
      ValidConfig(g) && Inv(g, model) && Mirrors()
    }

    constructor (g: Config)
      requires ValidConfig(g)
      ensures Valid() && model == Start && this.g == g
    {
      this.g := g;
      inLen, input, inUsed := -1, [], 0;
      out, outUsed := null, 0;
      frameId, timerRunning := 0, false;
      model := Start;
    }

    /** One round of the loop: header, payload, positions. */
    method WriteChunk()
      requires Ready(g, model) && Mirrors()
      modifies this`inUsed, this`outUsed, this`model, out
      ensures model == WriteOne(g, old(model)) && Mirrors()
    {
      hide EncodeAll, Encode;
      ghost var d := model;
      var chunkLen := ChunkLen(g, inLen - inUsed, g.outputMtu - outUsed - HEADER);
      PutChunk(out, outUsed, frameId, inUsed, input[inUsed..inUsed + chunkLen], chunkLen == inLen - inUsed);
      inUsed := inUsed + chunkLen;
      outUsed := outUsed + HEADER + chunkLen;
      model := WriteOne(g, d);
    }

    /** The do-while loop of write_chunks. */
    method WriteAll()
      requires Ready(g, model) && Mirrors()
      modifies this`inUsed, this`outUsed, this`model, out
      ensures model == WriteLoop(g, old(model)) && Mirrors()
    {
      ghost var d0 := model;
      WriteChunk();
      while inUsed < inLen && g.outputMtu - outUsed - HEADER > 0
        invariant Mirrors() && inLen >= 0
        invariant model.frame == d0.frame && model.frameId == d0.frameId && model.used <= |d0.frame.value|
        invariant WriteLoop(g, d0) ==
          if inUsed < inLen && g.outputMtu - outUsed - HEADER > 0 then WriteLoop(g, model) else model
        decreases inLen - inUsed
      {
        WriteChunk();
      }
    }

    /** write_chunks; the result is the length of the packet if it is finished. */
    method WriteChunks() returns (sent: Option<nat>)
      requires Ready(g, model) && Mirrors()
      modifies this, out
      ensures var (d', cs) := FinishOutput(g, FinishInput(WriteLoop(g, old(model))));
        && model == d' && Mirrors()
        && (sent.Some? <==> cs.Some?)
        && (sent.Some? ==>
              sent.value <= old(out).Length && old(out)[..sent.value] == WriteLoop(g, old(model)).bytes)
    {
      hide EncodeAll, WriteLoop;
      WriteAll();
      if inUsed == inLen {
        inLen := -1;
        frameId := (frameId + 1) % 0x1_0000;
        model := FinishInput(model);
      }
      if g.outputMtu - outUsed - HEADER <= 0 || g.latency < 0 {
        sent := Some(outUsed);
        out, timerRunning := null, false;
      } else {
        sent := None;
        timerRunning := true;
      }
      model := FinishOutput(g, model).0;
    }

    /** input_handler_send */
    method InputSend(data: Data) returns (sent: Option<nat>)
      requires Valid() && inLen == -1 && |data| <= g.inputMtu
      modifies this, out
      ensures Valid()
      ensures var (d', cs) := Step(g, old(model), Input(data));
        && model == d'
        && (sent.Some? <==> cs.Some?)
        && (sent.Some? ==>
              && (forall c :: c in cs.value ==> Wire(c))
              && old(out) != null && sent.value <= old(out).Length
              && old(out)[..sent.value] == EncodeAll(cs.value))
    {
      hide EncodeAll, WriteLoop, Wire;
      StepKeepsInv(g, model, Input(data));
      inLen, input, inUsed := |data|, data, 0;
      model := Submit(model, data);
      sent := None;
      if out != null {
        WriteLoopKeeps(g, model);
        sent := WriteChunks();
      }
    }

    /** output_handler_recv */
    method OutputRecv(data: array<Byte>) returns (sent: Option<nat>)
      requires Valid() && out == null && data.Length == g.outputMtu
      modifies this, data
      ensures Valid()
      ensures var (d', cs) := Step(g, old(model), Output);
        && model == d'
        && (sent.Some? <==> cs.Some?)
        && (sent.Some? ==>
              && (forall c :: c in cs.value ==> Wire(c))
              && sent.value <= data.Length && data[..sent.value] == EncodeAll(cs.value))
    {
      hide EncodeAll, WriteLoop, Wire;
      assert EncodeAll([]) == [] by { EncodeNothing(); }
      StepKeepsInv(g, model, Output);
      out, outUsed := data, 0;
      model := model.(out := Some([]));
      sent := None;
      if inLen >= 0 {
        WriteLoopKeeps(g, model);
        sent := WriteChunks();
      }
    }

    /** timer_handler: the packet is sent as it is. */
    method TimerFired() returns (sent: nat)
      requires Valid() && timerRunning
      modifies this
      ensures Valid()
      ensures var (d', cs) := Step(g, old(model), Timer);
        && model == d'
        && cs.Some? && (forall c :: c in cs.value ==> Wire(c))
        && old(out) != null && sent <= old(out).Length && old(out)[..sent] == EncodeAll(cs.value)
    {
      StepKeepsInv(g, model, Timer);
      sent := outUsed;
      out := null;
      timerRunning := false;
      model := Close(model).0;
    }

    /** input_handler_requestcancel */
    method RequestCancel()
      requires Valid() && inLen >= 0
      modifies this`inLen, this`model
      ensures Valid() && model == Step(g, old(model), Cancel).0 && inLen == -1
    {
      hide EncodeAll, WriteLoop, Wire;
      StepKeepsInv(g, model, Cancel);
      inLen := -1;
      model := Step(g, model, Cancel).0;
    }
  }
}
