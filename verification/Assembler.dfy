/**
 FragmentProtoAssembler as the C code runs it: a fixed pool of frame entries with one buffer each,
 a 32-bit packet clock that is rebased when full, and input packets that are read chunk by chunk.

 The ghost field `model` is the reference of AssemblerSpec.dfy with its unbounded clock; `base` is
 how much has been subtracted from the 32-bit clock so far.
 */
module AssemblerImpl {
  import opened Prelude
  import opened Bytes
  import opened FragmentWire
  import opened AssemblerSpec
  import opened AssemblerRuns
  import opened AssemblerPool

  const MAX_TIME: nat := 0xFFFF_FFFF

  class Assembler {
    const p: Params
    const buffers: array2<Byte>   // row i is the buffer of entry i
    var entries: seq<Entry>
    var free: seq<nat>
    var used: seq<nat>
    var tree: map<nat, nat>
    var time: nat
    var inLen: int                // -1 when there is no input packet
    var input: Data
    var inPos: nat
    ghost var model: Asm
    ghost var base: nat

    ghost function View(): Pool
      reads this`entries, this`free, this`used, this`tree
    {
      Pool(entries, free, used, tree)
    }

    /** Each used entry's buffer holds the accepted bytes of its frame. */
    ghost predicate Buffered()
      reads this`used, this`model, buffers
    {
      && buffers.Length0 == p.numFrames && buffers.Length1 == p.mtu
      && |used| == |model.frames|
      && forall k, i :: 0 <= k < |used| && used[k] < p.numFrames && 0 <= i < p.mtu && Covered(model.frames[k].pieces, i) ==>
           buffers[used[k], i] == ByteAt(model.frames[k].pieces, i)
    }

    ghost predicate PoolValid()
      reads this, buffers
    {
      && ValidParams(p) && Inv(p, model)
      && PoolOk(p.numFrames, View(), model.frames, base)
      && Buffered()
      && time + base == model.now
    }

    ghost predicate Valid()
      reads this, buffers
    {
      && PoolValid()
      && p.numFrames < MAX_TIME && time <= MAX_TIME
      && (inLen < 0 ==> inLen == -1) && (inLen >= 0 ==> inLen == |input| && inPos <= inLen)
    }

    /** free_frame */
    method FreeFrame(slot: nat, ghost k: nat)
      requires ValidParams(p) && PoolOk(p.numFrames, View(), model.frames, base) && Buffered()
      requires time + base == model.now && k < |used| && used[k] == slot
      requires Inv(p, Asm(model.now, RemoveAt(model.frames, k)))
      modifies this`used, this`free, this`tree, this`model
      ensures PoolValid() && model == Asm(old(model).now, RemoveAt(old(model).frames, k))
      ensures free == old(free) + [slot]
    {
      hide Inv, PoolOk, ByteAt;
      ghost var a, oldUsed := model, used;
      FreeOk(p.numFrames, View(), a.frames, base, k);
      var id := entries[slot].id;
      used, tree, free := Remove(used, slot), tree - {id}, free + [slot];
      model := Asm(a.now, RemoveAt(a.frames, k));
      forall j | 0 <= j < |used|
        ensures used[j] == oldUsed[if j < k then j else j + 1]
        ensures model.frames[j] == a.frames[if j < k then j else j + 1]
      {
      }
    }

    /** allocate_new_frame */
    method AllocateNewFrame(id: nat) returns (slot: nat)
      requires PoolValid() && Find(model.frames, id).None?
      modifies this`entries, this`used, this`free, this`tree, this`model
      ensures PoolValid() && model == Asm(old(model).now, Allocate(p, old(model).frames, id, old(model).now))
      ensures |used| > 0 && used[|used|-1] == slot
    {
      hide Inv, PoolOk, ByteAt, Find;
      ghost var a := model;
      AllocateKeeps(p, a, id);
      PoolFull(p.numFrames, View(), a.frames, base);
      if free == [] {
        RemoveFirstAbsent(a.frames, id);
        RemoveKeeps(p, a, 0);
        FreeFrame(used[0], 0);
      }
      assert Allocate(p, a.frames, id, a.now) == model.frames + [Frame(id, a.now, [])];
      slot := Use(id);
    }

    /** Takes the first free entry. */
    method Use(id: nat) returns (slot: nat)
      requires PoolValid() && free != [] && Find(model.frames, id).None?
      requires Inv(p, Asm(model.now, model.frames + [Frame(id, model.now, [])]))
      modifies this`entries, this`used, this`free, this`tree, this`model
      ensures PoolValid() && model == Asm(old(model).now, old(model).frames + [Frame(id, old(model).now, [])])
      ensures |used| > 0 && used[|used|-1] == slot
    {
      hide Inv, PoolOk, ByteAt, Find;
      ghost var a, oldUsed := model, used;
      UseOk(p.numFrames, View(), a.frames, base, id, time);
      slot := free[0];
      entries := entries[slot := Entry(id, time, [], 0, -1, 0)];
      free, used, tree := free[1..], used + [slot], tree[id := slot];
      model := Asm(a.now, a.frames + [Frame(id, a.now, [])]);
      assert forall j :: 0 <= j < |oldUsed| ==> used[j] == oldUsed[j] && model.frames[j] == a.frames[j];
      assert forall i :: !Covered([], i);
    }

    /** frame_is_timed_out */
    predicate IsTimedOut(slot: nat)
      reads this
      requires slot < |entries| && entries[slot].time <= time
    {
      time - entries[slot].time > p.numFrames
    }

    /** The first half of process_chunk: find the frame of this id, replacing it if it has timed out. */
    method LookupFrame(id: nat) returns (slot: nat, ghost k: nat)
      requires PoolValid()
      modifies this`entries, this`used, this`free, this`tree, this`model
      ensures PoolValid()
      ensures (model.frames, k) == Lookup(p, old(model), id) && model.now == old(model).now
      ensures k < |used| && used[k] == slot
    {
      hide Inv, PoolOk, ByteAt;
      ghost var a := model;
      LookupPool(p, View(), a, base, id);
      if id !in tree {
        slot := AllocateNewFrame(id);
        k := |used| - 1;
      } else {
        slot := tree[id];
        k := Find(a.frames, id).value;
        if IsTimedOut(slot) {
          RemoveKeeps(p, a, k);
          FreeFrame(slot, k);
          slot := AllocateNewFrame(id);
          k := |used| - 1;
        }
      }
    }

    /** memcpy into the buffer of an entry */
    method CopyToBuffer(slot: nat, start: nat, data: Data)
      requires slot < buffers.Length0 && start + |data| <= buffers.Length1
      modifies buffers
      ensures forall i :: 0 <= i < |data| ==> buffers[slot, start + i] == data[i]
      ensures forall j, i :: 0 <= j < buffers.Length0 && 0 <= i < buffers.Length1 && !(j == slot && start <= i < start + |data|)
                ==> buffers[j, i] == old(buffers[j, i])
    {
      for n := 0 to |data|
        invariant forall i :: 0 <= i < n ==> buffers[slot, start + i] == data[i]
        invariant forall j, i :: 0 <= j < buffers.Length0 && 0 <= i < buffers.Length1 && !(j == slot && start <= i < start + n)
                    ==> buffers[j, i] == old(buffers[j, i])
      {
        buffers[slot, start + n] := data[n];
      }
    }

    /** The checks of process_chunk on the entry. */
    method CheckChunk(slot: nat, start: nat, len: nat, last: bool) returns (good: bool)
      requires slot < |entries|
      ensures var e, end := entries[slot], start + len;
        good <==>
          && (forall i :: 0 <= i < |e.chunks| ==>
                !(e.chunks[i].start + e.chunks[i].len > start && end > e.chunks[i].start))
          && (if last then e.length < 0 && e.lengthSoFar <= end
              else e.length >= 0 ==> end <= e.length)
    {
      var e := entries[slot];
      for i := 0 to |e.chunks|
        invariant forall j :: 0 <= j < i ==>
                    !(e.chunks[j].start + e.chunks[j].len > start && start + len > e.chunks[j].start)
      {
        var c := e.chunks[i];
        if c.start + c.len > start && start + len > c.start {
          return false;
        }
      }
      if last {
        good := e.length < 0 && e.lengthSoFar <= start + len;
      } else {
        good := e.length < 0 || start + len <= e.length;
      }
    }

    /** The accepted chunk goes into the entry and its payload into the buffer. */
    method AddToFrame(slot: nat, ghost k: nat, start: nat, data: Data, last: bool)
      requires PoolValid() && k < |used| && used[k] == slot
      requires start + |data| <= p.mtu && Acceptable(model.frames[k].pieces, Piece(start, data, last))
      modifies this`entries, this`model, buffers
      ensures ValidParams(p) && PoolOk(p.numFrames, View(), model.frames, base) && Buffered()
      ensures time + base == model.now
      ensures var f := old(model).frames[k];
        model == Asm(old(model).now,
                     old(model).frames[k := Frame(f.id, old(model).now, f.pieces + [Piece(start, data, last)])])
      ensures slot < |entries| && entries[slot] == AddChunk(old(entries[slot]), time, start, |data|, last)
    {
      hide Inv, PoolOk, Acceptable, Consistent, ByteAt;
      ghost var a, f, x := model, model.frames[k], Piece(start, data, last);
      ghost var f' := Frame(f.id, a.now, f.pieces + [x]);
      AddPool(p, View(), a, base, k, time, x);
      entries := entries[slot := AddChunk(entries[slot], time, start, |data|, last)];
      CopyToBuffer(slot, start, data);
      model := Asm(a.now, a.frames[k := f']);
      forall i | 0 <= i < p.mtu && Covered(f'.pieces, i)
        ensures buffers[slot, i] == ByteAt(f'.pieces, i)
      {
        ByteAtAppend(f.pieces, x, i);
        assert Covers(x, i) ==> buffers[slot, start + (i - start)] == data[i - start];
      }
    }

    // ---- The clock ---------------------------------------------------------------------

    /** The first loop of reduce_times: drop timed-out frames and find the least time of the others. */
    method PurgeTimedOut() returns (min: Option<nat>)
      requires PoolValid()
      modifies this`used, this`free, this`tree, this`model
      ensures PoolValid()
      ensures model == Asm(old(model).now, Unexpired(p, old(model).now, old(model).frames))
      ensures min.None? <==> model.frames == []
      ensures min.Some? ==> min.value + base == Least(model.frames)
    {
      hide Inv, PoolOk, Buffered, Least, Unexpired, Purged, Distinct, RemoveAt;
      ghost var a, j := model, 0;
      UsedEntries(p, View(), a, base);
      PurgeEnds(p, a.now, a.frames);
      var i := 0;
      min := None;
      while i < |used|
        invariant PoolValid() && model.now == a.now && j <= |a.frames| && |used| == |model.frames|
        invariant model.frames == Purged(p, a.now, a.frames, j)
        invariant i == |Unexpired(p, a.now, a.frames[..j])|
        invariant |used| - i == |a.frames| - j
        invariant min.None? <==> i == 0
        invariant min.Some? ==> min.value + base == Least(Unexpired(p, a.now, a.frames[..j]))
        decreases |a.frames| - j
      {
        UsedEntries(p, View(), model, base);
        PurgeStep(p, a.now, a.frames, j);
        PurgedSize(p, a.now, a.frames, j + 1);
        var slot := used[i];
        if IsTimedOut(slot) {
          RemoveKeeps(p, model, i);
          FreeFrame(slot, i);
          UsedEntries(p, View(), model, base);
        } else {
          if min.None? || entries[slot].time < min.value {
            min := Some(entries[slot].time);
          }
          i := i + 1;
        }
        j := j + 1;
      }
    }

    /** The second loop of reduce_times. */
    method SubtractFromEntries(min: nat)
      requires Distinct(used)
      requires forall k :: 0 <= k < |used| ==> used[k] < |entries| && min <= entries[used[k]].time
      modifies this`entries
      ensures |entries| == |old(entries)|
      ensures forall k :: 0 <= k < |used| ==>
        used[k] < |entries| && entries[used[k]] == old(entries)[used[k]].(time := old(entries)[used[k]].time - min)
      ensures forall j :: 0 <= j < |entries| && j !in used ==> entries[j] == old(entries)[j]
    {
      for i := 0 to |used|
        invariant |entries| == |old(entries)|
        invariant forall k :: 0 <= k < i ==>
          entries[used[k]] == old(entries)[used[k]].(time := old(entries)[used[k]].time - min)
        invariant forall k :: i <= k < |used| ==> entries[used[k]] == old(entries)[used[k]]
        invariant forall j :: 0 <= j < |entries| && j !in used ==> entries[j] == old(entries)[j]
      {
        var e := entries[used[i]];
        entries := entries[used[i] := e.(time := e.time - min)];
      }
    }

    /** reduce_times: timed-out frames go, everybody else keeps their age on the lowered clock. */
    method ReduceTimes()
      requires PoolValid()
      modifies this`entries, this`used, this`free, this`tree, this`time, this`model, this`base
      ensures ValidParams(p) && Inv(p, model) && PoolOk(p.numFrames, View(), model.frames, base) && Buffered()
      ensures model == Asm(old(model).now, Unexpired(p, old(model).now, old(model).frames))
      ensures model.frames != [] ==> time + base == model.now && time <= p.numFrames && |used| > 0
      ensures model.frames == [] ==> time == 0 && used == []
    {
      hide Inv, PoolOk, ByteAt, Covered, Unexpired, Distinct, Least;
      ghost var a := model;
      assert UniqueIds(a.frames) by { PoolUnique(p.numFrames, View(), a.frames, base); }
      var min := PurgeTimedOut();
      UsedEntries(p, View(), model, base);
      if min.None? {
        time := 0;
      } else {
        SurvivorIsRecent(p, a.now, a.frames);
        LeastIsBelow(p, View(), model, base, min.value);
        ghost var pool := View();
        SubtractFromEntries(min.value);
        assert pool.used == used;
        assert forall k :: 0 <= k < |used| ==> used[k] < p.numFrames;
        RebaseOk(p.numFrames, pool, model.frames, base, min.value, entries);
        time := time - min.value;
        base := base + min.value;
      }
    }

    /** The end of process_input: the clock ticks, after a rebasing if it is full.  There is then
        always something to subtract, because num_frames < FPA_MAX_TIME. */
    method FinishPacket()
      requires Valid() && inLen >= 0
      modifies this`entries, this`used, this`free, this`tree, this`time, this`inLen, this`model, this`base
      ensures Valid() && inLen == -1
      ensures model == EndPacket(p, old(model), old(time) == MAX_TIME)
    {
      hide Inv, PoolOk, ByteAt, Covered, Unexpired;
      ghost var a := model;
      EndPacketKeepsInv(p, a, time == MAX_TIME);
      if time == MAX_TIME {
        ReduceTimes();
        if used != [] {
          assert time < MAX_TIME;
          time := time + 1;
        } else {
          assert time == 0;
          assert EndPacket(p, a, true).frames == [];
          EmptyPool(p.numFrames, View(), base, a.now + 1);
          base := a.now + 1;
        }
        model := EndPacket(p, a, true);
      } else {
        time := time + 1;
        model := EndPacket(p, a, false);
      }
      inLen := -1;
    }

    // ---- Chunks --------------------------------------------------------------------------

    /** process_chunk; the result is the entry and length of the completed frame. */
    method ProcessChunk(c: Chunk) returns (sent: Option<(nat, nat)>)
      requires PoolValid()
      modifies this`entries, this`used, this`free, this`tree, this`model, buffers
      ensures PoolValid() && model == Receive(p, old(model), c).0
      ensures Delivered(sent, Receive(p, old(model), c).1)
    {
      hide Inv, PoolOk, ByteAt, Covered, Lookup, Acceptable, Complete, Assemble;
      ghost var a := model;
      ReceiveKeepsInv(p, a, c);
      if c.start > p.mtu || |c.data| > p.mtu - c.start {
        return None;
      }
      LookupKeeps(p, a, c.id);
      var slot;
      ghost var k;
      slot, k := LookupFrame(c.id);
      ghost var x := PieceOf(c);
      EntryOf(p, View(), model, base, k, x);
      var good := CheckChunk(slot, c.start, |c.data|, c.last);
      if !good {
        RemoveKeeps(p, model, k);
        FreeFrame(slot, k);
        return None;
      }
      sent := AcceptChunk(slot, k, c);
    }

    /** The entry's buffer holds the frame. */
    ghost predicate Delivered(sent: Option<(nat, nat)>, frame: Option<Data>)
      reads buffers
    {
      && (sent.Some? <==> frame.Some?)
      && (sent.Some? ==>
            && sent.value.0 < buffers.Length0 && sent.value.1 == |frame.value| <= buffers.Length1
            && forall i :: 0 <= i < |frame.value| ==> buffers[sent.value.0, i] == frame.value[i])
    }

    /** The second half of process_chunk: the chunk is good. */
    method AcceptChunk(slot: nat, ghost k: nat, c: Chunk) returns (sent: Option<(nat, nat)>)
      requires PoolValid() && k < |used| && used[k] == slot
      requires c.start + |c.data| <= p.mtu && model.frames[k].id == c.id
      requires Acceptable(model.frames[k].pieces, PieceOf(c))
      modifies this`entries, this`used, this`free, this`tree, this`model, buffers
      ensures PoolValid()
      ensures var (a', d) := Accept(p, old(model), k, c);
        model == a' && Delivered(sent, d)
    {
      hide Inv, PoolOk, ByteAt, Covered, Lookup, Acceptable, Consistent, Sum, Length, Tiles;
      ghost var a, ps := model, model.frames[k].pieces + [PieceOf(c)];
      EntryOf(p, View(), a, base, k, PieceOf(c));
      AcceptKeepsInv(p, a, k, c);
      RemoveKeeps(p, a, k);
      assert RemoveAt(a.frames[k := Frame(c.id, a.now, ps)], k) == RemoveAt(a.frames, k);
      AddToFrame(slot, k, c.start, c.data, c.last);
      var e := entries[slot];
      if e.length < 0 || e.sum < e.length {
        if |e.chunks| == p.numChunks {
          FreeFrame(slot, k);
        }
        return None;
      }
      CompleteBuffered(p.mtu, ps);
      assert e.sum == e.length;
      assert forall i :: 0 <= i < e.length ==> buffers[slot, i] == Assemble(ps)[i];
      FreeFrame(slot, k);
      sent := Some((slot, e.length));
    }

    // ---- Packets ---------------------------------------------------------------------------

    constructor (numFrames: nat, numChunks: nat, mtu: nat)
      requires 0 < numFrames < MAX_TIME && 0 < numChunks
      ensures Valid() && p == Params(numFrames, numChunks, mtu) && model == Empty && inLen == -1
      ensures fresh(buffers)
    {
      p := Params(numFrames, numChunks, mtu);
      buffers := new Byte[numFrames, mtu]((i, j) => 0);
      entries := seq(numFrames, _ => Entry(0, 0, [], 0, -1, 0));
      free := seq(numFrames, i => i);
      used, tree, time := [], map[], 0;
      inLen, input, inPos := -1, [], 0;
      model, base := Empty, 0;
      new;
      InitialPool(numFrames, View());
    }

    /** The reading loop of process_input: it stops when a frame is complete or nothing more can be
        read from the packet. */
    method ReadChunks() returns (sent: Option<(nat, nat)>)
      requires Valid() && inLen >= 0
      modifies this`entries, this`used, this`free, this`tree, this`model, this`inPos, buffers
      ensures Valid() && inLen >= 0
      ensures var (a1, d, rest) := Read(p, old(model), old(input[inPos..]));
        && model == a1 && Delivered(sent, d)
        && (d.Some? ==> input[inPos..] == rest)
    {
      hide Inv, PoolOk, Buffered, Receive, Decode, Chunks;
      ghost var a0, s0 := model, input[inPos..];
      while inPos < inLen
        invariant Valid() && inLen >= 0 && input == old(input)
        invariant Read(p, a0, s0) == Read(p, model, input[inPos..])
        decreases inLen - inPos
      {
        ghost var s := input[inPos..];
        var c := Decode(input[inPos..]);
        if c.None? {
          return None;
        }
        sent := ProcessChunk(c.value);
        inPos := inPos + HEADER + |c.value.data|;
        assert input[inPos..] == s[HEADER + |c.value.data|..];
        if sent.Some? {
          return;
        }
      }
      ReadNothing(p, model);
      assert input[inPos..] == [];
      sent := None;
    }

    /** process_input */
    method ProcessInput() returns (sent: Option<(nat, nat)>)
      requires Valid() && inLen >= 0
      modifies this`entries, this`used, this`free, this`tree, this`time, this`inPos, this`inLen,
               this`model, this`base, buffers
      ensures Valid()
      ensures var (a1, d, rest) := Read(p, old(model), old(input[inPos..]));
        && Delivered(sent, d)
        && (if d.Some? then model == a1 && inLen >= 0 && input[inPos..] == rest
            else model == EndPacket(p, a1, old(time) == MAX_TIME) && inLen == -1)
    {
      hide Inv, PoolOk, Buffered, Read;
      sent := ReadChunks();
      if sent.None? {
        FinishPacket();
      }
    }

    /** input_handler_send: a packet arrives. */
    method InputSend(data: Data) returns (sent: Option<(nat, nat)>)
      requires Valid() && inLen == -1
      modifies this, buffers
      ensures Valid()
      ensures var (a1, d, rest) := Read(p, old(model), data);
        && Delivered(sent, d)
        && (if d.Some? then model == a1 && inLen >= 0 && input[inPos..] == rest
            else model == EndPacket(p, a1, old(time) == MAX_TIME) && inLen == -1)
    {
      hide Inv, PoolOk, Buffered, Read;
      inLen, input, inPos := |data|, data, 0;
      assert input[inPos..] == data;
      sent := ProcessInput();
    }

    /** output_handler_done: the completed frame has been passed on, the packet is resumed. */
    method OutputDone() returns (sent: Option<(nat, nat)>)
      requires Valid() && inLen >= 0
      modifies this, buffers
      ensures Valid()
      ensures var (a1, d, rest) := Read(p, old(model), old(input[inPos..]));
        && Delivered(sent, d)
        && (if d.Some? then model == a1 && inLen >= 0 && input[inPos..] == rest
            else model == EndPacket(p, a1, old(time) == MAX_TIME) && inLen == -1)
    {
      hide Inv, PoolOk, Buffered, Read;
      sent := ProcessInput();
    }
  }
}
