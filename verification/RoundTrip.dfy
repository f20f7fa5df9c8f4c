/**
 Fragmentation round trip: what the disassembler sends, the assembler puts back together,
 frame by frame and in order, for every interleaving of frames, output buffers and timer
 firings.
 */
module RoundTrip {
  import opened Prelude
  import opened Bytes
  import opened FragmentWire
  import opened AssemblerSpec
  import opened AssemblerRuns
  import D = DisassemblerSpec

  // ---- A frame received piece by piece ----------------------------------------------------

  /** The pieces are the first n bytes of the frame, cut into contiguous nonempty parts. */
  ghost predicate InOrder(ps: seq<Piece>, frame: Data, n: nat) {
    if ps == [] then n == 0
    else
      var z := ps[|ps|-1];
      && !z.last && z.start < n <= |frame| && z.data == frame[z.start..n]
      && InOrder(ps[..|ps|-1], frame, z.start)
  }

  lemma {:induction false} InOrderFacts(ps: seq<Piece>, frame: Data, n: nat)
    requires InOrder(ps, frame, n)
    ensures n <= |frame|
    ensures Sum(ps) == n && MaxEnd(ps) == n && Length(ps) == -1
    ensures forall x :: x in ps ==> End(x) <= n
    ensures forall i :: 0 <= i < n ==> ByteAt(ps, i) == frame[i]
  {
    if ps != [] {
      var init, z := ps[..|ps|-1], ps[|ps|-1];
      InOrderFacts(init, frame, z.start);
      assert forall x :: x in ps <==> x in init || x == z;
    }
  }

  /** The next contiguous piece is always accepted; the final one completes exactly the frame. */
  lemma {:induction false} NextPiece(ps: seq<Piece>, frame: Data, n: nat, x: Piece)
    requires InOrder(ps, frame, n)
    requires x.start == n && End(x) <= |frame| && x.data == frame[n..End(x)]
    requires x.last <==> End(x) == |frame|
    ensures Acceptable(ps, x)
    ensures Complete(ps + [x]) <==> x.last
    ensures x.last ==> Assemble(ps + [x]) == frame
    ensures !x.last && n < End(x) ==> InOrder(ps + [x], frame, End(x))
  {
    InOrderFacts(ps, frame, n);
    var all := ps + [x];
    assert all[..|all|-1] == ps;
    if x.last {
      assert forall i :: 0 <= i < |frame| ==> ByteAt(all, i) == frame[i];
    }
  }

  // ---- The assembler while a frame is under way ----------------------------------------------

  /** What is left over, in front of everything else, of a frame whose id is not in use any more. */
  ghost predicate Leftover(frames: seq<Frame>, bad: Option<nat>) {
    |frames| <= 1 && (frames != [] ==> bad == Some(frames[0].id))
  }

  /** Apart from a leftover the assembler holds exactly what has been sent of the current frame.
      `current` says that the frame's latest chunk arrived in the packet being read. */
  ghost predicate Holds(a: Asm, d: D.Dis, current: bool, bad: Option<nat>) {
    if d.frame.Some? && d.used > 0 then
      && a.frames != [] && Leftover(a.frames[..|a.frames|-1], bad)
      && var f := a.frames[|a.frames|-1];
      && f.id == d.frameId
      && InOrder(f.pieces, d.frame.value, d.used)
      && |f.pieces| == d.count
      && f.time <= a.now <= f.time + 1
      && (current ==> f.time == a.now)
    else
      Leftover(a.frames, bad) && (d.frame.Some? ==> d.count == 0)
  }

  /** Room for at least one more chunk of an unfinished frame. */
  predicate Fits(p: Params, d: D.Dis) {
    d.count + (if d.frame.Some? then 1 else 0) <= p.numChunks
  }

  /** One more chunk written is one more chunk received. */
  lemma ReceiveNext(p: Params, g: D.Config, a: Asm, d: D.Dis, current: bool, bad: Option<nat>)
    requires ValidParams(p) && D.Ready(g, d) && bad != Some(d.frameId)
    requires |d.frame.value| <= p.mtu
    requires d.used < |d.frame.value| || d.used == 0
    requires Holds(a, d, current, bad) && d.count < p.numChunks
    ensures var c, d1 := D.NextChunk(g, d), D.WriteOne(g, d);
      var (a1, out) := Receive(p, a, c);
      && a1.now == a.now
      && (c.last ==> out == Some(d.frame.value) && Leftover(a1.frames, bad) && d1.used == |d.frame.value|)
      && (!c.last && d1.count < p.numChunks ==> out == None && d1.used > 0 && Holds(a1, d1, true, bad))
  {
    hide InOrder, Acceptable, Complete, Assemble;
    var c := D.NextChunk(g, d);
    var x, frame := PieceOf(c), d.frame.value;
    var frames, k := EntryOf(p, a, d, current, bad);
    var ps := frames[k].pieces;
    NextPiece(ps, frame, d.used, x);
    assert RemoveAt(frames, k) == frames[..k];
    var more := frames[k := Frame(c.id, a.now, ps + [x])];
    assert more[..k] == frames[..k];
  }

  /** The frame's entry is the last one, behind a leftover at most. */
  lemma EntryOf(p: Params, a: Asm, d: D.Dis, current: bool, bad: Option<nat>) returns (frames: seq<Frame>, k: nat)
    requires ValidParams(p) && d.frame.Some? && bad != Some(d.frameId) && Holds(a, d, current, bad)
    ensures Lookup(p, a, d.frameId) == (frames, k)
    ensures |frames| == k + 1 && Leftover(frames[..k], bad) && frames[k].id == d.frameId
    ensures InOrder(frames[k].pieces, d.frame.value, d.used) && |frames[k].pieces| == d.count
  {
    hide InOrder;
    var r := Lookup(p, a, d.frameId);
    frames, k := r.0, r.1;
    if d.used > 0 {
      assert Find(a.frames, d.frameId) == Some(|a.frames| - 1);
    } else {
      assert Find(a.frames, d.frameId) == None;
      assert frames[..k] == [] || frames[..k] == a.frames;
      NothingInOrder(d.frame.value);
    }
  }

  lemma {:induction false} NothingInOrder(frame: Data)
    ensures InOrder([], frame, 0)
  {
  }

  lemma {:induction false} ReceiveAllNext(p: Params, g: D.Config, a: Asm, d: D.Dis, current: bool, bad: Option<nat>)
    requires ValidParams(p) && D.Ready(g, d) && bad != Some(d.frameId) && |d.frame.value| <= p.mtu
    requires d.used < |d.frame.value| || d.used == 0
    requires Holds(ReceiveAll(p, a, d.out.value).0, d, current, bad) && d.count < p.numChunks
    ensures var d1 := D.WriteOne(g, d);
      var (a0, out0), (a1, out1) := ReceiveAll(p, a, d.out.value), ReceiveAll(p, a, d1.out.value);
      && a1.now == a0.now
      && (d1.used == |d.frame.value| ==> out1 == out0 + [d.frame.value] && Leftover(a1.frames, bad))
      && (d1.used < |d.frame.value| && d1.count < p.numChunks ==>
            out1 == out0 && d1.used > 0 && Holds(a1, d1, true, bad))
  {
    var cs := D.WriteOne(g, d).out.value;
    assert cs[..|cs|-1] == d.out.value && cs[|cs|-1] == D.NextChunk(g, d);
    ReceiveNext(p, g, ReceiveAll(p, a, d.out.value).0, d, current, bad);
  }

  /** What a stretch of writing from d to d' means for the receiver: if it finished the frame, that
      frame is delivered next, otherwise the receiver holds exactly the part written so far. */
  ghost predicate Follows(p: Params, a: Asm, d: D.Dis, d': D.Dis, bad: Option<nat>)
    requires ValidParams(p) && d.frame.Some? && d.out.Some? && d'.out.Some?
  {
    var (a0, out0), (a1, out1) := ReceiveAll(p, a, d.out.value), ReceiveAll(p, a, d'.out.value);
    a1.now == a0.now && Holds(a1, d', true, bad) && out1 == if d'.frame.None? then out0 + [d.frame.value] else out0
  }

  lemma {:induction false} ReceiveLoop(p: Params, g: D.Config, a: Asm, d: D.Dis, current: bool, bad: Option<nat>)
    requires ValidParams(p) && D.Ready(g, d) && bad != Some(d.frameId) && |d.frame.value| <= p.mtu
    requires d.used < |d.frame.value| || d.used == 0
    requires Holds(ReceiveAll(p, a, d.out.value).0, d, current, bad)
    requires Fits(p, D.FinishInput(D.WriteLoop(g, d)))
    ensures Follows(p, a, d, D.FinishInput(D.WriteLoop(g, d)), bad)
    decreases |d.frame.value| - d.used, if d.used < |d.frame.value| then 0 else 1
  {
    CountGrows(g, d);
    ReceiveAllNext(p, g, a, d, current, bad);
    var d1 := D.WriteOne(g, d);
    if d1.used < |d.frame.value| && D.OutAvail(g, d1) > 0 {
      CountGrows(g, d1);
      ReceiveLoop(p, g, a, d1, true, bad);
    }
  }

  lemma {:induction false} CountGrows(g: D.Config, d: D.Dis)
    requires D.Ready(g, d)
    ensures D.WriteLoop(g, d).count > d.count
    decreases |d.frame.value| - d.used, if d.used < |d.frame.value| then 0 else 1
  {
    var d1 := D.WriteOne(g, d);
    if d1.used < |d.frame.value| && D.OutAvail(g, d1) > 0 {
      CountGrows(g, d1);
    }
  }

  // ---- One event ----------------------------------------------------------------------------

  function Open(d: D.Dis): seq<Chunk> {
    if d.out.Some? then d.out.value else []
  }

  function Pending(d: D.Dis): seq<Data> {
    if d.frame.Some? then [d.frame.value] else []
  }

  /** Every submitted frame is accounted for, in order: delivered, or complete in the open packet,
      or still being cut. */
  ghost predicate Synced(p: Params, a: Asm, out: seq<Data>, d: D.Dis, frames: seq<Data>, bad: Option<nat>)
    requires ValidParams(p)
  {
    var (a1, more) := ReceiveAll(p, a, Open(d));
    Holds(a1, d, Open(d) != [], bad) && out + more + Pending(d) == frames
  }

  lemma PacketEnds(p: Params, a: Asm, d: D.Dis, purge: bool, bad: Option<nat>)
    requires ValidParams(p) && Holds(a, d, true, bad)
    ensures Holds(EndPacket(p, a, purge), d, false, bad)
  {
    hide InOrder;
    var init := if a.frames == [] then [] else a.frames[..|a.frames|-1];
    LeftoverStays(p, a.now, a.frames, bad);
    LeftoverStays(p, a.now, init, bad);
    if d.frame.Some? && d.used > 0 {
      var kept, f := Unexpired(p, a.now, init), a.frames[|a.frames|-1];
      assert Unexpired(p, a.now, a.frames) == kept + [f];
      assert (kept + [f])[..|kept + [f]|-1] == kept;
    }
  }

  lemma {:induction false} LeftoverStays(p: Params, now: nat, frames: seq<Frame>, bad: Option<nat>)
    ensures Leftover(frames, bad) ==> Leftover(Unexpired(p, now, frames), bad)
  {
    if Leftover(frames, bad) && frames != [] {
      assert frames[..|frames|-1] == [];
      assert Unexpired(p, now, []) == [];
    }
  }

  lemma {:induction false} WriteSynced(p: Params, g: D.Config, a: Asm, out: seq<Data>, d: D.Dis, frames: seq<Data>,
                                       bad: Option<nat>)
    requires ValidParams(p) && D.Ready(g, d) && |d.frame.value| <= p.mtu && bad != Some(d.frameId)
    requires d.used < |d.frame.value| || d.used == 0
    requires Synced(p, a, out, d, frames, bad) && Fits(p, D.FinishInput(D.WriteLoop(g, d)))
    ensures var d1 := D.FinishInput(D.WriteLoop(g, d));
      Synced(p, a, out, d1, frames, bad) && Holds(ReceiveAll(p, a, d1.out.value).0, d1, true, bad)
  {
    hide InOrder, ReceiveAll;
    ReceiveLoop(p, g, a, d, Open(d) != [], bad);
    var d1 := D.FinishInput(D.WriteLoop(g, d));
    var more := ReceiveAll(p, a, d.out.value).1;
    if d1.frame.None? {
      assert out + (more + [d.frame.value]) + [] == out + more + [d.frame.value];
    }
  }

  lemma {:induction false} SendSynced(p: Params, g: D.Config, a: Asm, out: seq<Data>, d: D.Dis, frames: seq<Data>,
                                      purge: bool,
                   bad: Option<nat>)
    requires ValidParams(p) && d.out.Some? && Synced(p, a, out, d, frames, bad)
    requires Holds(ReceiveAll(p, a, d.out.value).0, d, true, bad)
    ensures var (a1, more) := ReceiveAll(p, a, d.out.value);
      Synced(p, EndPacket(p, a1, purge), out + more, D.Close(d).0, frames, bad)
  {
    var (a1, more) := ReceiveAll(p, a, d.out.value);
    PacketEnds(p, a1, d, purge, bad);
    assert out + more + [] + Pending(d) == out + more + Pending(d);
  }

  /** The frames that are to be delivered: a cancelled frame is not. */
  function FramesAfter(frames: seq<Data>, e: D.Event): seq<Data> {
    match e
    case Input(frame) => frames + [frame]
    case Cancel => if frames == [] then [] else frames[..|frames|-1]
    case _ => frames
  }

  ghost predicate SyncedAfter(p: Params, a: Asm, out: seq<Data>, r: (D.Dis, Option<seq<Chunk>>),
                              frames: seq<Data>, purge: bool, bad: Option<nat>)
    requires ValidParams(p)
  {
    if r.1.None? then Synced(p, a, out, r.0, frames, bad)
    else
      var (a1, more) := ReceiveAll(p, a, r.1.value);
      Synced(p, EndPacket(p, a1, purge), out + more, r.0, frames, bad)
  }

  lemma {:induction false} FinishSynced(p: Params, g: D.Config, a: Asm, out: seq<Data>, d: D.Dis, frames: seq<Data>,
                                        purge: bool,
                   bad: Option<nat>)
    requires ValidParams(p) && d.out.Some? && Synced(p, a, out, d, frames, bad)
    requires Holds(ReceiveAll(p, a, d.out.value).0, d, true, bad)
    ensures SyncedAfter(p, a, out, D.FinishOutput(g, d), frames, purge, bad)
  {
    if D.FinishOutput(g, d).1.Some? {
      SendSynced(p, g, a, out, d, frames, purge, bad);
    }
  }

  lemma {:induction false} WriteAndSendSynced(p: Params, g: D.Config, a: Asm, out: seq<Data>, d: D.Dis,
                                              frames: seq<Data>, purge: bool,
                   bad: Option<nat>)
    requires ValidParams(p) && D.Ready(g, d) && |d.frame.value| <= p.mtu && bad != Some(d.frameId)
    requires d.used < |d.frame.value| || d.used == 0
    requires Synced(p, a, out, d, frames, bad) && Fits(p, D.FinishInput(D.WriteLoop(g, d)))
    ensures SyncedAfter(p, a, out, D.FinishOutput(g, D.FinishInput(D.WriteLoop(g, d))), frames, purge, bad)
  {
    WriteSynced(p, g, a, out, d, frames, bad);
    FinishSynced(p, g, a, out, D.FinishInput(D.WriteLoop(g, d)), frames, purge, bad);
  }

  lemma InputSynced(p: Params, g: D.Config, a: Asm, out: seq<Data>, d: D.Dis, frames: seq<Data>,
                    frame: Data, purge: bool, bad: Option<nat>)
    requires ValidParams(p) && D.ValidConfig(g) && g.inputMtu <= p.mtu
    requires D.Inv(g, d) && D.Enabled(g, d, D.Input(frame)) && bad != Some(d.frameId) && Synced(p, a, out, d, frames, bad)
    requires Fits(p, D.Step(g, d, D.Input(frame)).0)
    ensures SyncedAfter(p, a, out, D.Step(g, d, D.Input(frame)), frames + [frame], purge, bad)
  {
    var more := ReceiveAll(p, a, Open(d)).1;
    var d1 := D.Submit(d, frame);
    assert out + more + [] == out + more;
    assert Synced(p, a, out, d1, frames + [frame], bad);
    if d.out.Some? {
      WriteAndSendSynced(p, g, a, out, d1, frames + [frame], purge, bad);
    }
  }

  lemma OutputSynced(p: Params, g: D.Config, a: Asm, out: seq<Data>, d: D.Dis, frames: seq<Data>, purge: bool,
                   bad: Option<nat>)
    requires ValidParams(p) && D.ValidConfig(g) && g.inputMtu <= p.mtu
    requires D.Inv(g, d) && D.Enabled(g, d, D.Output) && Synced(p, a, out, d, frames, bad)
    requires d.frame.Some? ==> bad != Some(d.frameId)
    requires Fits(p, D.Step(g, d, D.Output).0)
    ensures SyncedAfter(p, a, out, D.Step(g, d, D.Output), frames, purge, bad)
  {
    var d1 := d.(out := Some([]));
    assert Synced(p, a, out, d1, frames, bad);
    if d.frame.Some? {
      WriteAndSendSynced(p, g, a, out, d1, frames, purge, bad);
    }
  }

  /** One event on the sending side, with the packet it may send read on the receiving side. */
  lemma StepSynced(p: Params, g: D.Config, a: Asm, out: seq<Data>, d: D.Dis, frames: seq<Data>,
                   e: D.Event, purge: bool, bad: Option<nat>)
    requires ValidParams(p) && D.ValidConfig(g) && g.inputMtu <= p.mtu
    requires D.Inv(g, d) && D.Enabled(g, d, e) && Synced(p, a, out, d, frames, bad)
    requires Fits(p, D.Step(g, d, e).0) && (e.Cancel? ==> d.used == 0)
    requires e.Input? || d.frame.Some? ==> bad != Some(d.frameId)
    ensures SyncedAfter(p, a, out, D.Step(g, d, e), FramesAfter(frames, e), purge, bad)
  {
    match e {
      case Input(frame) => InputSynced(p, g, a, out, d, frames, frame, purge, bad);
      case Output => OutputSynced(p, g, a, out, d, frames, purge, bad);
      case Timer => SendSynced(p, g, a, out, d, frames, purge, bad);
      case Cancel =>
        var more := ReceiveAll(p, a, Open(d)).1;
        assert (out + more + [d.frame.value])[..|out + more|] == out + more + [];
    }
  }

  // ---- Whole runs -----------------------------------------------------------------------------

  ghost predicate Trace(g: D.Config, es: seq<D.Event>, ds: seq<D.Dis>)
    requires D.ValidConfig(g)
  {
    && |ds| == |es| + 1 && ds[0] == D.Start
    && forall i :: 0 <= i < |es| ==>
         D.Inv(g, ds[i]) && D.Enabled(g, ds[i], es[i]) && ds[i+1] == D.Step(g, ds[i], es[i]).0
  }

  /** From event m to event n only frames are cancelled of which nothing has been sent. */
  ghost predicate CancelsUnstarted(es: seq<D.Event>, ds: seq<D.Dis>, m: nat, n: nat)
    requires |ds| == |es| + 1 && n <= |es|
  {
    forall i :: m <= i < n && es[i].Cancel? ==> ds[i].used == 0
  }

  /** From event m to event n no frame is cut under the given id. */
  ghost predicate Avoids(es: seq<D.Event>, ds: seq<D.Dis>, bad: Option<nat>, m: nat, n: nat)
    requires |ds| == |es| + 1 && n <= |es|
  {
    forall i :: m <= i < n && (es[i].Input? || ds[i].frame.Some?) ==> bad != Some(ds[i].frameId)
  }

  /** The packets sent by the first n events, as bytes; purge tells at which of them the receiver's
      clock is full. */
  ghost function Sent(g: D.Config, es: seq<D.Event>, ds: seq<D.Dis>, purge: nat -> bool, n: nat): seq<Packet>
    requires D.ValidConfig(g) && Trace(g, es, ds) && n <= |es|
  {
    if n == 0 then []
    else
      var before := Sent(g, es, ds, purge, n - 1);
      var sent := D.Step(g, ds[n-1], es[n-1]).1;
      D.StepKeepsInv(g, ds[n-1], es[n-1]);
      if sent.None? then before else before + [Packet(EncodeAll(sent.value), purge(|before|))]
  }

  /** The frames to be delivered after event n, if there were these after event m. */
  function FramesFrom(es: seq<D.Event>, frames: seq<Data>, m: nat, n: nat): seq<Data>
    requires m <= n <= |es|
  {
    if n == m then frames else FramesAfter(FramesFrom(es, frames, m, n - 1), es[n-1])
  }

  function Frames(es: seq<D.Event>, n: nat): seq<Data>
    requires n <= |es|
  {
    FramesFrom(es, [], 0, n)
  }

  lemma {:induction false} StartSynced(p: Params, g: D.Config)
    requires ValidParams(p) && D.ValidConfig(g)
    ensures D.Inv(g, D.Start) && var (a, out) := Feed(p, []); Synced(p, a, out, D.Start, [], None)
  {
  }

  lemma {:induction false} InvHolds(g: D.Config, es: seq<D.Event>, ds: seq<D.Dis>, n: nat)
    requires D.ValidConfig(g) && Trace(g, es, ds) && n <= |es|
    ensures D.Inv(g, ds[n])
  {
    if n > 0 {
      D.StepKeepsInv(g, ds[n-1], es[n-1]);
      assert ds[n] == D.Step(g, ds[n-1], es[n-1]).0;
    }
  }

  /** Once receiver and sender agree they keep agreeing. */
  lemma {:induction false} RunSyncedFrom(p: Params, g: D.Config, es: seq<D.Event>, ds: seq<D.Dis>, purge: nat -> bool,
                                         frames: seq<Data>, bad: Option<nat>, m: nat, n: nat)
    requires ValidParams(p) && D.ValidConfig(g) && g.inputMtu <= p.mtu
    requires Trace(g, es, ds) && m <= n <= |es| && forall i :: m <= i <= n ==> Fits(p, ds[i])
    requires CancelsUnstarted(es, ds, m, n) && Avoids(es, ds, bad, m, n)
    requires var (a, out) := Feed(p, Sent(g, es, ds, purge, m)); Synced(p, a, out, ds[m], frames, bad)
    ensures var (a, out) := Feed(p, Sent(g, es, ds, purge, n)); Synced(p, a, out, ds[n], FramesFrom(es, frames, m, n), bad)
  {
    hide Synced, D.Step, D.Inv, ReceiveAll;
    if n > m {
      RunSyncedFrom(p, g, es, ds, purge, frames, bad, m, n - 1);
      var d, e := ds[n-1], es[n-1];
      assert ds[n] == D.Step(g, d, e).0;
      var before, after := Sent(g, es, ds, purge, n - 1), Sent(g, es, ds, purge, n);
      var (a, out) := Feed(p, before);
      D.StepKeepsInv(g, d, e);
      var sent := D.Step(g, d, e).1;
      StepSynced(p, g, a, out, d, FramesFrom(es, frames, m, n - 1), e, purge(|before|), bad);
      if sent.Some? {
        ChunksOfEncoding(sent.value);
        assert after[..|after|-1] == before;
      }
    }
  }

  lemma {:induction false} RunSynced(p: Params, g: D.Config, es: seq<D.Event>, ds: seq<D.Dis>, purge: nat -> bool,
                                     n: nat)
    requires ValidParams(p) && D.ValidConfig(g) && g.inputMtu <= p.mtu
    requires Trace(g, es, ds) && n <= |es| && forall i :: 0 <= i <= n ==> Fits(p, ds[i])
    requires CancelsUnstarted(es, ds, 0, n)
    ensures D.Inv(g, ds[n])
    ensures var (a, out) := Feed(p, Sent(g, es, ds, purge, n)); Synced(p, a, out, ds[n], Frames(es, n), None)
  {
    hide Synced, D.Step, D.Inv, ReceiveAll, Feed;
    InvHolds(g, es, ds, n);
    StartSynced(p, g);
    RunSyncedFrom(p, g, es, ds, purge, [], None, 0, n);
  }

  /** Round trip.  Feed an assembler, in order and without loss, every packet sent during any run of
      the disassembler whose splits the assembler has room for and which cancels no started frame.
      At any moment it has delivered exactly the submitted frames that were not cancelled, in order,
      up to those whose end is still in the open packet or not yet written; if the sender holds
      nothing back, it has delivered all. */
  lemma {:induction false} FragmentationRoundTrip(p: Params, g: D.Config, es: seq<D.Event>, ds: seq<D.Dis>,
                                                  purge: nat -> bool)
    requires ValidParams(p) && D.ValidConfig(g) && g.inputMtu <= p.mtu
    requires Trace(g, es, ds) && forall i :: 0 <= i <= |es| ==> Fits(p, ds[i])
    requires CancelsUnstarted(es, ds, 0, |es|)
    ensures var out := Feed(p, Sent(g, es, ds, purge, |es|)).1;
      var last, frames := ds[|es|], Frames(es, |es|);
      && out <= frames
      && (last.frame.None? && Open(last) == [] ==> out == frames)
  {
    RunSynced(p, g, es, ds, purge, |es|);
  }

  // ---- How many chunks a frame takes ---------------------------------------------------------------

  function DivUp(a: nat, b: nat): nat
    requires b > 0
  {
    if a % b > 0 then a / b + 1 else a / b
  }

  /** fragmentproto_max_chunks_for_frame */
  function MaxChunks(carrierMtu: nat, frameMtu: nat): nat
    requires carrierMtu > HEADER
  {
    DivUp(frameMtu, carrierMtu - HEADER) + 1
  }

  lemma DivUpBound(k: nat, m: nat, n: nat)
    requires m > 0 && k * m < n
    ensures k < DivUp(n, m)
  {
    var q := n / m;
    assert n == q * m + n % m && (q + 1) * m == q * m + m;
    assert n <= DivUp(n, m) * m;
    if k >= DivUp(n, m) {
      MulMonotone(DivUp(n, m), k, m);
    }
  }

  lemma MulMonotone(a: nat, b: nat, m: nat)
    requires a <= b
    ensures a * m <= b * m
  {
  }

  lemma DivUpMonotone(a: nat, b: nat, m: nat)
    requires m > 0 && a <= b
    ensures DivUp(a, m) <= DivUp(b, m)
  {
    if DivUp(a, m) > 0 {
      var k := DivUp(a, m) - 1;
      assert a == (a / m) * m + a % m;
      assert a % m > 0 ==> k == a / m;
      assert a % m == 0 ==> k == a / m - 1 && k * m == (a / m) * m - m;
      DivUpBound(k, m, b);
    }
  }

  /** Without chunk_mtu the loop writes one chunk: it fills the packet or ends the frame. */
  lemma {:induction false} OneChunk(g: D.Config, d: D.Dis)
    requires D.Ready(g, d) && g.chunkMtu < 0
    ensures D.WriteLoop(g, d) == D.WriteOne(g, d)
  {
    var d1 := D.WriteOne(g, d);
    assert d1.out.value[..|d1.out.value|-1] == d.out.value;
  }

  /** All chunks of an unfinished frame but the first are full. */
  predicate FullChunks(g: D.Config, d: D.Dis)
    requires D.ValidConfig(g)
  {
    d.frame.Some? && d.used > 0 ==> d.count > 0 && (d.count - 1) * (g.outputMtu - HEADER) < d.used
  }

  /** One stretch of writing keeps to the bound on the split. */
  lemma {:induction false} WriteBound(g: D.Config, d: D.Dis)
    requires D.Ready(g, d) && g.chunkMtu < 0
    requires d.used < |d.frame.value| || d.used == 0
    requires d.used > 0 ==> d.bytes == []
    requires d.used == 0 ==> d.count == 0
    requires FullChunks(g, d)
    ensures var d1, m := D.FinishInput(D.WriteLoop(g, d)), g.outputMtu - HEADER;
      && FullChunks(g, d1)
      && (d1.frame.Some? ==> d1.used > 0)
      && d1.count <= 1 + DivUp(Max(0, |d.frame.value| - 1), m)
  {
    hide D.WriteLoop, Encode, DivUp;
    OneChunk(g, d);
    SplitArithmetic(d.count, d.used, |d.frame.value|, g.outputMtu - HEADER);
  }

  lemma SplitArithmetic(count: nat, used: nat, length: nat, m: nat)
    requires m > 0 && (used < length || used == 0)
    requires used == 0 ==> count == 0
    requires used > 0 ==> count > 0 && (count - 1) * m < used
    ensures count <= DivUp(Max(0, length - 1), m)
    ensures used > 0 ==> count * m < used + m
  {
    if used > 0 {
      DivUpBound(count - 1, m, length - 1);
      assert count * m == (count - 1) * m + m;
    }
  }

  /** The length of the frame that was submitted last. */
  function LatestLength(es: seq<D.Event>, n: nat): nat
    requires n <= |es|
  {
    if n == 0 then 0 else if es[n-1].Input? then |es[n-1].frame| else LatestLength(es, n - 1)
  }

  /** How many chunks a frame of this length may take. */
  function ChunkBound(g: D.Config, length: nat): nat
    requires D.ValidConfig(g)
  {
    1 + DivUp(Max(0, length - 1), g.outputMtu - HEADER)
  }

  ghost predicate Bounded(g: D.Config, d: D.Dis, length: nat)
    requires D.ValidConfig(g)
  {
    && FullChunks(g, d)
    && (d.frame.Some? ==> |d.frame.value| == length && (d.used == 0 ==> d.count == 0) && d.count < ChunkBound(g, length))
    && d.count <= ChunkBound(g, length)
  }

  lemma StepBounded(g: D.Config, d: D.Dis, e: D.Event, length: nat)
    requires D.ValidConfig(g) && g.chunkMtu < 0 && D.Inv(g, d) && D.Enabled(g, d, e) && Bounded(g, d, length)
    ensures Bounded(g, D.Step(g, d, e).0, if e.Input? then |e.frame| else length)
  {
    hide DivUp;
    match e
    case Input(frame) =>
      if d.out.Some? {
        BoundedAfterWrite(g, D.Submit(d, frame));
      }
    case Output =>
      if d.frame.Some? {
        BoundedAfterWrite(g, d.(out := Some([])));
      }
    case Timer =>
    case Cancel =>
  }

  lemma {:induction false} BoundedAfterWrite(g: D.Config, d: D.Dis)
    requires D.Ready(g, d) && g.chunkMtu < 0
    requires d.used < |d.frame.value| || d.used == 0
    requires d.used > 0 ==> d.bytes == []
    requires d.used == 0 ==> d.count == 0
    requires FullChunks(g, d)
    ensures Bounded(g, D.FinishInput(D.WriteLoop(g, d)), |d.frame.value|)
  {
    WriteBound(g, d);
    var m, L := g.outputMtu - HEADER, |d.frame.value|;
    var d1 := D.FinishInput(D.WriteLoop(g, d));
    if d1.frame.Some? {
      DivUpBound(d1.count - 1, m, L - 1);
    }
  }

  lemma {:induction false} TraceBounded(g: D.Config, es: seq<D.Event>, ds: seq<D.Dis>, n: nat)
    requires D.ValidConfig(g) && g.chunkMtu < 0 && Trace(g, es, ds) && n <= |es|
    ensures D.Inv(g, ds[n]) && Bounded(g, ds[n], LatestLength(es, n)) && LatestLength(es, n) <= g.inputMtu
  {
    hide DivUp;
    if n > 0 {
      TraceBounded(g, es, ds, n - 1);
      assert ds[n] == D.Step(g, ds[n-1], es[n-1]).0;
      D.StepKeepsInv(g, ds[n-1], es[n-1]);
      StepBounded(g, ds[n-1], es[n-1], LatestLength(es, n - 1));
    }
  }

  /** Bound on the split.  Without chunk_mtu, at every moment of every run, the frame submitted last,
      of length L, has been cut into at most 1 + ceil((L - 1) / (output_mtu - header)) chunks, one of
      which is still to come while the frame is unfinished; an empty frame takes one chunk. */
  lemma {:induction false} SplitBound(g: D.Config, es: seq<D.Event>, ds: seq<D.Dis>, n: nat)
    requires D.ValidConfig(g) && g.chunkMtu < 0 && Trace(g, es, ds) && n <= |es|
    ensures var most := 1 + DivUp(Max(0, LatestLength(es, n) - 1), g.outputMtu - HEADER);
      && ds[n].count + (if ds[n].frame.Some? then 1 else 0) <= most
      && most <= MaxChunks(g.outputMtu, g.inputMtu)
  {
    hide DivUp, Trace, D.Inv, FullChunks, LatestLength;
    TraceBounded(g, es, ds, n);
    DivUpMonotone(Max(0, LatestLength(es, n) - 1), g.inputMtu, g.outputMtu - HEADER);
  }

  /** The configuration DatagramPeerIO sets up (no chunk_mtu, num_chunks from
      fragmentproto_max_chunks_for_frame, both ends with the same payload MTU) satisfies the
      round trip for every run, with no further assumption. */
  lemma {:induction false} DatagramRoundTrip(numFrames: nat, payloadMtu: nat, carrierMtu: nat, latency: int,
                          es: seq<D.Event>, ds: seq<D.Dis>, purge: nat -> bool)
    requires 0 < numFrames && payloadMtu < 0x1_0000 && carrierMtu > HEADER
    requires Trace(D.Config(payloadMtu, carrierMtu, -1, latency), es, ds) && CancelsUnstarted(es, ds, 0, |es|)
    ensures var g := D.Config(payloadMtu, carrierMtu, -1, latency);
      var p := Params(numFrames, MaxChunks(carrierMtu, payloadMtu), payloadMtu);
      var out := Feed(p, Sent(g, es, ds, purge, |es|)).1;
      var last, frames := ds[|es|], Frames(es, |es|);
      && out <= frames
      && (last.frame.None? && Open(last) == [] ==> out == frames)
  {
    var g := D.Config(payloadMtu, carrierMtu, -1, latency);
    var p := Params(numFrames, MaxChunks(carrierMtu, payloadMtu), payloadMtu);
    forall i | 0 <= i <= |es|
      ensures Fits(p, ds[i])
    {
      SplitBound(g, es, ds, i);
    }
    FragmentationRoundTrip(p, g, es, ds, purge);
  }
}
