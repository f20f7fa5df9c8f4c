/**
 How the disassembler fills packets: chunks are as long as they may be, a packet goes out as soon as
 it is full or may not be delayed, and once its time is over everything submitted has arrived.
 */
module Packing {
  import opened Prelude
  import opened FragmentWire
  import opened AssemblerSpec
  import opened AssemblerRuns
  import opened RoundTrip
  import D = DisassemblerSpec

  // ---- Chunks ------------------------------------------------------------------------------------

  /** The chunk keeps to the limit, and ends its frame or is as long as the limit. */
  predicate Regular(g: D.Config, c: Chunk) {
    (g.chunkMtu > 0 ==> |c.data| <= g.chunkMtu) && (c.last || |c.data| == g.chunkMtu)
  }

  /** All chunks are regular, but for one that fills the packet up. */
  ghost predicate WellFilled(g: D.Config, cs: seq<Chunk>)
    requires forall c :: c in cs ==> Wire(c)
  {
    forall i :: 0 <= i < |cs| ==>
      Regular(g, cs[i]) ||
      (i == |cs| - 1 && |EncodeAll(cs)| == g.outputMtu && (g.chunkMtu > 0 ==> |cs[i].data| <= g.chunkMtu))
  }

  lemma WriteOneRegular(g: D.Config, d: D.Dis)
    requires D.Ready(g, d)
    ensures var c, d' := D.NextChunk(g, d), D.WriteOne(g, d);
      && (g.chunkMtu > 0 ==> |c.data| <= g.chunkMtu)
      && (Regular(g, c) || |d'.bytes| == g.outputMtu)
  {
    hide Encode;
  }

  ghost predicate AllRegular(g: D.Config, cs: seq<Chunk>) {
    forall i :: 0 <= i < |cs| ==> Regular(g, cs[i])
  }

  lemma {:induction false} WriteLoopFills(g: D.Config, d: D.Dis)
    requires D.Ready(g, d) && D.Packed(d) && AllRegular(g, d.out.value)
    ensures var d' := D.WriteLoop(g, d); D.Packed(d') && WellFilled(g, d'.out.value)
    decreases |d.frame.value| - d.used, if d.used < |d.frame.value| then 0 else 1
  {
    hide Regular, Encode;
    var c, d1 := D.NextChunk(g, d), D.WriteOne(g, d);
    WriteOneRegular(g, d);
    EncodeAllAppend(d.out.value, c);
    if d1.used < |d.frame.value| && D.OutAvail(g, d1) > 0 {
      WriteLoopFills(g, d1);
    } else {
      assert d1.out.value[|d1.out.value|-1] == c;
    }
  }

  // ---- Packets -------------------------------------------------------------------------------------

  /** There is no room for another chunk. */
  predicate Full(g: D.Config, cs: seq<Chunk>)
    requires forall c :: c in cs ==> Wire(c)
  {
    |EncodeAll(cs)| + HEADER >= g.outputMtu
  }

  /** When a packet may be sent: its time is over, it is full, or nothing may be delayed. */
  predicate MaySend(g: D.Config, e: D.Event, cs: seq<Chunk>)
    requires forall c :: c in cs ==> Wire(c)
  {
    e.Timer? || g.latency < 0 || Full(g, cs)
  }

  lemma {:induction false} WriteFills(g: D.Config, d: D.Dis, e: D.Event)
    requires D.Ready(g, d) && D.Packed(d) && AllRegular(g, d.out.value)
    ensures var (d', sent) := D.FinishOutput(g, D.FinishInput(D.WriteLoop(g, d)));
      && AllRegular(g, Open(d')) && (g.latency < 0 ==> Open(d') == [])
      && (sent.Some? ==> (forall c :: c in sent.value ==> Wire(c)) && WellFilled(g, sent.value) && MaySend(g, e, sent.value))
  {
    hide Regular, D.WriteLoop;
    WriteLoopFills(g, d);
  }

  lemma StepFills(g: D.Config, d: D.Dis, e: D.Event)
    requires D.ValidConfig(g) && D.Inv(g, d) && D.Enabled(g, d, e) && AllRegular(g, Open(d))
    requires g.latency < 0 ==> Open(d) == []
    ensures var (d', sent) := D.Step(g, d, e);
      && AllRegular(g, Open(d')) && (g.latency < 0 ==> Open(d') == [])
      && (sent.Some? ==> (forall c :: c in sent.value ==> Wire(c)) && WellFilled(g, sent.value) && MaySend(g, e, sent.value))
      && (e.Timer? ==> sent == Some(Open(d)) && Open(d') == [])
  {
    hide Regular, D.WriteLoop;
    match e
    case Input(frame) =>
      if d.out.Some? {
        WriteFills(g, D.Submit(d, frame), e);
      }
    case Output =>
      if d.frame.Some? {
        WriteFills(g, d.(out := Some([])), e);
      }
    case Timer =>
    case Cancel =>
  }

  lemma {:induction false} OpenIsRegular(g: D.Config, es: seq<D.Event>, ds: seq<D.Dis>, n: nat)
    requires D.ValidConfig(g) && Trace(g, es, ds) && n <= |es|
    ensures D.Inv(g, ds[n]) && AllRegular(g, Open(ds[n])) && (g.latency < 0 ==> Open(ds[n]) == [])
  {
    hide D.Inv, D.Step, AllRegular;
    InvHolds(g, es, ds, n);
    if n == 0 {
      assert Open(ds[0]) == [] && AllRegular(g, []) by { NoneOpen(g); }
    } else {
      OpenIsRegular(g, es, ds, n - 1);
      assert ds[n] == D.Step(g, ds[n-1], es[n-1]).0;
      StepFills(g, ds[n-1], es[n-1]);
    }
  }

  lemma NoneOpen(g: D.Config)
    ensures AllRegular(g, [])
  {
  }

  /** In every run every packet is sent when it may be, and not before: when its time is over, when it
      has no room for another chunk, or at once if nothing may be delayed.  Its chunks keep to the
      limit and are as long as they may be. */
  lemma {:induction false} PacketsWellFilled(g: D.Config, es: seq<D.Event>, ds: seq<D.Dis>, i: nat)
    requires D.ValidConfig(g) && Trace(g, es, ds) && i < |es|
    ensures var sent := D.Step(g, ds[i], es[i]).1;
      && (sent.Some? ==>
            (forall c :: c in sent.value ==> Wire(c)) && WellFilled(g, sent.value) && MaySend(g, es[i], sent.value))
      && (g.latency < 0 ==> Open(ds[i+1]) == [])
      && (forall c :: c in Open(ds[i+1]) ==> Wire(c))
      && (Open(ds[i+1]) != [] ==> !Full(g, Open(ds[i+1])) && ds[i+1].timer)
  {
    OpenIsRegular(g, es, ds, i);
    OpenIsRegular(g, es, ds, i + 1);
    StepFills(g, ds[i], es[i]);
  }

  /** When the time of a packet is over, or a frame has been taken and nothing may be delayed, every
      frame submitted so far and not cancelled has been delivered. */
  lemma {:induction false} DeliveredInTime(p: Params, g: D.Config, es: seq<D.Event>, ds: seq<D.Dis>, purge: nat -> bool)
    requires ValidParams(p) && D.ValidConfig(g) && g.inputMtu <= p.mtu
    requires Trace(g, es, ds) && forall i :: 0 <= i <= |es| ==> RoundTrip.Fits(p, ds[i])
    requires CancelsUnstarted(es, ds, 0, |es|) && es != []
    requires es[|es|-1].Timer? || (g.latency < 0 && ds[|es|].frame.None?)
    ensures Feed(p, Sent(g, es, ds, purge, |es|)).1 == Frames(es, |es|)
  {
    hide D.Step, Feed, Sent, Frames;
    var n := |es|;
    FragmentationRoundTrip(p, g, es, ds, purge);
    OpenIsRegular(g, es, ds, n - 1);
    OpenIsRegular(g, es, ds, n);
    assert ds[n] == D.Step(g, ds[n-1], es[n-1]).0;
    StepFills(g, ds[n-1], es[n-1]);
    if es[n-1].Timer? {
      TimerLeavesNoFrame(g, ds[n-1]);
    }
  }

  lemma TimerLeavesNoFrame(g: D.Config, d: D.Dis)
    requires D.ValidConfig(g) && D.Inv(g, d) && D.Enabled(g, d, D.Timer)
    ensures D.Step(g, d, D.Timer).0.frame.None?
  {
  }
}
