/**
 Cancelling a frame in the disassembler keeps its frame id.  If nothing of the frame had been sent
 that is harmless; if a part had been sent, the next frame is lost, and only that one: its first
 chunk hits the part that the receiver still holds under the same id.
 */
module CancelLoss {
  import opened Prelude
  import opened Bytes
  import opened FragmentWire
  import opened AssemblerSpec
  import opened AssemblerRuns
  import opened RoundTrip
  import D = DisassemblerSpec

  // ---- The receiver's side -----------------------------------------------------------------------

  /** No piece starts the frame. */
  ghost predicate Headless(ps: seq<Piece>) {
    forall x :: x in ps ==> x.start > 0
  }

  ghost predicate AllHeadless(frames: seq<Frame>) {
    forall f :: f in frames ==> Headless(f.pieces)
  }

  /** The receiver holds the beginning of a given-up frame under this id, from the latest packet. */
  ghost predicate Stale(a: Asm, id: nat) {
    && |a.frames| == 1 && a.frames[0].id == id && a.now <= a.frames[0].time + 1
    && MaxEnd(a.frames[0].pieces) > 0
    && exists y :: y in a.frames[0].pieces && y.start == 0 && |y.data| > 0
  }

  lemma {:induction false} HasStart(ps: seq<Piece>, frame: Data, n: nat)
    requires InOrder(ps, frame, n) && n > 0
    ensures exists y :: y in ps && y.start == 0 && |y.data| > 0
  {
    var z := ps[|ps|-1];
    if z.start > 0 {
      HasStart(ps[..|ps|-1], frame, z.start);
      var y :| y in ps[..|ps|-1] && y.start == 0 && |y.data| > 0;
      assert y in ps;
    }
  }

  /** A frame whose beginning is missing is never complete. */
  lemma HeadlessIncomplete(ps: seq<Piece>)
    requires Headless(ps) && Consistent(ps)
    ensures !Complete(ps)
  {
    assert forall j :: 0 <= j < |ps| ==> ps[j] in ps;
    assert !Covered(ps, 0);
    LengthIsLast(ps);
    if Complete(ps) {
      CompleteTiles(ps);
    }
  }

  /** The first chunk of the next frame removes the stale beginning and is dropped with it. */
  lemma FirstChunkDropped(p: Params, g: D.Config, a: Asm, d: D.Dis)
    requires ValidParams(p) && D.Ready(g, d) && |d.frame.value| <= p.mtu && d.used == 0 && Stale(a, d.frameId)
    ensures Receive(p, a, D.NextChunk(g, d)) == (Asm(a.now, []), None)
  {
    var c := D.NextChunk(g, d);
    var x := PieceOf(c);
    assert Find(a.frames, c.id) == Some(0);
    assert Lookup(p, a, c.id) == (a.frames, 0);
    var y :| y in a.frames[0].pieces && y.start == 0 && |y.data| > 0;
    assert |x.data| > 0 ==> Overlap(y, x);
    assert !Acceptable(a.frames[0].pieces, x);
    assert RemoveAt(a.frames, 0) == [];
  }

  /** Reading a chunk of the given-up id leaves nothing but such chunks behind. */
  lemma ReceiveLeftover(p: Params, a: Asm, c: Chunk)
    requires ValidParams(p) && Leftover(a.frames, Some(c.id))
    ensures Leftover(Receive(p, a, c).0.frames, Some(c.id))
  {
    hide Acceptable, Complete, Assemble;
    var k := Find(a.frames, c.id);
    if a.frames == [] {
      assert k.None?;
    } else {
      assert a.frames[..|a.frames|-1] == [];
      assert k == Some(0);
      assert RemoveAt(a.frames, 0) == [];
    }
    var frames := Lookup(p, a, c.id).0;
    assert |frames| == 1 && frames[0].id == c.id;
  }

  lemma LookupHeadless(p: Params, a: Asm, id: nat)
    requires ValidParams(p) && AllHeadless(a.frames)
    ensures AllHeadless(Lookup(p, a, id).0)
  {
    var frames := Lookup(p, a, id).0;
    forall f | f in frames
      ensures Headless(f.pieces)
    {
      assert f in a.frames || f.pieces == [];
    }
  }

  lemma RemoveHeadless(frames: seq<Frame>, k: nat)
    requires AllHeadless(frames) && k < |frames|
    ensures AllHeadless(RemoveAt(frames, k))
  {
    forall f | f in RemoveAt(frames, k)
      ensures Headless(f.pieces)
    {
      assert f in frames;
    }
  }

  lemma AcceptHeadless(p: Params, a: Asm, k: nat, c: Chunk)
    requires AllHeadless(a.frames) && k < |a.frames| && c.start > 0
    requires Consistent(a.frames[k].pieces) && Acceptable(a.frames[k].pieces, PieceOf(c))
    ensures Accept(p, a, k, c).1 == None && Accept(p, a, k, c).0.now == a.now && AllHeadless(Accept(p, a, k, c).0.frames)
  {
    hide Consistent, Acceptable, Complete;
    var ps := a.frames[k].pieces + [PieceOf(c)];
    assert a.frames[k] in a.frames;
    AcceptKeepsConsistent(a.frames[k].pieces, PieceOf(c));
    assert Headless(ps);
    HeadlessIncomplete(ps);
    RemoveHeadless(a.frames, k);
  }

  /** Without its beginning the rest of the frame is collected in vain. */
  lemma LaterChunkInVain(p: Params, a: Asm, c: Chunk)
    requires ValidParams(p) && c.start > 0 && Inv(p, a) && AllHeadless(a.frames)
    ensures var (a1, out) := Receive(p, a, c);
      out == None && a1.now == a.now && AllHeadless(a1.frames) && Inv(p, a1)
  {
    hide Lookup, Acceptable, Accept, AllHeadless;
    ReceiveKeepsInv(p, a, c);
    LookupHeadless(p, a, c.id);
    LookupKeeps(p, a, c.id);
    var (frames, k) := Lookup(p, a, c.id);
    assert frames[k] in frames;
    RemoveHeadless(frames, k);
    if Acceptable(frames[k].pieces, PieceOf(c)) {
      AcceptHeadless(p, Asm(a.now, frames), k, c);
    }
  }

  // ---- Writing the next frame -----------------------------------------------------------------------

  /** Reading these chunks delivers nothing and leaves at most one frame, of the given id and without
      a beginning. */
  ghost predicate Barren(p: Params, a: Asm, cs: seq<Chunk>, id: nat)
    requires ValidParams(p)
  {
    var (a1, out) := ReceiveAll(p, a, cs);
    out == [] && Inv(p, a1) && AllHeadless(a1.frames) && Leftover(a1.frames, Some(id))
  }

  lemma {:induction false} RestInVain(p: Params, g: D.Config, a: Asm, d: D.Dis)
    requires ValidParams(p) && D.Ready(g, d) && 0 < d.used < |d.frame.value| && Barren(p, a, d.out.value, d.frameId)
    ensures Barren(p, a, D.WriteLoop(g, d).out.value, d.frameId)
    decreases |d.frame.value| - d.used
  {
    hide Receive, Inv, AllHeadless, Leftover;
    var c, d1 := D.NextChunk(g, d), D.WriteOne(g, d);
    assert d1.out.value[..|d1.out.value|-1] == d.out.value;
    LaterChunkInVain(p, ReceiveAll(p, a, d.out.value).0, c);
    ReceiveLeftover(p, ReceiveAll(p, a, d.out.value).0, c);
    if d1.used < |d.frame.value| && D.OutAvail(g, d1) > 0 {
      RestInVain(p, g, a, d1);
    }
  }

  lemma {:induction false} NextFrameInVain(p: Params, g: D.Config, a: Asm, d: D.Dis)
    requires ValidParams(p) && D.Ready(g, d) && |d.frame.value| <= p.mtu && d.used == 0 && d.out.value == []
    requires Stale(a, d.frameId)
    ensures Barren(p, a, D.WriteLoop(g, d).out.value, d.frameId)
  {
    hide Receive, Stale;
    var c, d1 := D.NextChunk(g, d), D.WriteOne(g, d);
    assert d1.out.value == [c];
    assert [c][..0] == [];
    FirstChunkDropped(p, g, a, d);
    assert ReceiveAll(p, a, []) == (a, []);
    assert ReceiveAll(p, a, [c]) == (Asm(a.now, []), []);
    if d1.used < |d.frame.value| && D.OutAvail(g, d1) > 0 {
      RestInVain(p, g, a, d1);
    }
  }

  // ---- Events after the cancel ----------------------------------------------------------------------

  /** Since the cancel of the frame with this id nothing has been delivered; `begun` says that the
      next frame has been begun. */
  ghost predicate Spoiled(p: Params, a: Asm, d: D.Dis, id: nat, begun: bool)
    requires ValidParams(p)
  {
    if begun then Barren(p, a, Open(d), id) && (d.frame.Some? ==> d.used > 0 && d.frameId == id)
    else Open(d) == [] && Stale(a, id) && d.frameId == id && (d.frame.Some? ==> d.used == 0)
  }

  predicate Begins(d: D.Dis, e: D.Event) {
    (e.Input? && d.out.Some?) || (e.Output? && d.frame.Some?)
  }

  lemma EndHeadless(p: Params, a: Asm, purge: bool, id: nat)
    requires ValidParams(p) && Inv(p, a) && AllHeadless(a.frames) && Leftover(a.frames, Some(id))
    ensures Barren(p, EndPacket(p, a, purge), [], id)
  {
    EndPacketKeepsInv(p, a, purge);
    UnexpiredHeadless(p, a.now, a.frames);
    LeftoverStays(p, a.now, a.frames, Some(id));
  }

  lemma {:induction false} UnexpiredHeadless(p: Params, now: nat, frames: seq<Frame>)
    requires AllHeadless(frames)
    ensures AllHeadless(Unexpired(p, now, frames))
  {
    if frames != [] {
      assert forall f :: f in frames[..|frames|-1] ==> f in frames;
      UnexpiredHeadless(p, now, frames[..|frames|-1]);
    }
  }

  /** What the receiver has after the packet that a step may send. */
  ghost function ReadPacket(p: Params, a: Asm, sent: Option<seq<Chunk>>, purge: bool): (Asm, seq<Data>)
    requires ValidParams(p)
  {
    if sent.None? then (a, [])
    else
      var (a1, out) := ReceiveAll(p, a, sent.value);
      (EndPacket(p, a1, purge), out)
  }

  lemma {:induction false} WrittenInVain(p: Params, g: D.Config, a: Asm, d: D.Dis, purge: bool)
    requires ValidParams(p) && D.Ready(g, d) && (d.used < |d.frame.value| || d.used == 0)
    requires Barren(p, a, D.WriteLoop(g, d).out.value, d.frameId)
    ensures var (d1, sent) := D.FinishOutput(g, D.FinishInput(D.WriteLoop(g, d)));
      var (a1, out) := ReadPacket(p, a, sent, purge);
      out == [] && Spoiled(p, a1, d1, d.frameId, true)
  {
    hide D.WriteLoop;
    var w := D.WriteLoop(g, d);
    UsedSome(g, d);
    EndHeadless(p, ReceiveAll(p, a, w.out.value).0, purge, d.frameId);
  }

  lemma {:induction false} UsedSome(g: D.Config, d: D.Dis)
    requires D.Ready(g, d)
    ensures D.WriteLoop(g, d).frameId == d.frameId
    ensures D.WriteLoop(g, d).used < |d.frame.value| ==> D.WriteLoop(g, d).used > 0
    decreases |d.frame.value| - d.used, if d.used < |d.frame.value| then 0 else 1
  {
    var d1 := D.WriteOne(g, d);
    if d1.used < |d.frame.value| && D.OutAvail(g, d1) > 0 {
      UsedSome(g, d1);
    }
  }

  /** One event after the cancel that is neither another cancel nor a frame after the next one. */
  lemma StepSpoiled(p: Params, g: D.Config, a: Asm, d: D.Dis, e: D.Event, id: nat, begun: bool, purge: bool)
    requires ValidParams(p) && D.ValidConfig(g) && g.inputMtu <= p.mtu
    requires D.Inv(g, d) && D.Enabled(g, d, e) && !e.Cancel? && (begun ==> !e.Input?)
    requires Spoiled(p, a, d, id, begun)
    ensures var (d1, sent) := D.Step(g, d, e);
      var (a1, out) := ReadPacket(p, a, sent, purge);
      out == [] && Spoiled(p, a1, d1, id, begun || Begins(d, e))
  {
    hide D.WriteLoop, Stale, ReceiveAll;
    ReceiveNothing(p, a);
    match e {
      case Input(frame) =>
        if d.out.Some? {
          NextFrameInVain(p, g, a, D.Submit(d, frame));
          WrittenInVain(p, g, a, D.Submit(d, frame), purge);
        }
      case Output =>
        if d.frame.Some? {
          var d1 := d.(out := Some([]));
          if begun {
            RestInVain(p, g, a, d1);
          } else {
            NextFrameInVain(p, g, a, d1);
          }
          WrittenInVain(p, g, a, d1, purge);
        }
      case Timer =>
        EndHeadless(p, ReceiveAll(p, a, d.out.value).0, purge, id);
    }
  }

  // ---- Whole runs --------------------------------------------------------------------------------------

  /** After event i there is no other cancel and at most one frame is submitted, up to event n. */
  ghost predicate OneMore(es: seq<D.Event>, i: nat, n: nat)
    requires i < n <= |es|
  {
    && (forall k :: i < k < n ==> !es[k].Cancel?)
    && (forall j, k :: i < j < k < n ==> !(es[j].Input? && es[k].Input?))
  }

  ghost predicate Inputs(es: seq<D.Event>, i: nat, n: nat)
    requires i < n <= |es|
  {
    exists k :: i < k < n && es[k].Input?
  }

  /** The run up to event i, which gives up a started frame. */
  ghost predicate GivesUp(p: Params, g: D.Config, es: seq<D.Event>, ds: seq<D.Dis>, i: nat)
    requires ValidParams(p) && D.ValidConfig(g)
  {
    && Trace(g, es, ds) && i < |es| && es[i].Cancel? && ds[i].used > 0
    && CancelsUnstarted(es, ds, 0, i) && forall k :: 0 <= k <= i ==> Fits(p, ds[k])
  }

  lemma LeavesStale(p: Params, g: D.Config, es: seq<D.Event>, ds: seq<D.Dis>, purge: nat -> bool, i: nat)
    requires ValidParams(p) && D.ValidConfig(g) && g.inputMtu <= p.mtu && GivesUp(p, g, es, ds, i)
    ensures var (a, out) := Feed(p, Sent(g, es, ds, purge, i));
      Spoiled(p, a, ds[i+1], ds[i].frameId, false) && out == Frames(es, i + 1)
    ensures Sent(g, es, ds, purge, i + 1) == Sent(g, es, ds, purge, i)
  {
    hide ReceiveAll, InOrder;
    RunSynced(p, g, es, ds, purge, i);
    var (a, out) := Feed(p, Sent(g, es, ds, purge, i));
    ReceiveNothing(p, a);
    InOrderFacts(a.frames[0].pieces, ds[i].frame.value, ds[i].used);
    HasStart(a.frames[0].pieces, ds[i].frame.value, ds[i].used);
    assert ds[i+1] == D.Step(g, ds[i], es[i]).0;
    assert Frames(es, i) == out + [ds[i].frame.value];
    assert (out + [ds[i].frame.value])[..|out|] == out;
  }

  lemma {:induction false} RunSpoiled(p: Params, g: D.Config, es: seq<D.Event>, ds: seq<D.Dis>, purge: nat -> bool,
                                      i: nat, n: nat) returns (begun: bool)
    requires ValidParams(p) && D.ValidConfig(g) && g.inputMtu <= p.mtu && GivesUp(p, g, es, ds, i)
    requires i < n <= |es| && OneMore(es, i, n)
    ensures Feed(p, Sent(g, es, ds, purge, n)).1 == Feed(p, Sent(g, es, ds, purge, i)).1
    ensures Spoiled(p, Feed(p, Sent(g, es, ds, purge, n)).0, ds[n], ds[i].frameId, begun)
    ensures begun || ds[n].frame.Some? <==> Inputs(es, i, n)
    decreases n
  {
    hide Spoiled, D.Step, D.Inv, D.Enabled, Feed, Sent, ReadPacket, Inputs, OneMore, Fits, Begins;
    if n == i + 1 {
      LeavesStale(p, g, es, ds, purge, i);
      AfterCancel(g, es, ds, i);
      begun := false;
    } else {
      OneMoreEarlier(es, i, n);
      var before := RunSpoiled(p, g, es, ds, purge, i, n - 1);
      var d, e := ds[n-1], es[n-1];
      assert D.Inv(g, d) && D.Enabled(g, d, e) && ds[n] == D.Step(g, d, e).0;
      var sent := Sent(g, es, ds, purge, n - 1);
      var a := Feed(p, sent).0;
      StepSpoiled(p, g, a, d, e, ds[i].frameId, before, purge(|sent|));
      FeedNext(p, g, es, ds, purge, n);
      assert Feed(p, sent).1 + [] == Feed(p, sent).1;
      StepFrame(g, d, e);
      begun := before || Begins(d, e);
    }
  }

  lemma OneMoreEarlier(es: seq<D.Event>, i: nat, n: nat)
    requires i < n - 1 && n <= |es| && OneMore(es, i, n)
    ensures OneMore(es, i, n - 1) && !es[n-1].Cancel?
    ensures Inputs(es, i, n - 1) ==> !es[n-1].Input?
    ensures Inputs(es, i, n) <==> Inputs(es, i, n - 1) || es[n-1].Input?
  {
    if k :| i < k < n - 1 && es[k].Input? {
      assert Inputs(es, i, n);
    }
    if es[n-1].Input? {
      assert Inputs(es, i, n);
    } else if k :| i < k < n && es[k].Input? {
      assert Inputs(es, i, n - 1);
    }
  }

  lemma AfterCancel(g: D.Config, es: seq<D.Event>, ds: seq<D.Dis>, i: nat)
    requires D.ValidConfig(g) && Trace(g, es, ds) && i < |es| && es[i].Cancel?
    ensures ds[i+1].frame.None? && !Inputs(es, i, i + 1)
  {
    assert ds[i+1] == D.Step(g, ds[i], es[i]).0;
  }

  lemma StepFrame(g: D.Config, d: D.Dis, e: D.Event)
    requires D.ValidConfig(g) && D.Inv(g, d) && D.Enabled(g, d, e) && !e.Cancel?
    ensures D.Step(g, d, e).0.frame.Some? || Begins(d, e) <==> d.frame.Some? || e.Input?
  {
    hide D.WriteLoop;
  }

  /** The receiver reads what the last event sent. */
  lemma FeedNext(p: Params, g: D.Config, es: seq<D.Event>, ds: seq<D.Dis>, purge: nat -> bool, n: nat)
    requires ValidParams(p) && D.ValidConfig(g) && Trace(g, es, ds) && 0 < n <= |es|
    ensures var before := Sent(g, es, ds, purge, n - 1);
      var (a, out) := Feed(p, before);
      var (a1, more) := ReadPacket(p, a, D.Step(g, ds[n-1], es[n-1]).1, purge(|before|));
      Feed(p, Sent(g, es, ds, purge, n)).0 == a1 && Feed(p, Sent(g, es, ds, purge, n)).1 == out + more
  {
    hide D.Step, ReceiveAll, D.Inv;
    var before, after := Sent(g, es, ds, purge, n - 1), Sent(g, es, ds, purge, n);
    D.StepKeepsInv(g, ds[n-1], es[n-1]);
    var sent := D.Step(g, ds[n-1], es[n-1]).1;
    if sent.Some? {
      ChunksOfEncoding(sent.value);
      assert after[..|after|-1] == before;
    } else {
      assert Feed(p, before).1 + [] == Feed(p, before).1;
    }
  }

  /** The frames submitted from event m to event n. */
  function Submitted(es: seq<D.Event>, m: nat, n: nat): seq<Data>
    requires m <= n <= |es|
  {
    if n == m then []
    else Submitted(es, m, n - 1) + if es[n-1].Input? then [es[n-1].frame] else []
  }

  lemma {:induction false} FramesAre(es: seq<D.Event>, frames: seq<Data>, m: nat, n: nat)
    requires m <= n <= |es| && forall k :: m <= k < n ==> !es[k].Cancel?
    ensures FramesFrom(es, frames, m, n) == frames + Submitted(es, m, n)
  {
    if n > m {
      FramesAre(es, frames, m, n - 1);
    }
  }

  lemma {:induction false} FramesSplit(es: seq<D.Event>, m: nat, n: nat)
    requires m <= n <= |es|
    ensures FramesFrom(es, Frames(es, m), m, n) == Frames(es, n)
  {
    if n > m {
      FramesSplit(es, m, n - 1);
    }
  }

  lemma {:induction false} NoneSubmitted(es: seq<D.Event>, m: nat, n: nat)
    requires m <= n <= |es| && forall k :: m <= k < n ==> !es[k].Input?
    ensures Submitted(es, m, n) == []
  {
    if n > m {
      NoneSubmitted(es, m, n - 1);
    }
  }

  lemma {:induction false} SubmittedSplit(es: seq<D.Event>, l: nat, m: nat, n: nat)
    requires l <= m <= n <= |es|
    ensures Submitted(es, l, n) == Submitted(es, l, m) + Submitted(es, m, n)
  {
    if n > m {
      SubmittedSplit(es, l, m, n - 1);
    }
  }

  /** After a started frame has been given up the next frame is not delivered. */
  lemma {:induction false} StartedCancelLosesNext(p: Params, g: D.Config, es: seq<D.Event>, ds: seq<D.Dis>,
                                                  purge: nat -> bool,
                               i: nat, n: nat)
    requires ValidParams(p) && D.ValidConfig(g) && g.inputMtu <= p.mtu && GivesUp(p, g, es, ds, i)
    requires i < n <= |es| && OneMore(es, i, n)
    ensures Feed(p, Sent(g, es, ds, purge, n)).1 == Feed(p, Sent(g, es, ds, purge, i)).1
  {
    var begun := RunSpoiled(p, g, es, ds, purge, i, n);
  }

  // ---- The frames after the next one ------------------------------------------------------------------

  /** Event k submits the first frame after the cancel at i, there is no other cancel, and until event
      n no further frame is submitted under the same id. */
  ghost predicate NextIs(es: seq<D.Event>, ds: seq<D.Dis>, i: nat, k: nat, n: nat)
    requires |ds| == |es| + 1
  {
    && i < k < n <= |es| && es[k].Input?
    && (forall j :: i < j < k ==> !es[j].Input?) && (forall j :: i < j < n ==> !es[j].Cancel?)
    && (forall j :: k < j < n && es[j].Input? ==> ds[j].frameId != ds[i].frameId)
  }

  /** A frame is cut under the id with which it was submitted. */
  lemma {:induction false} KeepsId(g: D.Config, es: seq<D.Event>, ds: seq<D.Dis>, m: nat, n: nat, id: nat)
    requires D.ValidConfig(g) && Trace(g, es, ds) && m <= n <= |es| && ds[m].frame.None?
    requires forall j :: m <= j < n && es[j].Input? ==> ds[j].frameId != id
    ensures ds[n].frame.Some? ==> ds[n].frameId != id
  {
    hide D.Inv, D.Enabled, D.Step;
    if n > m {
      KeepsId(g, es, ds, m, n - 1, id);
      assert D.Inv(g, ds[n-1]) && D.Enabled(g, ds[n-1], es[n-1]) && ds[n] == D.Step(g, ds[n-1], es[n-1]).0;
      StepId(g, ds[n-1], es[n-1]);
    }
  }

  lemma StepId(g: D.Config, d: D.Dis, e: D.Event)
    requires D.ValidConfig(g) && D.Inv(g, d) && D.Enabled(g, d, e)
    ensures D.Step(g, d, e).0.frame.Some? ==> D.Step(g, d, e).0.frameId == d.frameId && (e.Input? || d.frame.Some?)
  {
    hide D.WriteLoop;
    if e.Input? && d.out.Some? {
      UsedSome(g, D.Submit(d, e.frame));
    } else if e.Output? && d.frame.Some? {
      UsedSome(g, d.(out := Some([])));
    }
  }

  /** When a second frame comes, or the sender holds nothing back, the first one is over; what it has
      left behind does not disturb the others. */
  lemma {:induction false} SyncedAgain(p: Params, g: D.Config, es: seq<D.Event>, ds: seq<D.Dis>, purge: nat -> bool,
                                       i: nat, m: nat)
    requires ValidParams(p) && D.ValidConfig(g) && g.inputMtu <= p.mtu && GivesUp(p, g, es, ds, i)
    requires i < m <= |es| && OneMore(es, i, m) && Inputs(es, i, m) && ds[m].frame.None?
    ensures var (a, out) := Feed(p, Sent(g, es, ds, purge, m));
      Synced(p, a, out, ds[m], Frames(es, i + 1), Some(ds[i].frameId))
  {
    hide Feed, Sent, Leftover, ReceiveAll, AllHeadless, Inv, Frames;
    var begun := RunSpoiled(p, g, es, ds, purge, i, m);
    LeavesStale(p, g, es, ds, purge, i);
    var (a, out) := Feed(p, Sent(g, es, ds, purge, m));
    assert out + [] + [] == out;
  }

  /** After a started frame has been given up exactly the next frame is lost, until its id comes round
      again: once the sender holds nothing back, what has been delivered is what had been delivered
      before, followed by all later frames but the first. */
  lemma {:induction false} StartedCancelLosesOne(p: Params, g: D.Config, es: seq<D.Event>, ds: seq<D.Dis>,
                                                 purge: nat -> bool,
                              i: nat, k: nat, n: nat)
    requires ValidParams(p) && D.ValidConfig(g) && g.inputMtu <= p.mtu && GivesUp(p, g, es, ds, i)
    requires NextIs(es, ds, i, k, n) && forall j :: i < j <= n ==> Fits(p, ds[j])
    requires ds[n].frame.None? && Open(ds[n]) == []
    ensures Feed(p, Sent(g, es, ds, purge, n)).1 == Frames(es, k) + Submitted(es, k + 1, n)
    ensures Frames(es, n) == Frames(es, k) + [es[k].frame] + Submitted(es, k + 1, n)
  {
    hide Synced, Feed, Sent, Frames, FramesFrom, Spoiled;
    var m := SecondInput(es, k, n);
    assert Inputs(es, i, m) && OneMore(es, i, m);
    SecondWaits(g, es, ds, m, n);
    SyncedAgain(p, g, es, ds, purge, i, m);
    AvoidsId(g, es, ds, i, m, n);
    RunSyncedFrom(p, g, es, ds, purge, Frames(es, i + 1), Some(ds[i].frameId), m, n);
    AllDelivered(p, g, es, ds, purge, FramesFrom(es, Frames(es, i + 1), m, n), Some(ds[i].frameId), n);
    CountFrames(es, i, k, m, n);
  }

  lemma SecondInput(es: seq<D.Event>, k: nat, n: nat) returns (m: nat)
    requires k < n <= |es|
    ensures k < m <= n && (forall j :: k < j < m ==> !es[j].Input?) && (m < n ==> es[m].Input?)
  {
    m := k + 1;
    while m < n && !es[m].Input?
      invariant k < m <= n && forall j :: k < j < m ==> !es[j].Input?
    {
      m := m + 1;
    }
  }

  lemma SecondWaits(g: D.Config, es: seq<D.Event>, ds: seq<D.Dis>, m: nat, n: nat)
    requires D.ValidConfig(g) && Trace(g, es, ds) && m <= n <= |es| && ds[n].frame.None? && (m < n ==> es[m].Input?)
    ensures ds[m].frame.None?
  {
    if m < n {
      assert D.Enabled(g, ds[m], es[m]);
    }
  }

  lemma AvoidsId(g: D.Config, es: seq<D.Event>, ds: seq<D.Dis>, i: nat, m: nat, n: nat)
    requires D.ValidConfig(g) && Trace(g, es, ds) && i < m <= n <= |es| && ds[m].frame.None?
    requires forall j :: m <= j < n && es[j].Input? ==> ds[j].frameId != ds[i].frameId
    ensures Avoids(es, ds, Some(ds[i].frameId), m, n)
  {
    forall j | m <= j < n && ds[j].frame.Some?
      ensures ds[j].frameId != ds[i].frameId
    {
      KeepsId(g, es, ds, m, j, ds[i].frameId);
    }
  }

  lemma {:induction false} AllDelivered(p: Params, g: D.Config, es: seq<D.Event>, ds: seq<D.Dis>, purge: nat -> bool,
                                        frames: seq<Data>,
                     bad: Option<nat>, n: nat)
    requires ValidParams(p) && D.ValidConfig(g) && Trace(g, es, ds) && n <= |es|
    requires var (a, out) := Feed(p, Sent(g, es, ds, purge, n)); Synced(p, a, out, ds[n], frames, bad)
    requires ds[n].frame.None? && Open(ds[n]) == []
    ensures Feed(p, Sent(g, es, ds, purge, n)).1 == frames
  {
    var out := Feed(p, Sent(g, es, ds, purge, n)).1;
    assert out + [] + [] == out;
  }

  lemma CountFrames(es: seq<D.Event>, i: nat, k: nat, m: nat, n: nat)
    requires i < k < m <= n <= |es| && es[k].Input?
    requires (forall j :: i < j < k ==> !es[j].Input?) && (forall j :: k < j < m ==> !es[j].Input?)
    requires forall j :: i < j < n ==> !es[j].Cancel?
    ensures FramesFrom(es, Frames(es, i + 1), m, n) == Frames(es, k) + Submitted(es, k + 1, n)
    ensures Frames(es, n) == Frames(es, k) + [es[k].frame] + Submitted(es, k + 1, n)
  {
    hide FramesFrom, Frames;
    FramesSplit(es, i + 1, k);
    FramesAre(es, Frames(es, i + 1), i + 1, k);
    NoneSubmitted(es, i + 1, k);
    FramesAre(es, Frames(es, i + 1), m, n);
    NoneSubmitted(es, k + 1, m);
    SubmittedSplit(es, k + 1, m, n);
    FramesSplit(es, k, n);
    FramesAre(es, Frames(es, k), k, n);
    SubmittedSplit(es, k, k + 1, n);
    OneSubmitted(es, k);
  }

  /** A cancel is harmless exactly if nothing of the frame had been sent.  Take any run whose only
      cancel is event i, followed by at least one frame and by no second one under the same id, after
      which the sender holds nothing back.  All frames but the cancelled one have been delivered if
      and only if the cancelled frame had not been started. */
  lemma {:induction false} CancelHarmlessIffUnstarted(p: Params, g: D.Config, es: seq<D.Event>, ds: seq<D.Dis>,
                                                      purge: nat -> bool,
                                   i: nat, k: nat)
    requires ValidParams(p) && D.ValidConfig(g) && g.inputMtu <= p.mtu
    requires Trace(g, es, ds) && forall j :: 0 <= j <= |es| ==> Fits(p, ds[j])
    requires i < |es| && es[i].Cancel? && (forall j :: 0 <= j < i ==> !es[j].Cancel?)
    requires NextIs(es, ds, i, k, |es|)
    requires ds[|es|].frame.None? && Open(ds[|es|]) == []
    ensures Feed(p, Sent(g, es, ds, purge, |es|)).1 == Frames(es, |es|) <==> ds[i].used == 0
  {
    hide Feed, Sent, Frames, Fits;
    if ds[i].used == 0 {
      FragmentationRoundTrip(p, g, es, ds, purge);
    } else {
      StartedCancelLosesOne(p, g, es, ds, purge, i, k, |es|);
      var out, later := Feed(p, Sent(g, es, ds, purge, |es|)).1, Submitted(es, k + 1, |es|);
      assert |Frames(es, |es|)| == |out| + 1;
    }
  }

  // ---- One run -------------------------------------------------------------------------------------------

  const LOSS_PARAMS := Params(1, 2, 2)
  const LOSS_CONFIG := D.Config(2, HEADER + 1, -1, -1)
  const LOSS_EVENTS := [D.Input([1, 2]), D.Output, D.Cancel, D.Input([3]), D.Output]
  const LOSS_STATES := [
    D.Start, D.Dis(Some([1, 2]), 0, None, [], 0, false, 0), D.Dis(Some([1, 2]), 1, None, [], 0, false, 1),
    D.Dis(None, 1, None, [], 0, false, 1), D.Dis(Some([3]), 0, None, [], 0, false, 0), D.Dis(None, 1, None, [], 1, false, 1)]

  lemma LossRuns()
    ensures Trace(LOSS_CONFIG, LOSS_EVENTS, LOSS_STATES)
  {
    var g, es, ds := LOSS_CONFIG, LOSS_EVENTS, LOSS_STATES;
    assert D.Step(g, ds[0], es[0]).0 == ds[1] && D.Step(g, ds[1], es[1]).0 == ds[2] && D.Step(g, ds[2], es[2]).0 == ds[3];
    assert D.Step(g, ds[3], es[3]).0 == ds[4] && D.Step(g, ds[4], es[4]).0 == ds[5];
  }

  lemma LossFrames()
    ensures Frames(LOSS_EVENTS, 3) == [] && Frames(LOSS_EVENTS, 5) == [[3]] && Submitted(LOSS_EVENTS, 4, 5) == []
  {
    var es := LOSS_EVENTS;
    assert Frames(es, 0) == [] && Frames(es, 1) == [] + [[1, 2]] && Frames(es, 2) == Frames(es, 1);
    assert Frames(es, 3) == [] && Frames(es, 4) == [] + [[3]] && Frames(es, 5) == Frames(es, 4);
    assert Submitted(es, 4, 5) == [] + [];
  }

  /** A frame of two bytes is cut into two packets and cancelled after the first; the next frame, a
      single byte that fits into one packet, is not delivered. */
  lemma CancelLosesFrame(purge: nat -> bool)
    ensures Trace(LOSS_CONFIG, LOSS_EVENTS, LOSS_STATES)
    ensures GivesUp(LOSS_PARAMS, LOSS_CONFIG, LOSS_EVENTS, LOSS_STATES, 2) && NextIs(LOSS_EVENTS, LOSS_STATES, 2, 3, 5)
    ensures Frames(LOSS_EVENTS, 5) == [[3]]
    ensures Feed(LOSS_PARAMS, Sent(LOSS_CONFIG, LOSS_EVENTS, LOSS_STATES, purge, 5)).1 == []
  {
    hide Feed, Sent, Trace, Frames, Submitted;
    LossRuns();
    LossFrames();
    StartedCancelLosesOne(LOSS_PARAMS, LOSS_CONFIG, LOSS_EVENTS, LOSS_STATES, purge, 2, 3, 5);
  }

  // ---- When the id comes round ---------------------------------------------------------------------------

  /** Without cancels a frame's id is its number. */
  lemma {:induction false} IdCounts(g: D.Config, es: seq<D.Event>, ds: seq<D.Dis>, k: nat, n: nat)
    requires D.ValidConfig(g) && Trace(g, es, ds) && k <= n <= |es| && ds[k].frame.None?
    requires forall j :: k <= j < n ==> !es[j].Cancel?
    ensures ds[k].frameId < 0x1_0000
    ensures var all := |Submitted(es, k, n)|;
      && (ds[n].frame.Some? ==> all > 0)
      && ds[n].frameId == (ds[k].frameId + if ds[n].frame.Some? then all - 1 else all) % 0x1_0000
  {
    hide D.Inv, D.Enabled, D.Step;
    InvHolds(g, es, ds, k);
    assert D.Inv(g, ds[k]) ==> ds[k].frameId < 0x1_0000 by { IdInRange(g, ds[k]); }
    if n > k {
      IdCounts(g, es, ds, k, n - 1);
      assert D.Inv(g, ds[n-1]) && D.Enabled(g, ds[n-1], es[n-1]) && ds[n] == D.Step(g, ds[n-1], es[n-1]).0;
      StepCounts(g, ds[n-1], es[n-1]);
    }
  }

  lemma IdInRange(g: D.Config, d: D.Dis)
    ensures D.Inv(g, d) ==> d.frameId < 0x1_0000
  {
  }

  lemma StepCounts(g: D.Config, d: D.Dis, e: D.Event)
    requires D.ValidConfig(g) && D.Inv(g, d) && D.Enabled(g, d, e) && !e.Cancel?
    ensures var d1 := D.Step(g, d, e).0;
      && (e.Input? ==> d.frame.None?)
      && (d1.frame.Some? ==> d1.frameId == d.frameId && (e.Input? || d.frame.Some?))
      && (d1.frame.None? ==> d1.frameId == if e.Input? || d.frame.Some? then (d.frameId + 1) % 0x1_0000 else d.frameId)
  {
    hide D.WriteLoop;
    if e.Input? && d.out.Some? {
      UsedSome(g, D.Submit(d, e.frame));
    } else if e.Output? && d.frame.Some? {
      UsedSome(g, d.(out := Some([])));
    }
  }

  /** The id comes round only after 65535 more frames. */
  lemma {:induction false} NextIsIfFew(g: D.Config, es: seq<D.Event>, ds: seq<D.Dis>, i: nat, k: nat, n: nat)
    requires D.ValidConfig(g) && Trace(g, es, ds) && i < k < n <= |es| && es[i].Cancel? && es[k].Input?
    requires (forall j :: i < j < k ==> !es[j].Input?) && (forall j :: i < j < n ==> !es[j].Cancel?)
    requires |Submitted(es, k, n)| <= 0x1_0000
    ensures NextIs(es, ds, i, k, n)
  {
    hide D.Inv, Submitted;
    assert ds[i+1] == D.Step(g, ds[i], es[i]).0;
    forall j | k < j < n && es[j].Input?
      ensures ds[j].frameId != ds[i].frameId
    {
      assert D.Enabled(g, ds[j], es[j]);
      IdCounts(g, es, ds, i + 1, j);
      CountBetween(es, i + 1, k, j, n);
    }
  }

  lemma {:induction false} CountBetween(es: seq<D.Event>, l: nat, k: nat, j: nat, n: nat)
    requires l <= k < j < n <= |es| && es[k].Input? && es[j].Input? && forall i :: l <= i < k ==> !es[i].Input?
    ensures 0 < |Submitted(es, l, j)| < |Submitted(es, k, n)|
  {
    hide Submitted;
    NoneSubmitted(es, l, k);
    SubmittedSplit(es, l, k, j);
    SubmittedSplit(es, k, j, n);
    OneSubmitted(es, k);
    SubmittedSplit(es, k, k + 1, j);
    OneSubmitted(es, j);
    SubmittedSplit(es, j, j + 1, n);
  }

  lemma {:induction false} OneSubmitted(es: seq<D.Event>, k: nat)
    requires k < |es| && es[k].Input?
    ensures Submitted(es, k, k + 1) == [es[k].frame]
  {
    assert Submitted(es, k, k + 1) == [] + [es[k].frame];
  }
}
