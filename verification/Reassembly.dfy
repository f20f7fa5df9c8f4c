/**
 Which frames come out of the assembler.  A delivered frame is made of all chunks of its id from some
 moment on, none of them ignored and none too late; and a frame whose chunks all arrive, in any order
 and among those of other frames, before too many later frames are begun, is delivered.
 */
module Reassembly {
  import opened Prelude
  import opened Bytes
  import opened FragmentWire
  import opened AssemblerSpec
  import opened AssemblerRuns

  // The input as the assembler sees it: chunks, and the ends of packets.
  datatype Arrival = Got(c: Chunk) | Tick(purge: bool)

  function Arrive(p: Params, a: Asm, x: Arrival): (Asm, Option<Data>)
    requires ValidParams(p)
  {
    match x
    case Got(c) => Receive(p, a, c)
    case Tick(purge) => (EndPacket(p, a, purge), None)
  }

  function Play(p: Params, a: Asm, xs: seq<Arrival>): (Asm, seq<Data>)
    requires ValidParams(p)
  {
    if xs == [] then (a, [])
    else
      var (a1, out) := Play(p, a, xs[..|xs|-1]);
      var (a2, d) := Arrive(p, a1, xs[|xs|-1]);
      (a2, if d.Some? then out + [d.value] else out)
  }

  function Gots(cs: seq<Chunk>): seq<Arrival> {
    seq(|cs|, i requires 0 <= i < |cs| => Got(cs[i]))
  }

  function ArrivalsOf(packets: seq<Packet>): seq<Arrival> {
    if packets == [] then []
    else
      var z := packets[|packets|-1];
      ArrivalsOf(packets[..|packets|-1]) + Gots(Chunks(z.bytes)) + [Tick(z.purge)]
  }

  lemma {:induction false} PlaySnoc(p: Params, a: Asm, xs: seq<Arrival>, x: Arrival)
    requires ValidParams(p)
    ensures var (a1, out) := Play(p, a, xs);
      var (a2, d) := Arrive(p, a1, x);
      Play(p, a, xs + [x]) == (a2, if d.Some? then out + [d.value] else out)
  {
    hide Arrive;
    assert (xs + [x])[..|xs|] == xs;
  }

  lemma {:induction false} PlayGots(p: Params, a: Asm, xs: seq<Arrival>, cs: seq<Chunk>)
    requires ValidParams(p)
    ensures var (a1, out) := Play(p, a, xs);
      var (a2, more) := ReceiveAll(p, a1, cs);
      Play(p, a, xs + Gots(cs)) == (a2, out + more)
  {
    hide Receive, Play;
    if cs == [] {
      assert xs + Gots(cs) == xs && Play(p, a, xs).1 + [] == Play(p, a, xs).1;
    } else {
      var init, z := cs[..|cs|-1], cs[|cs|-1];
      PlayGots(p, a, xs, init);
      assert xs + Gots(cs) == (xs + Gots(init)) + [Got(z)];
      PlaySnoc(p, a, xs + Gots(init), Got(z));
      var (a1, out) := Play(p, a, xs);
      var (a2, more) := ReceiveAll(p, a1, init);
      var d := Receive(p, a2, z).1;
      assert d.Some? ==> out + more + [d.value] == out + (more + [d.value]);
    }
  }

  /** Feeding packets is playing their chunks and their ends. */
  lemma {:induction false} FeedIsPlay(p: Params, packets: seq<Packet>)
    requires ValidParams(p)
    ensures Feed(p, packets) == Play(p, Empty, ArrivalsOf(packets))
  {
    hide ReceiveAll, EndPacket;
    if packets != [] {
      var init, z := packets[..|packets|-1], packets[|packets|-1];
      FeedIsPlay(p, init);
      PlayGots(p, Empty, ArrivalsOf(init), Chunks(z.bytes));
      PlaySnoc(p, Empty, ArrivalsOf(init) + Gots(Chunks(z.bytes)), Tick(z.purge));
    }
  }

  // ---- The chunks of one frame ------------------------------------------------------------------------

  /** A chunk of this frame that lies inside the largest frame; others are ignored. */
  predicate Own(p: Params, x: Arrival, id: nat) {
    x.Got? && x.c.id == id && x.c.start + |x.c.data| <= p.mtu
  }

  function Mine(p: Params, xs: seq<Arrival>, id: nat): seq<Piece> {
    if xs == [] then []
    else
      var x := xs[|xs|-1];
      Mine(p, xs[..|xs|-1], id) + if Own(p, x, id) then [Piece(x.c.start, x.c.data, x.c.last)] else []
  }

  /** How many packets have ended since the latest chunk of the frame. */
  function Age(p: Params, xs: seq<Arrival>, id: nat): nat {
    if xs == [] || Own(p, xs[|xs|-1], id) then 0
    else Age(p, xs[..|xs|-1], id) + if xs[|xs|-1].Tick? then 1 else 0
  }

  /** No chunk comes more than num_frames packets after the one before it. */
  ghost predicate Prompt(p: Params, xs: seq<Arrival>, id: nat) {
    forall i :: 0 <= i < |xs| && Own(p, xs[i], id) && Mine(p, xs[..i], id) != [] ==> Age(p, xs[..i], id) <= p.numFrames
  }

  lemma {:induction false} MineSnoc(p: Params, xs: seq<Arrival>, x: Arrival, id: nat)
    ensures Mine(p, xs + [x], id) ==
      if Own(p, x, id) then Mine(p, xs, id) + [Piece(x.c.start, x.c.data, x.c.last)] else Mine(p, xs, id)
    ensures Age(p, xs + [x], id) == if Own(p, x, id) then 0 else Age(p, xs, id) + if x.Tick? then 1 else 0
    ensures Prompt(p, xs + [x], id) <==>
      Prompt(p, xs, id) && (Own(p, x, id) && Mine(p, xs, id) != [] ==> Age(p, xs, id) <= p.numFrames)
  {
    var ys := xs + [x];
    assert ys[..|xs|] == xs;
    assert forall i :: 0 <= i < |xs| ==> ys[i] == xs[i] && ys[..i] == xs[..i];
  }

  lemma {:induction false} OneChunk(p: Params, x: Arrival, id: nat)
    requires Own(p, x, id)
    ensures Mine(p, [x], id) == [Piece(x.c.start, x.c.data, x.c.last)] && Age(p, [x], id) == 0 && Prompt(p, [x], id)
  {
    MineSnoc(p, [], x, id);
    assert [] + [x] == [x];
  }

  /** Some piece holds position k. */
  ghost predicate Held(ps: seq<Piece>, k: int) {
    exists i :: 0 <= i < |ps| && ps[i].start <= k < ps[i].start + |ps[i].data|
  }

  /** Exactly piece i is marked as last, and it ends where the frame ends. */
  predicate EndsAt(ps: seq<Piece>, n: nat, i: nat) {
    i < |ps| && ps[i].start + |ps[i].data| == n && forall j :: 0 <= j < |ps| ==> (ps[j].last <==> j == i)
  }

  /** The pieces, in whatever order, are the frame: no two of them share a position, every position is
      held, what they hold is what the frame has there, and the one that ends it says so. */
  ghost predicate MadeOf(frame: Data, ps: seq<Piece>) {
    && (forall i, j :: 0 <= i < j < |ps| ==>
          ps[i].start + |ps[i].data| <= ps[j].start || ps[j].start + |ps[j].data| <= ps[i].start)
    && (forall i :: 0 <= i < |ps| ==>
          && ps[i].start + |ps[i].data| <= |frame|
          && ps[i].data == frame[ps[i].start..ps[i].start + |ps[i].data|])
    && (forall k :: 0 <= k < |frame| ==> Held(ps, k))
    && (exists i: nat :: EndsAt(ps, |frame|, i))
  }

  lemma TilesIsMadeOf(ps: seq<Piece>, frame: Data)
    requires Tiles(ps, frame)
    ensures MadeOf(frame, ps)
  {
    hide Sum;
    assert forall i :: 0 <= i < |ps| ==> ps[i] in ps;
    var n :| 0 <= n < |ps| && OnlyLast(ps, n) && End(ps[n]) == |frame|;
    assert EndsAt(ps, |frame|, n);
    forall k | 0 <= k < |frame|
      ensures Held(ps, k)
    {
      assert Covered(ps, k);
      var i :| 0 <= i < |ps| && Covers(ps[i], k);
    }
    forall i, j | 0 <= i < j < |ps|
      ensures ps[i].start + |ps[i].data| <= ps[j].start || ps[j].start + |ps[j].data| <= ps[i].start
    {
      assert !Overlap(ps[i], ps[j]);
    }
  }

  lemma {:induction false} SumIs(ps: seq<Piece>, n: nat)
    requires Disjoint(ps) && (forall x :: x in ps ==> End(x) <= n) && (forall k :: 0 <= k < n ==> Covered(ps, k))
    ensures Sum(ps) == n
  {
    AreaSize(ps);
    forall k
      ensures k in Area(ps) <==> k in Range(0, n)
    {
      AreaIs(ps, k);
    }
    assert Area(ps) == Range(0, n);
  }

  lemma {:induction false} MadeOfIsTiles(ps: seq<Piece>, frame: Data)
    requires MadeOf(frame, ps)
    ensures Tiles(ps, frame)
  {
    hide Sum;
    var n: nat :| EndsAt(ps, |frame|, n);
    assert OnlyLast(ps, n) && End(ps[n]) == |frame|;
    forall k | 0 <= k < |frame|
      ensures Covered(ps, k)
    {
      assert Held(ps, k);
      var i :| 0 <= i < |ps| && ps[i].start <= k < ps[i].start + |ps[i].data|;
      assert Covers(ps[i], k);
    }
    forall x | x in ps
      ensures End(x) <= |frame|
    {
      var i :| 0 <= i < |ps| && ps[i] == x;
    }
    SumIs(ps, |frame|);
  }

  // ---- What a delivered frame is made of ---------------------------------------------------------------

  /** The frame holds all chunks of its id from arrival n on. */
  ghost predicate Since(p: Params, xs: seq<Arrival>, now: nat, f: Frame, n: nat) {
    && n < |xs| && Own(p, xs[n], f.id)
    && f.pieces == Mine(p, xs[n..], f.id) && Prompt(p, xs[n..], f.id) && f.time + Age(p, xs[n..], f.id) == now
  }

  ghost predicate Known(p: Params, xs: seq<Arrival>, now: nat, f: Frame) {
    exists n :: Since(p, xs, now, f, n)
  }

  ghost predicate AllKnown(p: Params, xs: seq<Arrival>, a: Asm) {
    Inv(p, a) && forall f :: f in a.frames ==> Known(p, xs, a.now, f)
  }

  /** Something that is not a chunk of the frame arrives. */
  lemma KnownForeign(p: Params, xs: seq<Arrival>, now: nat, f: Frame, x: Arrival)
    requires Known(p, xs, now, f) && !Own(p, x, f.id)
    ensures Known(p, xs + [x], now + if x.Tick? then 1 else 0, f)
  {
    var n: nat :| Since(p, xs, now, f, n);
    assert (xs + [x])[n..] == xs[n..] + [x];
    MineSnoc(p, xs[n..], x, f.id);
    assert Since(p, xs + [x], now + if x.Tick? then 1 else 0, f, n);
  }

  /** The pieces are all chunks of one id from arrival n up to the last one. */
  ghost predicate Stretch(p: Params, xs: seq<Arrival>, id: nat, ps: seq<Piece>, n: nat) {
    && n < |xs| && Own(p, xs[n], id) && Own(p, xs[|xs|-1], id)
    && ps == Mine(p, xs[n..], id) && Prompt(p, xs[n..], id)
  }

  lemma OwnChunk(p: Params, xs: seq<Arrival>, a: Asm, c: Chunk) returns (n: nat)
    requires ValidParams(p) && AllKnown(p, xs, a) && InBounds(p, c)
    ensures var (frames, k) := Lookup(p, a, c.id);
      Stretch(p, xs + [Got(c)], c.id, frames[k].pieces + [PieceOf(c)], n)
  {
    hide Inv, Mine, Age, Prompt;
    var x := Got(c);
    var (frames, k) := Lookup(p, a, c.id);
    var j := Find(a.frames, c.id);
    if j.None? || TimedOut(p, a.now, a.frames[j.value]) {
      n := |xs|;
      assert (xs + [x])[n..] == [x];
      OneChunk(p, x, c.id);
      assert frames[k].pieces + [PieceOf(c)] == [PieceOf(c)];
    } else {
      assert a.frames[j.value] in a.frames && frames[k] == a.frames[j.value];
      n :| Since(p, xs, a.now, frames[k], n);
      assert (xs + [x])[n..] == xs[n..] + [x];
      MineSnoc(p, xs[n..], x, c.id);
    }
  }

  /** The frames in the pool after a chunk: old ones of other ids, and the one the chunk was added to. */
  lemma FramesAfter(p: Params, a: Asm, c: Chunk, f: Frame)
    requires ValidParams(p) && Inv(p, a) && f in Receive(p, a, c).0.frames
    ensures (f in a.frames && (InBounds(p, c) ==> f.id != c.id)) ||
      (InBounds(p, c) && var (frames, k) := Lookup(p, a, c.id); f == Frame(c.id, a.now, frames[k].pieces + [PieceOf(c)]))
  {
    hide Acceptable, Complete, FrameOk;
    if InBounds(p, c) {
      LookupKeeps(p, a, c.id);
      var (frames, k) := Lookup(p, a, c.id);
      RemoveKeeps(p, Asm(a.now, frames), k);
      LookupFrames(p, a, c.id);
    }
  }

  lemma LookupFrames(p: Params, a: Asm, id: nat)
    requires ValidParams(p) && Inv(p, a)
    ensures var (frames, k) := Lookup(p, a, id); forall f :: f in frames && f.id != id ==> f in a.frames
  {
    hide FrameOk;
    var k := Find(a.frames, id);
    if k.Some? {
      RemoveKeeps(p, a, k.value);
    }
  }

  lemma TickKnown(p: Params, xs: seq<Arrival>, a: Asm, purge: bool)
    requires ValidParams(p) && AllKnown(p, xs, a)
    ensures AllKnown(p, xs + [Tick(purge)], EndPacket(p, a, purge))
  {
    hide FrameOk, Since;
    var a' := EndPacket(p, a, purge);
    EndPacketKeepsInv(p, a, purge);
    UnexpiredKeeps(p, a.now, a.frames);
    forall f | f in a'.frames
      ensures Known(p, xs + [Tick(purge)], a'.now, f)
    {
      KnownForeign(p, xs, a.now, f, Tick(purge));
    }
  }

  lemma GotKnown(p: Params, xs: seq<Arrival>, a: Asm, c: Chunk)
    requires ValidParams(p) && AllKnown(p, xs, a)
    ensures AllKnown(p, xs + [Got(c)], Receive(p, a, c).0)
    ensures Receive(p, a, c).1.Some? ==>
      exists ps, n: nat :: Stretch(p, xs + [Got(c)], c.id, ps, n) && Tiles(ps, Receive(p, a, c).1.value)
  {
    hide Inv, Tiles, Lookup, Receive, Mine, Prompt, Age;
    var (a', d) := Receive(p, a, c);
    ReceiveKeepsInv(p, a, c);
    ReceiveNow(p, a, c);
    var (frames, k) := Lookup(p, a, c.id);
    var n: nat := 0;
    if InBounds(p, c) {
      n := OwnChunk(p, xs, a, c);
      LastIsOwn(p, xs, Got(c), c.id, n);
    }
    forall f | f in a'.frames
      ensures Known(p, xs + [Got(c)], a.now, f)
    {
      FramesAfter(p, a, c, f);
      if f in a.frames && (InBounds(p, c) ==> f.id != c.id) {
        KnownForeign(p, xs, a.now, f, Got(c));
      } else {
        assert Since(p, xs + [Got(c)], a.now, f, n);
      }
    }
  }

  lemma {:induction false} LastIsOwn(p: Params, xs: seq<Arrival>, x: Arrival, id: nat, n: nat)
    requires n <= |xs| && Own(p, x, id)
    ensures Age(p, (xs + [x])[n..], id) == 0
  {
    assert (xs + [x])[n..] == xs[n..] + [x];
    MineSnoc(p, xs[n..], x, id);
  }

  lemma ReceiveNow(p: Params, a: Asm, c: Chunk)
    requires ValidParams(p)
    ensures Receive(p, a, c).0.now == a.now && (Receive(p, a, c).1.Some? ==> InBounds(p, c))
  {
  }

  lemma {:induction false} PlayKnown(p: Params, xs: seq<Arrival>)
    requires ValidParams(p)
    ensures AllKnown(p, xs, Play(p, Empty, xs).0)
  {
    hide Receive, Inv, Known, EndPacket;
    if xs == [] {
      assert Inv(p, Empty) by { EmptyOk(p); }
    } else {
      var init, x := xs[..|xs|-1], xs[|xs|-1];
      PlayKnown(p, init);
      var a := Play(p, Empty, init).0;
      assert xs == init + [x];
      match x
      case Got(c) => GotKnown(p, init, a, c);
      case Tick(purge) => TickKnown(p, init, a, purge);
    }
  }

  lemma EmptyOk(p: Params)
    ensures Inv(p, Empty)
  {
  }

  /** The chunks of one id from arrival n up to arrival m are the frame. */
  ghost predicate WholeFrame(p: Params, xs: seq<Arrival>, n: nat, m: nat, id: nat, frame: Data) {
    && n <= m < |xs| && Own(p, xs[n], id) && Own(p, xs[m], id)
    && Prompt(p, xs[n..m+1], id) && MadeOf(frame, Mine(p, xs[n..m+1], id))
  }

  /** Whatever arrives: a frame that is delivered with arrival m is tiled by all chunks of one id from
      some arrival n up to m.  No chunk of the id in between was left out, and none came more than
      num_frames packets after the one before it. */
  lemma {:induction false} DeliveredFramesAreWhole(p: Params, xs: seq<Arrival>, m: nat)
    requires ValidParams(p) && m < |xs|
    ensures var d := Arrive(p, Play(p, Empty, xs[..m]).0, xs[m]).1;
      d.Some? ==> exists n: nat, id :: WholeFrame(p, xs, n, m, id, d.value)
  {
    hide Receive, Play, Tiles, Prompt, Mine, MadeOf;
    PlayKnown(p, xs[..m]);
    var a := Play(p, Empty, xs[..m]).0;
    var d := Arrive(p, a, xs[m]).1;
    assert xs[..m+1] == xs[..m] + [xs[m]];
    if d.Some? {
      var c := xs[m].c;
      GotKnown(p, xs[..m], a, c);
      var ps, n: nat :| Stretch(p, xs[..m+1], c.id, ps, n) && Tiles(ps, d.value);
      assert xs[..m+1][n..] == xs[n..m+1];
      TilesIsMadeOf(ps, d.value);
      assert WholeFrame(p, xs, n, m, c.id, d.value);
    }
  }

  /** Every output comes with some arrival. */
  lemma {:induction false} OutputArrives(p: Params, a: Asm, xs: seq<Arrival>, n: nat) returns (m: nat)
    requires ValidParams(p) && n < |Play(p, a, xs).1|
    ensures m < |xs| && Arrive(p, Play(p, a, xs[..m]).0, xs[m]).1 == Some(Play(p, a, xs).1[n])
  {
    hide Arrive;
    var init := xs[..|xs|-1];
    if n < |Play(p, a, init).1| {
      m := OutputArrives(p, a, init, n);
      assert init[..m] == xs[..m];
    } else {
      m := |init|;
    }
  }

  /** For every sequence of packets, well-formed or not: every frame that the assembler hands out is
      tiled by chunks of one id, all that came in from some moment on until the frame was complete. */
  lemma {:induction false} DeliveredFramesAreTiled(p: Params, packets: seq<Packet>, k: nat)
    requires ValidParams(p) && k < |Feed(p, packets).1|
    ensures exists n: nat, m: nat, id :: WholeFrame(p, ArrivalsOf(packets), n, m, id, Feed(p, packets).1[k])
  {
    hide Arrive, Play, Feed, WholeFrame;
    FeedIsPlay(p, packets);
    var m := OutputArrives(p, Empty, ArrivalsOf(packets), k);
    DeliveredFramesAreWhole(p, ArrivalsOf(packets), m);
  }

  // ---- Every frame that arrives in time is delivered ----------------------------------------------------

  /** The chunk begins a frame: there is none with its id, or that one is too old. */
  predicate Begins(p: Params, a: Asm, c: Chunk) {
    && c.start + |c.data| <= p.mtu
    && forall f :: f in a.frames && f.id == c.id ==> a.now - f.time > p.numFrames
  }

  /** How many frames of other ids have been begun since the first chunk of this one. */
  function Begun(p: Params, a: Asm, xs: seq<Arrival>, id: nat): nat
    requires ValidParams(p)
  {
    if xs == [] then 0
    else
      var init, x := xs[..|xs|-1], xs[|xs|-1];
      Begun(p, a, init, id) +
        if Mine(p, init, id) != [] && x.Got? && x.c.id != id && Begins(p, Play(p, a, init).0, x.c) then 1 else 0
  }

  /** The frame is in the pool, with at most n frames begun after it. */
  ghost predicate Holds(frames: seq<Frame>, f: Frame, n: nat) {
    exists k :: HoldsAt(frames, f, n, k)
  }

  predicate HoldsAt(frames: seq<Frame>, f: Frame, n: nat, k: int) {
    0 <= k < |frames| && frames[k] == f && |frames| - 1 - k <= n
  }

  lemma HoldsAfterRemove(frames: seq<Frame>, f: Frame, n: nat, j: nat)
    requires Holds(frames, f, n) && j < |frames| && frames[j].id != f.id
    ensures Holds(RemoveAt(frames, j), f, n)
  {
    var k :| HoldsAt(frames, f, n, k);
    assert HoldsAt(RemoveAt(frames, j), f, n, if k < j then k else k - 1);
  }

  lemma HoldsAfterUpdate(frames: seq<Frame>, f: Frame, n: nat, j: nat, g: Frame)
    requires Holds(frames, f, n) && j < |frames| && frames[j].id != f.id
    ensures Holds(frames[j := g], f, n)
  {
    var k :| HoldsAt(frames, f, n, k);
    assert HoldsAt(frames[j := g], f, n, k);
  }

  lemma HoldsAfterAllocate(p: Params, frames: seq<Frame>, f: Frame, n: nat, id: nat, now: nat)
    requires ValidParams(p) && Holds(frames, f, n) && n + 1 < p.numFrames && |frames| <= p.numFrames
    ensures Holds(Allocate(p, frames, id, now), f, n + 1)
  {
    var k :| HoldsAt(frames, f, n, k);
    assert HoldsAt(Allocate(p, frames, id, now), f, n + 1, if |frames| >= p.numFrames then k - 1 else k);
  }

  lemma {:induction false} HoldsAfterPurge(p: Params, now: nat, frames: seq<Frame>, f: Frame, n: nat)
    requires Holds(frames, f, n) && now - f.time <= p.numFrames
    ensures Holds(Unexpired(p, now, frames), f, n)
  {
    var k :| HoldsAt(frames, f, n, k);
    var init, z := frames[..|frames|-1], frames[|frames|-1];
    var rest := Unexpired(p, now, init);
    if k == |frames| - 1 {
      assert HoldsAt(rest + [z], f, n, |rest|);
    } else {
      assert HoldsAt(init, f, n - 1, k);
      HoldsAfterPurge(p, now, init, f, n - 1);
      var j :| HoldsAt(rest, f, n - 1, j);
      assert HoldsAt(rest, f, n, j) && HoldsAt(rest + [z], f, n, j);
    }
  }

  /** A chunk of another frame does no harm while few frames have been begun. */
  lemma ForeignHolds(p: Params, a: Asm, c: Chunk, f: Frame, n: nat)
    requires ValidParams(p) && Inv(p, a) && Holds(a.frames, f, n) && c.id != f.id
    requires Begins(p, a, c) ==> n + 1 < p.numFrames
    ensures Holds(Receive(p, a, c).0.frames, f, if Begins(p, a, c) then n + 1 else n)
  {
    hide Acceptable, Complete, FrameOk;
    if InBounds(p, c) {
      LookupHolds(p, a, c, f, n);
      var (frames, k) := Lookup(p, a, c.id);
      var m := if Begins(p, a, c) then n + 1 else n;
      HoldsAfterRemove(frames, f, m, k);
      HoldsAfterUpdate(frames, f, m, k, Frame(c.id, a.now, frames[k].pieces + [PieceOf(c)]));
    }
  }

  lemma LookupHolds(p: Params, a: Asm, c: Chunk, f: Frame, n: nat)
    requires ValidParams(p) && Inv(p, a) && Holds(a.frames, f, n) && c.id != f.id && InBounds(p, c)
    requires Begins(p, a, c) ==> n + 1 < p.numFrames
    ensures Holds(Lookup(p, a, c.id).0, f, if Begins(p, a, c) then n + 1 else n)
  {
    hide FrameOk, Holds;
    var k := Find(a.frames, c.id);
    if k.None? {
      HoldsAfterAllocate(p, a.frames, f, n, c.id, a.now);
    } else {
      assert a.frames[k.value] in a.frames;
      assert Begins(p, a, c) <==> TimedOut(p, a.now, a.frames[k.value]) by {
        forall g | g in a.frames && g.id == c.id
          ensures g == a.frames[k.value]
        {
        }
      }
      if TimedOut(p, a.now, a.frames[k.value]) {
        HoldsAfterRemove(a.frames, f, n, k.value);
        HoldsAfterAllocate(p, RemoveAt(a.frames, k.value), f, n, c.id, a.now);
      }
    }
  }

  // ---- A frame cut into pieces -----------------------------------------------------------------------------

  /** The last piece or some position is missing. */
  ghost predicate Missing(ps: seq<Piece>, n: nat) {
    (forall i :: 0 <= i < |ps| ==> !ps[i].last) || exists k :: 0 <= k < n && !Held(ps, k)
  }

  /** The pieces are the frame, there are not too many of them, and it takes all of them. */
  ghost predicate Cut(p: Params, ps: seq<Piece>, frame: Data) {
    && MadeOf(frame, ps) && |ps| <= p.numChunks && |frame| <= p.mtu
    && forall n :: 0 <= n < |ps| ==> Missing(ps[..n], |frame|)
  }

  lemma {:induction false} MaxEndWithin(ps: seq<Piece>, n: nat)
    requires forall i :: 0 <= i < |ps| ==> End(ps[i]) <= n
    ensures MaxEnd(ps) <= n
  {
    if ps != [] {
      MaxEndWithin(ps[..|ps|-1], n);
    }
  }

  /** How long the frame is according to its first n pieces. */
  lemma PrefixLength(p: Params, ps: seq<Piece>, frame: Data, n: nat)
    requires Cut(p, ps, frame) && n <= |ps|
    ensures Length(ps[..n]) == |frame| || (Length(ps[..n]) < 0 && forall i :: 0 <= i < n ==> !ps[i].last)
    ensures n == |ps| ==> Length(ps[..n]) == |frame|
  {
    hide MadeOf;
    MadeOfIsTiles(ps, frame);
    var k :| 0 <= k < |ps| && OnlyLast(ps, k) && End(ps[k]) == |frame|;
    LengthIsLast(ps[..n]);
    if n > k {
      assert ps[..n][k].last;
    }
  }

  lemma NextAcceptable(p: Params, ps: seq<Piece>, frame: Data, n: nat)
    requires Cut(p, ps, frame) && n < |ps|
    ensures Acceptable(ps[..n], ps[n])
  {
    hide MadeOf, Covered;
    MadeOfIsTiles(ps, frame);
    var k :| 0 <= k < |ps| && OnlyLast(ps, k) && End(ps[k]) == |frame|;
    PrefixLength(p, ps, frame, n);
    EndsWithin(p, ps, frame);
    MaxEndWithin(ps[..n], |frame|);
    assert ps[n].last ==> n == k;
    assert Length(ps[..n]) >= 0 ==> n != k by {
      LengthIsLast(ps[..n]);
    }
    forall y | y in ps[..n]
      ensures !Overlap(y, ps[n])
    {
      var i :| 0 <= i < n && ps[i] == y;
    }
  }

  lemma EndsWithin(p: Params, ps: seq<Piece>, frame: Data)
    requires Cut(p, ps, frame)
    ensures forall i :: 0 <= i < |ps| ==> End(ps[i]) <= |frame|
  {
    hide MadeOf;
    MadeOfIsTiles(ps, frame);
    assert forall i :: 0 <= i < |ps| ==> ps[i] in ps;
  }

  lemma {:induction false} PrefixIncomplete(p: Params, ps: seq<Piece>, frame: Data, n: nat)
    requires Cut(p, ps, frame) && n < |ps|
    ensures !Complete(ps[..n])
  {
    hide MadeOf;
    MadeOfIsTiles(ps, frame);
    var qs := ps[..n];
    PrefixLength(p, ps, frame, n);
    assert Missing(qs, |frame|);
    Tiling(qs, |frame|);
    LengthIsLast(qs);
    if k :| 0 <= k < |frame| && !Held(qs, k) {
      NotCovered(qs, k);
    }
  }

  lemma NotCovered(ps: seq<Piece>, k: int)
    requires !Held(ps, k)
    ensures !Covered(ps, k)
  {
  }

  lemma {:induction false} WholeComplete(p: Params, ps: seq<Piece>, frame: Data)
    requires Cut(p, ps, frame)
    ensures Complete(ps) && Assemble(ps) == frame
  {
    hide MadeOf;
    MadeOfIsTiles(ps, frame);
    assert ps[..|ps|] == ps;
    PrefixLength(p, ps, frame, |ps|);
    forall i | 0 <= i < |frame|
      ensures ByteAt(ps, i) == frame[i]
    {
      assert Covered(ps, i);
      var k :| 0 <= k < |ps| && Covers(ps[k], i);
      ByteAtIs(ps, k, i - ps[k].start);
      assert frame[ps[k].start + (i - ps[k].start)] == ps[k].data[i - ps[k].start];
    }
  }

  // ---- The run -------------------------------------------------------------------------------------------------

  /** No frame of this id is in the pool. */
  predicate Absent(a: Asm, id: nat) {
    forall f :: f in a.frames ==> f.id != id
  }

  /** After some of the arrivals the frame is in the pool with the pieces that have arrived. */
  ghost predicate Partly(p: Params, a: Asm, xs: seq<Arrival>, id: nat, b: Asm)
    requires ValidParams(p)
  {
    && Inv(p, b)
    && if Mine(p, xs, id) == [] then Absent(b, id)
       else b.now >= Age(p, xs, id) &&
            Holds(b.frames, Frame(id, b.now - Age(p, xs, id), Mine(p, xs, id)), Begun(p, a, xs, id))
  }

  lemma {:induction false} BegunSnoc(p: Params, a: Asm, xs: seq<Arrival>, x: Arrival, id: nat)
    requires ValidParams(p)
    ensures Begun(p, a, xs + [x], id) == Begun(p, a, xs, id) +
      if Mine(p, xs, id) != [] && x.Got? && x.c.id != id && Begins(p, Play(p, a, xs).0, x.c) then 1 else 0
    ensures Play(p, a, xs + [x]).0 == Arrive(p, Play(p, a, xs).0, x).0
  {
    hide Arrive, Begins;
    assert (xs + [x])[..|xs|] == xs;
  }

  lemma ForeignAbsent(p: Params, a: Asm, c: Chunk, id: nat)
    requires ValidParams(p) && Inv(p, a) && Absent(a, id) && (c.id != id || !InBounds(p, c))
    ensures Absent(Receive(p, a, c).0, id)
  {
    hide Receive, Inv;
    forall f | f in Receive(p, a, c).0.frames
      ensures f.id != id
    {
      FramesAfter(p, a, c, f);
    }
  }

  lemma {:induction false} TickPartly(p: Params, a: Asm, xs: seq<Arrival>, purge: bool, id: nat)
    requires ValidParams(p) && Partly(p, a, xs, id, Play(p, a, xs).0)
    requires Mine(p, xs, id) != [] ==> Age(p, xs, id) <= p.numFrames
    ensures Partly(p, a, xs + [Tick(purge)], id, Play(p, a, xs + [Tick(purge)]).0)
  {
    hide Inv, Holds, Begins, Play, Mine, Age, Begun;
    var b := Play(p, a, xs).0;
    BegunSnoc(p, a, xs, Tick(purge), id);
    MineSnoc(p, xs, Tick(purge), id);
    EndPacketKeepsInv(p, b, purge);
    if Mine(p, xs, id) == [] {
      UniqueInv(p, b);
      UnexpiredKeeps(p, b.now, b.frames);
    } else if purge {
      HoldsAfterPurge(p, b.now, b.frames, Frame(id, b.now - Age(p, xs, id), Mine(p, xs, id)), Begun(p, a, xs, id));
    }
  }

  /** A chunk arrives that is not one of the frame. */
  lemma {:induction false} ForeignPartly(p: Params, a: Asm, xs: seq<Arrival>, c: Chunk, id: nat)
    requires ValidParams(p) && Partly(p, a, xs, id, Play(p, a, xs).0) && !Own(p, Got(c), id)
    requires Begun(p, a, xs + [Got(c)], id) < p.numFrames
    ensures Partly(p, a, xs + [Got(c)], id, Play(p, a, xs + [Got(c)]).0)
  {
    hide Inv, Receive, Holds, Begins, Play, Mine, Age, Begun;
    var b := Play(p, a, xs).0;
    BegunSnoc(p, a, xs, Got(c), id);
    MineSnoc(p, xs, Got(c), id);
    ReceiveKeepsInv(p, b, c);
    ReceiveNow(p, b, c);
    if Mine(p, xs, id) == [] {
      ForeignAbsent(p, b, c, id);
    } else if c.id != id {
      ForeignHolds(p, b, c, Frame(id, b.now - Age(p, xs, id), Mine(p, xs, id)), Begun(p, a, xs, id));
    } else {
      OutOfBounds(p, b, c);
    }
  }

  lemma UniqueInv(p: Params, a: Asm)
    requires Inv(p, a)
    ensures UniqueIds(a.frames)
  {
  }

  lemma OutOfBounds(p: Params, a: Asm, c: Chunk)
    requires ValidParams(p) && !InBounds(p, c)
    ensures Receive(p, a, c) == (a, None)
  {
  }

  /** A chunk of the frame finds the pieces that have arrived before it. */
  lemma {:induction false} OwnFound(p: Params, a: Asm, xs: seq<Arrival>, id: nat, b: Asm)
    requires ValidParams(p) && Partly(p, a, xs, id, b) && (Mine(p, xs, id) != [] ==> Age(p, xs, id) <= p.numFrames)
    ensures var (frames, k) := Lookup(p, b, id);
      && frames[k].pieces == Mine(p, xs, id) && frames[k].id == id
      && (Mine(p, xs, id) != [] ==> |frames| - 1 - k <= Begun(p, a, xs, id))
      && (Mine(p, xs, id) == [] ==> k == |frames| - 1)
  {
    hide FrameOk;
    if Mine(p, xs, id) != [] {
      var f := Frame(id, b.now - Age(p, xs, id), Mine(p, xs, id));
      var k :| HoldsAt(b.frames, f, Begun(p, a, xs, id), k);
      FindUnique(b.frames, k);
    }
  }

  /** A chunk of the frame arrives that does not complete it. */
  lemma {:induction false} OwnPartly(p: Params, a: Asm, xs: seq<Arrival>, x: Arrival, id: nat, ps: seq<Piece>, frame: Data)
    requires ValidParams(p) && Partly(p, a, xs, id, Play(p, a, xs).0) && Own(p, x, id)
    requires Mine(p, xs, id) != [] ==> Age(p, xs, id) <= p.numFrames
    requires Cut(p, ps, frame) && Mine(p, xs + [x], id) <= ps && |Mine(p, xs + [x], id)| < |ps|
    requires Begun(p, a, xs, id) > 0 ==> Mine(p, xs, id) != []
    ensures Partly(p, a, xs + [x], id, Play(p, a, xs + [x]).0)
  {
    hide Inv, Holds, Begins, Lookup, Acceptable, Complete, Cut, Receive, Play, Mine, Begun, Age;
    var b := Play(p, a, xs).0;
    BegunSnoc(p, a, xs, x, id);
    MineSnoc(p, xs, x, id);
    var n := |Mine(p, xs, id)|;
    assert ps[..n] == Mine(p, xs, id) && ps[n] == PieceOf(x.c) && ps[..n+1] == Mine(p, xs + [x], id);
    NextAcceptable(p, ps, frame, n);
    PrefixIncomplete(p, ps, frame, n + 1);
    CutChunks(p, ps, frame);
    ReceiveKeepsInv(p, b, x.c);
    OwnFound(p, a, xs, id, b);
    OwnKept(p, b, x.c);
    var (frames, k) := Lookup(p, b, id);
    var f := Frame(id, b.now, Mine(p, xs + [x], id));
    HoldsIf(frames[k := f], f, Begun(p, a, xs + [x], id), k);
  }

  lemma OwnKept(p: Params, a: Asm, c: Chunk)
    requires ValidParams(p) && InBounds(p, c)
    requires var (frames, k) := Lookup(p, a, c.id);
      var ps := frames[k].pieces + [PieceOf(c)];
      Acceptable(frames[k].pieces, PieceOf(c)) && !Complete(ps) && |ps| < p.numChunks
    ensures var (frames, k) := Lookup(p, a, c.id);
      Receive(p, a, c).0 == Asm(a.now, frames[k := Frame(c.id, a.now, frames[k].pieces + [PieceOf(c)])])
  {
    hide Acceptable, Complete, Lookup;
  }

  lemma HoldsIf(frames: seq<Frame>, f: Frame, n: nat, k: nat)
    requires HoldsAt(frames, f, n, k)
    ensures Holds(frames, f, n)
  {
  }

  lemma CutChunks(p: Params, ps: seq<Piece>, frame: Data)
    requires Cut(p, ps, frame)
    ensures |ps| <= p.numChunks
  {
  }

  lemma {:induction false} BegunAfterFirst(p: Params, a: Asm, xs: seq<Arrival>, id: nat)
    requires ValidParams(p)
    ensures Begun(p, a, xs, id) > 0 ==> Mine(p, xs, id) != []
  {
    if xs != [] {
      BegunAfterFirst(p, a, xs[..|xs|-1], id);
    }
  }

  /** Up to the last chunk of the frame none is too late. */
  lemma {:induction false} NotTooOld(p: Params, xs: seq<Arrival>, id: nat, i: nat)
    requires xs != [] && Own(p, xs[|xs|-1], id) && Prompt(p, xs, id) && i < |xs| && Mine(p, xs[..i], id) != []
    ensures Age(p, xs[..i], id) <= p.numFrames
    decreases |xs| - i
  {
    if !Own(p, xs[i], id) {
      assert xs[..i+1] == xs[..i] + [xs[i]];
      MineSnoc(p, xs[..i], xs[i], id);
      NotTooOld(p, xs, id, i + 1);
    }
  }

  lemma {:induction false} MinePrefix(p: Params, xs: seq<Arrival>, id: nat, i: nat)
    requires i <= |xs|
    ensures Mine(p, xs[..i], id) <= Mine(p, xs, id)
    ensures i < |xs| && Own(p, xs[|xs|-1], id) ==> |Mine(p, xs[..i], id)| < |Mine(p, xs, id)|
  {
    if i < |xs| {
      var init := xs[..|xs|-1];
      MinePrefix(p, init, id, i);
      assert init[..i] == xs[..i];
    } else {
      assert xs[..i] == xs;
    }
  }

  lemma {:induction false} BegunPrefix(p: Params, a: Asm, xs: seq<Arrival>, id: nat, i: nat)
    requires ValidParams(p) && i <= |xs|
    ensures Begun(p, a, xs[..i], id) <= Begun(p, a, xs, id)
  {
    if i < |xs| {
      var init := xs[..|xs|-1];
      BegunPrefix(p, a, init, id, i);
      assert init[..i] == xs[..i];
    } else {
      assert xs[..i] == xs;
    }
  }

  /** What the frame needs: its chunks, in any order, the last one at the end; none too late; and fewer
      than num_frames other frames begun before it is complete. */
  ghost predicate ArrivesInTime(p: Params, a: Asm, xs: seq<Arrival>, id: nat, frame: Data)
    requires ValidParams(p)
  {
    && xs != [] && Own(p, xs[|xs|-1], id) && Cut(p, Mine(p, xs, id), frame)
    && Prompt(p, xs, id) && Begun(p, a, xs, id) < p.numFrames
  }

  lemma {:induction false} PartlyThrough(p: Params, a: Asm, xs: seq<Arrival>, id: nat, frame: Data, i: nat)
    requires ValidParams(p) && Inv(p, a) && Absent(a, id) && ArrivesInTime(p, a, xs, id, frame) && i < |xs|
    ensures Partly(p, a, xs[..i], id, Play(p, a, xs[..i]).0)
  {
    hide Inv, Cut, Begins, Receive, Prompt, Mine, Age, Begun, Holds, Arrive, Play;
    if i == 0 {
      assert xs[..0] == [];
      PlayNothing(p, a, id);
    } else {
      PartlyThrough(p, a, xs, id, frame, i - 1);
      var before, x := xs[..i-1], xs[i-1];
      assert xs[..i] == before + [x];
      if Mine(p, before, id) != [] {
        NotTooOld(p, xs, id, i - 1);
      }
      BegunPrefix(p, a, xs, id, i);
      if Own(p, x, id) {
        MinePrefix(p, xs, id, i);
        BegunAfterFirst(p, a, before, id);
        OwnPartly(p, a, before, x, id, Mine(p, xs, id), frame);
      } else {
        match x
        case Tick(purge) => TickPartly(p, a, before, purge, id);
        case Got(c) => ForeignPartly(p, a, before, c, id);
      }
    }
  }

  lemma {:induction false} PlayNothing(p: Params, a: Asm, id: nat)
    requires ValidParams(p)
    ensures Play(p, a, []) == (a, []) && Mine(p, [], id) == []
  {
  }

  /** A frame whose chunks all arrive, in any order and among those of other frames, is delivered with
      the last of them, provided no chunk comes more than num_frames packets after the one before it
      and fewer than num_frames other frames are begun in between. */
  lemma {:induction false} AnyOrderDelivered(p: Params, a: Asm, xs: seq<Arrival>, id: nat, frame: Data)
    requires ValidParams(p) && Inv(p, a) && Absent(a, id) && ArrivesInTime(p, a, xs, id, frame)
    ensures Play(p, a, xs).1 == Play(p, a, xs[..|xs|-1]).1 + [frame]
    ensures Absent(Play(p, a, xs).0, id)
  {
    var init, x := xs[..|xs|-1], xs[|xs|-1];
    var b := Play(p, a, init).0;
    PartlyThrough(p, a, xs, id, frame, |init|);
    assert xs == init + [x];
    MineSnoc(p, init, x, id);
    if Mine(p, init, id) != [] {
      NotTooOld(p, xs, id, |init|);
    }
    OwnCompletes(p, a, init, x, id, b, frame);
  }

  lemma {:induction false} OwnCompletes(p: Params, a: Asm, xs: seq<Arrival>, x: Arrival, id: nat, b: Asm, frame: Data)
    requires ValidParams(p) && Partly(p, a, xs, id, b) && Own(p, x, id)
    requires Mine(p, xs, id) != [] ==> Age(p, xs, id) <= p.numFrames
    requires Cut(p, Mine(p, xs, id) + [PieceOf(x.c)], frame)
    ensures Receive(p, b, x.c).1 == Some(frame) && Absent(Receive(p, b, x.c).0, id)
  {
    hide Holds, Begins, Lookup, Acceptable, Complete, Cut, FrameOk;
    var ps := Mine(p, xs, id) + [PieceOf(x.c)];
    var n := |ps| - 1;
    assert ps[..n] == Mine(p, xs, id);
    NextAcceptable(p, ps, frame, n);
    WholeComplete(p, ps, frame);
    OwnFound(p, a, xs, id, b);
    var (frames, k) := Lookup(p, b, id);
    LookupKeeps(p, b, id);
    RemoveKeeps(p, Asm(b.now, frames), k);
  }
}
