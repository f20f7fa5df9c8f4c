/**
 Reassembly of frames from chunks: the reference for FragmentProtoAssembler.

 The reference keeps, per frame, the accepted pieces themselves, and counts packets with an
 unbounded clock.  The C code keeps derived numbers (sum, length, length_so_far), one byte
 buffer per frame, and a 32-bit clock that it rebases; Assembler.dfy relates the two.
 */
module AssemblerSpec {
  import opened Prelude
  import opened Bytes
  import opened FragmentWire

  datatype Params = Params(numFrames: nat, numChunks: nat, mtu: nat)

  predicate ValidParams(p: Params) {
    0 < p.numFrames && 0 < p.numChunks
  }

  datatype Piece = Piece(start: nat, data: Data, last: bool)

  datatype Frame = Frame(id: nat, time: nat, pieces: seq<Piece>)

  // frames are listed in the order of their creation
  datatype Asm = Asm(now: nat, frames: seq<Frame>)

  // ---- Pieces of one frame -----------------------------------------------------------

  function End(x: Piece): nat {
    x.start + |x.data|
  }

  predicate Overlap(x: Piece, y: Piece) {
    End(x) > y.start && End(y) > x.start
  }

  function Sum(ps: seq<Piece>): nat {
    if ps == [] then 0 else Sum(ps[..|ps|-1]) + |ps[|ps|-1].data|
  }

  /** Length of the frame if a piece marked as last has been accepted, else -1. */
  function Length(ps: seq<Piece>): int {
    if ps == [] then -1
    else if ps[|ps|-1].last then End(ps[|ps|-1])
    else Length(ps[..|ps|-1])
  }

  function MaxEnd(ps: seq<Piece>): nat {
    if ps == [] then 0 else Max(MaxEnd(ps[..|ps|-1]), End(ps[|ps|-1]))
  }

  /** The checks of process_chunk against the pieces already accepted. */
  predicate Acceptable(ps: seq<Piece>, x: Piece) {
    && (forall y :: y in ps ==> !Overlap(y, x))
    && (if x.last then Length(ps) < 0 && MaxEnd(ps) <= End(x)
        else Length(ps) >= 0 ==> End(x) <= Length(ps))
  }

  predicate Complete(ps: seq<Piece>) {
    Length(ps) >= 0 && Sum(ps) >= Length(ps)
  }

  predicate Covers(x: Piece, i: int) {
    x.start <= i < End(x)
  }

  /** The byte that the accepted pieces leave at position i. */
  function ByteAt(ps: seq<Piece>, i: nat): Byte {
    if ps == [] then 0
    else
      var x := ps[|ps|-1];
      if Covers(x, i) then x.data[i - x.start] else ByteAt(ps[..|ps|-1], i)
  }

  function Assemble(ps: seq<Piece>): Data
    requires Length(ps) >= 0
  {
    seq(Length(ps), i requires 0 <= i => ByteAt(ps, i))
  }

  // ---- Steps ---------------------------------------------------------------------------

  function Find(frames: seq<Frame>, id: nat): (k: Option<nat>)
    ensures k.Some? ==> k.value < |frames| && frames[k.value].id == id
    ensures k.None? ==> forall j :: 0 <= j < |frames| ==> frames[j].id != id
  {
    if frames == [] then None
    else if frames[|frames|-1].id == id then Some(|frames| - 1)
    else Find(frames[..|frames|-1], id)
  }

  function RemoveAt<T>(s: seq<T>, k: nat): seq<T>
    requires k < |s|
  {
    s[..k] + s[k+1..]
  }

  predicate TimedOut(p: Params, now: nat, f: Frame) {
    now - f.time > p.numFrames
  }

  /** Make room if the pool is exhausted, by dropping the oldest frame, and append a new one. */
  function Allocate(p: Params, frames: seq<Frame>, id: nat, now: nat): seq<Frame>
    requires ValidParams(p)
  {
    var kept := if |frames| >= p.numFrames then frames[1..] else frames;
    kept + [Frame(id, now, [])]
  }

  /** The list of frames after lookup, and the position of the frame for this id. */
  function Lookup(p: Params, a: Asm, id: nat): (r: (seq<Frame>, nat))
    requires ValidParams(p)
    ensures r.1 < |r.0| && r.0[r.1].id == id
  {
    var k := Find(a.frames, id);
    if k.None? then
      var frames := Allocate(p, a.frames, id, a.now);
      (frames, |frames| - 1)
    else if TimedOut(p, a.now, a.frames[k.value]) then
      var frames := Allocate(p, RemoveAt(a.frames, k.value), id, a.now);
      (frames, |frames| - 1)
    else
      (a.frames, k.value)
  }

  predicate InBounds(p: Params, c: Chunk) {
    c.start <= p.mtu && |c.data| <= p.mtu - c.start
  }

  function PieceOf(c: Chunk): Piece {
    Piece(c.start, c.data, c.last)
  }

  /** What becomes of frame k when a piece is added to it: it is handed out if complete, given up
      if its chunks are used up, and kept otherwise. */
  function Accept(p: Params, a: Asm, k: nat, c: Chunk): (Asm, Option<Data>)
    requires k < |a.frames|
  {
    var ps := a.frames[k].pieces + [PieceOf(c)];
    if Complete(ps) then
      (Asm(a.now, RemoveAt(a.frames, k)), Some(Assemble(ps)))
    else if |ps| == p.numChunks then
      (Asm(a.now, RemoveAt(a.frames, k)), None)
    else
      (Asm(a.now, a.frames[k := Frame(c.id, a.now, ps)]), None)
  }

  /** process_chunk: the new state and the frame that this chunk completed, if any. */
  function Receive(p: Params, a: Asm, c: Chunk): (r: (Asm, Option<Data>))
    requires ValidParams(p)
  {
    if !InBounds(p, c) then (a, None)
    else
      var (frames, k) := Lookup(p, a, c.id);
      if !Acceptable(frames[k].pieces, PieceOf(c)) then
        (Asm(a.now, RemoveAt(frames, k)), None)
      else
        Accept(p, Asm(a.now, frames), k, c)
  }

  function Unexpired(p: Params, now: nat, frames: seq<Frame>): seq<Frame> {
    if frames == [] then []
    else
      var rest := Unexpired(p, now, frames[..|frames|-1]);
      var f := frames[|frames|-1];
      if TimedOut(p, now, f) then rest else rest + [f]
  }

  /** End of an input packet: the clock ticks; when the code's clock is full it also drops
      every timed-out frame. */
  function EndPacket(p: Params, a: Asm, purge: bool): Asm {
    Asm(a.now + 1, if purge then Unexpired(p, a.now, a.frames) else a.frames)
  }

  // ---- Invariant ------------------------------------------------------------------------

  ghost predicate Disjoint(ps: seq<Piece>) {
    forall i, j :: 0 <= i < j < |ps| ==> !Overlap(ps[i], ps[j])
  }

  /** What holds of the accepted pieces of a frame. */
  ghost predicate Consistent(ps: seq<Piece>) {
    && Disjoint(ps)
    && (Length(ps) >= 0 ==> forall x :: x in ps ==> End(x) <= Length(ps))
    && (forall i, j :: 0 <= i < j < |ps| ==> !(ps[i].last && ps[j].last))
  }

  ghost predicate FrameOk(p: Params, now: nat, f: Frame) {
    && f.time <= now
    && |f.pieces| < p.numChunks
    && Consistent(f.pieces)
    && !Complete(f.pieces)
    && forall x :: x in f.pieces ==> End(x) <= p.mtu
  }

  ghost predicate UniqueIds(frames: seq<Frame>) {
    forall i, j :: 0 <= i < j < |frames| ==> frames[i].id != frames[j].id
  }

  ghost predicate Inv(p: Params, a: Asm) {
    && |a.frames| <= p.numFrames
    && UniqueIds(a.frames)
    && forall f :: f in a.frames ==> FrameOk(p, a.now, f)
  }

  // ---- Tiling ------------------------------------------------------------------------------

  ghost predicate Covered(ps: seq<Piece>, i: int) {
    exists k :: 0 <= k < |ps| && Covers(ps[k], i)
  }

  lemma CoveredAppend(ps: seq<Piece>, x: Piece, i: int)
    ensures Covered(ps + [x], i) <==> Covered(ps, i) || Covers(x, i)
  {
    var all := ps + [x];
    if Covered(ps, i) {
      var k :| 0 <= k < |ps| && Covers(ps[k], i);
      assert Covers(all[k], i);
    }
    if Covers(x, i) {
      assert Covers(all[|ps|], i);
    }
  }

  ghost function Range(a: int, b: int): (r: set<int>)
    requires a <= b
    ensures forall i :: i in r <==> a <= i < b
    ensures |r| == b - a
    decreases b - a
  {
    if a == b then {} else {a} + Range(a + 1, b)
  }

  ghost function Area(ps: seq<Piece>): set<int> {
    if ps == [] then {} else Area(ps[..|ps|-1]) + Range(ps[|ps|-1].start, End(ps[|ps|-1]))
  }

  lemma {:induction false} AreaIs(ps: seq<Piece>, i: int)
    ensures i in Area(ps) <==> Covered(ps, i)
  {
    if ps != [] {
      var init, z := ps[..|ps|-1], ps[|ps|-1];
      AreaIs(init, i);
      assert ps == init + [z];
      CoveredAppend(init, z, i);
    }
  }

  lemma {:induction false} AreaSize(ps: seq<Piece>)
    requires Disjoint(ps)
    ensures |Area(ps)| == Sum(ps)
  {
    if ps != [] {
      var init, z := ps[..|ps|-1], ps[|ps|-1];
      AreaSize(init);
      forall i | i in Area(init)
        ensures i !in Range(z.start, End(z))
      {
        AreaIs(init, i);
        var k :| 0 <= k < |init| && Covers(init[k], i);
        assert !Overlap(ps[k], ps[|ps|-1]);
      }
      assert Area(init) !! Range(z.start, End(z));
    }
  }

  lemma SubsetFull(a: set<int>, b: set<int>)
    requires a <= b
    ensures |a| <= |b|
    ensures |a| == |b| ==> a == b
  {
    assert b == a + (b - a);
  }

  /** The interval argument of reassembly: pairwise non-overlapping pieces inside [0, n)
      have total length at most n, and if it is n they leave no gap. */
  lemma {:induction false} Tiling(ps: seq<Piece>, n: nat)
    requires Disjoint(ps) && (forall x :: x in ps ==> End(x) <= n)
    ensures Sum(ps) <= n
    ensures Sum(ps) == n ==> forall i :: 0 <= i < n ==> Covered(ps, i)
  {
    AreaSize(ps);
    forall i | i in Area(ps)
      ensures i in Range(0, n)
    {
      AreaIs(ps, i);
    }
    SubsetFull(Area(ps), Range(0, n));
    if Sum(ps) == n {
      forall i | 0 <= i < n
        ensures Covered(ps, i)
      {
        AreaIs(ps, i);
        assert i in Range(0, n);
      }
    }
  }

  // ---- Delivered frames ----------------------------------------------------------------------

  /** The pieces tile the frame: they lie inside it, never overlap, add up to its length and
      reach every position; every byte of the frame is the payload byte of the one piece that
      covers it; and exactly one piece was marked last, the one that ends the frame. */
  ghost predicate Tiles(ps: seq<Piece>, frame: Data) {
    && Disjoint(ps)
    && (forall x :: x in ps ==> End(x) <= |frame|)
    && Sum(ps) == |frame|
    && (forall i :: 0 <= i < |frame| ==> Covered(ps, i))
    && (forall k, i :: 0 <= k < |ps| && 0 <= i < |ps[k].data| && ps[k].start + i < |frame| ==>
          frame[ps[k].start + i] == ps[k].data[i])
    && (exists k :: 0 <= k < |ps| && OnlyLast(ps, k) && End(ps[k]) == |frame|)
  }

  ghost predicate OnlyLast(ps: seq<Piece>, k: nat)
    requires k < |ps|
  {
    ps[k].last && forall j :: 0 <= j < |ps| && j != k ==> !ps[j].last
  }

  lemma {:induction false} LengthIsLast(ps: seq<Piece>)
    requires forall i, j :: 0 <= i < j < |ps| ==> !(ps[i].last && ps[j].last)
    ensures Length(ps) >= 0 ==> exists k :: 0 <= k < |ps| && OnlyLast(ps, k) && End(ps[k]) == Length(ps)
    ensures Length(ps) < 0 ==> forall k :: 0 <= k < |ps| ==> !ps[k].last
  {
    if ps != [] {
      var init, z := ps[..|ps|-1], ps[|ps|-1];
      LengthIsLast(init);
      if z.last {
        assert OnlyLast(ps, |ps| - 1);
      } else if Length(ps) >= 0 {
        var k :| 0 <= k < |init| && OnlyLast(init, k) && End(init[k]) == Length(init);
        assert OnlyLast(ps, k);
      }
    }
  }

  lemma {:induction false} ByteAtIs(ps: seq<Piece>, k: nat, i: nat)
    requires Disjoint(ps) && k < |ps| && i < |ps[k].data|
    ensures ByteAt(ps, ps[k].start + i) == ps[k].data[i]
  {
    var z := ps[|ps|-1];
    if k < |ps| - 1 {
      assert !Overlap(ps[k], z);
      ByteAtIs(ps[..|ps|-1], k, i);
    }
  }

  lemma {:induction false} ByteAtAppend(ps: seq<Piece>, x: Piece, i: nat)
    ensures Covered(ps + [x], i) <==> Covered(ps, i) || Covers(x, i)
    ensures ByteAt(ps + [x], i) == if Covers(x, i) then x.data[i - x.start] else ByteAt(ps, i)
  {
    CoveredAppend(ps, x, i);
    assert (ps + [x])[..|ps|] == ps;
  }

  lemma CompleteTiles(ps: seq<Piece>)
    requires Consistent(ps) && Complete(ps)
    ensures Tiles(ps, Assemble(ps))
  {
    Tiling(ps, Length(ps));
    LengthIsLast(ps);
    forall k, i | 0 <= k < |ps| && 0 <= i < |ps[k].data|
      ensures ByteAt(ps, ps[k].start + i) == ps[k].data[i]
    {
      ByteAtIs(ps, k, i);
    }
  }

  lemma {:induction false} MaxEndBounds(ps: seq<Piece>)
    ensures forall x :: x in ps ==> End(x) <= MaxEnd(ps)
  {
    if ps != [] {
      MaxEndBounds(ps[..|ps|-1]);
      assert forall x :: x in ps <==> x in ps[..|ps|-1] || x == ps[|ps|-1];
    }
  }

  /** Accepting a piece keeps the pieces of a frame consistent. */
  lemma {:induction false} AcceptKeepsConsistent(ps: seq<Piece>, x: Piece)
    requires Consistent(ps) && Acceptable(ps, x)
    ensures Consistent(ps + [x])
    ensures Length(ps + [x]) == if x.last then End(x) else Length(ps)
    ensures Sum(ps + [x]) == Sum(ps) + |x.data|
    ensures MaxEnd(ps + [x]) == Max(MaxEnd(ps), End(x))
  {
    var all := ps + [x];
    assert all[..|all|-1] == ps;
    assert forall i :: 0 <= i < |ps| ==> all[i] == ps[i] && ps[i] in ps;
    MaxEndBounds(ps);
    LengthIsLast(ps);
  }

  // ---- Preservation ------------------------------------------------------------------------------

  lemma {:induction false} FindUnique(frames: seq<Frame>, k: nat)
    requires UniqueIds(frames) && k < |frames|
    ensures Find(frames, frames[k].id) == Some(k)
  {
  }

  lemma RemoveKeeps(p: Params, a: Asm, k: nat)
    requires Inv(p, a) && k < |a.frames|
    ensures Inv(p, Asm(a.now, RemoveAt(a.frames, k)))
    ensures forall f :: f in RemoveAt(a.frames, k) ==> f in a.frames && f.id != a.frames[k].id
  {
    var r := RemoveAt(a.frames, k);
    forall i | 0 <= i < |r|
      ensures r[i] in a.frames && r[i].id != a.frames[k].id
    {
      assert r[i] == a.frames[if i < k then i else i + 1];
    }
  }

  lemma AppendKeeps(p: Params, a: Asm, f: Frame)
    requires Inv(p, a) && |a.frames| < p.numFrames && FrameOk(p, a.now, f)
    requires forall g :: g in a.frames ==> g.id != f.id
    ensures Inv(p, Asm(a.now, a.frames + [f]))
  {
    hide FrameOk;
    var r := a.frames + [f];
    forall i | 0 <= i < |a.frames|
      ensures r[i] == a.frames[i] && r[i] in a.frames
    {
    }
  }

  lemma {:induction false} AllocateKeeps(p: Params, a: Asm, id: nat)
    requires ValidParams(p) && Inv(p, a) && Find(a.frames, id).None?
    ensures Inv(p, Asm(a.now, Allocate(p, a.frames, id, a.now)))
  {
    assert FrameOk(p, a.now, Frame(id, a.now, []));
    hide FrameOk, Find;
    assert forall g :: g in a.frames ==> g.id != id;
    if |a.frames| >= p.numFrames {
      RemoveKeeps(p, a, 0);
      assert RemoveAt(a.frames, 0) == a.frames[1..];
      AppendKeeps(p, Asm(a.now, a.frames[1..]), Frame(id, a.now, []));
    } else {
      AppendKeeps(p, a, Frame(id, a.now, []));
    }
  }

  lemma LookupKeeps(p: Params, a: Asm, id: nat)
    requires ValidParams(p) && Inv(p, a)
    ensures Inv(p, Asm(a.now, Lookup(p, a, id).0))
  {
    var k := Find(a.frames, id);
    if k.None? {
      AllocateKeeps(p, a, id);
    } else if TimedOut(p, a.now, a.frames[k.value]) {
      RemoveKeeps(p, a, k.value);
      var a1 := Asm(a.now, RemoveAt(a.frames, k.value));
      assert forall j :: 0 <= j < |a1.frames| ==> a1.frames[j] in a1.frames;
      AllocateKeeps(p, a1, id);
    }
  }

  lemma AcceptKeepsInv(p: Params, a: Asm, k: nat, c: Chunk)
    requires Inv(p, a) && k < |a.frames| && a.frames[k].id == c.id && InBounds(p, c)
    requires Acceptable(a.frames[k].pieces, PieceOf(c))
    ensures Inv(p, Accept(p, a, k, c).0)
    ensures Accept(p, a, k, c).1.Some? ==>
      Tiles(a.frames[k].pieces + [PieceOf(c)], Accept(p, a, k, c).1.value)
  {
    var ps, x := a.frames[k].pieces, PieceOf(c);
    assert a.frames[k] in a.frames;
    RemoveKeeps(p, a, k);
    AcceptKeepsConsistent(ps, x);
    if Complete(ps + [x]) {
      CompleteTiles(ps + [x]);
    } else if |ps| + 1 != p.numChunks {
      var f := Frame(c.id, a.now, ps + [x]);
      assert FrameOk(p, a.now, f);
      forall g | g in a.frames[k := f]
        ensures FrameOk(p, a.now, g)
      {
        assert g == f || g in a.frames;
      }
    }
  }

  /** Whatever chunk arrives, the pool stays in order, and a frame that comes out is tiled by
      pieces that had been accepted for it, the arriving one last. */
  lemma ReceiveKeepsInv(p: Params, a: Asm, c: Chunk)
    requires ValidParams(p) && Inv(p, a)
    ensures Inv(p, Receive(p, a, c).0)
    ensures Receive(p, a, c).1.Some? ==>
      var (frames, k) := Lookup(p, a, c.id);
      Tiles(frames[k].pieces + [PieceOf(c)], Receive(p, a, c).1.value)
  {
    if InBounds(p, c) {
      var (frames, k) := Lookup(p, a, c.id);
      LookupKeeps(p, a, c.id);
      if Acceptable(frames[k].pieces, PieceOf(c)) {
        AcceptKeepsInv(p, Asm(a.now, frames), k, c);
      } else {
        RemoveKeeps(p, Asm(a.now, frames), k);
      }
    }
  }

  lemma {:induction false} UnexpiredKeeps(p: Params, now: nat, frames: seq<Frame>)
    requires UniqueIds(frames)
    ensures UniqueIds(Unexpired(p, now, frames)) && |Unexpired(p, now, frames)| <= |frames|
    ensures forall f :: f in Unexpired(p, now, frames) <==> f in frames && !TimedOut(p, now, f)
  {
    if frames != [] {
      var init, z := frames[..|frames|-1], frames[|frames|-1];
      UnexpiredKeeps(p, now, init);
      assert forall f :: f in frames <==> f in init || f == z;
      var rest := Unexpired(p, now, init);
      forall i | 0 <= i < |rest|
        ensures rest[i].id != z.id
      {
        assert rest[i] in init;
      }
    }
  }

  lemma EndPacketKeepsInv(p: Params, a: Asm, purge: bool)
    requires Inv(p, a)
    ensures Inv(p, EndPacket(p, a, purge))
  {
    UnexpiredKeeps(p, a.now, a.frames);
    var a' := EndPacket(p, a, purge);
    forall f | f in a'.frames
      ensures FrameOk(p, a'.now, f)
    {
      assert f in a.frames;
    }
  }
}
