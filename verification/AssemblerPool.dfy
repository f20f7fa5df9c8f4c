/**
 The frame pool of FragmentProtoAssembler as plain values: entries, free and used lists and the
 tree by frame id, and how they stand for the frames of the reference.
 */
module AssemblerPool {
  import opened Prelude
  import opened AssemblerSpec

  datatype Extent = Extent(start: nat, len: nat)

  // struct FragmentProtoAssembler_frame; num_chunks is |chunks|
  datatype Entry = Entry(id: nat, time: nat, chunks: seq<Extent>, sum: nat, length: int, lengthSoFar: nat)

  datatype Pool = Pool(entries: seq<Entry>, free: seq<nat>, used: seq<nat>, tree: map<nat, nat>)

  function Extents(ps: seq<Piece>): seq<Extent> {
    seq(|ps|, i requires 0 <= i < |ps| => Extent(ps[i].start, |ps[i].data|))
  }

  /** The entry records the frame: its numbers are those of the accepted pieces, and its time is the
      frame's time relative to the base of the 32-bit clock. */
  ghost predicate Tracks(e: Entry, f: Frame, base: nat) {
    && e.id == f.id
    && e.time + base == f.time
    && e.chunks == Extents(f.pieces)
    && e.sum == Sum(f.pieces)
    && e.length == Length(f.pieces)
    && (e.length < 0 ==> e.lengthSoFar == MaxEnd(f.pieces))
  }

  /** Every entry is in exactly one of the two lists. */
  ghost predicate Partition(n: nat, free: seq<nat>, used: seq<nat>) {
    && Distinct(free) && Distinct(used)
    && Elems(free) !! Elems(used)
    && Elems(free) + Elems(used) == Range(0, n)
    && |free| + |used| == n
  }

  ghost predicate Recorded(entries: seq<Entry>, used: seq<nat>, frames: seq<Frame>, base: nat) {
    && |used| == |frames|
    && forall k :: 0 <= k < |used| ==> used[k] < |entries| && Tracks(entries[used[k]], frames[k], base)
  }

  ghost predicate Indexed(tree: map<nat, nat>, used: seq<nat>, frames: seq<Frame>) {
    && |used| == |frames|
    && (forall id :: id in tree <==> Find(frames, id).Some?)
    && (forall id :: id in tree ==> tree[id] == used[Find(frames, id).value])
  }

  ghost predicate PoolOk(n: nat, pool: Pool, frames: seq<Frame>, base: nat) {
    && |pool.entries| == n
    && Partition(n, pool.free, pool.used)
    && Recorded(pool.entries, pool.used, frames, base)
    && Indexed(pool.tree, pool.used, frames)
    && UniqueIds(frames)
  }

  // ---- Lists ---------------------------------------------------------------------------

  lemma {:induction false} PartitionFree(n: nat, free: seq<nat>, used: seq<nat>, k: nat)
    requires Partition(n, free, used) && k < |used|
    ensures Partition(n, free + [used[k]], Remove(used, used[k]))
    ensures Remove(used, used[k]) == RemoveAt(used, k)
  {
    ElemsAt(used, k);
    RemoveSound(used, used[k]);
    RemoveIsAt(used, k);
    DistinctSnoc(free, used[k]);
  }

  lemma {:induction false} PartitionUse(n: nat, free: seq<nat>, used: seq<nat>)
    requires Partition(n, free, used) && free != []
    ensures Partition(n, free[1..], used + [free[0]])
    ensures free[0] < n && free[0] !in Elems(used)
  {
    ElemsAt(free, 0);
    RemoveSound(free, free[0]);
    assert Remove(free, free[0]) == free[1..];
    DistinctSnoc(used, free[0]);
  }

  lemma UsedInRange(n: nat, free: seq<nat>, used: seq<nat>, k: nat)
    requires Partition(n, free, used) && k < |used|
    ensures used[k] < n
  {
    ElemsAt(used, k);
    assert used[k] in Range(0, n);
  }

  // ---- Pool operations -------------------------------------------------------------------

  lemma {:induction false} FindAfterRemove(frames: seq<Frame>, k: nat, id: nat)
    requires UniqueIds(frames) && k < |frames|
    ensures UniqueIds(RemoveAt(frames, k))
    ensures var j, j' := Find(frames, id), Find(RemoveAt(frames, k), id);
      if id == frames[k].id || j.None? then j'.None?
      else j'.Some? && j.value != k && j'.value == if j.value < k then j.value else j.value - 1
  {
    var r := RemoveAt(frames, k);
    forall i | 0 <= i < |r|
      ensures r[i] == frames[if i < k then i else i + 1]
    {
    }
    var j := Find(frames, id);
    if j.Some? && id != frames[k].id {
      FindUnique(r, if j.value < k then j.value else j.value - 1);
    }
  }

  lemma IndexedRemove(tree: map<nat, nat>, used: seq<nat>, frames: seq<Frame>, k: nat)
    requires Indexed(tree, used, frames) && UniqueIds(frames) && k < |frames|
    ensures Indexed(tree - {frames[k].id}, RemoveAt(used, k), RemoveAt(frames, k))
    ensures UniqueIds(RemoveAt(frames, k))
  {
    FindAfterRemove(frames, k, frames[k].id);
    var tree', used' := tree - {frames[k].id}, RemoveAt(used, k);
    forall id
      ensures id in tree' <==> Find(RemoveAt(frames, k), id).Some?
      ensures id in tree' ==> tree'[id] == used'[Find(RemoveAt(frames, k), id).value]
    {
      FindAfterRemove(frames, k, id);
    }
  }

  lemma RecordedRemove(entries: seq<Entry>, used: seq<nat>, frames: seq<Frame>, base: nat, k: nat)
    requires Recorded(entries, used, frames, base) && k < |frames|
    ensures Recorded(entries, RemoveAt(used, k), RemoveAt(frames, k), base)
  {
    var used', frames' := RemoveAt(used, k), RemoveAt(frames, k);
    forall j | 0 <= j < |used'|
      ensures used'[j] < |entries| && Tracks(entries[used'[j]], frames'[j], base)
    {
      var i := if j < k then j else j + 1;
      assert used'[j] == used[i] && frames'[j] == frames[i];
    }
  }

  /** free_frame */
  lemma FreeOk(n: nat, pool: Pool, frames: seq<Frame>, base: nat, k: nat)
    requires PoolOk(n, pool, frames, base) && k < |frames|
    ensures |pool.entries| == n && |pool.used| == |frames| && pool.used[k] < n
    ensures pool.entries[pool.used[k]].id == frames[k].id
    ensures Remove(pool.used, pool.used[k]) == RemoveAt(pool.used, k)
    ensures var slot := pool.used[k];
      PoolOk(n, Pool(pool.entries, pool.free + [slot], Remove(pool.used, slot), pool.tree - {frames[k].id}),
             RemoveAt(frames, k), base)
  {
    UsedInRange(n, pool.free, pool.used, k);
    PartitionFree(n, pool.free, pool.used, k);
    IndexedRemove(pool.tree, pool.used, frames, k);
    RecordedRemove(pool.entries, pool.used, frames, base, k);
  }

  lemma {:induction false} FindAppend(frames: seq<Frame>, f: Frame, id: nat)
    ensures Find(frames + [f], id) == if f.id == id then Some(|frames|) else Find(frames, id)
  {
    assert (frames + [f])[..|frames|] == frames;
  }

  lemma {:induction false} IndexedAppend(tree: map<nat, nat>, used: seq<nat>, frames: seq<Frame>, slot: nat, f: Frame)
    requires Indexed(tree, used, frames) && UniqueIds(frames) && Find(frames, f.id).None?
    ensures Indexed(tree[f.id := slot], used + [slot], frames + [f])
    ensures UniqueIds(frames + [f])
  {
    forall x
      ensures Find(frames + [f], x) == if x == f.id then Some(|frames|) else Find(frames, x)
    {
      FindAppend(frames, f, x);
    }
  }

  lemma {:induction false} RecordedAppend(entries: seq<Entry>, used: seq<nat>, frames: seq<Frame>, base: nat,
                       slot: nat, e: Entry, f: Frame)
    requires Recorded(entries, used, frames, base) && slot < |entries| && slot !in Elems(used)
    requires Tracks(e, f, base)
    ensures Recorded(entries[slot := e], used + [slot], frames + [f], base)
  {
    forall k | 0 <= k < |used|
      ensures used[k] != slot
    {
      ElemsAt(used, k);
    }
  }

  /** Taking the first free entry for a new frame. */
  lemma {:induction false} UseOk(n: nat, pool: Pool, frames: seq<Frame>, base: nat, id: nat, time: nat)
    requires PoolOk(n, pool, frames, base) && pool.free != [] && Find(frames, id).None?
    ensures var slot, f := pool.free[0], Frame(id, time + base, []);
      && slot < n == |pool.entries|
      && PoolOk(n, Pool(pool.entries[slot := Entry(id, time, [], 0, -1, 0)], pool.free[1..],
                        pool.used + [slot], pool.tree[id := slot]),
                frames + [f], base)
  {
    PartitionUse(n, pool.free, pool.used);
    var slot, f := pool.free[0], Frame(id, time + base, []);
    assert Extents([]) == [];
    IndexedAppend(pool.tree, pool.used, frames, slot, f);
    RecordedAppend(pool.entries, pool.used, frames, base, slot, Entry(id, time, [], 0, -1, 0), f);
  }

  lemma {:induction false} FindSameIds(frames: seq<Frame>, frames': seq<Frame>, id: nat)
    requires |frames| == |frames'| && forall j :: 0 <= j < |frames| ==> frames'[j].id == frames[j].id
    ensures Find(frames', id) == Find(frames, id)
  {
    if frames != [] {
      FindSameIds(frames[..|frames|-1], frames'[..|frames|-1], id);
    }
  }

  /** Rewriting the entry of one frame. */
  lemma UpdateOk(n: nat, pool: Pool, frames: seq<Frame>, base: nat, k: nat, e: Entry, f: Frame)
    requires PoolOk(n, pool, frames, base) && k < |frames|
    requires f.id == frames[k].id && Tracks(e, f, base)
    ensures pool.used[k] < n
    ensures PoolOk(n, pool.(entries := pool.entries[pool.used[k] := e]), frames[k := f], base)
  {
    UsedInRange(n, pool.free, pool.used, k);
    var frames' := frames[k := f];
    forall id
      ensures Find(frames', id) == Find(frames, id)
    {
      FindSameIds(frames, frames', id);
    }
  }

  /** Moving the base of the clock: every used entry loses `min`. */
  lemma RebaseOk(n: nat, pool: Pool, frames: seq<Frame>, base: nat, min: nat, entries': seq<Entry>)
    requires PoolOk(n, pool, frames, base) && |entries'| == n
    requires forall k :: 0 <= k < |pool.used| ==>
      pool.used[k] < n && pool.entries[pool.used[k]].time >= min &&
      entries'[pool.used[k]] == pool.entries[pool.used[k]].(time := pool.entries[pool.used[k]].time - min)
    ensures PoolOk(n, pool.(entries := entries'), frames, base + min)
  {
  }

  /** The verdicts of process_chunk, read off the entry, are those of the reference. */
  lemma EntryDecides(e: Entry, f: Frame, base: nat, x: Piece)
    requires Tracks(e, f, base)
    ensures Acceptable(f.pieces, x) <==>
      && (forall i :: 0 <= i < |e.chunks| ==>
            !(e.chunks[i].start + e.chunks[i].len > x.start && End(x) > e.chunks[i].start))
      && (if x.last then e.length < 0 && e.lengthSoFar <= End(x)
          else e.length >= 0 ==> End(x) <= e.length)
  {
    assert forall i :: 0 <= i < |f.pieces| ==>
      e.chunks[i] == Extent(f.pieces[i].start, |f.pieces[i].data|) && f.pieces[i] in f.pieces;
  }

  /** Adding an accepted chunk to the entry. */
  function AddChunk(e: Entry, time: nat, start: nat, len: nat, last: bool): Entry {
    Entry(e.id, time, e.chunks + [Extent(start, len)], e.sum + len,
          if last then start + len else e.length,
          if !last && e.length < 0 && e.lengthSoFar < start + len then start + len else e.lengthSoFar)
  }

  lemma AddChunkTracks(e: Entry, f: Frame, base: nat, time: nat, x: Piece)
    requires Tracks(e, f, base) && Consistent(f.pieces) && Acceptable(f.pieces, x)
    ensures Tracks(AddChunk(e, time, x.start, |x.data|, x.last), Frame(f.id, time + base, f.pieces + [x]), base)
  {
    AcceptKeepsConsistent(f.pieces, x);
    var ps := f.pieces + [x];
    assert Extents(ps) == Extents(f.pieces) + [Extent(x.start, |x.data|)];
  }

  /** The free list is empty exactly when the reference is out of room. */
  lemma PoolFull(n: nat, pool: Pool, frames: seq<Frame>, base: nat)
    requires PoolOk(n, pool, frames, base)
    ensures |frames| <= n && (pool.free == [] <==> |frames| >= n)
    ensures |pool.used| == |frames|
  {
  }

  lemma {:induction false} RemoveFirstAbsent(frames: seq<Frame>, id: nat)
    requires frames != [] && Find(frames, id).None?
    ensures RemoveAt(frames, 0) == frames[1..] && Find(frames[1..], id).None?
  {
    assert RemoveAt(frames, 0) == frames[1..];
    assert forall j :: 0 <= j < |frames| - 1 ==> frames[1..][j] == frames[j + 1];
  }

  /** What looking a frame up in the pool tells about the reference. */
  lemma {:induction false} LookupPool(p: Params, pool: Pool, a: Asm, base: nat, id: nat)
    requires ValidParams(p) && Inv(p, a) && PoolOk(p.numFrames, pool, a.frames, base)
    ensures id in pool.tree <==> Find(a.frames, id).Some?
    ensures id in pool.tree ==>
      var k := Find(a.frames, id).value;
      && k < |pool.used| && pool.tree[id] == pool.used[k] < |pool.entries|
      && pool.entries[pool.used[k]].time + base == a.frames[k].time <= a.now
      && Find(RemoveAt(a.frames, k), id).None?
  {
    var j := Find(a.frames, id);
    if j.Some? {
      UsedInRange(p.numFrames, pool.free, pool.used, j.value);
      FindAfterRemove(a.frames, j.value, id);
      assert a.frames[j.value] in a.frames;
    }
  }

  lemma AddPool(p: Params, pool: Pool, a: Asm, base: nat, k: nat, time: nat, x: Piece)
    requires ValidParams(p) && Inv(p, a) && PoolOk(p.numFrames, pool, a.frames, base)
    requires k < |a.frames| && Acceptable(a.frames[k].pieces, x) && time + base == a.now
    ensures |pool.entries| == p.numFrames && |pool.used| == |a.frames| && pool.used[k] < p.numFrames
    ensures var e, f := pool.entries[pool.used[k]], a.frames[k];
      var e', f' := AddChunk(e, time, x.start, |x.data|, x.last), Frame(f.id, a.now, f.pieces + [x]);
      PoolOk(p.numFrames, pool.(entries := pool.entries[pool.used[k] := e']), a.frames[k := f'], base)
    ensures forall j :: 0 <= j < |pool.used| && j != k ==> pool.used[j] != pool.used[k]
  {
    UsedInRange(p.numFrames, pool.free, pool.used, k);
    var e, f := pool.entries[pool.used[k]], a.frames[k];
    assert f in a.frames;
    AddChunkTracks(e, f, base, time, x);
    var e', f' := AddChunk(e, time, x.start, |x.data|, x.last), Frame(f.id, a.now, f.pieces + [x]);
    UpdateOk(p.numFrames, pool, a.frames, base, k, e', f');
  }

  /** Facts about the used entries that the rebasing loops rely on. */
  lemma UsedEntries(p: Params, pool: Pool, a: Asm, base: nat)
    requires Inv(p, a) && PoolOk(p.numFrames, pool, a.frames, base)
    ensures |pool.entries| == p.numFrames && |pool.used| == |a.frames| && Distinct(pool.used)
    ensures forall k :: 0 <= k < |pool.used| ==>
      && pool.used[k] < p.numFrames
      && pool.entries[pool.used[k]].time + base == a.frames[k].time <= a.now
  {
    forall k | 0 <= k < |pool.used|
      ensures pool.used[k] < p.numFrames && a.frames[k] in a.frames
    {
      UsedInRange(p.numFrames, pool.free, pool.used, k);
    }
  }

  function Least(frames: seq<Frame>): nat
    requires frames != []
  {
    var z := frames[|frames|-1];
    if |frames| == 1 then z.time else Min(Least(frames[..|frames|-1]), z.time)
  }

  lemma {:induction false} LeastIs(frames: seq<Frame>)
    requires frames != []
    ensures forall k :: 0 <= k < |frames| ==> Least(frames) <= frames[k].time
    ensures exists k :: 0 <= k < |frames| && frames[k].time == Least(frames)
  {
    var init := frames[..|frames|-1];
    if init != [] {
      LeastIs(init);
      var k :| 0 <= k < |init| && init[k].time == Least(init);
      assert frames[k] == init[k];
    }
    assert frames[|frames|-1].time == Least(frames) || (init != [] && Least(frames) == Least(init));
  }

  /** The list of frames when the purge has looked at the first j of them. */
  function Purged(p: Params, now: nat, frames: seq<Frame>, j: nat): seq<Frame>
    requires j <= |frames|
  {
    Unexpired(p, now, frames[..j]) + frames[j..]
  }

  lemma {:induction false} PurgeEnds(p: Params, now: nat, frames: seq<Frame>)
    ensures Purged(p, now, frames, 0) == frames && Unexpired(p, now, frames[..0]) == []
    ensures Purged(p, now, frames, |frames|) == Unexpired(p, now, frames[..|frames|]) == Unexpired(p, now, frames)
  {
    assert frames[..|frames|] == frames;
  }

  /** The purged list, and its least time, after one more frame has been looked at. */
  lemma {:induction false} PurgeStep(p: Params, now: nat, frames: seq<Frame>, j: nat)
    requires j < |frames|
    ensures var u, u' := Unexpired(p, now, frames[..j]), Unexpired(p, now, frames[..j+1]);
      && |u| < |Purged(p, now, frames, j)| && Purged(p, now, frames, j)[|u|] == frames[j]
      && (if TimedOut(p, now, frames[j])
          then u' == u && Purged(p, now, frames, j + 1) == RemoveAt(Purged(p, now, frames, j), |u|)
          else
            && |u'| == |u| + 1 && Purged(p, now, frames, j + 1) == Purged(p, now, frames, j)
            && Least(u') == if u == [] then frames[j].time else Min(Least(u), frames[j].time))
  {
    assert frames[..j+1][..j] == frames[..j];
    assert frames[j..] == [frames[j]] + frames[j+1..];
    var u, u' := Unexpired(p, now, frames[..j]), Unexpired(p, now, frames[..j+1]);
    assert u + frames[j..] == u + [frames[j]] + frames[j+1..];
    if !TimedOut(p, now, frames[j]) {
      assert u'[..|u'|-1] == u;
    }
  }

  lemma {:induction false} PurgedSize(p: Params, now: nat, frames: seq<Frame>, j: nat)
    requires j <= |frames|
    ensures |Purged(p, now, frames, j)| == |Unexpired(p, now, frames[..j])| + (|frames| - j)
  {
  }

  /** The subtraction fits: no used entry is younger than the least one. */
  lemma LeastIsBelow(p: Params, pool: Pool, a: Asm, base: nat, min: nat)
    requires Inv(p, a) && PoolOk(p.numFrames, pool, a.frames, base) && a.frames != []
    requires min + base == Least(a.frames)
    ensures |pool.entries| == p.numFrames && |pool.used| == |a.frames| && Distinct(pool.used)
    ensures forall k :: 0 <= k < |pool.used| ==>
      pool.used[k] < p.numFrames && min <= pool.entries[pool.used[k]].time
    ensures min + base <= a.now
  {
    UsedEntries(p, pool, a, base);
    LeastIs(a.frames);
    assert Least(a.frames) <= a.frames[0].time;
  }

  /** A frame that survives a purge at a full clock is recent, so its time is not zero. */
  lemma {:induction false} SurvivorIsRecent(p: Params, now: nat, frames: seq<Frame>)
    requires UniqueIds(frames) && Unexpired(p, now, frames) != []
    ensures Least(Unexpired(p, now, frames)) + p.numFrames >= now
    ensures now > p.numFrames ==> forall f :: f in Unexpired(p, now, frames) ==> f.time > 0
  {
    UnexpiredKeeps(p, now, frames);
    var u := Unexpired(p, now, frames);
    LeastIs(u);
    var k :| 0 <= k < |u| && u[k].time == Least(u);
    assert u[k] in u;
  }

  lemma PoolUnique(n: nat, pool: Pool, frames: seq<Frame>, base: nat)
    requires PoolOk(n, pool, frames, base)
    ensures UniqueIds(frames)
  {
  }

  lemma EmptyPool(n: nat, pool: Pool, base: nat, base': nat)
    requires PoolOk(n, pool, [], base)
    ensures PoolOk(n, pool, [], base')
  {
  }

  lemma EntryOf(p: Params, pool: Pool, a: Asm, base: nat, k: nat, x: Piece)
    requires Inv(p, a) && PoolOk(p.numFrames, pool, a.frames, base) && k < |a.frames|
    ensures |pool.used| == |a.frames| && pool.used[k] < |pool.entries| == p.numFrames
    ensures var e, ps := pool.entries[pool.used[k]], a.frames[k].pieces;
      && (Acceptable(ps, x) <==>
            && (forall i :: 0 <= i < |e.chunks| ==>
                  !(e.chunks[i].start + e.chunks[i].len > x.start && End(x) > e.chunks[i].start))
            && (if x.last then e.length < 0 && e.lengthSoFar <= End(x)
                else e.length >= 0 ==> End(x) <= e.length))
      && |e.chunks| == |ps|
      && (Acceptable(ps, x) ==>
            var e' := AddChunk(e, 0, x.start, |x.data|, x.last);
            && e'.length == Length(ps + [x]) && e'.sum == Sum(ps + [x])
            && Consistent(ps + [x]))
      && (End(x) <= p.mtu ==> forall y :: y in ps + [x] ==> End(y) <= p.mtu)
  {
    UsedInRange(p.numFrames, pool.free, pool.used, k);
    assert a.frames[k] in a.frames;
    EntryDecides(pool.entries[pool.used[k]], a.frames[k], base, x);
    if Acceptable(a.frames[k].pieces, x) {
      AcceptKeepsConsistent(a.frames[k].pieces, x);
    }
  }

  /** All of a complete frame is covered, so its buffer holds the frame. */
  lemma {:induction false} CompleteBuffered(mtu: nat, ps: seq<Piece>)
    requires Consistent(ps) && Complete(ps) && forall x :: x in ps ==> End(x) <= mtu
    ensures Sum(ps) == Length(ps) == |Assemble(ps)| && Length(ps) <= mtu
    ensures forall i :: 0 <= i < Length(ps) ==> Covered(ps, i) && Assemble(ps)[i] == ByteAt(ps, i)
  {
    CompleteTiles(ps);
    LengthIsLast(ps);
  }

  lemma {:induction false} CountingElems(n: nat, s: seq<nat>, m: nat)
    requires |s| == n - m && m <= n && forall i :: 0 <= i < |s| ==> s[i] == m + i
    ensures Elems(s) == Range(m, n)
    decreases n - m
  {
    if s != [] {
      CountingElems(n, s[1..], m + 1);
    }
  }

  lemma InitialPool(n: nat, pool: Pool)
    requires |pool.entries| == n && |pool.free| == n && pool.used == [] && pool.tree == map[]
    requires forall i :: 0 <= i < n ==> pool.free[i] == i
    ensures PoolOk(n, pool, [], 0)
  {
    CountingElems(n, pool.free, 0);
  }
}
