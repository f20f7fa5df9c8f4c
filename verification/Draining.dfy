/**
 Handing out the destinations of a frame one at a time: the decision with the position reached, and
 what is still to come.
 */
module Draining {
  import opened Prelude
  import opened SwitchSpec
  import opened SwitchIndex

  // decide_state with the position reached: the current node of the peers list, or the current
  // entry of a signature list
  datatype Decide =
    | Idle
    | Unicast(peer: PeerId)
    | Flood(at: Option<PeerId>)
    | Multicast(entry: Option<Ref>)
    // a multicast decision whose iterator has been freed: the list no longer knows of the iterator,
    // which still points to an entry; stale means that the entry has been unlinked since
    | Loose(entry: Option<Ref>, stale: bool)

  /** Destinations of a multicast frame have not all been asked for. */
  predicate Undrained(d: Decide) {
    d.Multicast? || d.Loose?
  }

  /** A loose iterator points to one of these memberships of a peer. */
  ghost predicate StandsOn(d: Decide, p: PeerId, groups: set<Group>) {
    d.Loose? && d.entry.Some? && d.entry.value.peer == p && d.entry.value.group in groups
  }

  /** Using the decision does not touch an entry that is gone. */
  predicate Safe(d: Decide) {
    !(d.Loose? && d.stale)
  }

  // ---- Walking a list ------------------------------------------------------------------------

  /** The part of a list from a given node on. */
  function From<T(==)>(s: seq<T>, x: T): seq<T> {
    if s == [] then [] else if s[0] == x then s else From(s[1..], x)
  }

  function FromOpt<T(==)>(s: seq<T>, x: Option<T>): seq<T> {
    if x.None? then [] else From(s, x.value)
  }

  function Successor<T(==)>(s: seq<T>, x: T): Option<T> {
    var t := From(s, x);
    if |t| > 1 then Some(t[1]) else None
  }

  function Head<T>(s: seq<T>): Option<T> {
    if s == [] then None else Some(s[0])
  }

  lemma {:induction false} Walk<T>(s: seq<T>, x: T)
    requires Distinct(s) && x in s
    ensures From(s, x) != [] && From(s, x)[0] == x
    ensures FromOpt(s, Successor(s, x)) == From(s, x)[1..]
    ensures Successor(s, x).Some? ==> Successor(s, x).value in s && Successor(s, x).value != x
  {
    if s[0] == x {
      if |s| > 1 {
        assert s[1] != s[0];
        assert From(s, s[1]) == From(s[1..], s[1]) == s[1..];
      }
    } else {
      Walk(s[1..], x);
      var n := Successor(s, x);
      assert n == Successor(s[1..], x);
      if n.Some? {
        assert n.value in s[1..];
        var i :| 0 <= i < |s[1..]| && s[1..][i] == n.value;
        assert s[i + 1] == n.value;
      }
    }
  }

  lemma WalkAll<T>(s: seq<T>)
    ensures FromOpt(s, Head(s)) == s
  {
  }

  /** Where the iterator goes when its entry is unlinked. */
  lemma {:induction false} IteratorJumps(x: Sigs, r: Ref)
    requires SigsOk(x, x.listOf.Keys) && r in x.listOf
    ensures x.listOf[r] in x.lists
    ensures var n := Successor(x.lists[x.listOf[r]], r); n.Some? ==>
      n.value in x.listOf && n.value != r && x.listOf[n.value] == x.listOf[r] && n.value in Remove(x.lists[x.listOf[r]], r)
  {
    RefInList(x, x.listOf.Keys, r);
    var list := x.lists[x.listOf[r]];
    Walk(list, r);
    var n := Successor(list, r);
    if n.Some? {
      ElemsMember(list, n.value);
      RemoveOther(list, n.value, r);
    }
  }

  lemma {:induction false} HeadKnown<T>(s: seq<T>)
    ensures Head(s).Some? ==> Head(s).value in Elems(s)
  {
  }

  /** Iterating from the first node of a master's list covers the whole list. */
  lemma StartOfList(x: Sigs, r: Ref)
    requires SigsOk(x, x.listOf.Keys) && r in x.listOf
    ensures x.listOf[r] in x.lists
    ensures var list := x.lists[x.listOf[r]];
      list != [] && list[0] in x.listOf && x.listOf[list[0]] == x.listOf[r] && From(list, list[0]) == list
  {
    ElemsAt(x.lists[x.listOf[r]], 0);
  }

  // ---- What is still to come -----------------------------------------------------------------

  ghost predicate DecideOk(order: seq<PeerId>, x: Sigs, d: Decide) {
    match d
    case Idle => true
    case Unicast(p) => p in Elems(order)
    case Flood(at) => at.Some? ==> at.value in Elems(order)
    case Multicast(entry) => entry.Some? ==> entry.value in x.listOf
    case Loose(entry, stale) => entry.Some? && !stale ==> entry.value in x.listOf
  }

  /** The memberships that a multicast iterator will still visit. */
  function Visits(x: Sigs, entry: Option<Ref>): seq<Ref>
    requires entry.Some? ==> entry.value in x.listOf && x.listOf[entry.value] in x.lists
  {
    if entry.None? then [] else From(x.lists[x.listOf[entry.value]], entry.value)
  }

  lemma EntryHasList(x: Sigs, r: Ref)
    requires SigsOk(x, x.listOf.Keys) && r in x.listOf
    ensures x.listOf[r] in x.lists && Distinct(x.lists[x.listOf[r]]) && r in x.lists[x.listOf[r]]
  {
    RefInList(x, x.listOf.Keys, r);
  }

  /** The destinations still to be handed out. */
  ghost function Pending(order: seq<PeerId>, x: Sigs, d: Decide): seq<PeerId>
    requires DecideOk(order, x, d) && SigsOk(x, x.listOf.Keys)
  {
    match d
    case Idle => []
    case Unicast(p) => [p]
    case Flood(at) => FromOpt(order, at)
    case Multicast(entry) => PeersOf(Visits(x, entry))
    case Loose(entry, stale) => if stale then [] else PeersOf(Visits(x, entry))
  }

  lemma SamePending(order: seq<PeerId>, x: Sigs, d: Decide)
    requires DecideOk(order, x, d) && SigsOk(x, x.listOf.Keys) && Undrained(d) && Safe(d)
    ensures DecideOk(order, x, Loose(d.entry, false)) && Pending(order, x, Loose(d.entry, false)) == Pending(order, x, d)
  {
  }

  /** A list of peers without a given one. */
  function Without(s: seq<PeerId>, p: PeerId): seq<PeerId> {
    if s == [] then []
    else if s[0] == p then Without(s[1..], p)
    else [s[0]] + Without(s[1..], p)
  }

  lemma {:induction false} WithoutAbsent(s: seq<PeerId>, p: PeerId)
    requires p !in Elems(s)
    ensures Without(s, p) == s
  {
    if s != [] {
      WithoutAbsent(s[1..], p);
    }
  }

  lemma {:induction false} WithoutIsRemove(s: seq<PeerId>, p: PeerId)
    requires Distinct(s)
    ensures Without(s, p) == Remove(s, p)
  {
    if s != [] {
      if s[0] == p {
        ElemsMember(s[1..], p);
        WithoutAbsent(s[1..], p);
      } else {
        WithoutIsRemove(s[1..], p);
      }
    }
  }

  // ---- Removal under the iterator -------------------------------------------------------------

  /** Removing another node does not disturb the walk. */
  lemma {:induction false} FromRemove<T>(s: seq<T>, x: T, y: T)
    requires x != y && Distinct(s)
    ensures x in s ==> From(Remove(s, y), x) == Remove(From(s, x), y)
  {
    if x in s {
      if s[0] == x {
        assert Remove(s, y)[0] == x;
      } else if s[0] == y {
        if y in From(s[1..], x) {
          FromSub(s[1..], x, y);
        }
        RemoveLength(From(s[1..], x), y);
      } else {
        FromRemove(s[1..], x, y);
        assert Remove(s, y)[1..] == Remove(s[1..], y);
      }
    }
  }

  lemma {:induction false} FromSub<T>(s: seq<T>, x: T, y: T)
    requires y in From(s, x)
    ensures y in s
  {
    if s[0] != x {
      FromSub(s[1..], x, y);
    }
  }

  /** Removing the current node continues the walk after it. */
  lemma {:induction false} FromJump<T>(s: seq<T>, y: T)
    requires Distinct(s) && y in s
    ensures From(s, y) != [] && FromOpt(Remove(s, y), Successor(s, y)) == From(s, y)[1..]
  {
    var n := Successor(s, y);
    if s[0] == y {
      if |s| > 1 {
        assert From(s[1..], s[1]) == s[1..];
      }
    } else {
      FromJump(s[1..], y);
      assert n == Successor(s[1..], y);
      if n.Some? {
        Walk(s[1..], y);
        assert n.value != s[0];
        assert Remove(s, y)[1..] == Remove(s[1..], y);
      }
    }
  }

  lemma {:induction false} WithoutOfRemove(refs: seq<Ref>, r: Ref)
    ensures Without(PeersOf(Remove(refs, r)), r.peer) == Without(PeersOf(refs), r.peer)
  {
    if refs != [] {
      assert PeersOf(refs)[1..] == PeersOf(refs[1..]);
      if refs[0] != r {
        WithoutOfRemove(refs[1..], r);
        var rest := Remove(refs[1..], r);
        assert PeersOf([refs[0]] + rest)[1..] == PeersOf(rest);
      }
    }
  }

  /** LinkedList3 moves an iterator off a node that is being unlinked, if it knows of the iterator. */
  function Jump(x: Sigs, d: Decide, r: Ref): Decide
    requires r in x.listOf && x.listOf[r] in x.lists
  {
    if d == Multicast(Some(r)) then Multicast(Successor(x.lists[x.listOf[r]], r))
    else if d.Loose? && d.entry == Some(r) then Loose(d.entry, true)
    else d
  }

  lemma {:induction false} ListsAfterUnlink(x: Sigs, r: Ref)
    requires r in x.listOf && x.listOf[r] in x.lists && r in x.lists[x.listOf[r]]
    ensures var l, x' := x.listOf[r], RemoveRef(x, r);
      && x'.listOf == x.listOf - {r}
      && x'.lists == if Remove(x.lists[l], r) == [] then x.lists - {l} else x.lists[l := Remove(x.lists[l], r)]
  {
  }

  lemma {:induction false} VisitsAfterUnlink(x: Sigs, entry: Option<Ref>, r: Ref)
    requires SigsOk(x, x.listOf.Keys) && r in x.listOf && (entry.Some? ==> entry.value in x.listOf)
    ensures x.listOf[r] in x.lists && r in x.lists[x.listOf[r]]
    ensures entry.Some? ==> x.listOf[entry.value] in x.lists
    ensures var d', x' := Jump(x, Multicast(entry), r), RemoveRef(x, r);
      && d'.Multicast? && (d'.entry.Some? ==> d'.entry.value in x'.listOf && x'.listOf[d'.entry.value] in x'.lists)
      && (Visits(x', d'.entry) == Visits(x, entry) || Visits(x', d'.entry) == Remove(Visits(x, entry), r))
  {
    hide SigsOk, Distinct, Elems, RemoveRef, Remove, From, Successor;
    EntryHasList(x, r);
    ListsAfterUnlink(x, r);
    var list := x.lists[x.listOf[r]];
    if entry.Some? {
      var e := entry.value;
      EntryHasList(x, e);
      if e == r {
        RemoveFirst(list, r);
        FromJump(list, r);
        IteratorJumps(x, r);
      } else if x.listOf[e] == x.listOf[r] {
        FromRemove(list, e, r);
        Walk(list, e);
        RemoveOther(list, e, r);
      }
    }
  }

  lemma {:induction false} RemoveFirst<T>(s: seq<T>, x: T)
    requires Distinct(s) && x in s
    ensures From(s, x) != [] && Remove(From(s, x), x) == From(s, x)[1..]
  {
    Walk(s, x);
  }

  /** Unlinking a membership of a peer takes nothing away from the other peers, and a decision stays
      usable unless its iterator is loose and stands on that very membership. */
  lemma PendingAfterUnlink(order: seq<PeerId>, x: Sigs, d: Decide, r: Ref)
    requires DecideOk(order, x, d) && SigsOk(x, x.listOf.Keys) && r in x.listOf
    ensures x.listOf[r] in x.lists && r in x.lists[x.listOf[r]]
    ensures var d', x' := Jump(x, d, r), RemoveRef(x, r);
      && DecideOk(order, x', d') && SigsOk(x', x'.listOf.Keys)
      && (Safe(d') <==> Safe(d) && d != Loose(Some(r), false))
      && (Safe(d') ==> Without(Pending(order, x', d'), r.peer) == Without(Pending(order, x, d), r.peer))
  {
    hide SigsOk, Visits, RemoveRef, Distinct, Elems;
    EntryHasList(x, r);
    RemoveRefKeeps(x, x.listOf.Keys, r);
    if d.Multicast? || (d.Loose? && !d.stale) {
      VisitsAfterUnlink(x, d.entry, r);
      WithoutOfRemove(Visits(x, d.entry), r);
    }
  }

  // ---- One destination at a time -----------------------------------------------------------------

  lemma {:induction false} NextInFlood(order: seq<PeerId>, p: PeerId)
    requires Distinct(order) && p in Elems(order)
    ensures FromOpt(order, Some(p)) == [p] + FromOpt(order, Successor(order, p))
    ensures Successor(order, p).Some? ==> Successor(order, p).value in Elems(order)
  {
    ElemsIn(order);
    Walk(order, p);
    assert From(order, p) == [p] + From(order, p)[1..];
  }

  lemma NextInMulticast(x: Sigs, r: Ref)
    requires SigsOk(x, x.listOf.Keys) && r in x.listOf
    ensures x.listOf[r] in x.lists
    ensures var n := Successor(x.lists[x.listOf[r]], r);
      && (n.Some? ==> n.value in x.listOf && x.listOf[n.value] in x.lists)
      && PeersOf(Visits(x, Some(r))) == [r.peer] + PeersOf(Visits(x, n))
  {
    hide SigsOk, Distinct, Elems, From, Successor, Remove;
    EntryHasList(x, r);
    IteratorJumps(x, r);
    var list := x.lists[x.listOf[r]];
    var n := Successor(list, r);
    Walk(list, r);
    assert Visits(x, Some(r)) == [r] + Visits(x, n);
  }

  // ---- Peers come and go ---------------------------------------------------------------------------

  /** FrameDeciderPeer_Free: a decision must not keep a reference to the peer. */
  function Forget(order: seq<PeerId>, d: Decide, p: PeerId): Decide {
    match d
    case Unicast(q) => if q == p then Idle else d
    case Flood(at) => if at == Some(p) then Flood(Successor(order, p)) else d
    case _ => d
  }

  lemma ForgetLoose(order: seq<PeerId>, d: Decide, p: PeerId)
    ensures d.Loose? ==> Forget(order, d, p) == d
    ensures !d.Loose? ==> !Forget(order, d, p).Loose?
  {
  }

  lemma {:induction false} PendingAfterFree(order: seq<PeerId>, x: Sigs, d: Decide, p: PeerId)
    requires DecideOk(order, x, d) && SigsOk(x, x.listOf.Keys) && Distinct(order) && p in Elems(order)
    requires forall r :: r in x.listOf ==> r.peer != p
    ensures var order', d' := Remove(order, p), Forget(order, d, p);
      DecideOk(order', x, d') && Pending(order', x, d') == Without(Pending(order, x, d), p)
  {
    RemoveSound(order, p);
    match d
    case Idle =>
    case Unicast(q) =>
    case Flood(at) => FloodAfterFree(order, at, p);
    case Multicast(entry) => MulticastWithout(x, entry, p);
    case Loose(entry, stale) =>
      if !stale {
        MulticastWithout(x, entry, p);
      }
  }

  lemma FloodAfterFree(order: seq<PeerId>, at: Option<PeerId>, p: PeerId)
    requires Distinct(order) && p in Elems(order) && (at.Some? ==> at.value in Elems(order))
    ensures var at' := if at == Some(p) then Successor(order, p) else at;
      && (at'.Some? ==> at'.value in Elems(Remove(order, p)))
      && FromOpt(Remove(order, p), at') == Without(FromOpt(order, at), p)
  {
    RemoveSound(order, p);
    if at.Some? {
      ElemsIn(order);
      Walk(order, at.value);
      FromDistinct(order, at.value);
      WithoutIsRemove(From(order, at.value), p);
      if at.value == p {
        FromJump(order, p);
      } else {
        FromRemove(order, at.value, p);
      }
    }
  }

  lemma {:induction false} FromDistinct<T>(s: seq<T>, x: T)
    requires Distinct(s)
    ensures Distinct(From(s, x))
  {
    if s != [] && s[0] != x {
      FromDistinct(s[1..], x);
    }
  }

  lemma {:induction false} MulticastWithout(x: Sigs, entry: Option<Ref>, p: PeerId)
    requires SigsOk(x, x.listOf.Keys) && (entry.Some? ==> entry.value in x.listOf)
    requires forall r :: r in x.listOf ==> r.peer != p
    ensures entry.Some? ==> x.listOf[entry.value] in x.lists
    ensures Without(PeersOf(Visits(x, entry)), p) == PeersOf(Visits(x, entry))
  {
    if entry.Some? {
      EntryHasList(x, entry.value);
      var refs := Visits(x, entry);
      var list := x.lists[x.listOf[entry.value]];
      ElemsIn(list);
      ElemsIn(PeersOf(refs));
      forall i | 0 <= i < |refs|
        ensures refs[i].peer != p
      {
        FromSub(list, entry.value, refs[i]);
      }
      WithoutAbsent(PeersOf(refs), p);
    }
  }

  lemma NoVisits(x: Sigs)
    ensures PeersOf(Visits(x, None)) == []
  {
  }

}
