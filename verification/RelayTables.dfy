/**
 The client's peer records as plain values: the flags and lists behind a mode, and how they follow
 each single update.
 */
module RelayTables {
  import opened Prelude
  import opened RelaySpec
  import D = DataProtoSpec

  // struct peer_data: have_link, is_relay, relaying_peer, waiting_relay, relay_users, local_dpflow
  datatype Record = Record(haveLink: bool, isRelay: bool, relaying: Option<PeerId>, waiting: bool,
                           users: seq<PeerId>, flow: D.FlowId)

  type Records = map<PeerId, Record>

  function ModeOf(d: Record): Mode {
    if d.haveLink then Linked(d.isRelay)
    else if d.relaying.Some? then Relayed(d.relaying.value)
    else if d.waiting then Waiting
    else Idle
  }

  function Modes(peers: Records): map<PeerId, Mode> {
    map p | p in peers :: ModeOf(peers[p])
  }

  lemma ModesWith(peers: Records, p: PeerId, d: Record)
    ensures Modes(peers[p := d]) == Modes(peers)[p := ModeOf(d)]
  {
  }

  /** The flags exclude each other, so that they amount to one mode. */
  ghost predicate FlagsOk(d: Record) {
    && !(d.haveLink && d.relaying.Some?) && !(d.haveLink && d.waiting) && !(d.relaying.Some? && d.waiting)
    && (d.isRelay ==> d.haveLink) && (!d.isRelay ==> d.users == []) && Distinct(d.users)
  }

  ghost predicate IsWaiting(peers: Records, p: PeerId) {
    p in peers && peers[p].waiting
  }

  ghost predicate IsRelay(peers: Records, p: PeerId) {
    p in peers && peers[p].isRelay
  }

  ghost predicate Uses(peers: Records, p: PeerId, r: PeerId) {
    p in peers && peers[p].relaying == Some(r)
  }

  ghost predicate Serves(peers: Records, r: PeerId, p: PeerId) {
    r in peers && p in Elems(peers[r].users)
  }

  /** Every list holds exactly the peers whose flag says so. */
  ghost predicate Tables(peers: Records, relays: seq<PeerId>, waiting: seq<PeerId>) {
    && (forall p :: p in peers ==> FlagsOk(peers[p]))
    && Distinct(relays) && (forall p :: p in Elems(relays) <==> IsRelay(peers, p))
    && Distinct(waiting) && (forall p :: p in Elems(waiting) <==> IsWaiting(peers, p))
    && (forall p, r :: Serves(peers, r, p) <==> Uses(peers, p, r))
  }

  lemma PeerFacts(peers: Records, relays: seq<PeerId>, waiting: seq<PeerId>, p: PeerId)
    requires Tables(peers, relays, waiting) && p in peers
    ensures FlagsOk(peers[p])
  {
  }

  /** Whoever is relayed, is relayed by a registered relay that lists it. */
  lemma RelayFacts(peers: Records, relays: seq<PeerId>, waiting: seq<PeerId>, p: PeerId)
    requires Tables(peers, relays, waiting) && p in peers && peers[p].relaying.Some?
    ensures var r := peers[p].relaying.value;
      r != p && r in peers && peers[r].isRelay && peers[r].haveLink && p in Elems(peers[r].users)
  {
    var r := peers[p].relaying.value;
    assert Uses(peers, p, r);
    assert Serves(peers, r, p);
    assert FlagsOk(peers[r]) && FlagsOk(peers[p]);
  }

  /** The lists behind the flags make the modes consistent. */
  lemma TablesAreSound(peers: Records, relays: seq<PeerId>, waiting: seq<PeerId>)
    requires Tables(peers, relays, waiting)
    ensures Registered(World(Modes(peers), relays)) && Direct(World(Modes(peers), relays))
  {
    hide Distinct, Elems;
    var w := World(Modes(peers), relays);
    forall p
      ensures Provides(w, p) <==> IsRelay(peers, p)
    {
      assert p in peers ==> FlagsOk(peers[p]);
    }
    forall p | p in w.modes && w.modes[p].Relayed?
      ensures Provides(w, w.modes[p].through)
    {
      RelayFacts(peers, relays, waiting, p);
    }
  }

  // ---- Single updates ------------------------------------------------------------------------------

  /** Only the link of a peer changes that is no relay. */
  lemma LinkTables(peers: Records, relays: seq<PeerId>, waiting: seq<PeerId>, p: PeerId, haveLink: bool)
    requires Tables(peers, relays, waiting) && p in peers && !peers[p].isRelay
    requires peers[p].relaying.None? && !peers[p].waiting
    ensures Tables(peers[p := peers[p].(haveLink := haveLink)], relays, waiting)
  {
    hide Distinct, Elems;
    var peers' := peers[p := peers[p].(haveLink := haveLink)];
    assert forall q :: IsRelay(peers', q) <==> IsRelay(peers, q);
    assert forall q :: IsWaiting(peers', q) <==> IsWaiting(peers, q);
    assert forall q, r :: Uses(peers', q, r) <==> Uses(peers, q, r);
    assert forall q, r :: Serves(peers', r, q) <==> Serves(peers, r, q);
  }

  /** A peer starts to use a relay. */
  lemma InstallTables(peers: Records, relays: seq<PeerId>, waiting: seq<PeerId>, p: PeerId, r: PeerId)
    requires Tables(peers, relays, waiting) && p in peers && r in peers && peers[r].isRelay
    requires ModeOf(peers[p]).Idle?
    ensures p != r
    ensures Tables(peers[p := peers[p].(relaying := Some(r))][r := peers[r].(users := peers[r].users + [p])], relays, waiting)
  {
    hide Distinct, Elems;
    assert FlagsOk(peers[r]) && FlagsOk(peers[p]);
    var peers' := peers[p := peers[p].(relaying := Some(r))][r := peers[r].(users := peers[r].users + [p])];
    assert !Uses(peers, p, r);
    assert !Serves(peers, r, p);
    DistinctSnoc(peers[r].users, p);
    assert forall q :: IsRelay(peers', q) <==> IsRelay(peers, q);
    assert forall q :: IsWaiting(peers', q) <==> IsWaiting(peers, q);
    forall q, t
      ensures Serves(peers', t, q) <==> Uses(peers', q, t)
    {
      assert Serves(peers, t, q) <==> Uses(peers, q, t);
    }
  }

  /** A peer stops using its relay. */
  lemma {:induction false} UninstallTables(peers: Records, relays: seq<PeerId>, waiting: seq<PeerId>, p: PeerId)
    requires Tables(peers, relays, waiting) && p in peers && peers[p].relaying.Some?
    ensures var r := peers[p].relaying.value;
      && r in peers && r != p
      && Tables(peers[p := peers[p].(relaying := None)][r := peers[r].(users := Remove(peers[r].users, p))], relays, waiting)
  {
    hide Distinct, Elems, Remove;
    RelayFacts(peers, relays, waiting, p);
    var r := peers[p].relaying.value;
    assert FlagsOk(peers[r]) && FlagsOk(peers[p]);
    RemoveSound(peers[r].users, p);
    var peers' := peers[p := peers[p].(relaying := None)][r := peers[r].(users := Remove(peers[r].users, p))];
    assert forall q :: IsRelay(peers', q) <==> IsRelay(peers, q);
    assert forall q :: IsWaiting(peers', q) <==> IsWaiting(peers, q);
    forall q, t
      ensures Serves(peers', t, q) <==> Uses(peers', q, t)
    {
      assert Serves(peers, t, q) <==> Uses(peers, q, t);
    }
  }

  lemma RegisterTables(peers: Records, relays: seq<PeerId>, waiting: seq<PeerId>, p: PeerId)
    requires Tables(peers, relays, waiting) && p in peers && ModeOf(peers[p]).Idle?
    ensures Tables(peers[p := peers[p].(waiting := true)], relays, waiting + [p])
  {
    hide Distinct, Elems;
    assert FlagsOk(peers[p]) && !IsWaiting(peers, p);
    DistinctSnoc(waiting, p);
    var peers' := peers[p := peers[p].(waiting := true)];
    assert forall q :: IsRelay(peers', q) <==> IsRelay(peers, q);
    assert forall q :: IsWaiting(peers', q) <==> IsWaiting(peers, q) || q == p;
    assert forall q, r :: Uses(peers', q, r) <==> Uses(peers, q, r);
    assert forall q, r :: Serves(peers', r, q) <==> Serves(peers, r, q);
  }

  lemma {:induction false} UnregisterTables(peers: Records, relays: seq<PeerId>, waiting: seq<PeerId>, p: PeerId)
    requires Tables(peers, relays, waiting) && p in peers && peers[p].waiting
    ensures Tables(peers[p := peers[p].(waiting := false)], relays, Remove(waiting, p))
  {
    hide Distinct, Elems, Remove;
    RemoveSound(waiting, p);
    var peers' := peers[p := peers[p].(waiting := false)];
    assert forall q :: IsRelay(peers', q) <==> IsRelay(peers, q);
    assert forall q :: IsWaiting(peers', q) <==> IsWaiting(peers, q) && q != p;
    assert forall q, r :: Uses(peers', q, r) <==> Uses(peers, q, r);
    assert forall q, r :: Serves(peers', r, q) <==> Serves(peers, r, q);
  }

  lemma EnableTables(peers: Records, relays: seq<PeerId>, waiting: seq<PeerId>, p: PeerId)
    requires Tables(peers, relays, waiting) && p in peers && peers[p].haveLink && !peers[p].isRelay
    ensures Tables(peers[p := peers[p].(isRelay := true)], relays + [p], waiting)
  {
    hide Distinct, Elems;
    assert FlagsOk(peers[p]) && !IsRelay(peers, p);
    DistinctSnoc(relays, p);
    var peers' := peers[p := peers[p].(isRelay := true)];
    assert forall q :: IsRelay(peers', q) <==> IsRelay(peers, q) || q == p;
    assert forall q :: IsWaiting(peers', q) <==> IsWaiting(peers, q);
    assert forall q, r :: Uses(peers', q, r) <==> Uses(peers, q, r);
    assert forall q, r :: Serves(peers', r, q) <==> Serves(peers, r, q);
  }

  lemma {:induction false} DisableTables(peers: Records, relays: seq<PeerId>, waiting: seq<PeerId>, p: PeerId)
    requires Tables(peers, relays, waiting) && p in peers && peers[p].isRelay && peers[p].users == []
    ensures Tables(peers[p := peers[p].(isRelay := false)], Remove(relays, p), waiting)
  {
    hide Distinct, Elems, Remove;
    assert FlagsOk(peers[p]);
    RemoveSound(relays, p);
    var peers' := peers[p := peers[p].(isRelay := false)];
    assert forall q :: IsRelay(peers', q) <==> IsRelay(peers, q) && q != p;
    assert forall q :: IsWaiting(peers', q) <==> IsWaiting(peers, q);
    assert forall q, r :: Uses(peers', q, r) <==> Uses(peers, q, r);
    assert forall q, r :: Serves(peers', r, q) <==> Serves(peers, r, q);
  }

  lemma AddTables(peers: Records, relays: seq<PeerId>, waiting: seq<PeerId>, p: PeerId, d: Record)
    requires Tables(peers, relays, waiting) && p !in peers && d == Record(false, false, None, false, [], d.flow)
    ensures Tables(peers[p := d], relays, waiting)
  {
    hide Distinct, Elems;
    var peers' := peers[p := d];
    assert FlagsOk(d) by { NothingDistinct(); }
    forall q
      ensures !Serves(peers', p, q)
    {
      NothingElse(q);
    }
    assert forall q :: !Serves(peers, p, q);
    assert forall q :: !Uses(peers, q, p);
    assert forall q :: IsRelay(peers', q) <==> IsRelay(peers, q);
    assert forall q :: IsWaiting(peers', q) <==> IsWaiting(peers, q);
    assert forall q, r :: Uses(peers', q, r) <==> Uses(peers, q, r);
    assert forall q, r :: Serves(peers', r, q) <==> Serves(peers, r, q);
  }

  lemma NothingDistinct()
    ensures Distinct<PeerId>([])
  {
  }

  lemma NothingElse(q: PeerId)
    ensures q !in Elems<PeerId>([])
  {
  }

  lemma DropTables(peers: Records, relays: seq<PeerId>, waiting: seq<PeerId>, p: PeerId)
    requires Tables(peers, relays, waiting) && p in peers && ModeOf(peers[p]).Idle?
    ensures Tables(peers - {p}, relays, waiting)
  {
    hide Distinct, Elems;
    var peers' := peers - {p};
    assert FlagsOk(peers[p]);
    assert forall q :: Uses(peers, p, q) ==> false;
    forall q
      ensures !Serves(peers, p, q) && !Uses(peers, q, p)
    {
      NothingElse(q);
      assert Serves(peers, p, q) <==> Uses(peers, q, p);
    }
    assert forall q :: IsRelay(peers', q) <==> IsRelay(peers, q);
    assert forall q :: IsWaiting(peers', q) <==> IsWaiting(peers, q);
    assert forall q, r :: Uses(peers', q, r) <==> Uses(peers, q, r);
    assert forall q, r :: Serves(peers', r, q) <==> Serves(peers, r, q);
  }

  // ---- The loops -------------------------------------------------------------------------------------

  lemma {:induction false} FirstWaiting(peers: Records, relays: seq<PeerId>, waiting: seq<PeerId>)
    requires Tables(peers, relays, waiting) && waiting != []
    ensures waiting[0] in peers && peers[waiting[0]].waiting && ModeOf(peers[waiting[0]]).Waiting?
    ensures Remove(waiting, waiting[0]) == waiting[1..]
  {
    ElemsAt(waiting, 0);
    assert IsWaiting(peers, waiting[0]);
    PeerFacts(peers, relays, waiting, waiting[0]);
  }

  lemma FirstRelay(peers: Records, relays: seq<PeerId>, waiting: seq<PeerId>)
    requires Tables(peers, relays, waiting) && relays != []
    ensures relays[0] in peers && peers[relays[0]].isRelay
  {
    ElemsAt(relays, 0);
    assert IsRelay(peers, relays[0]);
  }

  lemma FirstUser(peers: Records, relays: seq<PeerId>, waiting: seq<PeerId>, r: PeerId)
    requires Tables(peers, relays, waiting) && r in peers && peers[r].users != []
    ensures var q := peers[r].users[0];
      q in peers && q != r && peers[q].relaying == Some(r) && ModeOf(peers[q]) == Relayed(r) &&
      Remove(peers[r].users, q) == peers[r].users[1..]
  {
    var q := peers[r].users[0];
    ElemsAt(peers[r].users, 0);
    assert Serves(peers, r, q);
    assert Uses(peers, q, r);
    RelayFacts(peers, relays, waiting, q);
    PeerFacts(peers, relays, waiting, q);
  }

  lemma NobodyWaits(peers: Records, relays: seq<PeerId>, waiting: seq<PeerId>)
    requires Tables(peers, relays, waiting) && waiting == []
    ensures forall p :: p in peers ==> !ModeOf(peers[p]).Waiting?
  {
    forall p | p in peers
      ensures !ModeOf(peers[p]).Waiting?
    {
      NothingElse(p);
      assert !IsWaiting(peers, p);
    }
  }

  lemma AssignNothing(w: World)
    requires w.relays == [] || forall p :: p in w.modes ==> !w.modes[p].Waiting?
    ensures Assign(w) == w
  {
  }

  lemma AssignOne(w: World, p: PeerId)
    requires w.relays != [] && p in w.modes && w.modes[p].Waiting?
    ensures Assign(SetMode(SetMode(w, p, Idle), p, Relayed(w.relays[0]))) == Assign(w)
  {
  }

  lemma AbandonOne(w: World, r: PeerId, q: PeerId)
    requires q in w.modes && w.modes[q] == Relayed(r) && q != r
    ensures Abandon(SetMode(SetMode(w, q, Idle), q, Waiting), r) == Abandon(w, r)
  {
  }

  lemma {:induction false} AbandonLast(peers: Records, relays: seq<PeerId>, waiting: seq<PeerId>, r: PeerId)
    requires Tables(peers, relays, waiting) && r in peers && peers[r].isRelay && peers[r].users == []
    ensures Abandon(World(Modes(peers), relays), r) ==
            World(Modes(peers[r := peers[r].(isRelay := false)]), Remove(relays, r))
  {
    PeerFacts(peers, relays, waiting, r);
    forall q | q in peers && q != r
      ensures ModeOf(peers[q]) != Relayed(r)
    {
      NothingElse(q);
      assert Serves(peers, r, q) <==> Uses(peers, q, r);
    }
  }

  lemma DisabledMode(w: World, p: PeerId)
    requires p in w.modes
    ensures p in Disable(w, p).modes && Disable(w, p).modes[p] == Linked(false)
  {
  }

  lemma CleanedMode(w: World, p: PeerId)
    requires p in w.modes
    ensures p in Cleanup(w, p).modes && Cleanup(w, p).modes[p].Idle?
  {
  }

  lemma CleanedAgain(w: World, p: PeerId)
    requires p in w.modes && w.modes[p].Idle?
    ensures Cleanup(w, p) == w
  {
    assert w.modes[p := Idle] == w.modes;
  }
}
