/**
 How the client decides through whom it talks to a peer: over a link of its own, through another
 peer that acts as relay, or not at all while waiting for a relay.
 */
module RelaySpec {
  import opened Prelude

  type PeerId = nat

  datatype Mode =
    | Idle                         // nothing set up
    | Linked(provider: bool)       // own link; a provider relays for others
    | Relayed(through: PeerId)
    | Waiting                      // needs a relay, there is none

  // relays: the providers, oldest first; new users go to the first one
  datatype World = World(modes: map<PeerId, Mode>, relays: seq<PeerId>)

  const EMPTY := World(map[], [])

  // ---- Steps -----------------------------------------------------------------------------------

  function SetMode(w: World, p: PeerId, m: Mode): World {
    w.(modes := w.modes[p := m])
  }

  /** Everybody who waits gets the first relay. */
  function Assign(w: World): World {
    if w.relays == [] then w
    else w.(modes := map p | p in w.modes :: if w.modes[p].Waiting? then Relayed(w.relays[0]) else w.modes[p])
  }

  function Enable(w: World, p: PeerId): World {
    Assign(World(w.modes[p := Linked(true)], w.relays + [p]))
  }

  /** All users of the relay fall back to waiting. */
  function Abandon(w: World, p: PeerId): World {
    World(map q | q in w.modes ::
            if q == p then Linked(false) else if w.modes[q] == Relayed(p) then Waiting else w.modes[q],
          Remove(w.relays, p))
  }

  function Disable(w: World, p: PeerId): World {
    Assign(Abandon(w, p))
  }

  function Cleanup(w: World, p: PeerId): World
    requires p in w.modes
  {
    SetMode(if w.modes[p] == Linked(true) then Disable(w, p) else w, p, Idle)
  }

  function NeedRelay(w: World, p: PeerId): World
    requires p in w.modes
  {
    if w.modes[p] == Linked(true) || w.modes[p].Waiting? then w
    else Assign(SetMode(w, p, Waiting))
  }

  datatype Event =
    | Add(p: PeerId)
    | Drop(p: PeerId)
    | Connect(p: PeerId, ok: bool)       // a fresh link for binding or connecting; may fail
    | Reset(p: PeerId)
    | GiveUp(p: PeerId)                  // no direct connection is possible
    | Up(p: PeerId, canRelay: bool)      // the link carries traffic both ways
    | Down(p: PeerId)

  predicate Enabled(w: World, e: Event) {
    match e
    case Add(p) => p !in w.modes
    case Up(p, canRelay) => p in w.modes && w.modes[p].Linked?
    case Down(p) => p in w.modes && w.modes[p].Linked?
    case _ => e.p in w.modes
  }

  function Step(w: World, e: Event): World
    requires Enabled(w, e)
  {
    match e
    case Add(p) => SetMode(w, p, Idle)
    case Drop(p) => var v := Cleanup(w, p); v.(modes := v.modes - {p})
    case Connect(p, ok) => if ok then SetMode(Cleanup(w, p), p, Linked(false)) else Cleanup(w, p)
    case Reset(p) => Cleanup(w, p)
    case GiveUp(p) => NeedRelay(w, p)
    case Up(p, canRelay) => if canRelay && !w.modes[p].provider then Enable(w, p) else w
    case Down(p) => if w.modes[p].provider then Disable(w, p) else w
  }

  // ---- Invariant --------------------------------------------------------------------------------

  ghost predicate Provides(w: World, p: PeerId) {
    p in w.modes && w.modes[p] == Linked(true)
  }

  ghost predicate Registered(w: World) {
    Distinct(w.relays) && forall p :: p in Elems(w.relays) <==> Provides(w, p)
  }

  /** Whoever is relayed is relayed by a peer with a link of its own: no chains, no loops. */
  ghost predicate Direct(w: World) {
    forall p :: p in w.modes && w.modes[p].Relayed? ==> Provides(w, w.modes[p].through)
  }

  /** Nobody waits while there is a relay. */
  ghost predicate Served(w: World) {
    forall p :: p in w.modes && w.modes[p].Waiting? ==> w.relays == []
  }

  ghost predicate Inv(w: World) {
    Registered(w) && Direct(w) && Served(w)
  }

  // ---- Preservation -------------------------------------------------------------------------------

  lemma AssignKeeps(w: World)
    requires Registered(w) && Direct(w)
    ensures Inv(Assign(w))
    ensures forall q :: q in w.modes && !w.modes[q].Waiting? ==> Assign(w).modes[q] == w.modes[q]
  {
    hide Distinct, Elems;
    var v := Assign(w);
    if w.relays != [] {
      ElemsAt(w.relays, 0);
      assert forall p :: Provides(v, p) <==> Provides(w, p);
    }
  }

  lemma EnableKeeps(w: World, p: PeerId)
    requires Inv(w) && p in w.modes && w.modes[p] == Linked(false)
    ensures Inv(Enable(w, p))
  {
    hide Distinct, Elems;
    var v := World(w.modes[p := Linked(true)], w.relays + [p]);
    assert !Provides(w, p);
    DistinctSnoc(w.relays, p);
    assert forall q :: Provides(v, q) <==> Provides(w, q) || q == p;
    AssignKeeps(v);
  }

  lemma AbandonKeeps(w: World, p: PeerId)
    requires Inv(w) && Provides(w, p)
    ensures Registered(Abandon(w, p)) && Direct(Abandon(w, p))
  {
    hide Distinct, Elems, Remove;
    var v := Abandon(w, p);
    RemoveSound(w.relays, p);
    forall q
      ensures Provides(v, q) <==> Provides(w, q) && q != p
    {
    }
  }

  /** A peer that is no provider takes another mode that is none either. */
  lemma SetModeKeeps(w: World, p: PeerId, m: Mode)
    requires Inv(w) && !Provides(w, p) && (m.Idle? || m == Linked(false))
    ensures Inv(SetMode(w, p, m))
  {
    hide Distinct, Elems;
    var v := SetMode(w, p, m);
    assert forall q :: Provides(v, q) <==> Provides(w, q);
  }

  lemma CleanupKeeps(w: World, p: PeerId)
    requires Inv(w) && p in w.modes
    ensures Inv(Cleanup(w, p)) && Cleanup(w, p).modes.Keys == w.modes.Keys
  {
    hide Distinct, Elems, Inv;
    if w.modes[p] == Linked(true) {
      AbandonKeeps(w, p);
      AssignKeeps(Abandon(w, p));
      SetModeKeeps(Disable(w, p), p, Idle);
    } else {
      SetModeKeeps(w, p, Idle);
    }
  }

  lemma NeedRelayKeeps(w: World, p: PeerId)
    requires Inv(w) && p in w.modes
    ensures Inv(NeedRelay(w, p))
  {
    hide Distinct, Elems;
    if w.modes[p] != Linked(true) && !w.modes[p].Waiting? {
      var v := SetMode(w, p, Waiting);
      assert forall q :: Provides(v, q) <==> Provides(w, q);
      AssignKeeps(v);
    }
  }

  lemma DropKeeps(w: World, p: PeerId)
    requires Inv(w) && p in w.modes && w.modes[p].Idle?
    ensures Inv(w.(modes := w.modes - {p}))
  {
    hide Distinct, Elems;
    var v := w.(modes := w.modes - {p});
    assert forall q :: Provides(v, q) <==> Provides(w, q);
  }

  lemma StepKeepsInv(w: World, e: Event)
    requires Inv(w) && Enabled(w, e)
    ensures Inv(Step(w, e))
  {
    hide Inv, Assign;
    match e
    case Add(p) => SetModeKeeps(w, p, Idle);
    case Drop(p) => CleanupKeeps(w, p); DropKeeps(Cleanup(w, p), p);
    case Connect(p, ok) => CleanupKeeps(w, p); SetModeKeeps(Cleanup(w, p), p, Linked(false));
    case Reset(p) => CleanupKeeps(w, p);
    case GiveUp(p) => NeedRelayKeeps(w, p);
    case Up(p, canRelay) =>
      if canRelay && !w.modes[p].provider {
        EnableKeeps(w, p);
      }
    case Down(p) =>
      if w.modes[p].provider {
        AbandonKeeps(w, p);
        AssignKeeps(Abandon(w, p));
      }
  }

  function Run(w: World, es: seq<Event>): Option<World> {
    if es == [] then Some(w)
    else
      var v := Run(w, es[..|es|-1]);
      if v.Some? && Enabled(v.value, es[|es|-1]) then Some(Step(v.value, es[|es|-1])) else None
  }

  lemma {:induction false} RunKeepsInv(w: World, es: seq<Event>)
    requires Inv(w)
    ensures Run(w, es).Some? ==> Inv(Run(w, es).value)
  {
    hide Inv;
    if es != [] && Run(w, es).Some? {
      RunKeepsInv(w, es[..|es|-1]);
      StepKeepsInv(Run(w, es[..|es|-1]).value, es[|es|-1]);
    }
  }

  /** In every run: a relayed peer's relay is another peer with a working link of its own, and
      nobody waits while any peer can relay. */
  lemma {:induction false} RelaysSound(es: seq<Event>, p: PeerId)
    requires Run(EMPTY, es).Some? && p in Run(EMPTY, es).value.modes
    ensures var w := Run(EMPTY, es).value;
      && (w.modes[p].Relayed? ==>
            && w.modes[p].through != p
            && w.modes[p].through in w.modes && w.modes[w.modes[p].through] == Linked(true))
      && (w.modes[p].Waiting? ==> forall q :: q in w.modes ==> w.modes[q] != Linked(true))
  {
    var w := Run(EMPTY, es).value;
    RunKeepsInv(EMPTY, es);
    if w.modes[p].Waiting? {
      forall q | q in w.modes
        ensures w.modes[q] != Linked(true)
      {
        assert q in Elems(w.relays) <==> Provides(w, q);
      }
    }
  }

  /** A relayed peer stays with its relay as long as the relay provides and nothing happens to the
      peer itself. */
  lemma RelayIsStable(w: World, e: Event, p: PeerId)
    requires Inv(w) && Enabled(w, e) && p in w.modes && w.modes[p].Relayed? && e.p != p
    ensures p in Step(w, e).modes
    ensures Provides(Step(w, e), w.modes[p].through) ==> Step(w, e).modes[p] == w.modes[p]
  {
    hide Distinct, Elems;
    var r := w.modes[p].through;
    assert Provides(w, r);
  }
}
