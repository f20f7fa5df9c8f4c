/**
 Through whom the client talks to a peer, told from the events alone: what has happened to a peer
 decides whether it has a link or needs a relay, and whoever needs one stays with the relay that was
 the oldest when the need arose, as long as that one provides.
 */
module RelayHistory {
  import opened Prelude
  import opened RelaySpec

  // ---- What the events say ----------------------------------------------------------------------------

  // What a peer has come to by its own events.
  datatype Need = Absent | Nothing | Link(provider: bool) | Relay

  function NeedAfter(e: Event, p: PeerId, before: Need): Need {
    if e.p != p then before
    else
      match e
      case Add(_) => Nothing
      case Drop(_) => Absent
      case Connect(_, ok) => if ok then Link(false) else Nothing
      case Reset(_) => Nothing
      case GiveUp(_) => if before == Link(true) then before else Relay
      case Up(_, canRelay) => if canRelay then Link(true) else before
      case Down(_) => Link(false)
  }

  function NeedOf(es: seq<Event>, p: PeerId): Need {
    if es == [] then Absent else NeedAfter(es[|es|-1], p, NeedOf(es[..|es|-1], p))
  }

  /** The peers that provide, in the order in which they came to. */
  function Providers(es: seq<Event>): seq<PeerId> {
    if es == [] then []
    else
      var before, e := Providers(es[..|es|-1]), es[|es|-1];
      if NeedOf(es, e.p) == Link(true) then
        if NeedOf(es[..|es|-1], e.p) == Link(true) then before else before + [e.p]
      else Remove(before, e.p)
  }

  function Oldest(ps: seq<PeerId>): Option<PeerId> {
    if ps == [] then None else Some(ps[0])
  }

  /** Who relays for a peer that needs it: it stays with its relay while that one provides, and gets
      the oldest provider when it has none or gives up again. */
  function RelayOf(es: seq<Event>, p: PeerId): Option<PeerId> {
    if es == [] || NeedOf(es, p) != Relay then None
    else
      var before := RelayOf(es[..|es|-1], p);
      if es[|es|-1] != GiveUp(p) && before.Some? && NeedOf(es, before.value) == Link(true) then before
      else Oldest(Providers(es))
  }

  function ModeFor(es: seq<Event>, p: PeerId): Mode {
    match NeedOf(es, p)
    case Absent => Idle
    case Nothing => Idle
    case Link(provider) => Linked(provider)
    case Relay => var r := RelayOf(es, p); if r.None? then Waiting else Relayed(r.value)
  }

  ghost predicate Told(es: seq<Event>, w: World) {
    && (forall p :: p in w.modes <==> NeedOf(es, p) != Absent)
    && (forall p :: p in w.modes ==> w.modes[p] == ModeFor(es, p))
    && w.relays == Providers(es)
  }

  // ---- The client does what the events say --------------------------------------------------------------

  lemma {:induction false} HistorySnoc(es: seq<Event>, e: Event, p: PeerId)
    ensures NeedOf(es + [e], p) == NeedAfter(e, p, NeedOf(es, p))
    ensures Providers(es + [e]) ==
      if NeedOf(es + [e], e.p) == Link(true) then
        if NeedOf(es, e.p) == Link(true) then Providers(es) else Providers(es) + [e.p]
      else Remove(Providers(es), e.p)
    ensures RelayOf(es + [e], p) ==
      if NeedOf(es + [e], p) != Relay then None
      else if e != GiveUp(p) && RelayOf(es, p).Some? && NeedOf(es + [e], RelayOf(es, p).value) == Link(true)
      then RelayOf(es, p)
      else Oldest(Providers(es + [e]))
  {
    hide NeedAfter, Oldest;
    assert (es + [e])[..|es|] == es;
  }

  /** The relays are the providers. */
  lemma {:induction false} RelaysStep(es: seq<Event>, w: World, e: Event)
    requires Inv(w) && Enabled(w, e) && Told(es, w)
    ensures Step(w, e).relays == Providers(es + [e])
  {
    hide NeedOf, Providers, RelayOf, Remove, Distinct, Elems;
    HistorySnoc(es, e, e.p);
    assert Provides(w, e.p) <==> NeedOf(es, e.p) == Link(true);
    ElemsMember(w.relays, e.p);
    RemoveLength(w.relays, e.p);
  }

  /** Every peer is in the mode that the events say. */
  lemma {:induction false} ModesStep(es: seq<Event>, w: World, e: Event, q: PeerId)
    requires Inv(w) && Enabled(w, e) && Told(es, w)
    ensures q in Step(w, e).modes <==> NeedOf(es + [e], q) != Absent
    ensures q in Step(w, e).modes ==> Step(w, e).modes[q] == ModeFor(es + [e], q)
  {
    hide NeedOf, Providers, RelayOf, Remove, Distinct, Elems;
    HistorySnoc(es, e, e.p);
    HistorySnoc(es, e, q);
    if RelayOf(es, q).Some? {
      HistorySnoc(es, e, RelayOf(es, q).value);
    }
    RelaysStep(es, w, e);
    StepKeepsInv(w, e);
  }

  lemma {:induction false} ToldStep(es: seq<Event>, w: World, e: Event)
    requires Inv(w) && Enabled(w, e) && Told(es, w)
    ensures Told(es + [e], Step(w, e))
  {
    hide NeedOf, ModeFor, Inv, Step, Enabled, Providers;
    RelaysStep(es, w, e);
    forall q
      ensures q in Step(w, e).modes <==> NeedOf(es + [e], q) != Absent
      ensures q in Step(w, e).modes ==> Step(w, e).modes[q] == ModeFor(es + [e], q)
    {
      ModesStep(es, w, e, q);
    }
  }

  /** In every run the state of every peer, and the list of relays, is what the events say. */
  lemma {:induction false} StateIsHistory(es: seq<Event>)
    requires Run(EMPTY, es).Some?
    ensures var w := Run(EMPTY, es).value;
      && (forall p :: p in w.modes <==> NeedOf(es, p) != Absent)
      && (forall p :: p in w.modes ==> w.modes[p] == ModeFor(es, p))
      && w.relays == Providers(es)
  {
    hide Inv, Step, Enabled, ModeFor, NeedAfter;
    if es != [] {
      var init, e := es[..|es|-1], es[|es|-1];
      StateIsHistory(init);
      assert Inv(EMPTY) by { EmptyOk(); }
      RunKeepsInv(EMPTY, init);
      ToldStep(init, Run(EMPTY, init).value, e);
      assert es == init + [e];
    }
  }

  lemma EmptyOk()
    ensures Inv(EMPTY)
  {
  }

  /** Nothing that ends a need for a relay happens to the peer. */
  predicate StillNeeds(e: Event, p: PeerId) {
    e.p == p ==> e.GiveUp?
  }

  lemma {:induction false} NeedLasts(es: seq<Event>, more: seq<Event>, p: PeerId)
    requires NeedOf(es, p) == Relay && forall i :: 0 <= i < |more| ==> StillNeeds(more[i], p)
    ensures NeedOf(es + more, p) == Relay
  {
    if more == [] {
      assert es + more == es;
    } else {
      NeedLasts(es, more[..|more|-1], p);
      assert (es + more)[..|es + more|-1] == es + more[..|more|-1];
    }
  }

  /** A peer that could not be reached directly and is no provider is relayed, or waits because nobody
      can relay, from then on until it connects, is reset or leaves. */
  lemma {:induction false} RelayedOrWaiting(es: seq<Event>, more: seq<Event>, p: PeerId)
    requires Run(EMPTY, es).Some? && p in Run(EMPTY, es).value.modes && Run(EMPTY, es).value.modes[p] != Linked(true)
    requires Run(EMPTY, es + [GiveUp(p)] + more).Some? && forall i :: 0 <= i < |more| ==> StillNeeds(more[i], p)
    ensures var w := Run(EMPTY, es + [GiveUp(p)] + more).value;
      && p in w.modes && (w.modes[p].Relayed? || w.modes[p].Waiting?)
      && (w.modes[p].Waiting? <==> forall q :: q in w.modes ==> w.modes[q] != Linked(true))
  {
    hide Run, Providers, NeedOf;
    StateIsHistory(es);
    HistorySnoc(es, GiveUp(p), p);
    NeedLasts(es + [GiveUp(p)], more, p);
    var all := es + [GiveUp(p)] + more;
    StateIsHistory(all);
    RelaysSound(all, p);
    var w := Run(EMPTY, all).value;
    if w.modes[p].Relayed? {
      assert w.modes[w.modes[p].through] == Linked(true);
    }
  }
}
