/**
 One side of the link setup as the C code runs it, with its loops over bind addresses and over the
 addresses of an offer, and with the bytes of its messages.  Every handler is proved to do what
 BindingSpec.dfy says.
 */
module BindingImpl {
  import opened Prelude
  import opened Bytes
  import opened BindingSpec
  import opened MsgProto
  import opened YouConnect

  /** The bytes of a message of the setup; an offer comes with a key or password. */
  ghost predicate Carries(t: Transport, data: Data, m: Msg) {
    match m
    case YouConnect(ext) =>
      exists key, password :: ExtrasOk(t, key, password) &&
        ext != [] && WithinLimits(ext) && data == EncodeMsg(YOU_CONNECT, OfferBytes(ext, key, password))
    case CannotConnect => data == EncodeMsg(CANNOT_CONNECT, [])
    case CannotBind => data == EncodeMsg(CANNOT_BIND, [])
    case YouRetry => data == EncodeMsg(YOU_RETRY, [])
  }

  ghost predicate CarriesAll(t: Transport, out: seq<Data>, ms: seq<Msg>) {
    |out| == |ms| && forall i :: 0 <= i < |ms| ==> Carries(t, out[i], ms[i])
  }

  /** Whoever receives the bytes of a message can tell its type and payload. */
  lemma CarriedMessage(t: Transport, data: Data, m: Msg)
    requires Carries(t, data, m)
    ensures ReadMsg(data).Some?
    ensures var (id, payload) := ReadMsg(data).value;
      match m
      case YouConnect(ext) =>
        && id == YOU_CONNECT
        && exists key, password :: Offerable(ext, t, key, password) && payload == OfferBytes(ext, key, password)
      case CannotConnect => id == CANNOT_CONNECT && payload == []
      case CannotBind => id == CANNOT_BIND && payload == []
      case YouRetry => id == YOU_RETRY && payload == []
  {
    hide ReadMsg, EncodeMsg, OfferBytes, Offerable;
    match m
    case YouConnect(ext) =>
      var key, password :| ExtrasOk(t, key, password) &&
        ext != [] && WithinLimits(ext) && data == EncodeMsg(YOU_CONNECT, OfferBytes(ext, key, password));
      OfferFits(ext, t, key, password);
      MsgRoundTrip(YOU_CONNECT, OfferBytes(ext, key, password));
    case CannotConnect => MsgRoundTrip(CANNOT_CONNECT, []);
    case CannotBind => MsgRoundTrip(CANNOT_BIND, []);
    case YouRetry => MsgRoundTrip(YOU_RETRY, []);
  }

  class PeerSetup {
    const myId: nat
    const peerId: nat
    const addrs: seq<Local>       // the client's bind addresses
    const scopes: set<Data>       // the scopes it knows
    const refused: set<Ext>       // where it cannot connect to
    const transport: Transport
    var binding: bool
    var pos: nat
    var mode: Mode
    var retry: bool

    ghost function View(): Node
      reads this
    {
      Node(addrs, scopes, refused, myId > peerId, binding, pos, mode, retry)
    }

    /** The configuration is within the client's limits. */
    ghost predicate Valid()
      reads this
    {
      pos <= |addrs| && forall i :: 0 <= i < |addrs| ==> WithinLimits(addrs[i].ext)
    }

    constructor (myId: nat, peerId: nat, addrs: seq<Local>, scopes: set<Data>, refused: set<Ext>, transport: Transport)
      requires forall i :: 0 <= i < |addrs| ==> WithinLimits(addrs[i].ext)
      ensures Valid() && this.transport == transport
      ensures View() == Node(addrs, scopes, refused, myId > peerId, false, 0, Before(false), false)
    {
      this.myId, this.peerId, this.transport := myId, peerId, transport;
      this.addrs, this.scopes, this.refused := addrs, scopes, refused;
      binding, pos, mode, retry := false, 0, Before(false), false;
    }

    predicate AmMaster() {
      myId > peerId
    }

    method SetupRelaying()
      modifies this`mode
      ensures View() == NeedRelay(old(View()))
    {
      if mode != Before(true) {
        mode := GaveUp;
      }
    }

    /** peer_reset */
    method PeerReset() returns (out: seq<Data>, ghost ms: seq<Msg>)
      modifies this`mode, this`retry
      ensures (View(), ms) == Reset(old(View())) && CarriesAll(transport, out, ms)
    {
      hide EncodeMsg;
      mode := Down;
      if AmMaster() {
        retry := true;
        out, ms := [], [];
      } else {
        var m := MsgWrite(YOU_RETRY, []);
        out, ms := [m], [YouRetry];
      }
    }

    /** peer_bind_one_address */
    method BindOneAddress(i: nat, key: Option<Data>, password: Option<nat>)
      returns (cont: bool, out: seq<Data>, ghost ms: seq<Msg>)
      requires Valid() && i < |addrs| && addrs[i].ext != [] && ExtrasOk(transport, key, password)
      modifies this`mode, this`retry
      ensures cont == addrs[i].attempt.PortsTaken? && CarriesAll(transport, out, ms)
      ensures (View(), ms) ==
        match addrs[i].attempt
        case Binds => (old(View()).(mode := Bound(i)), [YouConnect(addrs[i].ext)])
        case PortsTaken => (old(View()).(mode := Opened), [])
        case NoLink => Reset(old(View()))
    {
      hide EncodeMsg, OfferBytes, WithinLimits, ExtrasOk;
      mode := Opened;
      match addrs[i].attempt {
        case NoLink =>
          cont := false;
          out, ms := PeerReset();
        case PortsTaken =>
          cont, out, ms := true, [], [];
        case Binds =>
          mode := Bound(i);
          var offer := SendOffer(addrs[i].ext, transport, key, password);
          var m := MsgWrite(YOU_CONNECT, offer);
          cont, out, ms := false, [m], [YouConnect(addrs[i].ext)];
      }
    }

    /** peer_bind */
    method PeerBind(key: Option<Data>, password: Option<nat>) returns (out: seq<Data>, ghost ms: seq<Msg>)
      requires Valid() && binding && ExtrasOk(transport, key, password)
      modifies this
      ensures Valid() && (View(), ms) == Bind(old(View())) && CarriesAll(transport, out, ms)
    {
      hide EncodeMsg, WithinLimits, ExtrasOk, CarriesAll;
      while pos < |addrs|
        invariant Valid() && binding && Bind(View()) == Bind(old(View()))
      {
        if addrs[pos].ext == [] {
          pos := pos + 1;
        } else {
          var cont;
          cont, out, ms := BindOneAddress(pos, key, password);
          pos := pos + 1;
          if !cont {
            return;
          }
        }
      }
      binding := false;
      out, ms := SendSimple(CannotBind);
      if !AmMaster() {
        SetupRelaying();
      }
    }

    /** peer_send_simple, for the messages without payload that a side sends when it is its turn */
    method SendSimple(m: Msg) returns (out: seq<Data>, ghost ms: seq<Msg>)
      requires m.CannotConnect? || m.CannotBind?
      ensures ms == [m] && CarriesAll(transport, out, ms)
    {
      hide EncodeMsg;
      var data := MsgWrite(if m.CannotConnect? then CANNOT_CONNECT else CANNOT_BIND, []);
      out, ms := [data], [m];
    }

    /** peer_start_binding */
    method StartPeerBinding(key: Option<Data>, password: Option<nat>) returns (out: seq<Data>, ghost ms: seq<Msg>)
      requires Valid() && ExtrasOk(transport, key, password)
      modifies this
      ensures Valid() && (View(), ms) == StartBinding(old(View())) && CarriesAll(transport, out, ms)
    {
      hide WithinLimits, ExtrasOk, CarriesAll;
      binding := true;
      pos := 0;
      out, ms := PeerBind(key, password);
    }

    /** peer_reset_timer_handler */
    method RetryTimer(key: Option<Data>, password: Option<nat>) returns (out: seq<Data>, ghost ms: seq<Msg>)
      requires Valid() && AmMaster() && retry && ExtrasOk(transport, key, password)
      modifies this
      ensures Valid() && (View(), ms) == StartBinding(old(View()).(retry := false)) && CarriesAll(transport, out, ms)
    {
      hide WithinLimits, ExtrasOk, CarriesAll, Bind;
      retry := false;
      out, ms := StartPeerBinding(key, password);
    }

    /** peer_msg_youconnect: a message that makes no sense is ignored, and an offer of the other side is
        answered as the reference says */
    method HandleYouConnect(payload: Data) returns (out: seq<Data>, ghost ms: seq<Msg>)
      modifies this`mode, this`retry
      ensures CarriesAll(transport, out, ms)
      ensures (View(), ms) ==
        match VerdictOf(scopes, transport, payload)
        case Ignored => (old(View()), [])
        case NoneUsable => (old(View()), [CannotConnect])
        case Use(e, _, _) => if e in refused then Reset(old(View())) else (old(View()).(mode := Connected(e)), [])
      ensures forall ext, key, password ::
        Offerable(ext, transport, key, password) && payload == OfferBytes(ext, key, password) ==>
          (View(), ms) == React(old(View()), YouConnect(ext))
    {
      hide VerdictOf, Offerable, OfferBytes, FirstUsable, Carries;
      forall ext, key, password | Offerable(ext, transport, key, password) && payload == OfferBytes(ext, key, password)
        ensures VerdictOf(scopes, transport, payload) ==
          var e := FirstUsable(scopes, ext); if e.None? then NoneUsable else Use(e.value, key, password)
      {
        OfferRead(scopes, transport, ext, key, password);
      }
      var v := ReadOffer(scopes, transport, payload);
      match v {
        case Ignored =>
          out, ms := [], [];
        case NoneUsable =>
          out, ms := SendSimple(CannotConnect);
        case Use(e, _, _) =>
          if e in refused {
            out, ms := PeerReset();
          } else {
            mode := Connected(e);
            out, ms := [], [];
          }
      }
    }

    /** peer_msg_cannotconnect */
    method HandleCannotConnect(payload: Data, key: Option<Data>, password: Option<nat>)
      returns (out: seq<Data>, ghost ms: seq<Msg>)
      requires Valid() && ExtrasOk(transport, key, password)
      modifies this
      ensures Valid() && CarriesAll(transport, out, ms)
      ensures (View(), ms) == if payload == [] then React(old(View()), CannotConnect) else (old(View()), [])
    {
      hide WithinLimits, ExtrasOk, Carries, Bind;
      if |payload| != 0 || !binding {
        return [], [];
      }
      out, ms := PeerBind(key, password);
    }

    /** peer_msg_cannotbind */
    method HandleCannotBind(payload: Data, key: Option<Data>, password: Option<nat>)
      returns (out: seq<Data>, ghost ms: seq<Msg>)
      requires Valid() && ExtrasOk(transport, key, password)
      modifies this
      ensures Valid() && CarriesAll(transport, out, ms)
      ensures (View(), ms) == if payload == [] then React(old(View()), CannotBind) else (old(View()), [])
    {
      hide WithinLimits, ExtrasOk, Carries, Bind;
      if |payload| != 0 {
        return [], [];
      }
      if !AmMaster() {
        out, ms := StartPeerBinding(key, password);
      } else {
        SetupRelaying();
        out, ms := [], [];
      }
    }

    /** peer_msg_youretry */
    method HandleYouRetry(payload: Data) returns (out: seq<Data>, ghost ms: seq<Msg>)
      modifies this`mode, this`retry
      ensures CarriesAll(transport, out, ms)
      ensures (View(), ms) == if payload == [] then React(old(View()), YouRetry) else (old(View()), [])
    {
      hide Carries;
      if |payload| != 0 || !AmMaster() {
        return [], [];
      }
      out, ms := PeerReset();
    }

    /** peer_chat_handler_message: what the other side has sent is handled as the reference says, and
        bytes that are no message are ignored */
    method HandleMessage(data: Data, key: Option<Data>, password: Option<nat>)
      returns (out: seq<Data>, ghost ms: seq<Msg>)
      requires Valid() && ExtrasOk(transport, key, password)
      modifies this
      ensures Valid() && CarriesAll(transport, out, ms)
      ensures forall m :: Carries(transport, data, m) ==> (View(), ms) == React(old(View()), m)
      ensures ReadMsg(data).None? ==> View() == old(View()) && ms == []
    {
      hide WithinLimits, ExtrasOk, Carries, ReadMsg, React, OfferBytes, Offerable, VerdictOf;
      forall m | Carries(transport, data, m)
        ensures ReadMsg(data).Some?
        ensures var (id, payload) := ReadMsg(data).value;
          match m
          case YouConnect(ext) =>
            && id == YOU_CONNECT
            && exists key, password :: Offerable(ext, transport, key, password) && payload == OfferBytes(ext, key, password)
          case CannotConnect => id == CANNOT_CONNECT && payload == []
          case CannotBind => id == CANNOT_BIND && payload == []
          case YouRetry => id == YOU_RETRY && payload == []
      {
        CarriedMessage(transport, data, m);
      }
      var r := MsgRead(data);
      if r.None? {
        return [], [];
      }
      var id, payload := r.value.0, r.value.1;
      if id == YOU_CONNECT {
        out, ms := HandleYouConnect(payload);
      } else if id == CANNOT_CONNECT {
        out, ms := HandleCannotConnect(payload, key, password);
      } else if id == CANNOT_BIND {
        out, ms := HandleCannotBind(payload, key, password);
      } else if id == YOU_RETRY {
        out, ms := HandleYouRetry(payload);
      } else {
        out, ms := [], [];
      }
    }
  }
}
