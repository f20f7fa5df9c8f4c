/**
 What a DHCP reply means, by the numbers of RFC 2132: 53 is the message type, 54 the server, 51 the
 lease, 1 the subnet mask, 3 the router and 6 the name servers, and of several options with the same
 number the last one counts.
 */
module DhcpReplies {
  import opened Prelude
  import opened Bytes
  import opened DhcpWire

  /** The value of the last option with this number. */
  function Last(os: seq<Opt>, t: Byte): Option<Data> {
    if os == [] then None
    else
      var later := Last(os[1..], t);
      if later.Some? then later
      else if os[0].Tlv? && os[0].t == t then Some(os[0].v)
      else None
  }

  /** Options that the client knows must have the length of their values. */
  predicate LengthOk(o: Opt) {
    match o
    case Pad => true
    case Tlv(t, v) =>
      if t == 53 then |v| == 1
      else if t == 54 || t == 51 || t == 1 || t == 3 then |v| == 4
      else t == 6 ==> |v| % 4 == 0
  }

  predicate LengthsOk(os: seq<Opt>) {
    forall i :: 0 <= i < |os| ==> LengthOk(os[i])
  }

  /** Four bytes in network order. */
  function Word(v: Data): nat
    requires |v| == 4
  {
    v[0] as int * 0x100_0000 + v[1] as int * 0x1_0000 + v[2] as int * 0x100 + v[3] as int
  }

  function WordOf(v: Option<Data>): Option<nat> {
    if v.Some? && |v.value| == 4 then Some(Word(v.value)) else None
  }

  function Words(v: Data): seq<nat>
    requires |v| % 4 == 0
  {
    seq(|v| / 4, i requires 0 <= i < |v| / 4 => Word(v[4 * i..4 * i + 4]))
  }

  /** The first sixteen name servers. */
  function Servers(v: Option<Data>): seq<nat> {
    if v.None? || |v.value| % 4 != 0 then []
    else var ws := Words(v.value); if |ws| <= 16 then ws else ws[..16]
  }

  /** What a reply says. */
  function Meaning(yiaddr: nat, os: seq<Opt>): Option<Message> {
    var kind, server := Last(os, 53), WordOf(Last(os, 54));
    if kind.None? || |kind.value| != 1 || kind.value[0] as int !in {2, 5, 6} || server.None? then None
    else Some(Message(kind.value[0], yiaddr, server.value, WordOf(Last(os, 51)), WordOf(Last(os, 1)),
                      WordOf(Last(os, 3)), Servers(Last(os, 6))))
  }

  // ---- The parser reads what a reply says --------------------------------------------------------------

  lemma WordIs(v: Data)
    requires |v| == 4
    ensures Be32(v, 0) == Word(v)
  {
  }

  lemma {:induction false} WordsAre(v: Data)
    requires |v| % 4 == 0
    ensures Addresses(v) == Words(v)
  {
    if v != [] {
      WordsAre(v[4..]);
      WordIs(v[..4]);
      assert Be32(v, 0) == Be32(v[..4], 0);
      assert forall i :: 0 <= i < |v| / 4 - 1 ==> v[4..][4 * i..4 * i + 4] == v[4 * (i + 1)..4 * (i + 1) + 4];
      assert Words(v) == [Word(v[..4])] + Words(v[4..]);
    }
  }

  function Or<T>(a: Option<T>, b: Option<T>): Option<T> {
    if a.Some? then a else b
  }

  /** The fields after the options, where f was known before. */
  function After(os: seq<Opt>, f: Fields): Fields {
    var kind := Last(os, 53);
    Fields(if kind.Some? && |kind.value| == 1 then Some(kind.value[0]) else f.kind,
           Or(WordOf(Last(os, 54)), f.server), Or(WordOf(Last(os, 51)), f.lease), Or(WordOf(Last(os, 1)), f.mask),
           Or(WordOf(Last(os, 3)), f.router), if Last(os, 6).Some? then Servers(Last(os, 6)) else f.dns)
  }

  lemma {:induction false} LastFront(os: seq<Opt>, t: Byte)
    requires os != []
    ensures Last(os, t) == if Last(os[1..], t).Some? then Last(os[1..], t) else Last([os[0]], t)
    ensures Last([os[0]], t) == if os[0].Tlv? && os[0].t == t then Some(os[0].v) else None
  {
    assert [os[0]][1..] == [];
  }

  lemma {:induction false} OneOption(f: Fields, o: Opt)
    requires o.Tlv?
    ensures WithOption(f, o.t, o.v) == if LengthOk(o) then Some(After([o], f)) else None
  {
    hide Last, Words, Addresses, Be32, Word;
    if |o.v| == 4 {
      WordIs(o.v);
    }
    if |o.v| % 4 == 0 {
      WordsAre(o.v);
    }
    LastFront([o], 53);
    LastFront([o], 54);
    LastFront([o], 51);
    LastFront([o], 1);
    LastFront([o], 3);
    LastFront([o], 6);
  }

  /** Values that an option of the right length can have. */
  lemma {:induction false} LastLength(os: seq<Opt>, t: Byte)
    requires LengthsOk(os)
    ensures Last(os, t).Some? ==> LengthOk(Tlv(t, Last(os, t).value))
  {
    if os != [] {
      LastLength(os[1..], t);
      assert LengthOk(os[0]);
    }
  }

  /** Reading one option and then the rest is reading them all. */
  lemma {:induction false} AfterFront(os: seq<Opt>, f: Fields)
    requires os != [] && LengthsOk(os)
    ensures After(os[1..], After([os[0]], f)) == After(os, f)
  {
    hide Last, Words, Word, LengthsOk;
    RestLengths(os);
    LastFront(os, 53);
    LastLength(os[1..], 53);
    LastFront(os, 54);
    LastLength(os[1..], 54);
    LastFront(os, 51);
    LastLength(os[1..], 51);
    LastFront(os, 1);
    LastLength(os[1..], 1);
    LastFront(os, 3);
    LastLength(os[1..], 3);
    LastFront(os, 6);
  }

  lemma RestLengths(os: seq<Opt>)
    requires os != []
    ensures LengthsOk(os) <==> LengthOk(os[0]) && LengthsOk(os[1..])
  {
    assert forall i :: 1 <= i < |os| ==> os[i] == os[1..][i - 1];
    assert LengthsOk(os) ==> LengthsOk(os[1..]);
  }

  lemma {:induction false} SaidIs(os: seq<Opt>, f: Fields)
    ensures Said(os, f) == if LengthsOk(os) then Some(After(os, f)) else None
  {
    hide WithOption, LengthOk, LengthsOk, After;
    if os == [] {
      NothingSaid(f);
    } else {
      RestLengths(os);
      if os[0].Pad? {
        SaidIs(os[1..], f);
        PadSays(os, f);
      } else {
        OneOption(f, os[0]);
        if LengthOk(os[0]) {
          SaidIs(os[1..], After([os[0]], f));
          if LengthsOk(os) {
            AfterFront(os, f);
          }
        }
      }
    }
  }

  lemma {:induction false} NothingSaid(f: Fields)
    ensures LengthsOk([]) && After([], f) == f
  {
  }

  lemma {:induction false} PadSays(os: seq<Opt>, f: Fields)
    requires os != [] && os[0].Pad?
    ensures LengthOk(os[0]) && After(os, f) == After(os[1..], f)
  {
    hide Last, Words, Word;
    LastFront(os, 53);
    LastFront(os, 54);
    LastFront(os, 51);
    LastFront(os, 1);
    LastFront(os, 3);
    LastFront(os, 6);
  }

  /** For every reply, whatever its options, their order and the fields that the client ignores: the
      client reads what the reply says, and gives up exactly if an option it knows has the wrong
      length or the reply says no type that it knows or no server. */
  lemma {:induction false} ReplyMeans(xid: nat, yiaddr: nat, mac: Data, r: Rest, os: seq<Opt>, n: nat)
    requires xid < 0x1_0000_0000 && yiaddr < 0x1_0000_0000 && |mac| == 6 && RestOk(r) && OptsOk(os)
    ensures ParseReply(EncodeHeader(xid, yiaddr, mac, r) + EncodeAll(os, n), mac, xid) ==
      if LengthsOk(os) then Meaning(yiaddr, os) else None
  {
    hide ParseReply, EncodeHeader, EncodeAll, Said, Last, Words, Word, LengthsOk, RestOk, OptsOk;
    ReplyRoundTrip(xid, yiaddr, mac, r, os, n);
    SaidIs(os, NO_FIELDS);
    if LengthsOk(os) {
      LastLength(os, 53);
    }
  }

  // ---- A message written by a server ----------------------------------------------------------------------

  /** The four bytes of a word, most significant first. */
  function Split(n: nat): (v: Data)
    requires n < 0x1_0000_0000
    ensures |v| == 4
  {
    [n / 0x100_0000, n / 0x1_0000 % 0x100, n / 0x100 % 0x100, n % 0x100]
  }

  function SplitAll(ns: seq<nat>): (v: Data)
    requires forall i :: 0 <= i < |ns| ==> ns[i] < 0x1_0000_0000
    ensures |v| == 4 * |ns|
  {
    if ns == [] then [] else Split(ns[0]) + SplitAll(ns[1..])
  }

  predicate MessageOk(m: Message) {
    && m.kind as int in {2, 5, 6} && m.server < 0x1_0000_0000 && |m.dns| <= 16
    && (m.lease.Some? ==> m.lease.value < 0x1_0000_0000) && (m.mask.Some? ==> m.mask.value < 0x1_0000_0000)
    && (m.router.Some? ==> m.router.value < 0x1_0000_0000)
    && forall i :: 0 <= i < |m.dns| ==> m.dns[i] < 0x1_0000_0000
  }

  /** The option says this word, or is missing. */
  predicate SaysWord(os: seq<Opt>, t: Byte, n: Option<nat>)
    requires n.Some? ==> n.value < 0x1_0000_0000
  {
    Last(os, t) == if n.Some? then Some(Split(n.value)) else None
  }

  /** The options, in whatever order and among whatever others, say what the message is. */
  predicate Says(os: seq<Opt>, m: Message)
    requires MessageOk(m)
  {
    && Last(os, 53) == Some([m.kind]) && Last(os, 54) == Some(Split(m.server))
    && SaysWord(os, 51, m.lease) && SaysWord(os, 1, m.mask) && SaysWord(os, 3, m.router)
    && (Last(os, 6) == Some(SplitAll(m.dns)) || (Last(os, 6).None? && m.dns == []))
  }

  lemma WordOfSplit(n: nat)
    requires n < 0x1_0000_0000
    ensures Word(Split(n)) == n
  {
    var a, b, c := n / 0x100, n / 0x1_0000, n / 0x100_0000;
    assert n == a * 0x100 + n % 0x100;
    assert a == b * 0x100 + a % 0x100;
    assert b == c * 0x100 + b % 0x100;
  }

  lemma {:induction false} WordsOfSplit(ns: seq<nat>)
    requires forall i :: 0 <= i < |ns| ==> ns[i] < 0x1_0000_0000
    ensures Words(SplitAll(ns)) == ns
  {
    if ns != [] {
      var v := SplitAll(ns);
      WordsOfSplit(ns[1..]);
      WordsAre(v);
      WordsAre(v[4..]);
      assert v[4..] == SplitAll(ns[1..]) && v[..4] == Split(ns[0]);
      WordIs(v[..4]);
      WordOfSplit(ns[0]);
      assert Be32(v, 0) == Be32(v[..4], 0);
    }
  }

  /** A message that a server writes is read as that message. */
  lemma {:induction false} MessageRoundTrip(xid: nat, mac: Data, r: Rest, os: seq<Opt>, n: nat, m: Message)
    requires xid < 0x1_0000_0000 && m.yiaddr < 0x1_0000_0000 && |mac| == 6 && RestOk(r) && OptsOk(os) && LengthsOk(os)
    requires MessageOk(m) && Says(os, m)
    ensures ParseReply(EncodeHeader(xid, m.yiaddr, mac, r) + EncodeAll(os, n), mac, xid) == Some(m)
  {
    hide ParseReply, EncodeHeader, EncodeAll, Last, Words, Word, LengthsOk, RestOk, OptsOk, Split, SplitAll;
    ReplyMeans(xid, m.yiaddr, mac, r, os, n);
    WordOfSplit(m.server);
    if m.lease.Some? {
      WordOfSplit(m.lease.value);
    }
    if m.mask.Some? {
      WordOfSplit(m.mask.value);
    }
    if m.router.Some? {
      WordOfSplit(m.router.value);
    }
    WordsOfSplit(m.dns);
  }

  // ---- Nothing else is accepted -------------------------------------------------------------------------------

  lemma BytesOfWord(s: Data, at: nat)
    requires at + 4 <= |s|
    ensures Be32(s, at) < 0x1_0000_0000 && ToBe32(Be32(s, at)) == s[at..at + 4]
  {
    var hi, lo := Be16(s, at), Be16(s, at + 2);
    assert Be32(s, at) / 0x1_0000 == hi && Be32(s, at) % 0x1_0000 == lo;
    assert ToBe16(hi) == s[at..at + 2] && ToBe16(lo) == s[at + 2..at + 4];
  }

  function RestOf(s: Data): (r: Rest)
    requires |s| >= 240
    ensures RestOk(r)
  {
    Rest(s[3], s[8..12], s[12..16], s[20..28], s[44..236], s[34..44])
  }

  lemma HeaderIs(s: Data, mac: Data, xid: nat)
    requires HeaderOk(s, mac, xid)
    ensures xid < 0x1_0000_0000 && |mac| == 6 && Be32(s, 16) < 0x1_0000_0000
    ensures EncodeHeader(xid, Be32(s, 16), mac, RestOf(s)) == s[..240]
  {
    hide Be32, ToBe32, Be16;
    BytesOfWord(s, 4);
    BytesOfWord(s, 16);
    BytesOfWord(s, 236);
    MagicBytes();
    assert s[..240] == s[..4] + s[4..8] + s[8..12] + s[12..16] + s[16..20] + s[20..28] + s[28..34] + s[34..44] + s[44..236] +
      s[236..240];
  }

  /** Every packet that the client accepts is a reply to it: a boot reply for its hardware address and
      its transaction, whose options say what the client reads. */
  lemma {:induction false} AcceptedIsReply(s: Data, mac: Data, xid: nat) returns (r: Rest, os: seq<Opt>, n: nat)
    requires ParseReply(s, mac, xid).Some?
    ensures xid < 0x1_0000_0000 && |mac| == 6 && RestOk(r) && OptsOk(os) && LengthsOk(os)
    ensures var m := ParseReply(s, mac, xid).value;
      && m.yiaddr < 0x1_0000_0000 && s == EncodeHeader(xid, m.yiaddr, mac, r) + EncodeAll(os, n)
      && Meaning(m.yiaddr, os) == Some(m)
  {
    hide HeaderOk, ParseOptions, EncodeHeader, EncodeAll, Meaning, LengthsOk, OptsOk, RestOk;
    LongEnough(s, mac, xid);
    HeaderIs(s, mac, xid);
    r := RestOf(s);
    os, n := AcceptedIsOptions(s[HEADER..], NO_FIELDS);
    assert s == s[..240] + s[240..];
    SaidIs(os, NO_FIELDS);
    ReplyMeans(xid, Be32(s, 16), mac, r, os, n);
  }

  lemma LongEnough(s: Data, mac: Data, xid: nat)
    requires HeaderOk(s, mac, xid)
    ensures |s| >= 240
  {
  }
}
