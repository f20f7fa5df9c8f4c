/**
 What FrameDecider reads from a frame: the Ethernet header and, inside IPv4, IGMP queries and
 membership reports.  The IPv4 check is a parameter: it yields the protocol number and the payload,
 or None for a malformed packet.
 */
module Igmp {
  import opened Prelude
  import opened Bytes
  import opened SwitchSpec

  type Ipv4Check = Data -> Option<(Byte, Data)>

  const ETHERNET_HEADER: nat := 14
  const ETHERTYPE_IPV4: nat := 0x0800
  const PROTOCOL_IGMP: nat := 2

  const MEMBERSHIP_QUERY: nat := 0x11
  const V2_REPORT: nat := 0x16
  const V3_REPORT: nat := 0x22

  /** The IGMP message in a frame, if that is what the frame carries. */
  function IgmpOf(ipv4: Ipv4Check, frame: Data): Option<Data> {
    if |frame| < ETHERNET_HEADER || Be16(frame, 12) != ETHERTYPE_IPV4 then None
    else
      var r := ipv4(frame[ETHERNET_HEADER..]);
      if r.Some? && r.value.0 == PROTOCOL_IGMP then Some(r.value.1) else None
  }

  /** The group of a group-specific query, in either version of the query. */
  function QueriedGroup(msg: Data): Option<Group> {
    if |msg| < 4 || msg[0] != MEMBERSHIP_QUERY then None
    else
      var rest := msg[4..];
      if |rest| == 4 && msg[1] != 0 then
        if Be32(rest, 0) != 0 then Some(Be32(rest, 0)) else None
      else if |rest| >= 8 then
        // a version 3 query that lists sources is not group-specific
        if Be32(rest, 0) != 0 && Be16(rest, 6) == 0 then Some(Be32(rest, 0)) else None
      else None
  }

  /** How many bytes of auxiliary data the code skips for a record.  It takes the one-byte length
      through the conversion of a 16-bit integer from network order, which multiplies it by 256 on a
      little-endian host, the kind modelled here; a big-endian host would skip as many bytes as the
      field says. */
  function AuxLen(b: Byte): nat {
    b as int * 0x100
  }

  /** A version 3 record, and the data after it; None if it does not fit. */
  function Record(s: Data): Option<(Option<Group>, Data)> {
    if |s| < 8 then None
    else
      var sources := Be16(s, 2);
      var size := 8 + 4 * sources + AuxLen(s[1]);
      if |s| < size then None
      else
        var joins := s[0] == 2 || s[0] == 4 || ((s[0] == 1 || s[0] == 3) && sources != 0);
        Some((if joins then Some(Be32(s, 4)) else None, s[size..]))
  }

  /** The groups joined by up to n records. */
  function RecordGroups(s: Data, n: nat): seq<Group> {
    if n == 0 then []
    else
      var r := Record(s);
      if r.None? then []
      else (if r.value.0.Some? then [r.value.0.value] else []) + RecordGroups(r.value.1, n - 1)
  }

  /** The groups that a message reports membership of. */
  function ReportedGroups(msg: Data): seq<Group> {
    if |msg| < 4 then []
    else if msg[0] == V2_REPORT then
      if |msg| < 8 then [] else [Be32(msg, 4)]
    else if msg[0] == V3_REPORT then
      if |msg| < 8 then [] else RecordGroups(msg[8..], Be16(msg, 6))
    else []
  }

  const BROADCAST: Mac := [0xff, 0xff, 0xff, 0xff, 0xff, 0xff]

  function TargetOf(ipv4: Ipv4Check, frame: Data): Target {
    if |frame| < ETHERNET_HEADER then Nowhere
    else
      var dest := frame[..6];
      if IgmpOf(ipv4, frame).Some? || dest == BROADCAST then Everywhere
      else if dest[..3] == MULTICAST_PREFIX then ToGroup(SigOfMac(dest))
      else ToMac(dest)
  }

  // ---- What a frame does to the switch --------------------------------------------------------

  function ReportedIn(ipv4: Ipv4Check, frame: Data): seq<Group> {
    var msg := IgmpOf(ipv4, frame);
    if msg.None? then [] else ReportedGroups(msg.value)
  }

  function JoinAll(c: Config, s: Switch, p: PeerId, groups: seq<Group>, now: int): Switch
    requires p in s.peers
    decreases groups
  {
    if groups == [] then s else JoinAll(c, Join(c, s, p, groups[0], now), p, groups[1..], now)
  }

  lemma {:induction false} JoinNext(c: Config, s: Switch, p: PeerId, g: Group, rest: seq<Group>, now: int)
    requires p in s.peers
    ensures JoinAll(c, s, p, [g] + rest, now) == JoinAll(c, Join(c, s, p, g, now), p, rest, now)
  {
    assert ([g] + rest)[1..] == rest;
  }

  lemma LearnKeepsPeers(c: Config, s: Switch, p: PeerId, mac: Mac)
    requires p in s.peers
    ensures p in LearnMac(c, s, p, mac).peers
  {
  }

  /** A frame received from a peer: its source address and its membership reports are learned. */
  function Observed(c: Config, s: Switch, p: PeerId, ipv4: Ipv4Check, frame: Data, now: int): Switch
    requires p in s.peers
  {
    if |frame| < ETHERNET_HEADER then s
    else JoinAll(c, LearnMac(c, s, p, frame[6..12]), p, ReportedIn(ipv4, frame), now)
  }

  /** A frame from the local device: a group-specific query shortens memberships. */
  function Heard(c: Config, s: Switch, ipv4: Ipv4Check, frame: Data, now: int): Switch {
    var msg := IgmpOf(ipv4, frame);
    if msg.Some? && QueriedGroup(msg.value).Some?
    then LowerTimers(s, QueriedGroup(msg.value).value, now + c.lastMemberQueryTime)
    else s
  }
}
