/**
 IGMP messages as their senders write them, and what the frame decider reads from them.
 */
module IgmpWire {
  import opened Prelude
  import opened Bytes
  import opened SwitchSpec
  import opened Igmp

  // A record of a version 3 report (section 4.2 of RFC 3376).  Sources and auxiliary data come in
  // words of four bytes.
  datatype Rec = Rec(kind: Byte, sources: seq<Data>, group: Group, aux: seq<Data>)

  predicate Words(ws: seq<Data>) {
    forall i :: 0 <= i < |ws| ==> |ws[i]| == 4
  }

  predicate RecOk(r: Rec) {
    && |r.sources| < 0x1_0000 && |r.aux| < 0x100 && r.group < 0x1_0000_0000
    && Words(r.sources) && Words(r.aux)
  }

  predicate AllOk(rs: seq<Rec>) {
    forall i :: 0 <= i < |rs| ==> RecOk(rs[i])
  }

  function Flatten(sources: seq<Data>): Data {
    if sources == [] then [] else sources[0] + Flatten(sources[1..])
  }

  lemma {:induction false} FlattenLength(sources: seq<Data>)
    requires Words(sources)
    ensures |Flatten(sources)| == 4 * |sources|
  {
    if sources != [] {
      FlattenLength(sources[1..]);
    }
  }

  function EncodeRec(r: Rec): Data
    requires RecOk(r)
  {
    [r.kind, |r.aux|] + ToBe16(|r.sources|) + ToBe32(r.group) + Flatten(r.sources) + Flatten(r.aux)
  }

  /** Whether a record means membership: any exclude mode, or an include mode with sources. */
  predicate Joins(r: Rec) {
    r.kind == 2 || r.kind == 4 || ((r.kind == 1 || r.kind == 3) && r.sources != [])
  }

  function JoinedGroups(rs: seq<Rec>): seq<Group> {
    if rs == [] then [] else (if Joins(rs[0]) then [rs[0].group] else []) + JoinedGroups(rs[1..])
  }

  function EncodeRecs(rs: seq<Rec>): Data
    requires AllOk(rs)
  {
    if rs == [] then [] else EncodeRec(rs[0]) + EncodeRecs(rs[1..])
  }

  function Joined(r: Rec): Option<Group> {
    if Joins(r) then Some(r.group) else None
  }

  /** What the code makes of a record: it looks for the next one 252 bytes too far for every word of
      auxiliary data. */
  lemma RecordOfEncode(r: Rec, rest: Data)
    requires RecOk(r)
    ensures Record(EncodeRec(r) + rest) ==
      if |rest| < 252 * |r.aux| then None else Some((Joined(r), rest[252 * |r.aux|..]))
  {
    FlattenLength(r.sources);
    FlattenLength(r.aux);
    var s, n, a := EncodeRec(r) + rest, 4 * |r.sources|, 4 * |r.aux|;
    var head, tail := [r.kind, |r.aux|] + ToBe16(|r.sources|), Flatten(r.sources) + Flatten(r.aux) + rest;
    assert s == head + ToBe32(r.group) + tail;
    Be32OfToBe32(r.group, head, tail);
    assert Be16(s, 2) == |r.sources| && s[1] == |r.aux|;
    assert |s| == 8 + n + a + |rest|;
    assert s[8 + n + a..] == rest;
    var size := 8 + n + AuxLen(s[1]);
    if size <= |s| {
      assert s[size..] == rest[size - 8 - n - a..];
    }
  }

  /** A record is read as what it states, and reading goes on right after it, if and only if it has
      no auxiliary data. */
  lemma RecordReadIffNoAux(r: Rec, rest: Data)
    requires RecOk(r)
    ensures Record(EncodeRec(r) + rest) == Some((Joined(r), rest)) <==> r.aux == []
  {
    RecordOfEncode(r, rest);
  }

  /** Records are read up to the first one with auxiliary data; if less data follows that one than the
      code skips in vain, neither it nor anything after it is read. */
  lemma {:induction false} RecordGroupsOfEncode(rs: seq<Rec>, k: nat)
    requires AllOk(rs) && k <= |rs| && forall i :: 0 <= i < k ==> rs[i].aux == []
    requires k < |rs| ==> rs[k].aux != [] && |EncodeRecs(rs[k+1..])| < 252 * |rs[k].aux|
    ensures RecordGroups(EncodeRecs(rs), |rs|) == JoinedGroups(rs[..k])
  {
    hide EncodeRec, RecOk, Record;
    if rs != [] {
      RecordOfEncode(rs[0], EncodeRecs(rs[1..]));
      if k > 0 {
        assert k < |rs| ==> rs[1..][k..] == rs[k+1..];
        RecordGroupsOfEncode(rs[1..], k - 1);
        assert rs[..k][1..] == rs[1..][..k-1];
      }
    }
  }

  function EncodeReport(rs: seq<Rec>, checksum: Data, reserved: Data): Data
    requires |rs| < 0x1_0000 && |checksum| == 2 && |reserved| == 2
    requires AllOk(rs)
  {
    [0x22, 0] + checksum + reserved + ToBe16(|rs|) + EncodeRecs(rs)
  }

  /** A version 3 report is read up to its first record with auxiliary data, at k, if less data
      follows that record than the code skips in vain. */
  lemma ReportRead(rs: seq<Rec>, checksum: Data, reserved: Data, k: nat)
    requires |rs| < 0x1_0000 && |checksum| == 2 && |reserved| == 2
    requires AllOk(rs) && k <= |rs| && forall i :: 0 <= i < k ==> rs[i].aux == []
    requires k < |rs| ==> rs[k].aux != [] && |EncodeRecs(rs[k+1..])| < 252 * |rs[k].aux|
    ensures ReportedGroups(EncodeReport(rs, checksum, reserved)) == JoinedGroups(rs[..k])
  {
    hide RecordGroups, EncodeRecs, RecOk, JoinedGroups, ToBe16, Be16;
    var msg, head := EncodeReport(rs, checksum, reserved), [0x22, 0] + checksum + reserved;
    Be16OfToBe16(|rs|, head, EncodeRecs(rs));
    assert msg == head + ToBe16(|rs|) + EncodeRecs(rs);
    assert msg[8..] == EncodeRecs(rs);
    RecordGroupsOfEncode(rs, k);
  }

  lemma {:induction false} JoinedSplit(rs: seq<Rec>, k: nat)
    requires k <= |rs|
    ensures JoinedGroups(rs) == JoinedGroups(rs[..k]) + JoinedGroups(rs[k..])
  {
    if k > 0 {
      JoinedSplit(rs[1..], k - 1);
      assert rs[..k][1..] == rs[1..][..k-1] && rs[1..][k-1..] == rs[k..];
    }
  }

  /** Such a report is read as the memberships it states if and only if the records from the one with
      auxiliary data on state none. */
  lemma ReportReadIff(rs: seq<Rec>, checksum: Data, reserved: Data, k: nat)
    requires |rs| < 0x1_0000 && |checksum| == 2 && |reserved| == 2
    requires AllOk(rs) && k <= |rs| && forall i :: 0 <= i < k ==> rs[i].aux == []
    requires k < |rs| ==> rs[k].aux != [] && |EncodeRecs(rs[k+1..])| < 252 * |rs[k].aux|
    ensures ReportedGroups(EncodeReport(rs, checksum, reserved)) == JoinedGroups(rs) <==> JoinedGroups(rs[k..]) == []
  {
    hide RecOk, JoinedGroups, EncodeRecs, EncodeReport, ReportedGroups;
    ReportRead(rs, checksum, reserved, k);
    JoinedSplit(rs, k);
  }

  /** A version 3 report without auxiliary data is read as the memberships it states. */
  lemma {:induction false} ReportRoundTrip(rs: seq<Rec>, checksum: Data, reserved: Data)
    requires |rs| < 0x1_0000 && |checksum| == 2 && |reserved| == 2
    requires AllOk(rs) && forall i :: 0 <= i < |rs| ==> rs[i].aux == []
    ensures ReportedGroups(EncodeReport(rs, checksum, reserved)) == JoinedGroups(rs)
  {
    ReportRead(rs, checksum, reserved, |rs|);
    assert rs[..|rs|] == rs;
  }

  /** A report of two memberships of which none is learned, because the first record carries one word
      of auxiliary data. */
  lemma MembershipAfterAuxLost()
    ensures
      var rs := [Rec(4, [], 0xe0000105, [[0, 0, 0, 0]]), Rec(4, [], 0xe0000106, [])];
      && AllOk(rs) && JoinedGroups(rs) == [0xe0000105, 0xe0000106]
      && ReportedGroups(EncodeReport(rs, [0, 0], [0, 0])) == []
  {
    var a, b := Rec(4, [], 0xe0000105, [[0, 0, 0, 0]]), Rec(4, [], 0xe0000106, []);
    var rs := [a, b];
    assert rs[1..] == [b] && [b][1..] == [];
    assert |EncodeRecs([b])| == 8;
    ReportRead(rs, [0, 0], [0, 0], 0);
  }

  /** A version 2 report is read as the one membership it states. */
  lemma V2ReportRoundTrip(g: Group, code: Byte, checksum: Data, rest: Data)
    requires g < 0x1_0000_0000 && |checksum| == 2
    ensures ReportedGroups([0x16, code] + checksum + ToBe32(g) + rest) == [g]
  {
    Be32OfToBe32(g, [0x16, code] + checksum, rest);
  }

  /** Nothing but reports of version 2 and 3 reports memberships. */
  lemma OnlyReports(msg: Data)
    requires ReportedGroups(msg) != []
    ensures |msg| >= 8 && (msg[0] == 0x16 || msg[0] == 0x22)
  {
  }

  /** A query of version 2 is group-specific exactly if it names a group and its response time is not
      zero, which would make it a query of version 1. */
  lemma QueryRoundTrip(g: Group, code: Byte, checksum: Data)
    requires g < 0x1_0000_0000 && |checksum| == 2
    ensures QueriedGroup([0x11, code] + checksum + ToBe32(g)) == if g != 0 && code != 0 then Some(g) else None
  {
    var msg := [0x11, code] + checksum + ToBe32(g);
    assert msg[4..] == [] + ToBe32(g) + [];
    Be32OfToBe32(g, [], []);
  }

  lemma QueryV3Fields(msg: Data, g: nat, n: nat)
    requires |msg| >= 12 && msg[0] == 0x11 && Be32(msg[4..], 0) == g && Be16(msg[4..], 6) == n
    ensures QueriedGroup(msg) == if g != 0 && n == 0 then Some(g) else None
  {
    hide Be32, Be16;
  }

  /** A query of version 3 is group-specific exactly if it names a group and no sources. */
  lemma {:induction false} QueryV3RoundTrip(g: Group, code: Byte, checksum: Data, flags: Data, sources: seq<Data>)
    requires g < 0x1_0000_0000 && |checksum| == 2 && |flags| == 2 && |sources| < 0x1_0000
    requires Words(sources)
    ensures QueriedGroup([0x11, code] + checksum + (ToBe32(g) + flags + ToBe16(|sources|) + Flatten(sources))) ==
            if g != 0 && sources == [] then Some(g) else None
  {
    hide Flatten, Words, ToBe16, ToBe32, Be16, Be32, QueriedGroup;
    var g4, n2 := ToBe32(g), ToBe16(|sources|);
    var rest := g4 + flags + n2 + Flatten(sources);
    var msg := [0x11, code] + checksum + rest;
    assert msg[4..] == rest;
    assert rest == [] + g4 + (flags + n2 + Flatten(sources));
    Be32OfToBe32(g, [], flags + n2 + Flatten(sources));
    assert rest == (g4 + flags) + n2 + Flatten(sources);
    Be16OfToBe16(|sources|, g4 + flags, Flatten(sources));
    QueryV3Fields(msg, g, |sources|);
  }

  // ---- From the frame to the members ----------------------------------------------------------------

  lemma TargetOfGroupFrame(ipv4: Ipv4Check, frame: Data, g: Group)
    requires |frame| >= ETHERNET_HEADER && frame[..6] == GroupMac(g) && IgmpOf(ipv4, frame).None?
    ensures TargetOf(ipv4, frame) == ToGroup(SigOfGroup(g))
  {
    SigOfGroupMac(g);
    assert GroupMac(g)[..3] == MULTICAST_PREFIX;
    assert GroupMac(g)[0] == 1;
  }

  lemma {:induction false} PeerListed(refs: seq<Ref>, p: PeerId)
    ensures p in PeersOf(refs) <==> exists r :: r in Elems(refs) && r.peer == p
  {
    ElemsIn(refs);
    if p in PeersOf(refs) {
      var i :| 0 <= i < |refs| && PeersOf(refs)[i] == p;
      assert refs[i] in Elems(refs);
    }
    if r :| r in Elems(refs) && r.peer == p {
      var i :| 0 <= i < |refs| && refs[i] == r;
      assert PeersOf(refs)[i] == p;
    }
  }

  /** A frame for a multicast group reaches every member of the group, and nobody but members of
      groups with the same low 23 bits. */
  lemma GroupFrameReaches(c: Config, s: Switch, ipv4: Ipv4Check, frame: Data, g: Group, out: seq<PeerId>, p: PeerId)
    requires Inv(c, s) && |frame| >= ETHERNET_HEADER && frame[..6] == GroupMac(g) && IgmpOf(ipv4, frame).None?
    requires (forall q :: q in s.order ==> q in s.peers) && Scan(s, TargetOf(ipv4, frame), out)
    ensures p in s.peers && g in Elems(GroupsOf(s.peers[p].groups)) ==> p in out
    ensures p in out ==> p in s.peers && exists h :: h in Elems(GroupsOf(s.peers[p].groups)) && SigOfGroup(h) == SigOfGroup(g)
  {
    hide Elems, Listeners, Distinct;
    TargetOfGroupFrame(ipv4, frame, g);
    var sig := SigOfGroup(g);
    var refs := Listeners(s, s.order, sig);
    ListenersAre(c, s, s.order, sig);
    PeerListed(refs, p);
    assert p in out <==> p in PeersOf(refs) by {
      assert p in multiset(out) <==> p in multiset(PeersOf(refs));
    }
    if p in s.peers && g in Elems(GroupsOf(s.peers[p].groups)) {
      assert Matches(s, Ref(p, g), sig);
    }
    if p in out {
      var r :| r in Elems(refs) && r.peer == p;
      assert Matches(s, r, sig);
    }
  }
}
