/**
 LineBuffer cuts a byte stream into packets: lines, or pieces of the buffer's size when a line is
 too long.  The packets are a function of the stream alone, however it was cut into receives.
 */
module LineBufferSpec {
  import opened Bytes

  /** The length of the first packet of a stream, 0 if more data is needed to tell. */
  function NextLen(s: Data, size: nat, nl: Byte): (n: nat)
    ensures n <= |s| && n <= size
  {
    var k := Scan(s, size, nl, 0);
    if k < |s| && k < size then k + 1 else if |s| >= size then size else 0
  }

  /** The first newline from a position on, within the first `size` bytes. */
  function Scan(s: Data, size: nat, nl: Byte, from: nat): (k: nat)
    ensures from <= k
    ensures forall i :: from <= i < k && i < |s| && i < size ==> s[i] != nl
    ensures k < |s| && k < size ==> s[k] == nl
    decreases |s| - from
  {
    if from >= |s| || from >= size then from
    else if s[from] == nl then from
    else Scan(s, size, nl, from + 1)
  }

  function Packets(s: Data, size: nat, nl: Byte): seq<Data>
    decreases |s|
  {
    var n := NextLen(s, size, nl);
    if n == 0 then [] else [s[..n]] + Packets(s[n..], size, nl)
  }

  function Flat(ps: seq<Data>): Data {
    if ps == [] then [] else ps[0] + Flat(ps[1..])
  }

  /** The packets are the stream, up to a rest that is no packet yet. */
  lemma {:induction false} PacketsAreStream(s: Data, size: nat, nl: Byte)
    requires size > 0
    ensures Flat(Packets(s, size, nl)) <= s
    ensures |s| - |Flat(Packets(s, size, nl))| < size && nl !in s[|Flat(Packets(s, size, nl))|..]
    decreases |s|
  {
    var n := NextLen(s, size, nl);
    if n != 0 {
      PacketsAreStream(s[n..], size, nl);
      var ps := Packets(s, size, nl);
      assert ps[1..] == Packets(s[n..], size, nl);
      assert s == s[..n] + s[n..];
      assert s[|Flat(ps)|..] == s[n..][|Flat(ps[1..])|..];
    }
  }

  /** Every packet is a line, or as long as the buffer; it has a newline only at its end. */
  lemma {:induction false} PacketShape(s: Data, size: nat, nl: Byte, i: nat)
    requires size > 0 && i < |Packets(s, size, nl)|
    ensures var p := Packets(s, size, nl)[i];
      0 < |p| <= size && nl !in p[..|p|-1] && (p[|p|-1] == nl || |p| == size)
    decreases |s|
  {
    var n := NextLen(s, size, nl);
    if i > 0 {
      PacketShape(s[n..], size, nl, i - 1);
    }
  }

  /** More data does not change where a packet ends. */
  lemma NextLenStable(s: Data, t: Data, size: nat, nl: Byte)
    requires NextLen(s, size, nl) > 0
    ensures NextLen(s + t, size, nl) == NextLen(s, size, nl)
  {
    assert forall i :: 0 <= i < |s| ==> (s + t)[i] == s[i];
  }

  /** The stream has been cut into these packets and a rest. */
  ghost predicate Cut(s: Data, ps: seq<Data>, rest: Data, size: nat, nl: Byte)
    decreases ps
  {
    if ps == [] then s == rest
    else
      var n := NextLen(s, size, nl);
      n > 0 && ps[0] == s[..n] && Cut(s[n..], ps[1..], rest, size, nl)
  }

  lemma {:induction false} CutExtends(s: Data, ps: seq<Data>, rest: Data, size: nat, nl: Byte, t: Data)
    requires Cut(s, ps, rest, size, nl)
    ensures Cut(s + t, ps, rest + t, size, nl)
    decreases ps
  {
    if ps != [] {
      var n := NextLen(s, size, nl);
      NextLenStable(s, t, size, nl);
      CutExtends(s[n..], ps[1..], rest, size, nl, t);
      assert (s + t)[n..] == s[n..] + t && (s + t)[..n] == s[..n];
    }
  }

  lemma {:induction false} CutNext(s: Data, ps: seq<Data>, rest: Data, size: nat, nl: Byte)
    requires Cut(s, ps, rest, size, nl) && NextLen(rest, size, nl) > 0
    ensures var n := NextLen(rest, size, nl); Cut(s, ps + [rest[..n]], rest[n..], size, nl)
    decreases ps
  {
    var m := NextLen(rest, size, nl);
    var qs := ps + [rest[..m]];
    if ps == [] {
      assert qs[1..] == [];
    } else {
      var n := NextLen(s, size, nl);
      CutNext(s[n..], ps[1..], rest, size, nl);
      assert qs[1..] == ps[1..] + [rest[..m]];
    }
  }

  lemma {:induction false} CutIsPackets(s: Data, ps: seq<Data>, rest: Data, size: nat, nl: Byte)
    requires Cut(s, ps, rest, size, nl)
    ensures Packets(s, size, nl) == ps + Packets(rest, size, nl)
    decreases ps
  {
    if ps != [] {
      var n := NextLen(s, size, nl);
      CutIsPackets(s[n..], ps[1..], rest, size, nl);
      assert ps == [ps[0]] + ps[1..];
    }
  }
}

module LineBufferImpl {
  import opened Bytes
  import opened Buffers
  import opened LineBufferSpec

  // What a handler does next: pass a packet to the output, or receive into the free part.
  datatype Action = Send(packet: Data) | Receive(room: nat)

  class LineBuffer {
    const buf: array<Byte>
    const nl: Byte
    var used: nat
    var consumed: nat            // 0 while receiving
    ghost var stream: Data       // everything received
    ghost var sent: seq<Data>    // everything passed to the output

    ghost predicate Valid()
      reads this, buf
    {
      && 0 < buf.Length && consumed <= used <= buf.Length
      && Cut(stream, sent, buf[consumed..used], buf.Length, nl)
    }

    /** The buffer holds no complete packet, and all complete packets have been sent. */
    ghost predicate Receiving()
      reads this, buf
    {
      && consumed == 0 && used < buf.Length && nl !in buf[..used]
      && sent == Packets(stream, buf.Length, nl)
    }

    /** The packet being sent is the last one passed to the output. */
    ghost predicate Sending()
      reads this, buf
    {
      0 < consumed <= used <= buf.Length && sent != [] && sent[|sent|-1] == buf[..consumed]
    }

    constructor (size: nat, nl: Byte)
      requires size > 0
      ensures Valid() && Receiving() && stream == [] && sent == [] && buf.Length == size && this.nl == nl && fresh(buf)
    {
      this.nl := nl;
      used, consumed, stream, sent := 0, 0, [], [];
      buf := new Byte[size];
    }

    /** The end of both handlers, after a search for the newline that stopped at `i`. */
    method Proceed(i: nat) returns (a: Action)
      requires Valid() && consumed == 0 && i <= used
      requires nl !in buf[..i] && (i < used ==> buf[i] == nl)
      modifies this`consumed, this`sent
      ensures Valid() && stream == old(stream)
      ensures match a
        case Receive(room) => room > 0 && room == buf.Length - used && sent == old(sent) && Receiving()
        case Send(p) => Sending() && sent == old(sent) + [p]
    {
      assert buf[0..used] == buf[..used];
      ScanStops(buf[..used], buf.Length, nl, i);
      if i < used || used == buf.Length {
        CutNext(stream, sent, buf[..used], buf.Length, nl);
        consumed := if i < used then i + 1 else i;
        sent := sent + [buf[..consumed]];
        assert buf[..used][..consumed] == buf[..consumed] && buf[..used][consumed..] == buf[consumed..used];
        a := Send(buf[..consumed]);
      } else {
        CutIsPackets(stream, sent, buf[..used], buf.Length, nl);
        assert sent + [] == sent;
        a := Receive(buf.Length - used);
      }
    }

    /** input_handler_done */
    method InputDone(data: Data) returns (a: Action)
      requires Valid() && Receiving() && 0 < |data| <= buf.Length - used
      modifies this, buf
      ensures Valid() && stream == old(stream) + data
      ensures match a
        case Receive(room) => room > 0 && room == buf.Length - used && Receiving()
        case Send(p) => Sending() && sent == old(sent) + [p]
    {
      CutExtends(stream, sent, buf[consumed..used], buf.Length, nl, data);
      Fill(data);
      stream := stream + data;
      var i := used - |data|;
      while i < used && buf[i] != nl
        invariant used - |data| <= i <= used && nl !in buf[..i]
      {
        i := i + 1;
      }
      a := Proceed(i);
    }

    /** The receive itself: the data arrives after what is already in the buffer. */
    method Fill(data: Data)
      requires consumed <= used && used + |data| <= buf.Length
      modifies this`used, buf
      ensures used == old(used) + |data| && buf[..old(used)] == old(buf[..used])
      ensures buf[consumed..used] == old(buf[consumed..used]) + data
    {
      CopyInto(buf, used, data);
      assert buf[consumed..used] == old(buf[consumed..used]) by {
        assert buf[consumed..used] == buf[..used][consumed..];
      }
      assert buf[consumed..used + |data|] == buf[consumed..used] + buf[used..used + |data|];
      used := used + |data|;
    }

    /** output_handler_done */
    method OutputDone() returns (a: Action)
      requires Valid() && Sending()
      modifies this, buf
      ensures Valid() && stream == old(stream)
      ensures match a
        case Receive(room) => room > 0 && room == buf.Length - used && sent == old(sent) && Receiving()
        case Send(p) => Sending() && sent == old(sent) + [p]
    {
      Shift();
      var i := 0;
      while i < used && buf[i] != nl
        invariant i <= used && nl !in buf[..i]
      {
        i := i + 1;
      }
      a := Proceed(i);
    }

    /** memmove of the unconsumed part to the front */
    method Shift()
      requires consumed <= used <= buf.Length
      modifies this`used, this`consumed, buf
      ensures used == old(used) - old(consumed) && consumed == 0 && buf[consumed..used] == old(buf[consumed..used])
    {
      var c, n := consumed, used - consumed;
      ghost var rest := buf[consumed..used];
      for j := 0 to n
        invariant forall k :: 0 <= k < j ==> buf[k] == rest[k]
        invariant forall k :: c + j <= k < c + n ==> buf[k] == rest[k - c]
      {
        buf[j] := buf[j + c];
      }
      used, consumed := n, 0;
      assert buf[0..used] == rest;
    }
  }

  /** A search that stopped tells the length of the next packet. */
  lemma ScanStops(s: Data, size: nat, nl: Byte, i: nat)
    requires |s| <= size && i <= |s| && nl !in s[..i] && (i < |s| ==> s[i] == nl)
    ensures NextLen(s, size, nl) == if i < |s| then i + 1 else if |s| == size then size else 0
    ensures i == |s| ==> nl !in s
  {
    assert forall k :: 0 <= k < i ==> s[k] in s[..i];
  }
}
