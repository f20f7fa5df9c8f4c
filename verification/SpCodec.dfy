/**
 The work functions of SPProtoEncoder and SPProtoDecoder: the header, the hash and the padding are
 written into the plaintext buffer in place, and the decoder zeroes and restores the hash field of
 the packet it checks.
 */
module SpCodec {
  import opened Prelude
  import opened Bytes
  import opened Buffers
  import opened Align
  import opened SpWire

  /** memset to zero */
  method Clear(buf: array<Byte>, at: nat, len: nat)
    requires at + len <= buf.Length
    modifies buf
    ensures buf[..at] == old(buf[..at]) && buf[at..at + len] == Zeros(len)
    ensures buf[at + len..] == old(buf[at + len..])
  {
    for i := at to at + len
      invariant forall j :: at <= j < i ==> buf[j] == 0
      invariant buf[..at] == old(buf[..at]) && buf[at + len..] == old(buf[at + len..])
    {
      buf[i] := 0;
    }
  }

  /** The header, around a payload that is already in place. */
  method WriteHeader(p: Suite, buf: array<Byte>, m: Packet)
    requires SuiteOk(p) && PacketOk(p, m) && HeaderLen(p) + |m.payload| <= buf.Length
    requires buf[HeaderLen(p)..HeaderLen(p) + |m.payload|] == m.payload
    modifies buf
    ensures buf[..HeaderLen(p) + |m.payload|] == Plain(p, m)
  {
    var h, len := HeaderLen(p), HeaderLen(p) + |m.payload|;
    assert buf[h..len] == m.payload;
    if m.otp.Some? {
      CopyInto(buf, 0, Le16(m.otp.value.seed) + m.otp.value.word);
      assert buf[h..len] == old(buf[h..len]);
    }
    assert buf[..OtpLen(p)] == OtpBytes(m);
    if p.hash.Some? {
      WriteHash(p, buf, m);
    }
    ThreeParts(buf[..], OtpLen(p), h, len);
    assert buf[..][..len] == buf[..len] && buf[..][h..len] == buf[h..len];
  }

  method WriteHash(p: Suite, buf: array<Byte>, m: Packet)
    requires SuiteOk(p) && PacketOk(p, m) && HeaderLen(p) + |m.payload| <= buf.Length && p.hash.Some?
    requires buf[..OtpLen(p)] == OtpBytes(m) && buf[HeaderLen(p)..HeaderLen(p) + |m.payload|] == m.payload
    modifies buf
    ensures buf[..OtpLen(p)] == OtpBytes(m) && buf[OtpLen(p)..HeaderLen(p)] == Digest(p, OtpBytes(m), m.payload)
    ensures buf[HeaderLen(p)..HeaderLen(p) + |m.payload|] == m.payload
  {
    hide CipherOk, PacketOk;
    var o, h, len := OtpLen(p), HeaderLen(p), HeaderLen(p) + |m.payload|;
    Clear(buf, o, p.hash.value.size);
    SameSlice(buf[..], old(buf[..]), h, len);
    ThreeParts(buf[..], o, h, len);
    var digest := p.hash.value.digest(buf[..len]);
    label Hashed:
    CopyInto(buf, o, digest);
    SameSlice(buf[..], old@Hashed(buf[..]), h, len);
  }

  lemma SameSlice(a: Data, b: Data, h: nat, len: nat)
    requires h <= len <= |a| == |b| && (a[h..] == b[h..] || forall i :: h <= i < |a| ==> a[i] == b[i])
    ensures a[h..len] == b[h..len]
  {
    assert a[h..len] == a[h..][..len - h] && b[h..len] == b[h..][..len - h];
  }

  lemma ThreeParts(a: Data, o: nat, h: nat, len: nat)
    requires o <= h <= len <= |a|
    ensures a[..len] == a[..o] + a[o..h] + a[h..len]
  {
  }

  /** A 1 and then zeros up to the end of the block. */
  method WritePadding(buf: array<Byte>, len: nat, end: nat)
    requires len < end <= buf.Length
    modifies buf
    ensures buf[..end] == old(buf[..len]) + [1] + Zeros(end - len - 1)
  {
    buf[len] := 1;
    for i := len + 1 to end
      invariant buf[..len] == old(buf[..len]) && buf[len] == 1
      invariant forall j :: len < j < i ==> buf[j] == 0
    {
      buf[i] := 0;
    }
    assert buf[..end] == buf[..len] + [1] + buf[len + 1..end];
  }

  /** encode_work_func */
  method EncodeWork(p: Suite, buf: array<Byte>, m: Packet, iv: Data) returns (out: Data)
    requires SuiteOk(p) && PacketOk(p, m) && (p.cipher.Some? ==> |iv| == p.cipher.value.block)
    requires buf.Length >= if p.cipher.None? then HeaderLen(p) + |m.payload|
                           else AlignUp(HeaderLen(p) + |m.payload| + 1, p.cipher.value.block)
    requires p.cipher.Some? ==> HeaderLen(p) + |m.payload| < buf.Length
    requires buf[HeaderLen(p)..HeaderLen(p) + |m.payload|] == m.payload
    modifies buf
    ensures out == Encode(p, m, iv) && |out| == CarrierLen(p, |m.payload|)
  {
    hide Plain, Padded, Decode;
    DecodeOfEncode(p, m, iv, |m.payload|);
    WriteHeader(p, buf, m);
    var len := HeaderLen(p) + |m.payload|;
    if p.cipher.None? {
      out := buf[..len];
    } else {
      var end := AlignUp(len + 1, p.cipher.value.block);
      AlignUpIs(len + 1, p.cipher.value.block);
      PaddedIs(Plain(p, m), len, p.cipher.value.block);
      WritePadding(buf, len, end);
      out := iv + p.cipher.value.enc(iv, buf[..end]);
    }
  }

  lemma PaddedIs(plain: Data, len: nat, block: nat)
    requires block > 0 && |plain| == len
    ensures AlignUp(len + 1, block) > len
    ensures Padded(plain, block) == plain + [1] + Zeros(AlignUp(len + 1, block) - len - 1)
  {
    AlignUpIs(len + 1, block);
  }

  // ---- Decoding -------------------------------------------------------------------------------------------

  /** The backward search for the padding byte. */
  method FindPadding(plain: Data, block: nat) returns (r: Option<nat>)
    requires 0 < block <= |plain|
    ensures r == PadStart(plain, |plain| - 1, |plain| - block)
  {
    var i := |plain| - 1;
    while i >= |plain| - block
      invariant |plain| - block - 1 <= i < |plain|
      invariant PadStart(plain, i, |plain| - block) == PadStart(plain, |plain| - 1, |plain| - block)
      decreases i
    {
      if plain[i] == 1 {
        return Some(i);
      }
      if plain[i] != 0 {
        return None;
      }
      i := i - 1;
    }
    return None;
  }

  /** Whether the hash field is right; the packet is left as it was. */
  method CheckHash(h: Hash, buf: array<Byte>, at: nat, len: nat) returns (ok: bool)
    requires HashOk(h) && at + h.size <= len <= buf.Length
    modifies buf
    ensures buf[..] == old(buf[..])
    ensures ok <==> buf[at..at + h.size] == h.digest(buf[..at] + Zeros(h.size) + buf[at + h.size..len])
  {
    var e := at + h.size;
    ghost var before := buf[..];
    var hash := buf[at..e];
    Clear(buf, at, h.size);
    assert buf[e..len] == buf[e..][..len - e] && before[e..len] == before[e..][..len - e];
    assert buf[..len] == before[..at] + Zeros(h.size) + before[e..len];
    var calculated := h.digest(buf[..len]);
    CopyInto(buf, at, hash);
    assert forall i :: 0 <= i < buf.Length ==> buf[i] == before[i] by {
      assert buf[..at] == before[..at] && buf[at..e] == before[at..e];
    }
    assert buf[..] == before;
    ok := hash == calculated;
  }

  /** The header checks of decode_work_func */
  method OpenPlain(p: Suite, buf: array<Byte>, len: nat, mtu: nat) returns (r: Option<Packet>)
    requires SuiteOk(p) && len <= buf.Length
    modifies buf
    ensures buf[..] == old(buf[..]) && r == Open(p, buf[..len], mtu)
  {
    ghost var plain := buf[..len];
    if len < HeaderLen(p) {
      return None;
    }
    if len - HeaderLen(p) > mtu {
      return None;
    }
    var otp := None;
    if p.otp {
      assert buf[..OtpLen(p)] == plain[..OtpLen(p)];
      otp := Some(Otp(FromLe16(buf[..OtpLen(p)], 0), buf[2..OtpLen(p)]));
      assert plain[..OtpLen(p)][2..] == buf[2..OtpLen(p)];
    }
    if p.hash.Some? {
      var ok := CheckHash(p.hash.value, buf, OtpLen(p), len);
      assert buf[..len] == plain;
      assert buf[..OtpLen(p)] == plain[..OtpLen(p)] && buf[HeaderLen(p)..len] == plain[HeaderLen(p)..];
      assert buf[OtpLen(p)..HeaderLen(p)] == plain[OtpLen(p)..HeaderLen(p)];
      if !ok {
        return None;
      }
    }
    assert buf[HeaderLen(p)..len] == plain[HeaderLen(p)..];
    return Some(Packet(otp, buf[HeaderLen(p)..len]));
  }

  /** decode_work_func; without a key an encrypted packet cannot be read */
  method DecodeWork(p: Suite, input: array<Byte>, len: nat, haveKey: bool, mtu: nat) returns (r: Option<Packet>)
    requires SuiteOk(p) && len <= input.Length
    modifies input
    ensures input[..] == old(input[..])
    ensures r == if p.cipher.Some? && !haveKey then None else Decode(p, input[..len], mtu)
  {
    hide Open;
    if p.cipher.None? {
      r := OpenPlain(p, input, len, mtu);
      return;
    }
    var n := p.cipher.value.block;
    if len % n != 0 || len < n || !haveKey {
      return None;
    }
    assert input[..len][..n] == input[..n] && input[..len][n..] == input[n..len];
    PlusOne(len - n, n);
    var plain := p.cipher.value.dec(input[..n], input[n..len]);
    if |plain| < n {
      return None;
    }
    var i := FindPadding(plain, n);
    if i.None? {
      return None;
    }
    var buf := new Byte[|plain|](k requires 0 <= k < |plain| => plain[k]);
    assert buf[..] == plain && buf[..i.value] == plain[..i.value];
    r := OpenPlain(p, buf, i.value, mtu);
  }
}
