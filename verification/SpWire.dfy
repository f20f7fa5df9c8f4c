/**
 SPProto on the wire: one-time password data, a hash over the packet with its hash field zeroed, and
 encryption with padding.  Hash and cipher are parameters: any hash function, and any cipher that is
 invertible on whole blocks.
 */
module SpWire {
  import opened Prelude
  import opened Bytes
  import opened Align

  datatype Hash = Hash(size: nat, digest: Data -> Data)

  datatype Cipher = Cipher(block: nat, enc: (Data, Data) -> Data, dec: (Data, Data) -> Data)

  datatype Suite = Suite(otp: bool, hash: Option<Hash>, cipher: Option<Cipher>)

  ghost predicate HashOk(h: Hash) {
    forall x :: |h.digest(x)| == h.size
  }

  /** Encryption and decryption keep the length and undo each other. */
  ghost predicate CipherOk(c: Cipher) {
    && c.block > 0
    && (forall iv, x :: |x| % c.block == 0 ==> |c.enc(iv, x)| == |x| && c.dec(iv, c.enc(iv, x)) == x)
    && (forall iv, x :: |x| % c.block == 0 ==> |c.dec(iv, x)| == |x| && c.enc(iv, c.dec(iv, x)) == x)
  }

  ghost predicate SuiteOk(p: Suite) {
    (p.hash.Some? ==> HashOk(p.hash.value)) && (p.cipher.Some? ==> CipherOk(p.cipher.value))
  }

  // seed id and password of a packet; the password's bytes go out as they are in memory
  datatype Otp = Otp(seed: nat, word: Data)

  datatype Packet = Packet(otp: Option<Otp>, payload: Data)

  predicate PacketOk(p: Suite, m: Packet) {
    m.otp.Some? == p.otp && (m.otp.Some? ==> m.otp.value.seed < 0x1_0000 && |m.otp.value.word| == 4)
  }

  // ---- Lengths ----------------------------------------------------------------------------------------

  const OTP_DATA: nat := 6

  function OtpLen(p: Suite): nat {
    if p.otp then OTP_DATA else 0
  }

  function HashLen(p: Suite): nat {
    if p.hash.Some? then p.hash.value.size else 0
  }

  function HeaderLen(p: Suite): nat {
    OtpLen(p) + HashLen(p)
  }

  /** The length of the packet that carries a payload. */
  function CarrierLen(p: Suite, payload: nat): nat
    requires p.cipher.Some? ==> p.cipher.value.block > 0
  {
    if p.cipher.None? then HeaderLen(p) + payload
    else p.cipher.value.block + AlignUp(HeaderLen(p) + payload + 1, p.cipher.value.block)
  }

  /** spproto_payload_mtu_for_carrier_mtu */
  function PayloadMtu(p: Suite, carrier: nat): int
    requires p.cipher.Some? ==> p.cipher.value.block > 0
  {
    if p.cipher.None? then carrier - HeaderLen(p)
    else AlignDown(carrier, p.cipher.value.block) - p.cipher.value.block - HeaderLen(p) - 1
  }

  /** The payload MTU is exact: a payload fits into a carrier packet exactly up to that length. */
  lemma PayloadMtuExact(p: Suite, carrier: nat, payload: nat)
    requires p.cipher.Some? ==> p.cipher.value.block > 0
    ensures CarrierLen(p, payload) <= carrier <==> payload <= PayloadMtu(p, carrier)
  {
    if p.cipher.Some? {
      UpAndDown(HeaderLen(p) + payload + 1, carrier, p.cipher.value.block);
    }
  }

  // ---- Encoding -----------------------------------------------------------------------------------------

  function OtpBytes(m: Packet): Data
    requires m.otp.Some? ==> m.otp.value.seed < 0x1_0000
  {
    if m.otp.None? then [] else Le16(m.otp.value.seed) + m.otp.value.word
  }

  function Digest(p: Suite, otp: Data, payload: Data): Data {
    if p.hash.None? then [] else p.hash.value.digest(otp + Zeros(p.hash.value.size) + payload)
  }

  /** Header and payload. */
  function Plain(p: Suite, m: Packet): Data
    requires PacketOk(p, m)
  {
    OtpBytes(m) + Digest(p, OtpBytes(m), m.payload) + m.payload
  }

  function Padded(plain: Data, block: nat): Data
    requires block > 0
  {
    AlignUpIs(|plain| + 1, block);
    plain + [1] + Zeros(AlignUp(|plain| + 1, block) - |plain| - 1)
  }

  function Encode(p: Suite, m: Packet, iv: Data): Data
    requires PacketOk(p, m) && (p.cipher.Some? ==> p.cipher.value.block > 0)
  {
    if p.cipher.None? then Plain(p, m)
    else iv + p.cipher.value.enc(iv, Padded(Plain(p, m), p.cipher.value.block))
  }

  // ---- Decoding -----------------------------------------------------------------------------------------

  /** Where the padding starts: the last byte that is not zero, if it is a 1 in the last block. */
  function PadStart(plain: Data, from: int, lowest: nat): (r: Option<nat>)
    requires from < |plain|
    ensures r.Some? ==> lowest <= r.value <= from
    decreases from
  {
    if from < lowest then None
    else if plain[from] == 1 then Some(from)
    else if plain[from] != 0 then None
    else PadStart(plain, from - 1, lowest)
  }

  function Unpadded(plain: Data, block: nat): Option<Data> {
    if |plain| < block then None
    else
      var i := PadStart(plain, |plain| - 1, |plain| - block);
      if i.None? then None else Some(plain[..i.value])
  }

  function Open(p: Suite, plain: Data, mtu: nat): Option<Packet> {
    if |plain| < HeaderLen(p) || |plain| - HeaderLen(p) > mtu then None
    else
      var otp, digest, payload := plain[..OtpLen(p)], plain[OtpLen(p)..HeaderLen(p)], plain[HeaderLen(p)..];
      if p.hash.Some? && digest != p.hash.value.digest(otp + Zeros(p.hash.value.size) + payload) then None
      else Some(Packet(if p.otp then Some(Otp(FromLe16(otp, 0), otp[2..])) else None, payload))
  }

  function Decode(p: Suite, s: Data, mtu: nat): Option<Packet>
    requires p.cipher.Some? ==> p.cipher.value.block > 0
  {
    if p.cipher.None? then Open(p, s, mtu)
    else
      var n := p.cipher.value.block;
      if |s| % n != 0 || |s| < n then None
      else
        var plain := Unpadded(p.cipher.value.dec(s[..n], s[n..]), n);
        if plain.None? then None else Open(p, plain.value, mtu)
  }

  // ---- They undo each other ------------------------------------------------------------------------------

  lemma OpenOfPlain(p: Suite, m: Packet, mtu: nat)
    requires SuiteOk(p) && PacketOk(p, m) && |m.payload| <= mtu
    ensures Open(p, Plain(p, m), mtu) == Some(m)
  {
    var plain, otp := Plain(p, m), OtpBytes(m);
    assert |Digest(p, otp, m.payload)| == HashLen(p);
    assert plain[..OtpLen(p)] == otp;
    assert plain[OtpLen(p)..HeaderLen(p)] == Digest(p, otp, m.payload);
    assert plain[HeaderLen(p)..] == m.payload;
    if p.otp {
      Le16RoundTrip(m.otp.value.seed);
      assert otp[2..] == m.otp.value.word;
      assert FromLe16(otp, 0) == FromLe16(Le16(m.otp.value.seed), 0);
    }
  }

  lemma PlainOfOpen(p: Suite, plain: Data, mtu: nat)
    requires SuiteOk(p) && Open(p, plain, mtu).Some?
    ensures PacketOk(p, Open(p, plain, mtu).value) && Plain(p, Open(p, plain, mtu).value) == plain
    ensures |Open(p, plain, mtu).value.payload| <= mtu
  {
    var m := Open(p, plain, mtu).value;
    var otp := plain[..OtpLen(p)];
    if p.otp {
      assert Le16(FromLe16(otp, 0)) == otp[..2];
      assert otp[..2] + otp[2..] == otp;
    }
    assert OtpBytes(m) == otp;
    assert plain == otp + plain[OtpLen(p)..HeaderLen(p)] + plain[HeaderLen(p)..];
  }

  lemma {:induction false} PadFound(plain: Data, from: int, lowest: nat, at: nat)
    requires lowest <= at <= from < |plain| && plain[at] == 1 && forall i :: at < i <= from ==> plain[i] == 0
    ensures PadStart(plain, from, lowest) == Some(at)
    decreases from
  {
    if at < from {
      PadFound(plain, from - 1, lowest, at);
    }
  }

  lemma {:induction false} PadIs(plain: Data, from: int, lowest: nat)
    requires from < |plain| && PadStart(plain, from, lowest).Some?
    ensures var i := PadStart(plain, from, lowest).value;
      plain[i] == 1 && forall j :: i < j <= from ==> plain[j] == 0
    decreases from
  {
    if plain[from] != 1 {
      PadIs(plain, from - 1, lowest);
    }
  }

  lemma UnpaddedOfPadded(plain: Data, block: nat)
    requires block > 0
    ensures |Padded(plain, block)| % block == 0 && Unpadded(Padded(plain, block), block) == Some(plain)
  {
    AlignUpIs(|plain| + 1, block);
    var s := Padded(plain, block);
    PaddedReaches(|plain| + 1, block);
    PadFound(s, |s| - 1, |s| - block, |plain|);
    assert s[..|plain|] == plain;
  }

  lemma PaddedReaches(x: nat, n: nat)
    requires n > 0 && x > 0
    ensures AlignUp(x, n) >= n
  {
    AlignUpIs(x, n);
    assert 0 % n == 0;
    Apart(0, AlignUp(x, n), n);
  }

  lemma PaddedOfUnpadded(s: Data, block: nat)
    requires block > 0 && |s| % block == 0 && Unpadded(s, block).Some?
    ensures Padded(Unpadded(s, block).value, block) == s
  {
    PadIs(s, |s| - 1, |s| - block);
    var i := PadStart(s, |s| - 1, |s| - block).value;
    AlignUpUnique(i + 1, |s|, block);
  }

  lemma PlainLength(p: Suite, m: Packet)
    requires SuiteOk(p) && PacketOk(p, m)
    ensures |Plain(p, m)| == HeaderLen(p) + |m.payload|
  {
  }

  lemma PaddedLength(plain: Data, block: nat)
    requires block > 0
    ensures |Padded(plain, block)| == AlignUp(|plain| + 1, block)
  {
    AlignUpIs(|plain| + 1, block);
  }

  /** Decoding an encoding gives back the packet. */
  lemma DecodeOfEncode(p: Suite, m: Packet, iv: Data, mtu: nat)
    requires SuiteOk(p) && PacketOk(p, m) && |m.payload| <= mtu
    requires p.cipher.Some? ==> |iv| == p.cipher.value.block
    ensures Decode(p, Encode(p, m, iv), mtu) == Some(m)
    ensures |Encode(p, m, iv)| == CarrierLen(p, |m.payload|)
  {
    hide Plain, Open, Padded, Unpadded, HashOk, AlignUp;
    OpenOfPlain(p, m, mtu);
    PlainLength(p, m);
    if p.cipher.Some? {
      var n, plain := p.cipher.value.block, Plain(p, m);
      UnpaddedOfPadded(plain, n);
      PaddedLength(plain, n);
      var s := Encode(p, m, iv);
      assert s[..n] == iv && s[n..] == p.cipher.value.enc(iv, Padded(plain, n));
      PlusOne(|Padded(plain, n)|, n);
    }
  }

  /** An accepted packet is the encoding of what it decodes to, under the same IV. */
  lemma EncodeOfDecode(p: Suite, s: Data, mtu: nat)
    requires SuiteOk(p) && Decode(p, s, mtu).Some?
    ensures var m := Decode(p, s, mtu).value;
      && PacketOk(p, m) && |m.payload| <= mtu
      && (p.cipher.Some? ==> p.cipher.value.block <= |s|)
      && Encode(p, m, if p.cipher.Some? then s[..p.cipher.value.block] else []) == s
  {
    if p.cipher.None? {
      PlainOfOpen(p, s, mtu);
    } else {
      var c, n := p.cipher.value, p.cipher.value.block;
      var iv, body := s[..n], s[n..];
      PlusOne(|body|, n);
      var padded := c.dec(iv, body);
      PaddedOfUnpadded(padded, n);
      PlainOfOpen(p, Unpadded(padded, n).value, mtu);
      assert s == iv + body;
    }
  }
}
