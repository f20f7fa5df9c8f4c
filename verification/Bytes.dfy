/** Bytes, and the integers that packed protocol structs store in them. */
module Bytes {

  type Byte = b: int | 0 <= b < 256

  type Data = seq<Byte>

  function Zeros(n: nat): (z: Data)
    ensures |z| == n
  {
    seq(n, _ => 0)
  }

  function Le16(n: nat): (r: Data)
    requires n < 0x1_0000
    ensures |r| == 2
  {
    [n % 256, n / 256]
  }

  function FromLe16(s: Data, at: nat): (n: nat)
    requires at + 2 <= |s|
    ensures n < 0x1_0000
  {
    s[at] as int + 256 * (s[at + 1] as int)
  }

  lemma Le16RoundTrip(n: nat)
    requires n < 0x1_0000
    ensures FromLe16(Le16(n), 0) == n
  {
  }

  // ---- Network byte order -------------------------------------------------------------------------

  function Be16(s: Data, at: nat): nat
    requires at + 2 <= |s|
  {
    s[at] as int * 0x100 + s[at + 1] as int
  }

  function Be32(s: Data, at: nat): nat
    requires at + 4 <= |s|
  {
    Be16(s, at) * 0x1_0000 + Be16(s, at + 2)
  }

  function ToBe16(n: nat): (s: Data)
    requires n < 0x1_0000
    ensures |s| == 2
  {
    [n / 0x100, n % 0x100]
  }

  function ToBe32(n: nat): (s: Data)
    requires n < 0x1_0000_0000
    ensures |s| == 4
  {
    ToBe16(n / 0x1_0000) + ToBe16(n % 0x1_0000)
  }

  lemma Be16OfToBe16(n: nat, before: Data, after: Data)
    requires n < 0x1_0000
    ensures Be16(before + ToBe16(n) + after, |before|) == n
  {
    var s := before + ToBe16(n) + after;
    assert s[|before|] == ToBe16(n)[0] && s[|before| + 1] == ToBe16(n)[1];
  }

  lemma Be32OfToBe32(n: nat, before: Data, after: Data)
    requires n < 0x1_0000_0000
    ensures Be32(before + ToBe32(n) + after, |before|) == n
  {
    var s := before + ToBe32(n) + after;
    assert s[|before|..|before| + 4] == ToBe32(n);
    assert forall i :: 0 <= i < 4 ==> s[|before| + i] == ToBe32(n)[i];
  }
}
