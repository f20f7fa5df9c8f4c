/**
 BProto on the wire: a message is a sequence of entries, each with a packed header (id, type) and a
 value.  Which entries a message may hold, and how many of each, is given by a schema.
 */
module BProtoWire {
  import opened Prelude
  import opened Bytes

  type Id = nat

  // the number of bytes of an integer is 1, 2, 4 or 8; `fixed` tells "constdata" from "data"
  datatype Value = Num(bytes: nat, n: nat) | Blob(fixed: bool, data: Data)

  datatype Item = Item(id: Id, value: Value)

  // ---- Little-endian integers of any size ---------------------------------------------------------

  function Pow256(n: nat): (r: nat)
    ensures r > 0
  {
    if n == 0 then 1 else 256 * Pow256(n - 1)
  }

  function Le(v: nat, n: nat): (r: Data)
    ensures |r| == n
  {
    if n == 0 then [] else [v % 256] + Le(v / 256, n - 1)
  }

  function FromLe(s: Data): (v: nat)
    ensures v < Pow256(|s|)
  {
    if s == [] then 0 else s[0] as int + 256 * FromLe(s[1..])
  }

  lemma {:induction false} FromLeOfLe(v: nat, n: nat)
    requires v < Pow256(n)
    ensures FromLe(Le(v, n)) == v
  {
    if n > 0 {
      FromLeOfLe(v / 256, n - 1);
      assert Le(v, n)[1..] == Le(v / 256, n - 1);
    }
  }

  lemma LowByte(b: Byte, high: nat)
    ensures (b as int + 256 * high) % 256 == b && (b as int + 256 * high) / 256 == high
  {
  }

  lemma {:induction false} LeOfFromLe(s: Data)
    ensures Le(FromLe(s), |s|) == s
  {
    if s != [] {
      LeOfFromLe(s[1..]);
      LowByte(s[0], FromLe(s[1..]));
    }
  }

  // ---- Entries -------------------------------------------------------------------------------------

  const HEADER: nat := 4
  const DATA_HEADER: nat := 4

  /** The field widths of the packed structs. */
  predicate Fits(it: Item) {
    && it.id < Pow256(2)
    && match it.value
       case Num(bytes, n) => bytes in {1, 2, 4, 8} && n < Pow256(bytes)
       case Blob(_, data) => |data| < Pow256(4)
  }

  function TypeOf(v: Value): nat {
    match v
    case Num(bytes, _) => if bytes == 1 then 1 else if bytes == 2 then 2 else if bytes == 4 then 3 else 4
    case Blob(fixed, _) => if fixed then 6 else 5
  }

  function BytesOf(t: nat): nat {
    if t == 1 then 1 else if t == 2 then 2 else if t == 3 then 4 else 8
  }

  /** The generated SIZE macros. */
  function Size(it: Item): nat {
    match it.value
    case Num(bytes, _) => HEADER + bytes
    case Blob(_, data) => HEADER + DATA_HEADER + |data|
  }

  function Body(v: Value): Data {
    match v
    case Num(bytes, n) => Le(n, bytes)
    case Blob(_, data) => Le(|data|, 4) + data
  }

  function Encode(it: Item): (r: Data)
    ensures |r| == Size(it)
  {
    Le(it.id, 2) + Le(TypeOf(it.value), 2) + Body(it.value)
  }

  /** The entry at the head of the data; None where the parser rejects the message. */
  function Next(s: Data): (r: Option<Item>)
    ensures r.Some? ==> Size(r.value) <= |s|
  {
    if |s| < HEADER then None
    else
      var id, t := FromLe(s[..2]), FromLe(s[2..4]);
      if 1 <= t <= 4 then
        var n := BytesOf(t);
        if |s| < HEADER + n then None else Some(Item(id, Num(n, FromLe(s[4..4 + n]))))
      else if t == 5 || t == 6 then
        if |s| < HEADER + DATA_HEADER then None
        else
          var len := FromLe(s[4..8]);
          if |s| < HEADER + DATA_HEADER + len then None else Some(Item(id, Blob(t == 6, s[8..8 + len])))
      else None
  }

  lemma NextOfEncode(it: Item, rest: Data)
    requires Fits(it)
    ensures Next(Encode(it) + rest) == Some(it) && (Encode(it) + rest)[Size(it)..] == rest
  {
    hide Le, FromLe, Pow256;
    var s := Encode(it) + rest;
    assert s[..2] == Le(it.id, 2) && s[2..4] == Le(TypeOf(it.value), 2);
    SmallPow();
    FromLeOfLe(it.id, 2);
    FromLeOfLe(TypeOf(it.value), 2);
    match it.value
    case Num(bytes, n) =>
      assert s[4..4 + bytes] == Le(n, bytes);
      FromLeOfLe(n, bytes);
    case Blob(fixed, data) =>
      assert s[4..8] == Le(|data|, 4);
      FromLeOfLe(|data|, 4);
      assert s[8..8 + |data|] == data;
  }

  lemma SmallPow()
    ensures 6 < Pow256(2)
  {
    assert Pow256(1) == 256 * Pow256(0);
  }

  /** Entries have one encoding only. */
  lemma EncodeOfNext(s: Data)
    requires Next(s).Some?
    ensures Fits(Next(s).value) && Encode(Next(s).value) == s[..Size(Next(s).value)]
  {
    hide Le, FromLe, Pow256;
    var it := Next(s).value;
    LeOfFromLe(s[..2]);
    LeOfFromLe(s[2..4]);
    match it.value
    case Num(bytes, n) =>
      LeOfFromLe(s[4..4 + bytes]);
      assert s[..Size(it)] == s[..2] + s[2..4] + s[4..4 + bytes];
    case Blob(fixed, data) =>
      LeOfFromLe(s[4..8]);
      assert s[..Size(it)] == s[..2] + s[2..4] + (s[4..8] + s[8..8 + |data|]);
  }

  // ---- Messages --------------------------------------------------------------------------------------

  function EncodeAll(items: seq<Item>): Data {
    if items == [] then [] else EncodeAll(items[..|items|-1]) + Encode(items[|items|-1])
  }

  /** The entries of a message, None if it cannot be split into entries. */
  function Items(s: Data): Option<seq<Item>>
    decreases |s|
  {
    if s == [] then Some([])
    else
      var it := Next(s);
      if it.None? then None
      else
        var rest := Items(s[Size(it.value)..]);
        if rest.None? then None else Some([it.value] + rest.value)
  }

  lemma {:induction false} EncodeAllSnoc(items: seq<Item>, it: Item)
    ensures EncodeAll(items + [it]) == EncodeAll(items) + Encode(it)
  {
    assert (items + [it])[..|items|] == items;
  }

  lemma {:induction false} EncodeAllFront(it: Item, items: seq<Item>)
    ensures EncodeAll([it] + items) == Encode(it) + EncodeAll(items)
  {
    hide Encode, EncodeAll;
    EncodeNothing();
    if items == [] {
      EncodeAllSnoc([], it);
      assert [it] + items == [] + [it];
    } else {
      var init, z := items[..|items|-1], items[|items|-1];
      EncodeAllFront(it, init);
      EncodeAllSnoc([it] + init, z);
      EncodeAllSnoc(init, z);
      assert items == init + [z] && [it] + items == ([it] + init) + [z];
    }
  }

  lemma EncodeNothing()
    ensures EncodeAll([]) == []
  {
  }

  ghost predicate AllFit(items: seq<Item>) {
    forall i :: 0 <= i < |items| ==> Fits(items[i])
  }

  /** Reading back what was written. */
  lemma {:induction false} ItemsOfEncodeAll(items: seq<Item>, rest: Data)
    requires AllFit(items)
    ensures Items(EncodeAll(items) + rest) ==
      var r := Items(rest); if r.None? then None else Some(items + r.value)
  {
    hide Next, Encode, Fits, EncodeAll;
    EncodeNothing();
    if items == [] {
      assert EncodeAll(items) + rest == rest;
      assert Items(rest).Some? ==> [] + Items(rest).value == Items(rest).value;
    } else {
      var it, tail := items[0], items[1..];
      assert items == [it] + tail;
      EncodeAllFront(it, tail);
      ItemsOfEncodeAll(tail, rest);
      NextOfEncode(it, EncodeAll(tail) + rest);
      assert EncodeAll(items) + rest == Encode(it) + (EncodeAll(tail) + rest);
      if Items(rest).Some? {
        assert [it] + (tail + Items(rest).value) == items + Items(rest).value;
      }
    }
  }

  /** A message that can be read is the encoding of what was read. */
  lemma {:induction false} EncodeAllOfItems(s: Data)
    requires Items(s).Some?
    ensures AllFit(Items(s).value) && EncodeAll(Items(s).value) == s
    decreases |s|
  {
    hide Next, Encode, Fits, EncodeAll;
    EncodeNothing();
    if s != [] {
      var it := Next(s).value;
      EncodeOfNext(s);
      EncodeAllOfItems(s[Size(it)..]);
      EncodeAllFront(it, Items(s[Size(it)..]).value);
    }
  }

  // ---- Schemas --------------------------------------------------------------------------------------

  datatype Kind = Uint(bytes: nat) | Bytes | ConstBytes(size: nat)

  datatype Cardinality = Required | Optional | Repeated | RequiredRepeated

  datatype Field = Field(kind: Kind, card: Cardinality)

  type Schema = map<Id, Field>

  predicate Matches(k: Kind, v: Value) {
    match k
    case Uint(bytes) => v.Num? && v.bytes == bytes
    case Bytes => v.Blob? && !v.fixed
    case ConstBytes(size) => v.Blob? && v.fixed && |v.data| == size
  }

  predicate Allowed(c: Cardinality, count: nat) {
    match c
    case Required => count == 1
    case Optional => count <= 1
    case Repeated => true
    case RequiredRepeated => count >= 1
  }

  predicate Known(schema: Schema, it: Item) {
    it.id in schema && Matches(schema[it.id].kind, it.value)
  }

  /** The values of one field, in order. */
  function Values(items: seq<Item>, id: Id): seq<Value> {
    if items == [] then []
    else
      var before := Values(items[..|items|-1], id);
      if items[|items|-1].id == id then before + [items[|items|-1].value] else before
  }

  ghost predicate AllKnown(schema: Schema, items: seq<Item>) {
    forall i :: 0 <= i < |items| ==> Known(schema, items[i])
  }

  /** All values of a field have its type. */
  lemma {:induction false} ValuesMatch(schema: Schema, items: seq<Item>, id: Id)
    requires AllKnown(schema, items) && id in schema
    ensures forall k :: 0 <= k < |Values(items, id)| ==> Matches(schema[id].kind, Values(items, id)[k])
  {
    if items != [] {
      ValuesMatch(schema, items[..|items|-1], id);
    }
  }

  /** What a writer may write and a parser accepts. */
  ghost predicate Conforms(schema: Schema, items: seq<Item>) {
    AllKnown(schema, items) && forall id :: id in schema ==> Allowed(schema[id].card, |Values(items, id)|)
  }

  ghost predicate Accepts(schema: Schema, s: Data) {
    Items(s).Some? && Conforms(schema, Items(s).value)
  }

  /** What a writer writes, a parser of the same schema accepts, and reads as it was written. */
  lemma {:induction false} WrittenIsAccepted(schema: Schema, items: seq<Item>)
    requires AllFit(items) && Conforms(schema, items)
    ensures Accepts(schema, EncodeAll(items)) && Items(EncodeAll(items)) == Some(items)
  {
    ItemsOfEncodeAll(items, []);
    assert EncodeAll(items) + [] == EncodeAll(items) && items + [] == items;
  }

  /** What a parser accepts, a writer could have written, and in one way only. */
  lemma {:induction false} AcceptedIsWritten(schema: Schema, s: Data)
    requires Accepts(schema, s)
    ensures AllFit(Items(s).value) && Conforms(schema, Items(s).value) && EncodeAll(Items(s).value) == s
  {
    EncodeAllOfItems(s);
  }
}
