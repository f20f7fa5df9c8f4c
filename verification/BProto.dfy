/**
 The code that the BProto generator emits for a message, for any schema: a writer that appends
 entries to a buffer, and a parser that checks a message once and then hands out the values of each
 field in order.
 */
module BProtoImpl {
  import opened Prelude
  import opened Bytes
  import opened Buffers
  import opened BProtoWire
  import opened BProtoSpans

  function TotalSize(items: seq<Item>): nat {
    if items == [] then 0 else TotalSize(items[..|items|-1]) + Size(items[|items|-1])
  }

  /** The SIZE macros add up to the length of the message. */
  lemma {:induction false} SizesAddUp(items: seq<Item>)
    ensures |EncodeAll(items)| == TotalSize(items)
  {
    if items != [] {
      SizesAddUp(items[..|items|-1]);
    }
  }

  class Writer {
    const schema: Schema
    const out: array<Byte>
    var used: nat
    var counts: map<Id, nat>
    ghost var items: seq<Item>

    ghost predicate Valid()
      reads this, out
    {
      && used <= out.Length && out[..used] == EncodeAll(items)
      && AllKnown(schema, items) && AllFit(items)
      && counts.Keys == schema.Keys && forall id :: id in schema ==> counts[id] == |Values(items, id)|
    }

    constructor (schema: Schema, out: array<Byte>)
      ensures Valid() && items == [] && used == 0 && this.schema == schema && this.out == out
    {
      this.schema, this.out := schema, out;
      used, items := 0, [];
      counts := map id | id in schema :: 0;
    }

    lemma Counted(id: Id)
      requires Valid() && id in schema
      ensures id in counts && counts[id] == |Values(items, id)|
    {
    }

    lemma Written()
      requires Valid()
      ensures used <= out.Length && out[..used] == EncodeAll(items)
    {
    }

    /** Writer_Add for a field; the bytes of a data field are those that the caller fills in */
    method Add(id: Id, v: Value)
      requires Valid() && Known(schema, Item(id, v)) && Fits(Item(id, v))
      requires schema[id].card in {Required, Optional} ==> counts[id] == 0
      requires used + Size(Item(id, v)) <= out.Length
      modifies this, out
      ensures Valid() && items == old(items) + [Item(id, v)] && used == old(used) + Size(Item(id, v))
    {
      hide Fits, Encode, EncodeAll, Values;
      ghost var it := Item(id, v);
      EncodeAllSnoc(items, it);
      forall i
        ensures Values(items + [it], i) == if id == i then Values(items, i) + [v] else Values(items, i)
      {
        ValuesSnoc(items, it, i);
      }
      AppendEntry(id, v);
      items := items + [it];
      counts := counts[id := counts[id] + 1];
    }

    /** The header and the value are written one after the other. */
    method AppendEntry(id: Id, v: Value)
      requires used + Size(Item(id, v)) <= out.Length
      modifies this`used, out
      ensures used == old(used) + Size(Item(id, v)) && out[..used] == old(out[..used]) + Encode(Item(id, v))
    {
      Append(Le(id, 2) + Le(TypeOf(v), 2));
      match v
      case Num(bytes, n) => Append(Le(n, bytes));
      case Blob(_, data) =>
        Append(Le(|data|, 4));
        Append(data);
    }

    method Append(data: Data)
      requires used + |data| <= out.Length
      modifies this`used, out
      ensures used == old(used) + |data| && out[..used] == old(out[..used]) + data
    {
      CopyInto(out, used, data);
      assert out[..used + |data|] == out[..used] + out[used..used + |data|];
      used := used + |data|;
    }

    /** Writer_Finish: the asserts on the counts make the message conform to its schema */
    method Finish() returns (len: nat)
      requires Valid() && forall id :: id in schema ==> id in counts && Allowed(schema[id].card, counts[id])
      ensures len == used == TotalSize(items) && out[..len] == EncodeAll(items) && Conforms(schema, items)
    {
      SizesAddUp(items);
      return used;
    }
  }

  // ---- Parser ---------------------------------------------------------------------------------------

  ghost predicate CountsOk(schema: Schema, done: seq<Item>, counts: map<Id, nat>) {
    counts.Keys == schema.Keys && forall id :: id in schema ==> counts[id] == |Values(done, id)|
  }

  // numbers of the first and last entry of a field, and of the next one to look at
  datatype Marks = Marks(first: nat, past: nat, at: nat)

  ghost predicate SpansOk(schema: Schema, done: seq<Item>, total: nat, cursors: map<Id, Cursor>, marks: map<Id, Marks>) {
    && cursors.Keys == schema.Keys && marks.Keys == schema.Keys
    && forall id :: id in schema ==> Spans(done, total, id, cursors[id], marks[id].first, marks[id].past)
  }

  /** What has been read so far are known entries. */
  ghost predicate ReadOk(schema: Schema, buf: Data, p: nat, done: seq<Item>) {
    p <= |buf| && buf[..p] == EncodeAll(done) && AllFit(done) && AllKnown(schema, done)
  }

  /** The rest of the buffer decides about the whole. */
  lemma {:induction false} ReadSplits(schema: Schema, buf: Data, p: nat, done: seq<Item>)
    requires ReadOk(schema, buf, p, done)
    ensures Items(buf) == var r := Items(buf[p..]); if r.None? then None else Some(done + r.value)
  {
    ItemsOfEncodeAll(done, buf[p..]);
    assert buf == buf[..p] + buf[p..];
  }

  /** One more entry of a known field: the bytes read so far, */
  lemma ReadStep(schema: Schema, buf: Data, p: nat, done: seq<Item>, it: Item)
    requires ReadOk(schema, buf, p, done) && Next(buf[p..]) == Some(it) && Known(schema, it)
    ensures ReadOk(schema, buf, p + Size(it), done + [it])
  {
    hide Next, Encode, EncodeAll, Known, Fits;
    EncodeOfNext(buf[p..]);
    EncodeAllSnoc(done, it);
    assert buf[..p + Size(it)] == buf[..p] + buf[p..][..Size(it)];
  }

  /** its count, */
  lemma CountsStep(schema: Schema, done: seq<Item>, counts: map<Id, nat>, it: Item)
    requires CountsOk(schema, done, counts) && it.id in schema
    ensures CountsOk(schema, done + [it], counts[it.id := counts[it.id] + 1])
  {
    hide Values;
    forall id | id in schema
      ensures |Values(done + [it], id)| == if id == it.id then counts[id] + 1 else counts[id]
    {
      ValuesSnoc(done, it, id);
    }
  }

  /** and the spans. */
  lemma {:induction false} SpansStep(schema: Schema, done: seq<Item>, total: nat, cursors: map<Id, Cursor>,
                                     marks: map<Id, Marks>, it: Item)
    requires SpansOk(schema, done, total, cursors, marks) && it.id in schema && |EncodeAll(done)| + Size(it) <= total
    ensures cursors[it.id].start != total ==> cursors[it.id].start <= |EncodeAll(done)|
    ensures SpansOk(schema, done + [it], total,
                    cursors[it.id := Extend(cursors[it.id], total, |EncodeAll(done)|, |EncodeAll(done)| + Size(it))],
                    marks[it.id := NewMarks(done, marks[it.id], it.id)])
  {
    hide EncodeAll, Values, Spans;
    SpansSame(done, it, total, it.id, cursors[it.id], marks[it.id].first, marks[it.id].past);
    forall id | id in schema && id != it.id
      ensures Spans(done + [it], total, id, cursors[id], marks[id].first, marks[id].past)
    {
      SpansOther(done, it, total, id, cursors[id], marks[id].first, marks[id].past);
    }
  }

  function NewMarks(done: seq<Item>, m: Marks, id: Id): Marks {
    Marks(if Values(done, id) == [] then |done| else m.first, |done| + 1, 0)
  }

  /** The marks once the whole message has been read. */
  function FinalMarks(schema: Schema, items: seq<Item>, marks: map<Id, Marks>): map<Id, Marks>
    requires marks.Keys == schema.Keys
  {
    map id | id in schema ::
      if Values(items, id) == [] then Marks(|items|, |items|, |items|)
      else Marks(marks[id].first, marks[id].past, marks[id].first)
  }

  ghost predicate PlacedOk(schema: Schema, items: seq<Item>, cursors: map<Id, Cursor>, marks: map<Id, Marks>) {
    && cursors.Keys == schema.Keys && marks.Keys == schema.Keys
    && forall id :: id in schema ==> Placed(items, id, cursors[id], marks[id].first, marks[id].past, marks[id].at)
  }

  lemma {:induction false} AllPlaced(schema: Schema, items: seq<Item>, cursors: map<Id, Cursor>, marks: map<Id, Marks>)
    requires SpansOk(schema, items, |EncodeAll(items)|, cursors, marks)
    ensures PlacedOk(schema, items, cursors, FinalMarks(schema, items, marks))
    ensures forall id :: id in schema ==>
      FinalMarks(schema, items, marks)[id].at <= |items| &&
      Rest(items, id, FinalMarks(schema, items, marks)[id].at) == Values(items, id)
  {
    hide EncodeAll, Values, Spans, Placed, Rest;
    forall id | id in schema
      ensures var m := FinalMarks(schema, items, marks)[id];
        m.at <= |items| && Placed(items, id, cursors[id], m.first, m.past, m.at) && Rest(items, id, m.at) == Values(items, id)
    {
      SpansPlace(items, id, cursors[id], marks[id].first, marks[id].past);
      var m := FinalMarks(schema, items, marks)[id];
      PlacedWithin(items, id, cursors[id], m.first, m.past, m.at);
      RestOfAll(items, id, m.first, m.past);
    }
  }

  lemma PlacedWithin(items: seq<Item>, id: Id, c: Cursor, first: nat, past: nat, at: nat)
    requires Placed(items, id, c, first, past, at)
    ensures Within(items, id, first, past) && first <= at <= past <= |items|
  {
  }

  /** The state of Parser_Init's loop. */
  ghost predicate Scanned(schema: Schema, buf: Data, p: nat, done: seq<Item>, counts: map<Id, nat>,
                          cursors: map<Id, Cursor>, marks: map<Id, Marks>) {
    ReadOk(schema, buf, p, done) && CountsOk(schema, done, counts) && SpansOk(schema, done, |buf|, cursors, marks)
  }

  lemma NothingRead(schema: Schema, buf: Data, marks: map<Id, Marks>)
    requires marks.Keys == schema.Keys
    ensures Scanned(schema, buf, 0, [], map id | id in schema :: 0, map id | id in schema :: Cursor(|buf|, 0, 0), marks)
  {
  }

  lemma ScanStep(schema: Schema, buf: Data, p: nat, done: seq<Item>, counts: map<Id, nat>,
                 cursors: map<Id, Cursor>, marks: map<Id, Marks>, it: Item)
    requires Scanned(schema, buf, p, done, counts, cursors, marks)
    requires p <= |buf| && Next(buf[p..]) == Some(it) && Known(schema, it)
    ensures it.id in schema && it.id in counts && it.id in cursors && it.id in marks
    ensures cursors[it.id].start != |buf| ==> cursors[it.id].start <= p
    ensures Scanned(schema, buf, p + Size(it), done + [it], counts[it.id := counts[it.id] + 1],
                    cursors[it.id := Extend(cursors[it.id], |buf|, p, p + Size(it))],
                    marks[it.id := NewMarks(done, marks[it.id], it.id)])
  {
    hide Next, EncodeAll, Values, Spans, Fits, NewMarks, Matches;
    assert p == |EncodeAll(done)|;
    ReadStep(schema, buf, p, done, it);
    CountsStep(schema, done, counts, it);
    SpansStep(schema, done, |buf|, cursors, marks, it);
  }

  lemma NotAccepted(schema: Schema, buf: Data, p: nat, done: seq<Item>, counts: map<Id, nat>,
                    cursors: map<Id, Cursor>, marks: map<Id, Marks>)
    requires Scanned(schema, buf, p, done, counts, cursors, marks) && p < |buf|
    requires var it := Next(buf[p..]); it.None? || !Known(schema, it.value)
    ensures !Accepts(schema, buf)
  {
    ReadSplits(schema, buf, p, done);
    if Items(buf).Some? {
      assert !Known(schema, Items(buf).value[|done|]);
    }
  }

  lemma {:induction false} AllRead(schema: Schema, buf: Data, done: seq<Item>)
    requires ReadOk(schema, buf, |buf|, done)
    ensures Items(buf) == Some(done) && EncodeAll(done) == buf
  {
    ReadSplits(schema, buf, |buf|, done);
    assert buf[..|buf|] == buf && done + [] == done;
  }

  class Parser {
    const schema: Schema
    const buf: Data
    var cursors: map<Id, Cursor>
    ghost var items: seq<Item>
    ghost var marks: map<Id, Marks>

    ghost predicate Valid()
      reads this
    {
      EncodeAll(items) == buf && AllFit(items) && PlacedOk(schema, items, cursors, marks)
    }

    /** The values of a field that are still to be got. */
    ghost function Remaining(id: Id): seq<Value>
      requires Valid() && id in schema
      reads this
    {
      Rest(items, id, marks[id].at)
    }

    constructor (schema: Schema, buf: Data)
      ensures this.schema == schema && this.buf == buf
    {
      this.schema, this.buf := schema, buf;
      cursors, items, marks := map[], [], map[];
    }

    /** The loop of Parser_Init over the entries. */
    method Scan() returns (ok: bool, counts: map<Id, nat>)
      modifies this
      ensures ok ==> Scanned(schema, buf, |buf|, items, counts, cursors, marks)
      ensures !ok ==> !Accepts(schema, buf)
    {
      hide Next, EncodeAll, Known, Fits, Scanned, Accepts, NewMarks;
      counts := map id | id in schema :: 0;
      cursors := map id | id in schema :: Cursor(|buf|, 0, 0);
      marks := map id | id in schema :: Marks(0, 0, 0);
      items := [];
      NothingRead(schema, buf, marks);
      var pos := 0;
      while pos < |buf|
        invariant pos <= |buf| && Scanned(schema, buf, pos, items, counts, cursors, marks)
        decreases |buf| - pos
      {
        var it := Next(buf[pos..]);
        if it.None? || !Known(schema, it.value) {
          NotAccepted(schema, buf, pos, items, counts, cursors, marks);
          return false, counts;
        }
        ScanStep(schema, buf, pos, items, counts, cursors, marks, it.value);
        var id, end := it.value.id, pos + Size(it.value);
        cursors := cursors[id := Extend(cursors[id], |buf|, pos, end)];
        marks := marks[id := NewMarks(items, marks[id], id)];
        counts := counts[id := counts[id] + 1];
        items := items + [it.value];
        pos := end;
      }
      ok := true;
    }

    /** Parser_Init: accepts exactly the encodings of conforming messages */
    method Init() returns (ok: bool)
      modifies this
      ensures ok <==> Accepts(schema, buf)
      ensures ok ==> Valid() && items == Items(buf).value && forall id :: id in schema ==> Remaining(id) == Values(items, id)
    {
      hide EncodeAll, Values, Spans, Placed, Fits, Items, Rest, Known;
      var counts;
      ok, counts := Scan();
      if ok {
        AllRead(schema, buf, items);
        AllPlaced(schema, items, cursors, marks);
        marks := FinalMarks(schema, items, marks);
        ok := forall id :: id in schema ==> Allowed(schema[id].card, counts[id]);
      }
    }

    /** Parser_Get: the next value of the field; none is skipped and none is invented */
    method Get(id: Id) returns (r: Option<Value>)
      requires Valid() && id in schema
      modifies this`cursors, this`marks
      ensures Valid()
      ensures r.Some? ==> old(Remaining(id)) == [r.value] + Remaining(id)
      ensures r.None? ==> old(Remaining(id)) == [] && Remaining(id) == []
      ensures forall i :: i in schema && i != id ==> Remaining(i) == old(Remaining(i))
    {
      hide Next, EncodeAll, Values, Placed, Fits, Rest;
      ghost var remaining := Remaining(id);
      while cursors[id].pos < cursors[id].span
        invariant Valid() && Remaining(id) == remaining
        invariant forall i :: i in schema && i != id ==> Remaining(i) == old(Remaining(i))
        decreases cursors[id].span - cursors[id].pos
      {
        var c := cursors[id];
        ghost var m := marks[id];
        EntryAtCursor(items, id, c, m.first, m.past, m.at);
        PlacedWithin(items, id, c, m.first, m.past, m.at);
        RestNext(items, id, m.at);
        // every assert of the code on the remaining length holds: the whole entry is in the span
        var it := Next(buf[c.start + c.pos..c.start + c.span]).value;
        cursors := cursors[id := c.(pos := c.pos + Size(it))];
        marks := marks[id := m.(at := m.at + 1)];
        if it.id == id {
          return Some(it.value);
        }
      }
      RestEmpty(items, id, cursors[id], marks[id].first, marks[id].past, marks[id].at);
      return None;
    }

    /** Parser_GotEverything */
    method GotEverything() returns (r: bool)
      requires Valid()
      ensures r <==> forall id :: id in schema ==> Remaining(id) == []
    {
      hide EncodeAll, Values, Placed, Fits, Rest;
      forall id | id in schema
        ensures Remaining(id) == [] <==> cursors[id].pos == cursors[id].span
      {
        RestEmpty(items, id, cursors[id], marks[id].first, marks[id].past, marks[id].at);
      }
      return forall id :: id in schema ==> cursors[id].pos == cursors[id].span;
    }

    /** Parser_Reset */
    method Reset(id: Id)
      requires Valid() && id in schema
      modifies this`cursors, this`marks
      ensures Valid() && Remaining(id) == Values(items, id)
      ensures forall i :: i in schema && i != id ==> Remaining(i) == old(Remaining(i))
    {
      hide EncodeAll, Values, Placed, Fits, Rest;
      PlacedEnds(items, id, cursors[id], marks[id].first, marks[id].past, marks[id].at);
      cursors := cursors[id := cursors[id].(pos := 0)];
      marks := marks[id := marks[id].(at := marks[id].first)];
      RestOfAll(items, id, marks[id].first, marks[id].past);
    }

    /** Parser_Forward */
    method Forward(id: Id)
      requires Valid() && id in schema
      modifies this`cursors, this`marks
      ensures Valid() && Remaining(id) == []
      ensures forall i :: i in schema && i != id ==> Remaining(i) == old(Remaining(i))
    {
      hide EncodeAll, Values, Placed, Fits, Rest;
      PlacedEnds(items, id, cursors[id], marks[id].first, marks[id].past, marks[id].at);
      cursors := cursors[id := cursors[id].(pos := cursors[id].span)];
      marks := marks[id := marks[id].(at := marks[id].past)];
      RestEmpty(items, id, cursors[id], marks[id].first, marks[id].past, marks[id].at);
    }
  }
}
