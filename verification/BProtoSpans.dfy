/**
 Where the entries of a field lie in a message: the cursors that a generated parser keeps are byte
 offsets, and they always fall on entry boundaries.
 */
module BProtoSpans {
  import opened Prelude
  import opened BProtoWire

  // x_start, x_span and x_pos of a field
  datatype Cursor = Cursor(start: nat, span: nat, pos: nat)

  /** The offset of the k-th entry. */
  function Off(items: seq<Item>, k: nat): nat
    requires k <= |items|
  {
    |EncodeAll(items[..k])|
  }

  lemma OffNext(items: seq<Item>, k: nat)
    requires k < |items|
    ensures Off(items, k + 1) == Off(items, k) + Size(items[k]) && Off(items, k) < Off(items, k + 1)
  {
    assert items[..k + 1] == items[..k] + [items[k]];
    EncodeAllSnoc(items[..k], items[k]);
  }

  lemma {:induction false} OffMonotone(items: seq<Item>, a: nat, b: nat)
    requires a <= b <= |items|
    ensures Off(items, a) <= Off(items, b) && (a < b ==> Off(items, a) < Off(items, b))
    decreases b
  {
    hide Off;
    if a < b {
      OffMonotone(items, a, b - 1);
      OffNext(items, b - 1);
    }
  }

  lemma OffSnoc(items: seq<Item>, it: Item, k: nat)
    requires k <= |items|
    ensures Off(items + [it], k) == Off(items, k)
  {
    assert (items + [it])[..k] == items[..k];
  }

  lemma {:induction false} EncodeAllConcat(a: seq<Item>, b: seq<Item>)
    ensures EncodeAll(a + b) == EncodeAll(a) + EncodeAll(b)
  {
    hide Encode, EncodeAll;
    EncodeNothing();
    if b == [] {
      assert a + b == a;
    } else {
      var init, z := b[..|b|-1], b[|b|-1];
      EncodeAllConcat(a, init);
      EncodeAllSnoc(a + init, z);
      EncodeAllSnoc(init, z);
      assert b == init + [z] && a + b == (a + init) + [z];
    }
  }

  /** The bytes between two entry boundaries are the entries between them. */
  lemma {:induction false} Region(items: seq<Item>, a: nat, b: nat)
    requires a <= b <= |items|
    ensures Off(items, a) <= Off(items, b) <= |EncodeAll(items)|
    ensures EncodeAll(items)[Off(items, a)..Off(items, b)] == EncodeAll(items[a..b])
  {
    hide EncodeAll;
    EncodeAllConcat(items[..a], items[a..b]);
    assert items[..a] + items[a..b] == items[..b];
    EncodeAllConcat(items[..b], items[b..]);
    assert items[..b] + items[b..] == items;
  }

  // ---- The values of a field ------------------------------------------------------------------------

  lemma {:induction false} ValuesSnoc(items: seq<Item>, it: Item, id: Id)
    ensures Values(items + [it], id) == if it.id == id then Values(items, id) + [it.value] else Values(items, id)
  {
    assert (items + [it])[..|items|] == items;
  }

  lemma {:induction false} ValuesFront(it: Item, items: seq<Item>, id: Id)
    ensures Values([it] + items, id) == if it.id == id then [it.value] + Values(items, id) else Values(items, id)
  {
    if items == [] {
      assert [it] + items == [] + [it];
      ValuesSnoc([], it, id);
    } else {
      var init, z := items[..|items|-1], items[|items|-1];
      assert items == init + [z] && [it] + items == ([it] + init) + [z];
      ValuesFront(it, init, id);
      ValuesSnoc([it] + init, z, id);
      ValuesSnoc(init, z, id);
    }
  }

  lemma {:induction false} NoValues(items: seq<Item>, id: Id)
    ensures Values(items, id) == [] <==> forall i :: 0 <= i < |items| ==> items[i].id != id
  {
    if items != [] {
      var init := items[..|items|-1];
      NoValues(init, id);
      assert forall i :: 0 <= i < |init| ==> init[i] == items[i];
    }
  }

  // ---- Spans ------------------------------------------------------------------------------------------

  /** The field's entries lie between the entries with these numbers. */
  ghost predicate Within(items: seq<Item>, id: Id, first: nat, past: nat) {
    && first <= past <= |items|
    && (first < past ==> items[past - 1].id == id)
    && forall i :: 0 <= i < |items| && items[i].id == id ==> first <= i < past
  }

  /** While a message is being read: a field not seen yet starts at the end of the buffer. */
  ghost predicate Spans(done: seq<Item>, total: nat, id: Id, c: Cursor, first: nat, past: nat) {
    if Values(done, id) == [] then c == Cursor(total, 0, 0)
    else
      && Within(done, id, first, past) && first < past
      && c.start == Off(done, first) && c.start + c.span == Off(done, past) && c.pos == 0 && c.start < total
  }

  lemma SpansOther(done: seq<Item>, it: Item, total: nat, id: Id, c: Cursor, first: nat, past: nat)
    requires Spans(done, total, id, c, first, past) && it.id != id
    ensures Spans(done + [it], total, id, c, first, past)
  {
    hide EncodeAll, Values;
    ValuesSnoc(done, it, id);
    if Values(done, id) != [] {
      OffSnoc(done, it, first);
      OffSnoc(done, it, past);
      OffMonotone(done, first, past);
    }
  }

  /** What the parser does to the cursor of the entry's field. */
  function Extend(c: Cursor, total: nat, at: nat, end: nat): Cursor
    requires at <= end && (c.start != total ==> c.start <= end)
  {
    var start := if c.start == total then at else c.start;
    Cursor(start, end - start, c.pos)
  }

  lemma {:induction false} SpansSame(done: seq<Item>, it: Item, total: nat, id: Id, c: Cursor, first: nat, past: nat)
    requires Spans(done, total, id, c, first, past) && it.id == id && |EncodeAll(done)| + Size(it) <= total
    ensures c.start != total ==> c.start <= |EncodeAll(done)|
    ensures var first' := if Values(done, id) == [] then |done| else first;
      Spans(done + [it], total, id, Extend(c, total, |EncodeAll(done)|, |EncodeAll(done)| + Size(it)), first', |done| + 1)
  {
    hide EncodeAll, Values;
    var all := done + [it];
    ValuesSnoc(done, it, id);
    NoValues(done, id);
    assert done[..|done|] == done && all[..|all|] == all;
    EncodeAllSnoc(done, it);
    OffSnoc(done, it, |done|);
    if Values(done, id) == [] {
    } else {
      OffSnoc(done, it, first);
      OffMonotone(done, first, |done|);
      assert forall i :: 0 <= i < |all| && all[i].id == id ==> first <= i < |all| by {
        assert forall i :: 0 <= i < |done| ==> all[i] == done[i];
      }
    }
  }

  /** After the message has been read; `at` is the number of the next entry to look at. */
  ghost predicate Placed(items: seq<Item>, id: Id, c: Cursor, first: nat, past: nat, at: nat) {
    && Within(items, id, first, past) && first <= at <= past
    && c.start == Off(items, first) && c.start + c.span == Off(items, past) && c.start + c.pos == Off(items, at)
  }

  lemma {:induction false} SpansPlace(items: seq<Item>, id: Id, c: Cursor, first: nat, past: nat)
    requires Spans(items, |EncodeAll(items)|, id, c, first, past)
    ensures if Values(items, id) == [] then Placed(items, id, c, |items|, |items|, |items|)
            else Placed(items, id, c, first, past, first)
  {
    hide EncodeAll, Values;
    NoValues(items, id);
    assert items[..|items|] == items;
    if Values(items, id) != [] {
      OffMonotone(items, first, past);
    }
  }

  /** The values of the field that are still to be got. */
  function Rest(items: seq<Item>, id: Id, at: nat): seq<Value>
    requires at <= |items|
  {
    Values(items[at..], id)
  }

  lemma RestNext(items: seq<Item>, id: Id, at: nat)
    requires at < |items|
    ensures Rest(items, id, at) ==
      if items[at].id == id then [items[at].value] + Rest(items, id, at + 1) else Rest(items, id, at + 1)
  {
    assert items[at..] == [items[at]] + items[at + 1..];
    ValuesFront(items[at], items[at + 1..], id);
  }

  /** There is something left exactly while the cursor has not reached the end of its span. */
  lemma RestEmpty(items: seq<Item>, id: Id, c: Cursor, first: nat, past: nat, at: nat)
    requires Placed(items, id, c, first, past, at)
    ensures Rest(items, id, at) == [] <==> c.pos == c.span
    ensures c.pos <= c.span && (c.pos == c.span <==> at == past)
  {
    hide EncodeAll, Values;
    OffMonotone(items, first, at);
    OffMonotone(items, at, past);
    var s := items[at..];
    NoValues(s, id);
    if at == past {
      assert forall i :: 0 <= i < |s| ==> s[i] == items[at + i] && s[i].id != id;
    } else {
      assert s[past - 1 - at] == items[past - 1];
    }
  }

  /** The entry at the cursor can be read without looking beyond the span. */
  lemma {:induction false} EntryAtCursor(items: seq<Item>, id: Id, c: Cursor, first: nat, past: nat, at: nat)
    requires AllFit(items) && Placed(items, id, c, first, past, at) && c.pos < c.span
    ensures c.start + c.pos <= c.start + c.span <= |EncodeAll(items)| && at < past
    ensures Next(EncodeAll(items)[c.start + c.pos..c.start + c.span]) == Some(items[at])
    ensures c.pos + Size(items[at]) <= c.span
    ensures Placed(items, id, c.(pos := c.pos + Size(items[at])), first, past, at + 1)
  {
    hide EncodeAll, Values, Next, Encode;
    RestEmpty(items, id, c, first, past, at);
    Region(items, at, past);
    assert items[at..past] == [items[at]] + items[at + 1..past];
    EncodeAllFront(items[at], items[at + 1..past]);
    NextOfEncode(items[at], EncodeAll(items[at + 1..past]));
    OffNext(items, at);
    OffMonotone(items, at + 1, past);
  }

  /** Nothing of the field comes before its first entry. */
  lemma {:induction false} RestFromFirst(items: seq<Item>, id: Id, first: nat, past: nat, k: nat)
    requires Within(items, id, first, past) && k <= first
    ensures Rest(items, id, k) == Rest(items, id, first)
    decreases first - k
  {
    hide Rest;
    if k < first {
      RestNext(items, id, k);
      RestFromFirst(items, id, first, past, k + 1);
    }
  }

  lemma {:induction false} RestOfAll(items: seq<Item>, id: Id, first: nat, past: nat)
    requires Within(items, id, first, past)
    ensures Rest(items, id, first) == Values(items, id)
  {
    RestFromFirst(items, id, first, past, 0);
    assert items[0..] == items;
  }

  /** Both ends of a span are entry boundaries. */
  lemma PlacedEnds(items: seq<Item>, id: Id, c: Cursor, first: nat, past: nat, at: nat)
    requires Placed(items, id, c, first, past, at)
    ensures Within(items, id, first, past)
    ensures Placed(items, id, c.(pos := 0), first, past, first) && Placed(items, id, c.(pos := c.span), first, past, past)
  {
  }
}
