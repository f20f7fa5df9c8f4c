/**
 The signature index of FrameDecider: all group entries with the same 23-bit signature are linked in
 one list; one of them, the master, represents the list in the multicast tree.
 */
module SwitchIndex {
  import opened Prelude
  import opened SwitchSpec

  // tree: multicast_tree; masters: the entries with is_master set; listOf and lists: which linked
  // list an entry's sig_list_node is in, and the nodes of each list in order
  datatype Sigs = Sigs(tree: map<nat, Ref>, masters: set<Ref>, listOf: map<Ref, nat>,
                       lists: map<nat, seq<Ref>>, next: nat)

  const NoSigs := Sigs(map[], {}, map[], map[], 0)

  function SigOf(r: Ref): nat {
    SigOfGroup(r.group)
  }

  // ---- Linked list operations ------------------------------------------------------------

  function InsertAfter(s: seq<Ref>, at: Ref, r: Ref): seq<Ref> {
    if s == [] then [r]
    else if s[0] == at then [s[0], r] + s[1..]
    else [s[0]] + InsertAfter(s[1..], at, r)
  }

  /** LinkedList3Node_NextOrPrev */
  function Neighbour(s: seq<Ref>, r: Ref): (n: Ref)
    requires r in s && |s| > 1
    ensures n in s
  {
    var i := IndexOf(s, r);
    if i + 1 < |s| then s[i + 1] else s[i - 1]
  }

  function IndexOf(s: seq<Ref>, r: Ref): (i: nat)
    requires r in s
    ensures i < |s| && s[i] == r
  {
    if s[0] == r then 0 else 1 + IndexOf(s[1..], r)
  }

  lemma {:induction false} InsertAfterSound(s: seq<Ref>, at: Ref, r: Ref)
    requires Distinct(s) && r !in Elems(s)
    ensures Distinct(InsertAfter(s, at, r)) && Elems(InsertAfter(s, at, r)) == Elems(s) + {r}
  {
    if s == [] {
      assert InsertAfter(s, at, r) == [r];
    } else {
      ElemsIn(s[1..]);
      if s[0] == at {
        var t := [r] + s[1..];
        assert t[1..] == s[1..];
        assert InsertAfter(s, at, r) == [s[0]] + t;
        assert ([s[0]] + t)[1..] == t;
        DistinctCons(r, s[1..]);
        DistinctCons(s[0], t);
      } else {
        InsertAfterSound(s[1..], at, r);
        var t := InsertAfter(s[1..], at, r);
        assert ([s[0]] + t)[1..] == t;
        ElemsMember(s[1..], s[0]);
        DistinctCons(s[0], t);
      }
    }
  }

  lemma Singleton(r: Ref)
    ensures Distinct([r]) && Elems([r]) == {r}
  {
    assert [r][1..] == [];
  }

  lemma {:induction false} DistinctCons(x: Ref, s: seq<Ref>)
    requires Distinct(s) && x !in Elems(s)
    ensures Distinct([x] + s) && Elems([x] + s) == {x} + Elems(s)
  {
    ElemsIn(s);
    assert ([x] + s)[1..] == s;
  }

  // ---- Operations ----------------------------------------------------------------------------

  /** add_to_multicast */
  function AddRef(x: Sigs, r: Ref): Sigs
    requires SigOf(r) in x.tree ==> x.tree[SigOf(r)] in x.listOf && x.listOf[x.tree[SigOf(r)]] in x.lists
  {
    var sig := SigOf(r);
    if sig in x.tree then
      var master := x.tree[sig];
      var l := x.listOf[master];
      x.(listOf := x.listOf[r := l], lists := x.lists[l := InsertAfter(x.lists[l], master, r)])
    else
      Sigs(x.tree[sig := r], x.masters + {r}, x.listOf[r := x.next], x.lists[x.next := [r]], x.next + 1)
  }

  /** The first half of remove_from_multicast: a master hands its role to a neighbour. */
  function Abdicate(x: Sigs, r: Ref): Sigs
    requires r in x.listOf && x.listOf[r] in x.lists && r in x.lists[x.listOf[r]]
  {
    if r !in x.masters then x
    else
      var list := x.lists[x.listOf[r]];
      if |list| == 1 then x.(tree := x.tree - {SigOf(r)}, masters := x.masters - {r})
      else
        var heir := Neighbour(list, r);
        x.(tree := x.tree[SigOf(r) := heir], masters := x.masters - {r} + {heir})
  }

  /** The second half: the entry's node leaves its list. */
  function Unlink(x: Sigs, r: Ref): Sigs
    requires r in x.listOf && x.listOf[r] in x.lists
  {
    var l := x.listOf[r];
    var list := Remove(x.lists[l], r);
    x.(listOf := x.listOf - {r}, lists := if list == [] then x.lists - {l} else x.lists[l := list])
  }

  function RemoveRef(x: Sigs, r: Ref): Sigs
    requires r in x.listOf && x.listOf[r] in x.lists && r in x.lists[x.listOf[r]]
  {
    Unlink(Abdicate(x, r), r)
  }

  // ---- Invariant --------------------------------------------------------------------------------

  /** The lists partition the entries. */
  ghost predicate ListsOk(x: Sigs, refs: set<Ref>) {
    && x.listOf.Keys == refs
    && (forall r :: r in refs ==> x.listOf[r] in x.lists && r in Elems(x.lists[x.listOf[r]]))
    && (forall l :: l in x.lists ==> l < x.next && x.lists[l] != [] && Distinct(x.lists[l]))
    && (forall l, r :: l in x.lists && r in Elems(x.lists[l]) ==> r in refs && x.listOf[r] == l)
  }

  /** Masters are exactly the entries in the tree, one per list. */
  ghost predicate MastersOk(x: Sigs, refs: set<Ref>)
    requires x.listOf.Keys == refs
  {
    && x.masters <= refs
    && (forall sig :: sig in x.tree ==> x.tree[sig] in x.masters && SigOf(x.tree[sig]) == sig)
    && (forall r :: r in x.masters ==> SigOf(r) in x.tree && x.tree[SigOf(r)] == r)
    && (forall r, t :: r in x.masters && t in x.masters && x.listOf[r] == x.listOf[t] ==> r == t)
  }

  /** Every entry is in the list of the master of its signature. */
  ghost predicate FiledOk(x: Sigs, refs: set<Ref>)
    requires x.listOf.Keys == refs && MastersOk(x, refs)
  {
    forall r :: r in refs ==> SigOf(r) in x.tree && x.listOf[x.tree[SigOf(r)]] == x.listOf[r]
  }

  ghost predicate SigsOk(x: Sigs, refs: set<Ref>) {
    ListsOk(x, refs) && MastersOk(x, refs) && FiledOk(x, refs)
  }

  ghost function WithSig(refs: set<Ref>, sig: nat): set<Ref> {
    set r | r in refs && SigOf(r) == sig
  }

  /** The list found through the tree holds exactly the entries with the signature, each once; and
      the tree knows every signature that occurs. */
  lemma ListIsExact(x: Sigs, refs: set<Ref>, sig: nat)
    requires SigsOk(x, refs)
    ensures sig in x.tree <==> WithSig(refs, sig) != {}
    ensures sig in x.tree ==>
      && x.tree[sig] in refs && x.listOf[x.tree[sig]] in x.lists
      && Distinct(x.lists[x.listOf[x.tree[sig]]])
      && Elems(x.lists[x.listOf[x.tree[sig]]]) == WithSig(refs, sig)
  {
    if sig in x.tree {
      var m := x.tree[sig];
      var list := x.lists[x.listOf[m]];
      forall r
        ensures r in Elems(list) <==> r in WithSig(refs, sig)
      {
        if r in Elems(list) {
          var m' := x.tree[SigOf(r)];
          assert x.listOf[m'] == x.listOf[r] == x.listOf[m];
        }
      }
      assert m in WithSig(refs, sig);
    }
  }

  // ---- Preservation -------------------------------------------------------------------------------

  lemma {:induction false} AddToListLists(x: Sigs, refs: set<Ref>, r: Ref, l: nat, list: seq<Ref>)
    requires ListsOk(x, refs) && r !in refs && l in x.lists
    requires list != [] && Distinct(list) && Elems(list) == Elems(x.lists[l]) + {r}
    ensures ListsOk(x.(listOf := x.listOf[r := l], lists := x.lists[l := list]), refs + {r})
  {
    hide Distinct, Elems;
    var x' := x.(listOf := x.listOf[r := l], lists := x.lists[l := list]);
    forall t | t in refs + {r}
      ensures x'.listOf[t] in x'.lists && t in Elems(x'.lists[x'.listOf[t]])
    {
      if t != r {
        assert x.listOf[t] in x.lists && t in Elems(x.lists[x.listOf[t]]);
      }
    }
    forall k, t | k in x'.lists && t in Elems(x'.lists[k])
      ensures t in refs + {r} && x'.listOf[t] == k
    {
      if t != r {
        assert k in x.lists && t in Elems(x.lists[k]);
      }
    }
  }

  lemma AddToListMasters(x: Sigs, refs: set<Ref>, r: Ref)
    requires x.listOf.Keys == refs && MastersOk(x, refs) && FiledOk(x, refs) && r !in refs && SigOf(r) in x.tree
    ensures var x' := x.(listOf := x.listOf[r := x.listOf[x.tree[SigOf(r)]]]);
      MastersOk(x', refs + {r}) && FiledOk(x', refs + {r})
  {
  }

  lemma AddToList(x: Sigs, refs: set<Ref>, r: Ref)
    requires SigsOk(x, refs) && r !in refs && SigOf(r) in x.tree
    ensures SigsOk(AddRef(x, r), refs + {r})
  {
    var master := x.tree[SigOf(r)];
    var l := x.listOf[master];
    var list := InsertAfter(x.lists[l], master, r);
    InsertAfterSound(x.lists[l], master, r);
    AddToListLists(x, refs, r, l, list);
    AddToListMasters(x, refs, r);
  }

  lemma AddNewListLists(x: Sigs, refs: set<Ref>, r: Ref)
    requires ListsOk(x, refs) && r !in refs
    ensures forall t :: t in refs ==> x.listOf[t] != x.next
    ensures ListsOk(x.(listOf := x.listOf[r := x.next], lists := x.lists[x.next := [r]], next := x.next + 1), refs + {r})
  {
    hide Distinct, Elems;
    Singleton(r);
    var x' := x.(listOf := x.listOf[r := x.next], lists := x.lists[x.next := [r]], next := x.next + 1);
    forall t | t in refs
      ensures x.listOf[t] != x.next && x'.listOf[t] == x.listOf[t]
    {
    }
  }

  lemma AddNewListMasters(x: Sigs, refs: set<Ref>, r: Ref, l: nat)
    requires x.listOf.Keys == refs && MastersOk(x, refs) && FiledOk(x, refs) && r !in refs && SigOf(r) !in x.tree
    requires forall t :: t in refs ==> x.listOf[t] != l
    ensures var x' := x.(tree := x.tree[SigOf(r) := r], masters := x.masters + {r}, listOf := x.listOf[r := l]);
      MastersOk(x', refs + {r}) && FiledOk(x', refs + {r})
  {
  }

  lemma AddNewList(x: Sigs, refs: set<Ref>, r: Ref)
    requires SigsOk(x, refs) && r !in refs && SigOf(r) !in x.tree
    ensures SigsOk(AddRef(x, r), refs + {r})
  {
    AddNewListLists(x, refs, r);
    ListsIgnoreTree(x.(listOf := x.listOf[r := x.next], lists := x.lists[x.next := [r]], next := x.next + 1),
                    AddRef(x, r), refs + {r});
    AddNewListMasters(x, refs, r, x.next);
  }

  lemma ListsIgnoreTree(x: Sigs, y: Sigs, refs: set<Ref>)
    requires ListsOk(x, refs) && y.listOf == x.listOf && y.lists == x.lists && y.next == x.next
    ensures ListsOk(y, refs)
  {
  }

  /** add_to_multicast keeps the index exact. */
  lemma AddRefKeeps(x: Sigs, refs: set<Ref>, r: Ref)
    requires SigsOk(x, refs) && r !in refs
    ensures SigOf(r) in x.tree ==> x.tree[SigOf(r)] in x.listOf && x.listOf[x.tree[SigOf(r)]] in x.lists
    ensures SigsOk(AddRef(x, r), refs + {r})
    ensures AddRef(x, r).listOf.Keys == refs + {r}
  {
    if SigOf(r) in x.tree {
      AddToList(x, refs, r);
    } else {
      AddNewList(x, refs, r);
    }
  }

  lemma RefInList(x: Sigs, refs: set<Ref>, r: Ref)
    requires SigsOk(x, refs) && r in refs
    ensures x.listOf[r] in x.lists && r in x.lists[x.listOf[r]]
  {
    ElemsMember(x.lists[x.listOf[r]], r);
  }

  lemma UnlinkLists(x: Sigs, refs: set<Ref>, r: Ref)
    requires ListsOk(x, refs) && r in refs
    ensures r in x.listOf && x.listOf[r] in x.lists
    ensures ListsOk(Unlink(x, r), refs - {r})
  {
    var l := x.listOf[r];
    RemoveSound(x.lists[l], r);
    var x' := Unlink(x, r);
    var list := Remove(x.lists[l], r);
    forall t | t in refs - {r}
      ensures x'.listOf[t] in x'.lists && t in Elems(x'.lists[x'.listOf[t]])
    {
      if x.listOf[t] == l {
        assert t in Elems(list);
        assert list != [];
      }
    }
  }

  lemma {:induction false} NeighbourOther(s: seq<Ref>, r: Ref)
    requires Distinct(s) && r in s && |s| > 1
    ensures Neighbour(s, r) != r && Neighbour(s, r) in Elems(s)
  {
    ElemsMember(s, Neighbour(s, r));
  }

  lemma {:induction false} SingleList(s: seq<Ref>, r: Ref)
    requires r in s && |s| == 1
    ensures Elems(s) == {r}
  {
    assert s[1..] == [];
  }

  ghost predicate FiledButOne(x: Sigs, refs: set<Ref>, r: Ref)
    requires x.listOf.Keys == refs && MastersOk(x, refs)
  {
    forall t :: t in refs && t != r ==> SigOf(t) in x.tree && x.listOf[x.tree[SigOf(t)]] == x.listOf[t]
  }

  lemma AbdicateAlone(x: Sigs, refs: set<Ref>, r: Ref)
    requires x.listOf.Keys == refs && MastersOk(x, refs) && FiledOk(x, refs) && r in x.masters
    requires forall t :: t in refs && t != r ==> x.listOf[t] != x.listOf[r]
    ensures var x1 := x.(tree := x.tree - {SigOf(r)}, masters := x.masters - {r});
      MastersOk(x1, refs) && FiledButOne(x1, refs, r)
  {
  }

  lemma AbdicateToHeir(x: Sigs, refs: set<Ref>, r: Ref, heir: Ref)
    requires x.listOf.Keys == refs && MastersOk(x, refs) && FiledOk(x, refs) && r in x.masters
    requires heir in refs && heir != r && x.listOf[heir] == x.listOf[r]
    ensures var x1 := x.(tree := x.tree[SigOf(r) := heir], masters := x.masters - {r} + {heir});
      MastersOk(x1, refs) && FiledButOne(x1, refs, r)
  {
    assert SigOf(heir) == SigOf(r) by {
      assert x.listOf[x.tree[SigOf(heir)]] == x.listOf[r];
    }
    assert heir !in x.masters;
  }

  /** After abdication r is an ordinary entry, and the others are filed as before. */
  lemma AbdicateKeeps(x: Sigs, refs: set<Ref>, r: Ref)
    requires SigsOk(x, refs) && r in refs
    ensures x.listOf[r] in x.lists && r in x.lists[x.listOf[r]]
    ensures var x1 := Abdicate(x, r);
      ListsOk(x1, refs) && MastersOk(x1, refs) && r !in x1.masters && FiledButOne(x1, refs, r)
  {
    RefInList(x, refs, r);
    var list := x.lists[x.listOf[r]];
    ListsIgnoreTree(x, Abdicate(x, r), refs);
    if r in x.masters {
      if |list| == 1 {
        SingleList(list, r);
        AbdicateAlone(x, refs, r);
      } else {
        NeighbourOther(list, r);
        AbdicateToHeir(x, refs, r, Neighbour(list, r));
      }
    }
  }

  /** remove_from_multicast keeps the index exact, electing a new master when needed. */
  lemma RemoveRefKeeps(x: Sigs, refs: set<Ref>, r: Ref)
    requires SigsOk(x, refs) && r in refs
    ensures r in x.listOf && x.listOf[r] in x.lists && r in x.lists[x.listOf[r]]
    ensures SigsOk(RemoveRef(x, r), refs - {r})
    ensures RemoveRef(x, r).listOf.Keys == refs - {r}
  {
    AbdicateKeeps(x, refs, r);
    var x1 := Abdicate(x, r);
    UnlinkLists(x1, refs, r);
    var x2 := Unlink(x1, r);
    assert forall t :: t in refs - {r} ==> x2.listOf[t] == x1.listOf[t];
  }

  lemma AddKeepsOthers(x: Sigs, r: Ref)
    requires SigOf(r) in x.tree ==> x.tree[SigOf(r)] in x.listOf && x.listOf[x.tree[SigOf(r)]] in x.lists
    ensures x.listOf.Keys <= AddRef(x, r).listOf.Keys
  {
  }
}
