/** The two levels of reference counts of drivers/amvdec_ports/aml_task_chain.c: each item holds the
    chain, the chain's list holds each item, and lookups hold items for a while. */
module TaskLifetime {
  import opened Basics

  /** ref, list and count are the driver's; the rest records who owns which reference:
      held, the lookups not put back yet; cleaned, the items whose list reference is gone. */
  datatype Life = Life(ref: nat, list: seq<nat>, count: map<nat, nat>,
                       held: map<nat, nat>, cleaned: set<nat>, released: bool, destroyed: nat)

  /** task_chain_init. */
  const INIT := Life(1, [], map[], map[], {}, false, 0)

  datatype Action = Attach(id: nat) | Get(id: nat) | PutBack(id: nat) | Clean | Release

  function Held(s: Life, id: nat): nat { if id in s.held then s.held[id] else 0 }

  // ----- kref_put -----

  /** kref_put of the chain: task_chain_destroy at 0. */
  function PutChain(s: Life): Life {
    if s.ref == 0 then s
    else s.(ref := s.ref - 1, destroyed := s.destroyed + if s.ref == 1 then 1 else 0)
  }

  function Removed(list: seq<nat>, id: nat): (r: seq<nat>)
    ensures forall x :: x in r <==> x in list && x != id
  {
    if list == [] then []
    else if list[0] == id then Removed(list[1..], id)
    else [list[0]] + Removed(list[1..], id)
  }

  /** kref_put of an item: task_item_release at 0, which puts the chain. */
  function PutItem(s: Life, id: nat): Life {
    if id !in s.count || s.count[id] == 0 then s
    else if s.count[id] == 1 then PutChain(s.(count := s.count - {id}, list := Removed(s.list, id)))
    else s.(count := s.count[id := s.count[id] - 1])
  }

  function CleanedOne(s: Life, id: nat): Life { PutItem(s, id).(cleaned := s.cleaned + {id}) }

  /** task_chain_clean: one put for each item of the list. */
  function CleanList(s: Life, ids: seq<nat>): Life
    decreases |ids|
  {
    if ids == [] then s else CleanList(CleanedOne(s, ids[0]), ids[1..])
  }

  /** Callers use only a chain that is not destroyed, items of the list, and references they hold. */
  predicate Enabled(s: Life, a: Action) {
    && s.destroyed == 0
    && match a
       case Attach(id) => id !in s.count && id !in s.cleaned && Held(s, id) == 0
       case Get(id) => id in s.list
       case PutBack(id) => Held(s, id) > 0
       case Clean => true
       case Release => !s.released
  }

  function Next(s: Life, a: Action): Life
    requires Enabled(s, a)
  {
    match a
    case Attach(id) => s.(ref := s.ref + 1, list := [id] + s.list, count := s.count[id := 1])
    case Get(id) =>
      if id in s.count then
        s.(count := s.count[id := s.count[id] + 1], held := s.held[id := Held(s, id) + 1])
      else s
    case PutBack(id) => PutItem(s, id).(held := s.held[id := Held(s, id) - 1])
    case Clean => CleanList(s, s.list)
    case Release => PutChain(s).(released := true)
  }

  // ----- every reference has an owner -----

  /** An item's count is its lookups plus the list's own reference. */
  predicate ItemRight(s: Life, id: nat)
    requires id in s.count
  {
    s.count[id] == Held(s, id) + One(id !in s.cleaned) && s.count[id] > 0
  }

  predicate Distinct(list: seq<nat>) { forall i, j :: 0 <= i < j < |list| ==> list[i] != list[j] }

  predicate SameMembers(list: seq<nat>, count: map<nat, nat>) {
    (forall id :: id in list ==> id in count) && (forall id :: id in count ==> id in list)
  }

  predicate Items(s: Life) {
    && (forall id :: id in s.count ==> ItemRight(s, id))
    && (forall id :: id in s.held && s.held[id] > 0 ==> id in s.count)
  }

  predicate ChainRight(s: Life) {
    && SameMembers(s.list, s.count) && Distinct(s.list)
    && s.ref == |s.count| + One(!s.released)
    && s.destroyed == One(s.ref == 0)
  }

  predicate Inv(s: Life) { Items(s) && ChainRight(s) }

  lemma {:induction false} RemovedDistinct(list: seq<nat>, id: nat)
    requires Distinct(list)
    ensures Distinct(Removed(list, id))
  {
    if list != [] {
      RemovedDistinct(list[1..], id);
      var r := Removed(list[1..], id);
      forall i | 0 <= i < |r| ensures r[i] != list[0] {
        assert r[i] in list[1..];
        var k :| 0 <= k < |list[1..]| && list[1..][k] == r[i];
        assert list[k + 1] == r[i];
      }
    }
  }

  lemma RemoveOne(m: map<nat, nat>, id: nat)
    requires id in m
    ensures |m - {id}| == |m| - 1
  {
    assert (m - {id}).Keys == m.Keys - {id};
  }

  lemma AddOne(m: map<nat, nat>, id: nat, n: nat)
    ensures |m[id := n]| == |m| + One(id !in m)
  {
    assert m[id := n].Keys == m.Keys + {id};
  }

  lemma PutItemChain(s: Life, id: nat)
    requires ChainRight(s) && id in s.count && s.count[id] > 0
    ensures ChainRight(PutItem(s, id))
  {
    hide Removed;
    RemoveOne(s.count, id);
    RemovedDistinct(s.list, id);
    AddOne(s.count, id, s.count[id] - 1);
    hide Distinct;
  }

  lemma ChainIgnoresOwners(s: Life, held: map<nat, nat>, cleaned: set<nat>)
    ensures ChainRight(s.(held := held, cleaned := cleaned)) == ChainRight(s)
  {
  }

  /** What a put does to the counts. */
  lemma PutItemElsewhere(s: Life, id: nat)
    requires id in s.count && s.count[id] > 0
    ensures var t := PutItem(s, id);
            && t.held == s.held && t.cleaned == s.cleaned && t.released == s.released
            && (forall x :: x in t.count ==> x in s.count && t.count[x] == s.count[x] - One(x == id))
            && (forall x :: x in s.count && x != id ==> x in t.count)
            && (id in t.count <==> s.count[id] > 1)
  {
    hide Removed;
  }

  /** A put by a lookup that holds the item. */
  lemma PutBackKeeps(s: Life, id: nat)
    requires Inv(s) && Held(s, id) > 0
    ensures Inv(PutItem(s, id).(held := s.held[id := Held(s, id) - 1]))
  {
    assert ItemRight(s, id);
    PutItemChain(s, id);
    hide Removed, Distinct, SameMembers, ChainRight;
    PutItemElsewhere(s, id);
    hide PutItem;
    var t := PutItem(s, id).(held := s.held[id := Held(s, id) - 1]);
    ChainIgnoresOwners(PutItem(s, id), t.held, t.cleaned);
    forall x | x in t.count ensures ItemRight(t, x) { assert ItemRight(s, x); }
  }

  /** A put of the list's own reference, the first time. */
  lemma CleanOneKeeps(s: Life, id: nat)
    requires Inv(s) && id in s.count && id !in s.cleaned
    ensures Inv(CleanedOne(s, id))
  {
    assert ItemRight(s, id);
    PutItemChain(s, id);
    hide Removed, Distinct, SameMembers, ChainRight;
    PutItemElsewhere(s, id);
    hide PutItem;
    var t := PutItem(s, id).(cleaned := s.cleaned + {id});
    ChainIgnoresOwners(PutItem(s, id), t.held, t.cleaned);
    forall x | x in t.count ensures ItemRight(t, x) { assert ItemRight(s, x); }
  }

  /** Every listed item still has the list's reference. */
  predicate NoneCleaned(s: Life) { forall id :: id in s.list ==> id !in s.cleaned }

  lemma {:induction false} CleanListKeeps(s: Life, ids: seq<nat>)
    requires Inv(s) && Distinct(ids) && forall id :: id in ids ==> id in s.count && id !in s.cleaned
    ensures Inv(CleanList(s, ids))
    decreases |ids|
  {
    hide Inv, PutItem, Distinct;
    if ids != [] {
      CleanOneKeeps(s, ids[0]);
      var t := CleanedOne(s, ids[0]);
      RestStays(s, ids);
      CleanListKeeps(t, ids[1..]);
    }
  }

  lemma RestStays(s: Life, ids: seq<nat>)
    requires ids != [] && Distinct(ids) && forall id :: id in ids ==> id in s.count && id !in s.cleaned
    ensures var t := CleanedOne(s, ids[0]);
            forall id :: id in ids[1..] ==> id in t.count && id !in t.cleaned
    ensures Distinct(ids[1..])
  {
    hide Removed;
    forall id | id in ids[1..] ensures id != ids[0] && id in ids {
      var k :| 0 <= k < |ids[1..]| && ids[1..][k] == id;
      assert ids[k + 1] == id;
    }
  }

  /** One step; a clean is right only while every listed item has its list reference. */
  lemma StepKeeps(s: Life, a: Action)
    requires Inv(s) && Enabled(s, a) && (a == Clean ==> NoneCleaned(s))
    ensures Inv(Next(s, a))
  {
    match a
    case Attach(id) => AttachKeeps(s, id);
    case Get(id) => GetKeeps(s, id);
    case PutBack(id) =>
      hide Inv, PutItem;
      PutBackKeeps(s, id);
    case Clean =>
      assert SameMembers(s.list, s.count);
      hide CleanList, ItemRight;
      CleanListKeeps(s, s.list);
    case Release =>
      hide Distinct, SameMembers;
      forall x | x in s.count ensures ItemRight(Next(s, a), x) { assert ItemRight(s, x); }
  }

  lemma AttachKeeps(s: Life, id: nat)
    requires Inv(s) && Enabled(s, Attach(id))
    ensures Inv(Next(s, Attach(id)))
  {
    var t := Next(s, Attach(id));
    AddOne(s.count, id, 1);
    assert Distinct(t.list) by {
      forall j | 0 <= j < |s.list| ensures s.list[j] != id { assert s.list[j] in s.list; }
    }
    hide Distinct;
    forall x | x in t.count ensures ItemRight(t, x) {
      if x != id { assert ItemRight(s, x); }
    }
  }

  lemma GetKeeps(s: Life, id: nat)
    requires Inv(s) && Enabled(s, Get(id))
    ensures Inv(Next(s, Get(id)))
  {
    hide Distinct;
    var t := Next(s, Get(id));
    AddOne(s.count, id, s.count[id] + 1);
    forall x | x in t.count ensures ItemRight(t, x) { assert ItemRight(s, x); }
  }

  // ----- all runs -----

  /** Any order of attach, get, put, clean and release in which no item is cleaned twice. */
  predicate Run(s0: Life, acts: seq<Action>, s: Life)
    decreases |acts|
  {
    if acts == [] then s == s0
    else
      && Enabled(s0, acts[0]) && (acts[0] == Clean ==> NoneCleaned(s0))
      && Run(Next(s0, acts[0]), acts[1..], s)
  }

  lemma {:induction false} RunKeeps(s0: Life, acts: seq<Action>, s: Life)
    requires Inv(s0) && Run(s0, acts, s)
    ensures Inv(s)
    decreases |acts|
  {
    hide Inv, Next, Enabled, NoneCleaned;
    if acts != [] {
      StepKeeps(s0, acts[0]);
      RunKeeps(Next(s0, acts[0]), acts[1..], s);
    }
  }

  /** The chain counts its live items plus its creator, and is destroyed once: when both the creator
      has released it and the last item has gone. No lookup ever holds an item that is gone. */
  lemma LifetimeIsRight(acts: seq<Action>, s: Life)
    requires Run(INIT, acts, s)
    ensures s.ref == |s.count| + One(!s.released)
    ensures s.destroyed == One(s.released && s.count == map[])
    ensures forall id :: Held(s, id) > 0 ==> id in s.count
  {
    assert Inv(INIT);
    RunKeeps(INIT, acts, s);
    assert |s.count| == 0 <==> s.count == map[];
  }

  lemma {:induction false} CleanListCounts(s: Life, ids: seq<nat>, id: nat)
    requires Distinct(ids) && id in s.count && s.count[id] > 0
    requires forall x :: x in ids ==> x in s.count && s.count[x] > 0
    ensures var t := CleanList(s, ids);
            && t.held == s.held && s.cleaned <= t.cleaned
            && (id !in ids ==> id in t.count && t.count[id] == s.count[id])
            && (id in ids ==> if s.count[id] == 1 then id !in t.count
                              else id in t.count && t.count[id] == s.count[id] - 1)
    decreases |ids|
  {
    if ids != [] {
      var x := ids[0];
      var t := CleanedOne(s, x);
      PutItemElsewhere(s, x);
      DistinctTail(ids);
      hide PutItem, Distinct;
      if id == x && s.count[id] == 1 {
        CleanListLeaves(t, ids[1..], id);
      } else {
        CleanListCounts(t, ids[1..], id);
      }
    }
  }

  lemma DistinctTail(ids: seq<nat>)
    requires ids != [] && Distinct(ids)
    ensures Distinct(ids[1..]) && ids[0] !in ids[1..]
    ensures forall x :: x in ids <==> x == ids[0] || x in ids[1..]
  {
    assert ids == [ids[0]] + ids[1..];
  }

  lemma {:induction false} CleanListLeaves(s: Life, ids: seq<nat>, id: nat)
    requires id !in s.count
    ensures var t := CleanList(s, ids); t.held == s.held && s.cleaned <= t.cleaned && id !in t.count
    decreases |ids|
  {
    if ids != [] { CleanListLeaves(CleanedOne(s, ids[0]), ids[1..], id); }
  }

  /** From a sound state, cleaning keeps it sound exactly when no listed item was cleaned before. */
  lemma CleanIsRightWhenFirst(s: Life)
    requires Inv(s)
    ensures Inv(CleanList(s, s.list)) <==> NoneCleaned(s)
  {
    assert SameMembers(s.list, s.count) && Distinct(s.list);
    hide CleanList, Distinct;
    if NoneCleaned(s) {
      hide ItemRight;
      CleanListKeeps(s, s.list);
    } else {
      var id :| id in s.list && id in s.cleaned;
      assert ItemRight(s, id) && forall x :: x in s.list ==> ItemRight(s, x);
      CleanListCounts(s, s.list, id);
      var t := CleanList(s, s.list);
      assert if id in t.count then !ItemRight(t, id) else t.held[id] > 0;
    }
  }

  lemma CleanOfOne(s: Life, id: nat)
    requires s.list == [id] && s.destroyed == 0
    ensures Next(s, Clean) == CleanedOne(s, id)
  {
    assert s.list[1..] == [] && s.list[0] == id;
    assert CleanList(CleanedOne(s, id), s.list[1..]) == CleanedOne(s, id);
  }

  /** An item is attached and looked up, then the chain is cleaned: the item stays in the list, and a second
      clean would take the lookup's reference away. */
  lemma SecondCleanExample() returns (s: Life)
    ensures Run(INIT, [Attach(7), Get(7), Clean], s)
    ensures s.list == [7] && s.count == map[7 := 1] && Held(s, 7) == 1
    ensures Enabled(s, Clean) && Held(Next(s, Clean), 7) == 1 && 7 !in Next(s, Clean).count
  {
    var s1 := Next(INIT, Attach(7));
    var s2 := Next(s1, Get(7));
    assert s2 == Life(2, [7], map[7 := 2], map[7 := 1], {}, false, 0) by { assert map[7 := 1][7 := 2] == map[7 := 2]; }
    CleanOfOne(s2, 7);
    s := Next(s2, Clean);
    assert s == Life(2, [7], map[7 := 1], map[7 := 1], {7}, false, 0) by { assert map[7 := 2][7 := 1] == map[7 := 1]; }
    CleanOfOne(s, 7);
    assert NoneCleaned(s2);
    assert Enabled(INIT, Attach(7)) && Enabled(s1, Get(7)) && Enabled(s2, Clean);
    hide Run, CleanList;
    RunOf3(INIT, s1, s2, s, Attach(7), Get(7), Clean);
  }

  lemma RunOf3(s0: Life, s1: Life, s2: Life, s3: Life, a: Action, b: Action, c: Action)
    requires Enabled(s0, a) && s1 == Next(s0, a) && Enabled(s1, b) && s2 == Next(s1, b)
    requires Enabled(s2, c) && s3 == Next(s2, c)
    requires a != Clean && b != Clean && (c == Clean ==> NoneCleaned(s2))
    ensures Run(s0, [a, b, c], s3)
  {
    hide Next, Enabled, NoneCleaned;
    assert [a, b, c][1..] == [b, c] && [b, c][1..] == [c] && [c][1..] == [];
    assert Run(s3, [], s3);
    assert Run(s2, [c], s3);
    assert Run(s1, [b, c], s3);
  }

  // ----- the counting code itself -----

  /** The counts of a chain and its items; view also says who owns the references. */
  class Counts {
    var ref: nat
    var list: seq<nat>
    var count: map<nat, nat>
    var destroyed: bool
    ghost var view: Life

    /** The fields are those of view, and the chain counts its items. */
    ghost predicate Counted()
      reads this
    {
      && ChainRight(view) && ref == view.ref && list == view.list && count == view.count
      && destroyed == (view.destroyed == 1)
    }

    /** And every reference has an owner. */
    ghost predicate Valid()
      reads this
    {
      Counted() && Inv(view)
    }

    constructor ()
      ensures Valid() && view == INIT
    {
      ref, list, count, destroyed := 1, [], map[], false;
      view := INIT;
    }

    /** kref_put(&task->ref, task_chain_destroy). */
    method ChainPut()
      requires ref > 0
      modifies this`ref, this`destroyed
      ensures ref == old(ref) - 1 && destroyed == (old(destroyed) || ref == 0)
    {
      ref := ref - 1;
      if ref == 0 {
        destroyed := true;
      }
    }

    /** kref_put(&item->ref, task_item_release). */
    method ItemPut(id: nat)
      requires id in count && count[id] > 0 && ref > 0
      modifies this`ref, this`list, this`count, this`destroyed
      ensures var s := Life(old(ref), old(list), old(count), map[], {}, false, One(old(destroyed)));
              var t := PutItem(s, id);
              ref == t.ref && list == t.list && count == t.count && destroyed == (t.destroyed > 0)
    {
      if count[id] == 1 {
        count := count - {id};
        list := Removed(list, id);
        ChainPut();
      } else {
        count := count[id := count[id] - 1];
      }
    }

    method TaskOrderAttach(id: nat)
      requires Valid() && Enabled(view, Attach(id))
      modifies this
      ensures Valid() && view == Next(old(view), Attach(id))
    {
      AttachKeeps(view, id);
      view := Next(view, Attach(id));
      hide Inv;
      count := count[id := 1];
      ref := ref + 1;
      list := [id] + list;
    }

    /** find_task_item; without an item it takes nothing. */
    method FindTaskItem(id: nat) returns (found: bool)
      requires Valid() && view.destroyed == 0
      modifies this
      ensures Valid() && found == (id in old(list))
      ensures view == if found then Next(old(view), Get(id)) else old(view)
    {
      found := id in list;
      if found {
        hide Inv, Removed, ChainRight;
        GetKeeps(view, id);
        GetCounts(view, id);
        view := Next(view, Get(id));
        hide Next;
        count := count[id := count[id] + 1];
      }
    }

    method TaskItemPut(id: nat)
      requires Valid() && Enabled(view, PutBack(id))
      modifies this
      ensures Valid() && view == Next(old(view), PutBack(id))
    {
      StepKeeps(view, PutBack(id));
      HeldIsCounted(view, id);
      ghost var v := view;
      PutItemIgnoresOwners(v, id);
      view := Next(v, PutBack(id));
      hide Inv, PutItem;
      ItemPut(id);
    }

    /** The list's own reference to one item. */
    method CleanItem(id: nat)
      requires Counted() && id in view.count && view.count[id] > 0
      modifies this
      ensures Counted() && view == CleanedOne(old(view), id)
    {
      CleanedChain(view, id);
      ghost var v := view;
      PutItemIgnoresOwners(v, id);
      view := CleanedOne(v, id);
      hide ChainRight, PutItem;
      ItemPut(id);
    }

    /** task_chain_clean, whether or not the chain was cleaned before. */
    method TaskChainClean()
      requires Valid() && Enabled(view, Clean)
      modifies this
      ensures Counted() && view == Next(old(view), Clean)
      ensures Valid() <==> NoneCleaned(old(view))
    {
      var ids := list;
      ghost var v := view;
      CleanIsRightWhenFirst(view);
      ListIsCounted(view);
      hide Inv, Distinct, CleanedOne, ChainRight;
      while ids != []
        invariant Counted() && CleanList(v, v.list) == CleanList(view, ids)
        invariant Distinct(ids) && forall id :: id in ids ==> id in view.count && view.count[id] > 0
        decreases |ids|
      {
        OthersStay(view, ids);
        CleanItem(ids[0]);
        ids := ids[1..];
      }
    }

    method TaskChainRelease()
      requires Valid() && Enabled(view, Release)
      modifies this
      ensures Valid() && view == Next(old(view), Release)
    {
      StepKeeps(view, Release);
      view := Next(view, Release);
      hide Inv;
      ChainPut();
    }
  }

  lemma CleanedChain(s: Life, id: nat)
    requires ChainRight(s) && id in s.count && s.count[id] > 0
    ensures ChainRight(CleanedOne(s, id)) && s.ref > 0
  {
    PutItemChain(s, id);
    ChainIgnoresOwners(PutItem(s, id), s.held, s.cleaned + {id});
    assert |s.count| > 0;
    hide PutItem, Distinct, SameMembers;
  }

  lemma OthersStay(s: Life, ids: seq<nat>)
    requires ids != [] && Distinct(ids) && forall id :: id in ids ==> id in s.count && s.count[id] > 0
    ensures var t := CleanedOne(s, ids[0]); forall id :: id in ids[1..] ==> id in t.count && t.count[id] > 0
    ensures Distinct(ids[1..])
  {
    DistinctTail(ids);
    PutItemElsewhere(s, ids[0]);
    hide PutItem;
  }

  lemma ListIsCounted(s: Life)
    requires Inv(s)
    ensures Distinct(s.list) && forall id :: id in s.list ==> id in s.count && s.count[id] > 0
  {
    forall id | id in s.list ensures id in s.count && s.count[id] > 0 { assert ItemRight(s, id); }
  }

  lemma GetCounts(s: Life, id: nat)
    requires Inv(s) && Enabled(s, Get(id))
    ensures id in s.count
    ensures Next(s, Get(id)) == s.(count := s.count[id := s.count[id] + 1], held := s.held[id := Held(s, id) + 1])
  {
  }

  lemma HeldIsCounted(s: Life, id: nat)
    requires Inv(s) && Held(s, id) > 0
    ensures id in s.count && s.count[id] > 0 && s.ref > 0
  {
    assert ItemRight(s, id);
  }

  lemma PutItemIgnoresOwners(s: Life, id: nat)
    ensures var t := PutItem(Life(s.ref, s.list, s.count, map[], {}, false, s.destroyed), id);
            PutItem(s, id) == Life(t.ref, t.list, t.count, s.held, s.cleaned, s.released, t.destroyed)
  {
  }
}
