/** The objects of drivers/amvdec_ports/aml_task_chain.c; ghost field view is the chain of TaskChainSpec. */
module TaskChain {
  import opened TaskChainSpec

  lemma ValidSlots(c: Chain, k: nat, s: seq<nat>)
    requires Valid(c) && k in c.slots && |s| == 3
    ensures Valid(c.(slots := c.slots[k := s]))
  {
  }

  lemma ValidActive(c: Chain, k: nat, on: bool)
    requires Valid(c) && k in c.active
    ensures Valid(c.(active := c.active[k := on]))
  {
  }

  lemma ValidAdd(c: Chain, k: nat)
    requires Valid(c) && k < MAP_SIZE
    ensures Valid(c.(slots := c.slots[k := [0, 0, 0]], active := c.active[k := false]))
  {
  }

  lemma ThreeSlots(c: Chain, k: nat)
    requires Valid(c) && k in c.slots
    ensures |c.slots[k]| == 3 && k in c.active
  {
  }

  /** struct task_item_s; vframe has three places. */
  class TaskItem {
    const kind: nat
    var vframe: seq<nat>
    var isActive: bool

    constructor (kind: nat)
      ensures this.kind == kind && vframe == [0, 0, 0] && !isActive
    {
      this.kind := kind;
      vframe := [0, 0, 0];
      isActive := false;
    }

    /** task_item_vframe_push. */
    method VframePush(vf: nat)
      modifies this`vframe
      ensures vframe == Push(old(vframe), vf)
    {
      for i := 0 to |vframe|
        invariant vframe == old(vframe)
        invariant forall j :: 0 <= j < i ==> vframe[j] != 0
      {
        if vframe[i] == 0 {
          FirstIs(vframe, i);
          vframe := vframe[i := vf];
          return;
        }
      }
    }

    /** task_item_vframe_pop. */
    method VframePop() returns (vf: nat)
      modifies this`vframe
      ensures vf == Popped(old(vframe)) && vframe == Pop(old(vframe))
    {
      for i := 0 to |vframe|
        invariant vframe == old(vframe)
        invariant forall j :: 0 <= j < i ==> vframe[j] == 0
      {
        if vframe[i] != 0 {
          FirstIs(vframe, i);
          vf := vframe[i];
          vframe := vframe[i := 0];
          return;
        }
      }
      vf := 0;
    }
  }

  /** The item of type k that find_task_item meets first. */
  function First(list: seq<TaskItem>, k: nat): (it: TaskItem?)
    ensures it == null <==> forall i :: 0 <= i < |list| ==> list[i].kind != k
    ensures it != null ==> it in list && it.kind == k
  {
    if list == [] then null
    else if list[0].kind == k then list[0]
    else
      assert list == [list[0]] + list[1..];
      First(list[1..], k)
  }

  lemma {:induction false} FoundFirst(list: seq<TaskItem>, k: nat, i: nat)
    requires i < |list| && list[i].kind == k && forall j :: 0 <= j < i ==> list[j].kind != k
    ensures First(list, k) == list[i]
  {
    if i > 0 { FoundFirst(list[1..], k, i - 1); }
  }

  lemma FirstAfterAdd(item: TaskItem, list: seq<TaskItem>, k: nat)
    ensures First([item] + list, k) == if item.kind == k then item else First(list, k)
  {
    assert ([item] + list)[1..] == list;
  }

  /** struct task_chain_s, without its reference counts. */
  class Chains {
    var listItem: seq<TaskItem>
    var curType: nat
    const map0: array<nat>
    const map1: array<nat>
    ghost var view: Chain
    ghost var byKind: map<nat, TaskItem>

    ghost predicate ItemOk(it: TaskItem)
      reads this, it
    {
      && it.kind in view.slots && it.vframe == view.slots[it.kind]
      && it.kind in view.active && it.isActive == view.active[it.kind]
    }

    /** byKind is the newest item of each type, with the slots of the view; older items of a type that was
        attached again are in the list behind it, where no lookup finds them. */
    ghost predicate Inv()
      reads this, map0, map1, byKind.Values
    {
      && Valid(view) && map0 != map1
      && map0[..] == view.map0 && map1[..] == view.map1 && curType == view.cur
      && byKind.Keys == view.slots.Keys
      && (forall k :: k in byKind ==> byKind[k].kind == k && ItemOk(byKind[k]) && First(listItem, k) == byKind[k])
      && (forall k: nat :: k !in byKind ==> First(listItem, k) == null)
    }

    /** task_chain_init. */
    constructor ()
      ensures Inv() && listItem == [] && fresh(map0) && fresh(map1)
      ensures view == Chain(seq(MAP_SIZE, _ => 0), seq(MAP_SIZE, _ => 0), 0, map[], map[])
    {
      listItem, curType, byKind := [], 0, map[];
      map0 := new nat[MAP_SIZE](_ => 0);
      map1 := new nat[MAP_SIZE](_ => 0);
      view := Chain(seq(MAP_SIZE, _ => 0), seq(MAP_SIZE, _ => 0), 0, map[], map[]);
    }

    /** Lines 305-307. */
    method Link(kind: nat)
      requires Inv() && kind < MAP_SIZE
      modifies this`view, this`curType, map0, map1
      ensures Inv()
      ensures view == old(view).(map0 := old(view).map0[kind := old(view).cur],
                                 map1 := old(view).map1[old(view).cur := kind], cur := kind)
    {
      map0[kind] := curType;
      map1[curType] := kind;
      view := view.(map0 := view.map0[kind := view.cur], map1 := view.map1[view.cur := kind], cur := kind);
      curType := kind;
    }

    /** Lines 292-303 and 310: a new item at the head of the list. */
    method AddItem(kind: nat)
      requires Inv() && kind < MAP_SIZE
      modifies this`view, this`listItem, this`byKind
      ensures Inv()
      ensures view == old(view).(slots := old(view).slots[kind := [0, 0, 0]], active := old(view).active[kind := false])
    {
      ValidAdd(view, kind);
      hide Valid, First;
      var item := new TaskItem(kind);
      view := view.(slots := view.slots[kind := [0, 0, 0]], active := view.active[kind := false]);
      byKind := byKind[kind := item];
      ghost var others := listItem;
      listItem := [item] + listItem;
      forall k: nat
        ensures k in byKind ==> byKind[k].kind == k && ItemOk(byKind[k]) && First(listItem, k) == byKind[k]
        ensures k !in byKind ==> First(listItem, k) == null
      {
        FirstAfterAdd(item, others, k);
        if k != kind && k in byKind { assert old(ItemOk(byKind[k])); }
      }
    }

    /** task_order_attach; a type that is on the chain already gets a new item that hides the old one. */
    method AttachItem(kind: nat)
      requires Inv() && kind < MAP_SIZE
      modifies this, map0, map1
      ensures Inv() && view == Attach(old(view), kind)
    {
      Link(kind);
      AddItem(kind);
    }

    /** find_task_item. */
    method FindItem(kind: nat) returns (item: TaskItem?)
      requires Inv()
      ensures item == null <==> kind !in view.slots
      ensures item != null ==> kind in byKind && item == byKind[kind] && item.kind == kind
    {
      for i := 0 to |listItem|
        invariant forall j :: 0 <= j < i ==> listItem[j].kind != kind
      {
        if listItem[i].kind == kind {
          FoundFirst(listItem, kind, i);
          return listItem[i];
        }
      }
      item := null;
    }

    /** is_active of one item. */
    method SetActive(item: TaskItem, on: bool)
      requires Inv() && item.kind in byKind && byKind[item.kind] == item
      modifies this`view, item`isActive
      ensures Inv() && view == old(view).(active := old(view).active[item.kind := on])
    {
      ThreeSlots(view, item.kind);
      ValidActive(view, item.kind, on);
      hide Valid, First;
      item.isActive := on;
      view := view.(active := view.active[item.kind := on]);
      forall k | k in byKind ensures ItemOk(byKind[k]) {
        assert old(ItemOk(byKind[k]));
        if k != item.kind { assert byKind[k] != item; }
      }
    }

    /** map[0][kind] and map[1][kind]. */
    method Maps(kind: nat) returns (k0: nat, k1: nat)
      requires Inv() && kind < MAP_SIZE
      ensures k0 == view.map0[kind] && k1 == view.map1[kind] && k0 < MAP_SIZE && k1 < MAP_SIZE
    {
      k0, k1 := map0[kind], map1[kind];
    }

    method PushInto(item: TaskItem, vf: nat)
      requires Inv() && item.kind in byKind && byKind[item.kind] == item
      modifies this`view, item`vframe
      ensures Inv() && view == old(view).(slots := old(view).slots[item.kind := Push(old(view).slots[item.kind], vf)])
    {
      ThreeSlots(view, item.kind);
      ValidSlots(view, item.kind, Push(view.slots[item.kind], vf));
      hide Push, Valid, First;
      item.VframePush(vf);
      view := view.(slots := view.slots[item.kind := Push(view.slots[item.kind], vf)]);
      forall k | k in byKind ensures ItemOk(byKind[k]) {
        assert old(ItemOk(byKind[k]));
        if k != item.kind { assert byKind[k] != item; }
      }
    }

    method PopFrom(item: TaskItem) returns (vf: nat)
      requires Inv() && item.kind in byKind && byKind[item.kind] == item
      modifies this`view, item`vframe
      ensures Inv() && view == old(view).(slots := old(view).slots[item.kind := Pop(old(view).slots[item.kind])])
      ensures vf == Popped(old(view).slots[item.kind])
    {
      ThreeSlots(view, item.kind);
      ValidSlots(view, item.kind, Pop(view.slots[item.kind]));
      hide Pop, Popped, Valid, First;
      vf := item.VframePop();
      view := view.(slots := view.slots[item.kind := Pop(view.slots[item.kind])]);
      forall k | k in byKind ensures ItemOk(byKind[k]) {
        assert old(ItemOk(byKind[k]));
        if k != item.kind { assert byKind[k] != item; }
      }
    }

    /** task_buffer_submit; vf is what the item's owner supplies, f whose fill_buffer is called. */
    method SubmitBuffer(kind: nat, vf: nat) returns (f: Filled)
      requires Inv() && kind < MAP_SIZE
      modifies this`view, byKind.Values
      ensures Inv() && (view, f) == Submit(old(view), kind, vf)
    {
      hide Push, Inv, Valid;
      f := Nobody;
      var item := FindItem(kind);
      if item != null {
        PushInto(item, vf);
        SetActive(item, false);
        var next, _ := Maps(kind);
        var item2 := FindItem(next);
        if item2 != null {
          SetActive(item2, true);
          f := Filled(item2.kind);
        }
      }
    }

    /** task_buffer_recycle; the frame handed to put_vframe of its owner. */
    method RecycleBuffer(kind: nat) returns (h: Handed)
      requires Inv() && kind < MAP_SIZE
      modifies this`view, byKind.Values
      ensures Inv() && (view, h) == Recycle(old(view), kind)
    {
      hide Pop, Popped, Inv, Valid;
      h := Nothing;
      var item := FindItem(kind);
      if item != null {
        SetActive(item, false);
        var _, prev := Maps(kind);
        var item2 := FindItem(prev);
        if item2 != null {
          SetActive(item2, true);
          var vf := PopFrom(item2);
          h := Handed(item2.kind, vf);
        }
      }
    }
  }
}
