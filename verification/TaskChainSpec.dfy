/** The task chain of drivers/amvdec_ports/aml_task_chain.c on values: its two maps, the three frame
    slots of each item, and the walks of a buffer down to the display and back. */
module TaskChainSpec {

  /** The length of each row of map[2][8]. */
  const MAP_SIZE: nat := 8

  type Slots = map<nat, seq<nat>>

  /** slots and active: one entry per item, by type; a frame is a nonzero handle, 0 is NULL. */
  datatype Chain = Chain(map0: seq<nat>, map1: seq<nat>, cur: nat, slots: Slots, active: map<nat, bool>)

  predicate IsMap(m: seq<nat>) {
    |m| == MAP_SIZE && forall i :: 0 <= i < MAP_SIZE ==> m[i] < MAP_SIZE
  }

  predicate ThreeEach(m: Slots) { forall k :: k in m ==> k < MAP_SIZE && |m[k]| == 3 }

  predicate Valid(c: Chain) {
    IsMap(c.map0) && IsMap(c.map1) && c.cur < MAP_SIZE && ThreeEach(c.slots) && c.active.Keys == c.slots.Keys
  }

  /** A chain whose maps and slots have the shape the driver allocates. */
  type Sound = c: Chain | Valid(c) witness Chain(seq(MAP_SIZE, _ => 0), seq(MAP_SIZE, _ => 0), 0, map[], map[])

  /** Distinct item types. */
  predicate Types(ts: seq<nat>) {
    && (forall i :: 0 <= i < |ts| ==> ts[i] < MAP_SIZE)
    && (forall i, j :: 0 <= i < j < |ts| ==> ts[i] != ts[j])
  }

  // ----- attaching -----

  /** task_order_attach of a type that is not on the chain yet. */
  function Attach(c: Sound, k: nat): (r: Sound)
    requires k < MAP_SIZE
    ensures r.slots.Keys == c.slots.Keys + {k}
  {
    Chain(c.map0[k := c.cur], c.map1[c.cur := k], k, c.slots[k := [0, 0, 0]], c.active[k := false])
  }

  /** task_chain_clean when nobody else holds an item: only the items go. */
  function Clean(c: Sound): (r: Sound)
  {
    c.(slots := map[], active := map[])
  }

  /** Attaching ts[0], ts[1], ... in turn. */
  function AttachAll(c: Sound, ts: seq<nat>): (r: Sound)
    requires Types(ts)
  {
    if ts == [] then c else Attach(AttachAll(c, ts[..|ts| - 1]), ts[|ts| - 1])
  }

  /** The maps lead from each type to the one attached before it, and back. */
  predicate Linked(m0: seq<nat>, m1: seq<nat>, ts: seq<nat>)
    requires |m0| == |m1| == MAP_SIZE && Types(ts)
  {
    forall i, j :: 0 <= i < |ts| && 0 <= j < |ts| && j == i + 1 ==> m0[ts[j]] == ts[i] && m1[ts[i]] == ts[j]
  }

  lemma AttachLinks(m0: seq<nat>, m1: seq<nat>, ts: seq<nat>, cur: nat, k: nat)
    requires IsMap(m0) && IsMap(m1) && Types(ts + [k]) && Types(ts) && Linked(m0, m1, ts)
    requires cur < MAP_SIZE && k < MAP_SIZE && (ts != [] ==> cur == ts[|ts| - 1])
    ensures Linked(m0[k := cur], m1[cur := k], ts + [k])
  {
    var us := ts + [k];
    forall i, j | 0 <= i < |us| && 0 <= j < |us| && j == i + 1
      ensures m0[k := cur][us[j]] == us[i] && m1[cur := k][us[i]] == us[j]
    {
      assert j < |ts| ==> us[j] == ts[j] && us[i] == ts[i] && ts[j] != us[|ts|];
    }
  }

  /** From any chain, also one that was cleaned and still has its old maps and cur_type. */
  lemma {:induction false} AttachAllLinks(c: Sound, ts: seq<nat>)
    requires Types(ts)
    ensures Linked(AttachAll(c, ts).map0, AttachAll(c, ts).map1, ts)
    ensures AttachAll(c, ts).cur == if ts == [] then c.cur else ts[|ts| - 1]
  {
    if ts != [] {
      var init, k := ts[..|ts| - 1], ts[|ts| - 1];
      AttachAllLinks(c, init);
      var a := AttachAll(c, init);
      assert ts == init + [k] && AttachAll(c, ts) == Attach(a, k);
      hide Linked, AttachAll;
      AttachLinks(a.map0, a.map1, init, a.cur, k);
    }
  }

  function Walk(m: seq<nat>, from: nat, steps: nat): nat
    requires from < MAP_SIZE && IsMap(m)
    decreases steps
  {
    if steps == 0 then from else Walk(m, m[from], steps - 1)
  }

  lemma {:induction false} WalksFollow(m0: seq<nat>, m1: seq<nat>, ts: seq<nat>, i: nat, steps: nat)
    requires IsMap(m0) && IsMap(m1) && Types(ts) && Linked(m0, m1, ts) && i < |ts|
    ensures steps <= i ==> Walk(m0, ts[i], steps) == ts[i - steps]
    ensures i + steps < |ts| ==> Walk(m1, ts[i], steps) == ts[i + steps]
    decreases steps
  {
    if steps > 0 {
      if steps <= i {
        assert m0[ts[i]] == ts[i - 1];
        WalksFollow(m0, m1, ts, i - 1, steps - 1);
      }
      if i + steps < |ts| {
        assert m1[ts[i]] == ts[i + 1];
        WalksFollow(m0, m1, ts, i + 1, steps - 1);
      }
    }
  }

  /** map[0] walks tn .. t1 and map[1] walks t1 .. tn, whatever the chain went through before: c may be
      new, or cleaned after an earlier attaching with its maps and cur_type left over. */
  lemma AttachedMapsWalk(c: Sound, ts: seq<nat>, steps: nat)
    requires Types(ts) && steps < |ts|
    ensures var a := AttachAll(c, ts);
            && Walk(a.map0, ts[|ts| - 1], steps) == ts[|ts| - 1 - steps]
            && Walk(a.map1, ts[0], steps) == ts[steps]
  {
    AttachAllLinks(c, ts);
    var a := AttachAll(c, ts);
    hide AttachAll, Linked, Walk, Types;
    WalksFollow(a.map0, a.map1, ts, |ts| - 1, steps);
    WalksFollow(a.map0, a.map1, ts, 0, steps);
  }

  lemma ReattachedMapsWalk(c: Sound, old1: seq<nat>, ts: seq<nat>, steps: nat)
    requires Types(old1) && Types(ts) && steps < |ts|
    ensures var a := AttachAll(Clean(AttachAll(c, old1)), ts);
            && Walk(a.map0, ts[|ts| - 1], steps) == ts[|ts| - 1 - steps]
            && Walk(a.map1, ts[0], steps) == ts[steps]
  {
    hide AttachAll, Walk;
    AttachedMapsWalk(Clean(AttachAll(c, old1)), ts, steps);
  }

  // ----- the slots of an item -----

  /** The first slot that is NULL, or 3. */
  function FirstFree(s: seq<nat>): (r: nat)
    ensures r <= |s|
    ensures forall i :: 0 <= i < r ==> s[i] != 0
    ensures r < |s| ==> s[r] == 0
  {
    if s == [] || s[0] == 0 then 0 else 1 + FirstFree(s[1..])
  }

  function FirstUsed(s: seq<nat>): (r: nat)
    ensures r <= |s|
    ensures forall i :: 0 <= i < r ==> s[i] == 0
    ensures r < |s| ==> s[r] != 0
  {
    if s == [] || s[0] != 0 then 0 else 1 + FirstUsed(s[1..])
  }

  /** task_item_vframe_push: a fourth frame is lost. */
  function Push(s: seq<nat>, vf: nat): (r: seq<nat>)
    ensures |r| == |s|
  {
    if FirstFree(s) < |s| then s[FirstFree(s) := vf] else s
  }

  /** task_item_vframe_pop. */
  function Popped(s: seq<nat>): nat {
    if FirstUsed(s) < |s| then s[FirstUsed(s)] else 0
  }

  function Pop(s: seq<nat>): (r: seq<nat>)
    ensures |r| == |s|
  {
    if FirstUsed(s) < |s| then s[FirstUsed(s) := 0] else s
  }

  lemma FirstIs(s: seq<nat>, i: nat)
    requires i < |s|
    ensures (forall j :: 0 <= j < i ==> s[j] != 0) && s[i] == 0 ==> FirstFree(s) == i
    ensures (forall j :: 0 <= j < i ==> s[j] == 0) && s[i] != 0 ==> FirstUsed(s) == i
  {
  }

  /** The pop takes back what the push put exactly when slot 0 was free. */
  lemma PopUndoesPush(s: seq<nat>, vf: nat)
    requires |s| == 3 && vf != 0
    ensures Popped(Push(s, vf)) == vf && Pop(Push(s, vf)) == s <==> s[0] == 0
  {
    var t := Push(s, vf);
    if s[0] == 0 {
      FirstIs(s, 0);
      FirstIs(t, 0);
      assert t[0 := 0] == s;
    } else {
      FirstIs(t, 0);
      assert Pop(t)[0] == 0;
    }
  }

  // ----- submit and recycle -----

  /** Whose fill_buffer is called. */
  datatype Filled = Filled(owner: nat) | Nobody

  /** task_buffer_submit by the item of type k, whose owner supplied vf. */
  function Submit(c: Sound, k: nat, vf: nat): (r: (Sound, Filled))
    requires k < MAP_SIZE
    ensures (r.0.map0, r.0.map1) == (c.map0, c.map1) && r.0.slots.Keys == c.slots.Keys
  {
    if k !in c.slots then (c, Nobody)
    else
      var next := c.map0[k];
      var a := c.active[k := false];
      var pushed := c.slots[k := Push(c.slots[k], vf)];
      if next in c.slots then (c.(slots := pushed, active := a[next := true]), Filled(next))
      else (c.(slots := pushed, active := a), Nobody)
  }

  /** What put_vframe is called with. */
  datatype Handed = Handed(owner: nat, vf: nat) | Nothing

  /** task_buffer_recycle by the item of type k. */
  function Recycle(c: Sound, k: nat): (r: (Sound, Handed))
    requires k < MAP_SIZE
    ensures (r.0.map0, r.0.map1) == (c.map0, c.map1) && r.0.slots.Keys == c.slots.Keys
  {
    if k !in c.slots then (c, Nothing)
    else
      var prev := c.map1[k];
      var a := c.active[k := false];
      if prev !in c.slots then (c.(active := a), Nothing)
      else
        (c.(slots := c.slots[prev := Pop(c.slots[prev])], active := a[prev := true]),
         Handed(prev, Popped(c.slots[prev])))
  }

  /** The buffer goes from type ts[i] down to ts[0]; vfs[j] is what the owner of ts[j] supplied. */
  function SubmitDown(c: Sound, ts: seq<nat>, vfs: seq<nat>, i: nat): (r: (Sound, seq<Filled>))
    requires i < |ts| == |vfs| && Types(ts)
    ensures (r.0.map0, r.0.map1) == (c.map0, c.map1) && r.0.slots.Keys == c.slots.Keys
    ensures |r.1| == i
    decreases i
  {
    if i == 0 then (c, [])
    else
      var (c1, f) := Submit(c, ts[i], vfs[i]);
      var (c2, fs) := SubmitDown(c1, ts, vfs, i - 1);
      (c2, [f] + fs)
  }

  /** And back up: ts[0] .. ts[i-1] recycle in turn. */
  function RecycleUp(c: Sound, ts: seq<nat>, i: nat): (r: (Sound, seq<Handed>))
    requires i < |ts| && Types(ts)
    ensures (r.0.map0, r.0.map1) == (c.map0, c.map1) && r.0.slots.Keys == c.slots.Keys
    ensures |r.1| == i
  {
    if i == 0 then (c, [])
    else
      var (c1, hs) := RecycleUp(c, ts, i - 1);
      var (c2, h) := Recycle(c1, ts[i - 1]);
      (c2, hs + [h])
  }

  /** Type k is none of ts[1] .. ts[i]. */
  predicate Untouched(ts: seq<nat>, i: nat, k: nat)
    requires i < |ts|
  {
    forall j :: 1 <= j <= i ==> ts[j] != k
  }

  lemma SubmitSlots(c: Sound, k: nat, vf: nat)
    requires k < MAP_SIZE && k in c.slots
    ensures Submit(c, k, vf).0.slots == c.slots[k := Push(c.slots[k], vf)]
  {
  }

  lemma RecycleSlots(c: Sound, k: nat)
    requires k < MAP_SIZE && k in c.slots && c.map1[k] in c.slots
    ensures var p := c.map1[k];
            && Recycle(c, k).0.slots == c.slots[p := Pop(c.slots[p])]
            && Recycle(c, k).1 == Handed(p, Popped(c.slots[p]))
  {
  }

  /** Every type of ts has an item. */
  predicate AllIn(m: Slots, ts: seq<nat>) {
    Types(ts) && forall i :: 0 <= i < |ts| ==> ts[i] in m
  }

  /** What the two walks do to the slots alone. */
  function PushDown(m: Slots, ts: seq<nat>, vfs: seq<nat>, i: nat): (r: Slots)
    requires i < |ts| == |vfs| && AllIn(m, ts)
    ensures r.Keys == m.Keys
    decreases i
  {
    if i == 0 then m else PushDown(m[ts[i] := Push(m[ts[i]], vfs[i])], ts, vfs, i - 1)
  }

  function PopUp(m: Slots, ts: seq<nat>, i: nat): (r: Slots)
    requires i < |ts| && AllIn(m, ts)
    ensures r.Keys == m.Keys
  {
    if i == 0 then m
    else
      var m1 := PopUp(m, ts, i - 1);
      m1[ts[i] := Pop(m1[ts[i]])]
  }

  lemma {:induction false} PushDownAt(m: Slots, ts: seq<nat>, vfs: seq<nat>, i: nat)
    requires i < |ts| == |vfs| && AllIn(m, ts)
    ensures var r := PushDown(m, ts, vfs, i);
            && (forall j :: 1 <= j <= i ==> r[ts[j]] == Push(m[ts[j]], vfs[j]))
            && (forall k :: k in m && Untouched(ts, i, k) ==> r[k] == m[k])
    decreases i
  {
    hide Push;
    if i > 0 {
      PushDownAt(m[ts[i] := Push(m[ts[i]], vfs[i])], ts, vfs, i - 1);
      assert Untouched(ts, i - 1, ts[i]);
    }
  }

  lemma {:induction false} PopUpAt(m: Slots, ts: seq<nat>, i: nat)
    requires i < |ts| && AllIn(m, ts)
    ensures var r := PopUp(m, ts, i);
            && (forall j :: 1 <= j <= i ==> r[ts[j]] == Pop(m[ts[j]]))
            && (forall k :: k in m && Untouched(ts, i, k) ==> r[k] == m[k])
  {
    hide Pop;
    if i > 0 {
      PopUpAt(m, ts, i - 1);
      assert Untouched(ts, i - 1, ts[i]);
    }
  }

  lemma PushDownOf(m: Slots, ts: seq<nat>, vfs: seq<nat>, j: nat)
    requires 1 <= j < |ts| == |vfs| && AllIn(m, ts)
    ensures PushDown(m, ts, vfs, |ts| - 1)[ts[j]] == Push(m[ts[j]], vfs[j])
  {
    PushDownAt(m, ts, vfs, |ts| - 1);
    hide PushDown, Push, AllIn;
  }

  lemma PopUpOf(m: Slots, ts: seq<nat>, j: nat)
    requires 1 <= j < |ts| && AllIn(m, ts)
    ensures PopUp(m, ts, |ts| - 1)[ts[j]] == Pop(m[ts[j]])
  {
    PopUpAt(m, ts, |ts| - 1);
    hide PopUp, Pop, AllIn;
  }

  lemma Elsewhere(m: Slots, ts: seq<nat>, vfs: seq<nat>, k: nat)
    requires 1 <= |ts| == |vfs| && AllIn(m, ts) && k in m && Untouched(ts, |ts| - 1, k)
    ensures PushDown(m, ts, vfs, |ts| - 1)[k] == m[k]
    ensures PopUp(m, ts, |ts| - 1)[k] == m[k]
  {
    hide Untouched, AllIn, PushDown, PopUp;
    PushDownAt(m, ts, vfs, |ts| - 1);
    PopUpAt(m, ts, |ts| - 1);
  }

  lemma SameItems(m: Slots, r: Slots, ts: seq<nat>)
    requires AllIn(m, ts) && r.Keys == m.Keys
    ensures AllIn(r, ts)
  {
  }

  lemma {:induction false} SubmitDownPushes(c: Sound, ts: seq<nat>, vfs: seq<nat>, i: nat)
    requires i < |ts| == |vfs| && AllIn(c.slots, ts)
    ensures SubmitDown(c, ts, vfs, i).0.slots == PushDown(c.slots, ts, vfs, i)
    decreases i
  {
    hide Valid, Push, Submit;
    if i > 0 {
      var c1 := Submit(c, ts[i], vfs[i]).0;
      SubmitSlots(c, ts[i], vfs[i]);
      assert SubmitDown(c, ts, vfs, i).0 == SubmitDown(c1, ts, vfs, i - 1).0;
      assert PushDown(c.slots, ts, vfs, i) == PushDown(c1.slots, ts, vfs, i - 1);
      hide SubmitDown, PushDown, AllIn;
      SameItems(c.slots, c1.slots, ts);
      SubmitDownPushes(c1, ts, vfs, i - 1);
    }
  }

  lemma NextOf(c: Sound, ts: seq<nat>, i: nat)
    requires 1 <= i < |ts| && AllIn(c.slots, ts) && Linked(c.map0, c.map1, ts)
    ensures |c.map1| == MAP_SIZE && ts[i - 1] < MAP_SIZE && c.map1[ts[i - 1]] == ts[i]
    ensures ts[i - 1] in c.slots && ts[i] in c.slots
  {
  }

  lemma UpNext(c: Sound, ts: seq<nat>, i: nat)
    requires 1 <= i < |ts| && Types(ts)
    ensures var up, last := RecycleUp(c, ts, i - 1), Recycle(RecycleUp(c, ts, i - 1).0, ts[i - 1]);
            RecycleUp(c, ts, i) == (last.0, up.1 + [last.1])
  {
    hide Recycle, Valid;
  }

  lemma {:induction false} RecycleUpPops(c: Sound, ts: seq<nat>, i: nat)
    requires i < |ts| && AllIn(c.slots, ts) && Linked(c.map0, c.map1, ts)
    ensures RecycleUp(c, ts, i).0.slots == PopUp(c.slots, ts, i)
    ensures forall j :: 1 <= j <= i ==> RecycleUp(c, ts, i).1[j - 1] == Handed(ts[j], Popped(c.slots[ts[j]]))
  {
    hide Valid, Recycle, Pop, Popped;
    if i > 0 {
      RecycleUpPops(c, ts, i - 1);
      var c1 := RecycleUp(c, ts, i - 1).0;
      UpNext(c, ts, i);
      hide RecycleUp;
      NextOf(c, ts, i);
      hide Linked, AllIn, Types;
      RecycleSlots(c1, ts[i - 1]);
      NotPoppedYet(c.slots, ts, i);
    }
  }

  lemma NotPoppedYet(m: Slots, ts: seq<nat>, i: nat)
    requires 1 <= i < |ts| && AllIn(m, ts)
    ensures PopUp(m, ts, i - 1)[ts[i]] == m[ts[i]]
  {
    hide PopUp, Pop, Popped;
    PopUpAt(m, ts, i - 1);
    assert Untouched(ts, i - 1, ts[i]);
  }

  /** One frame of every owner but ts[0]'s goes to the display and comes back to its owner. */
  predicate ReturnsAll(c: Sound, ts: seq<nat>, vfs: seq<nat>)
    requires 1 <= |ts| == |vfs| && AllIn(c.slots, ts)
  {
    var n := |ts|;
    var (r, hs) := RecycleUp(SubmitDown(c, ts, vfs, n - 1).0, ts, n - 1);
    && (forall j :: 1 <= j < n ==> hs[j - 1] == Handed(ts[j], vfs[j]))
    && r.slots == c.slots
  }

  /** A full submit walk and a full recycle walk give every owner its own frame and leave all slots as
      they were, if and only if slot 0 of every supplying item was free to begin with. */
  lemma WalkReturnsAll(c: Sound, ts: seq<nat>, vfs: seq<nat>)
    requires 1 <= |ts| == |vfs| && AllIn(c.slots, ts) && Linked(c.map0, c.map1, ts)
    requires forall j :: 1 <= j < |vfs| ==> vfs[j] != 0
    ensures ReturnsAll(c, ts, vfs) <==> forall j :: 1 <= j < |ts| ==> c.slots[ts[j]][0] == 0
  {
    hide Push, Pop, Popped, PushDown, PopUp, SubmitDown, RecycleUp, Linked;
    var n := |ts|;
    var d := SubmitDown(c, ts, vfs, n - 1).0;
    SubmitDownPushes(c, ts, vfs, n - 1);
    RecycleUpPops(d, ts, n - 1);
    SlotsReturn(c.slots, ts, vfs);
    var (r, hs) := RecycleUp(d, ts, n - 1);
    forall j | 1 <= j < n ensures hs[j - 1] == Handed(ts[j], Popped(Push(c.slots[ts[j]], vfs[j]))) {
      PushDownOf(c.slots, ts, vfs, j);
    }
    if forall j :: 1 <= j < n ==> hs[j - 1] == Handed(ts[j], vfs[j]) {
      forall j | 1 <= j < n ensures Popped(Push(c.slots[ts[j]], vfs[j])) == vfs[j] {
        assert hs[j - 1] == Handed(ts[j], vfs[j]);
      }
    }
  }

  /** The pops undo the pushes, for every frame and every slot. */
  predicate SlotsBack(m: Slots, ts: seq<nat>, vfs: seq<nat>)
    requires 1 <= |ts| == |vfs| && AllIn(m, ts)
  {
    && (forall j :: 1 <= j < |ts| ==> Popped(Push(m[ts[j]], vfs[j])) == vfs[j])
    && PopUp(PushDown(m, ts, vfs, |ts| - 1), ts, |ts| - 1) == m
  }

  /** The walks on the slots of one type. */
  lemma SlotWalk(m: Slots, ts: seq<nat>, vfs: seq<nat>, j: nat)
    requires 1 <= j < |ts| == |vfs| && AllIn(m, ts) && |m[ts[j]]| == 3 && vfs[j] != 0
    ensures var r := PopUp(PushDown(m, ts, vfs, |ts| - 1), ts, |ts| - 1);
            Popped(Push(m[ts[j]], vfs[j])) == vfs[j] && r[ts[j]] == m[ts[j]] <==> m[ts[j]][0] == 0
  {
    hide PushDown, PopUp, Push, Pop, Popped;
    PushDownOf(m, ts, vfs, j);
    PopUpOf(PushDown(m, ts, vfs, |ts| - 1), ts, j);
    PopUndoesPush(m[ts[j]], vfs[j]);
  }

  lemma SlotWalkElsewhere(m: Slots, ts: seq<nat>, vfs: seq<nat>, k: nat)
    requires 1 <= |ts| == |vfs| && AllIn(m, ts) && k in m && Untouched(ts, |ts| - 1, k)
    ensures PopUp(PushDown(m, ts, vfs, |ts| - 1), ts, |ts| - 1)[k] == m[k]
  {
    hide PushDown, PopUp;
    Elsewhere(m, ts, vfs, k);
    Elsewhere(PushDown(m, ts, vfs, |ts| - 1), ts, vfs, k);
  }

  lemma BackNeedsFree(m: Slots, ts: seq<nat>, vfs: seq<nat>)
    requires 1 <= |ts| == |vfs| && AllIn(m, ts) && ThreeEach(m)
    requires forall j :: 1 <= j < |vfs| ==> vfs[j] != 0
    requires SlotsBack(m, ts, vfs)
    ensures forall j :: 1 <= j < |ts| ==> m[ts[j]][0] == 0
  {
    hide PushDown, PopUp, Push, Pop, Popped;
    forall j | 1 <= j < |ts| ensures m[ts[j]][0] == 0 { SlotWalk(m, ts, vfs, j); }
  }

  lemma FreeComesBack(m: Slots, ts: seq<nat>, vfs: seq<nat>)
    requires 1 <= |ts| == |vfs| && AllIn(m, ts) && ThreeEach(m)
    requires forall j :: 1 <= j < |vfs| ==> vfs[j] != 0
    requires forall j :: 1 <= j < |ts| ==> m[ts[j]][0] == 0
    ensures SlotsBack(m, ts, vfs)
  {
    hide PushDown, PopUp, Push, Pop, Popped;
    var n := |ts|;
    var r := PopUp(PushDown(m, ts, vfs, n - 1), ts, n - 1);
    forall j | 1 <= j < n ensures Popped(Push(m[ts[j]], vfs[j])) == vfs[j] { SlotWalk(m, ts, vfs, j); }
    forall k | k in m ensures r[k] == m[k] {
      if Untouched(ts, n - 1, k) {
        SlotWalkElsewhere(m, ts, vfs, k);
      } else {
        var j :| 1 <= j <= n - 1 && ts[j] == k;
        SlotWalk(m, ts, vfs, j);
      }
    }
  }

  lemma SlotsReturn(m: Slots, ts: seq<nat>, vfs: seq<nat>)
    requires 1 <= |ts| == |vfs| && AllIn(m, ts) && ThreeEach(m)
    requires forall j :: 1 <= j < |vfs| ==> vfs[j] != 0
    ensures SlotsBack(m, ts, vfs) <==> forall j :: 1 <= j < |ts| ==> m[ts[j]][0] == 0
  {
    hide SlotsBack;
    if SlotsBack(m, ts, vfs) { BackNeedsFree(m, ts, vfs); }
    if forall j :: 1 <= j < |ts| ==> m[ts[j]][0] == 0 { FreeComesBack(m, ts, vfs); }
  }

  // ----- to whom the walks hand the buffer -----

  /** Of the types ts exactly ts[a] has the buffer. */
  predicate OnlyActive(c: Chain, ts: seq<nat>, a: nat) {
    forall j :: 0 <= j < |ts| ==> ts[j] in c.active && c.active[ts[j]] == (j == a)
  }

  /** The types ts[i], ts[i + 1], ... are not active, but for ts[a]. */
  predicate OnlyFrom(c: Chain, ts: seq<nat>, i: nat, a: nat) {
    forall j :: i <= j < |ts| ==> ts[j] in c.active && c.active[ts[j]] == (j == a)
  }

  /** Submitting by ts[i] fills the item attached just before it, which becomes the active one. */
  lemma SubmitFills(c: Sound, ts: seq<nat>, i: nat, vf: nat)
    requires 1 <= i < |ts| && AllIn(c.slots, ts) && Linked(c.map0, c.map1, ts)
    ensures var (r, f) := Submit(c, ts[i], vf);
            && f == Filled(ts[i - 1])
            && r.active == c.active[ts[i] := false][ts[i - 1] := true]
  {
    assert c.map0[ts[i]] == ts[i - 1] && ts[i - 1] in c.slots;
    hide Push;
  }

  /** Recycling by ts[i] goes back to the item attached just behind it. */
  lemma RecycleHands(c: Sound, ts: seq<nat>, i: nat)
    requires i + 1 < |ts| && AllIn(c.slots, ts) && Linked(c.map0, c.map1, ts)
    ensures var (r, h) := Recycle(c, ts[i]);
            && h.Handed? && h.owner == ts[i + 1]
            && r.active == c.active[ts[i] := false][ts[i + 1] := true]
  {
    assert c.map1[ts[i]] == ts[i + 1] && ts[i + 1] in c.slots;
    hide Pop, Popped;
  }

  lemma DownNext(c: Sound, ts: seq<nat>, vfs: seq<nat>, i: nat)
    requires 1 <= i < |ts| == |vfs| && Types(ts)
    ensures var first := Submit(c, ts[i], vfs[i]);
            var rest := SubmitDown(first.0, ts, vfs, i - 1);
            SubmitDown(c, ts, vfs, i) == (rest.0, [first.1] + rest.1)
  {
    hide Submit, Valid;
  }

  /** One step down: what was active only from ts[i] on is now active only from ts[i - 1] on. */
  lemma ActiveDown(c: Sound, r: Sound, ts: seq<nat>, i: nat, a: nat)
    requires 1 <= i < |ts| && AllIn(c.slots, ts)
    requires OnlyFrom(c, ts, i + 1, a) && a <= i
    requires r.active == c.active[ts[i] := false][ts[i - 1] := true]
    ensures OnlyFrom(r, ts, i, i - 1)
  {
    assert forall j :: i < j < |ts| ==> ts[j] != ts[i] && ts[j] != ts[i - 1];
  }

  /** Every type of ts has an item, and the maps link them. */
  predicate Ready(c: Sound, ts: seq<nat>) { AllIn(c.slots, ts) && Linked(c.map0, c.map1, ts) }

  /** One submit of the walk. */
  lemma StepDown(c: Sound, ts: seq<nat>, vf: nat, i: nat, a: nat)
    requires 1 <= i < |ts| && Ready(c, ts) && OnlyFrom(c, ts, i + 1, a) && a <= i
    ensures ts[i] < MAP_SIZE
    ensures var (r, f) := Submit(c, ts[i], vf);
            && f == Filled(ts[i - 1]) && Ready(r, ts)
            && OnlyFrom(r, ts, i, i - 1) && (i == 1 ==> OnlyActive(r, ts, 0))
  {
    SubmitFills(c, ts, i, vf);
    var r := Submit(c, ts[i], vf).0;
    ActiveDown(c, r, ts, i, a);
    SameItems(c.slots, r.slots, ts);
    assert ts[i - 1] in r.active && r.active[ts[i - 1]];
    hide Submit, Linked, AllIn, OnlyFrom, OnlyActive, Valid;
    if i == 1 { FromAll(r, ts); }
  }

  /** What the walk down from ts[i] does. */
  predicate GoesDown(c: Sound, ts: seq<nat>, vfs: seq<nat>, i: nat)
    requires i < |ts| == |vfs| && Types(ts)
  {
    FillsDown(SubmitDown(c, ts, vfs, i).1, ts, i) && OnlyActive(SubmitDown(c, ts, vfs, i).0, ts, 0)
  }

  lemma GoesNext(c: Sound, ts: seq<nat>, vfs: seq<nat>, i: nat)
    requires 1 <= i < |ts| == |vfs| && Types(ts)
    requires var (r, f) := Submit(c, ts[i], vfs[i]);
             && f == Filled(ts[i - 1])
             && if i == 1 then OnlyActive(r, ts, 0) else GoesDown(r, ts, vfs, i - 1)
    ensures GoesDown(c, ts, vfs, i)
  {
    DownNext(c, ts, vfs, i);
    var (r, f) := Submit(c, ts[i], vfs[i]);
    if i == 1 { SubmitNone(r, ts, vfs); }
    hide Submit, SubmitDown, OnlyActive, FillsDown, Valid, Types;
    FillsCons(f, SubmitDown(r, ts, vfs, i - 1).1, ts, i);
  }

  lemma {:induction false} DownFills(c: Sound, ts: seq<nat>, vfs: seq<nat>, i: nat, a: nat)
    requires 1 <= i < |ts| == |vfs| && Types(ts) && Ready(c, ts) && OnlyFrom(c, ts, i + 1, a) && a <= i
    ensures GoesDown(c, ts, vfs, i)
    decreases i
  {
    hide *;
    StepDown(c, ts, vfs[i], i, a);
    if i > 1 { DownFills(Submit(c, ts[i], vfs[i]).0, ts, vfs, i - 1, i - 1); }
    GoesNext(c, ts, vfs, i);
  }

  /** The items filled are ts[i - 1] down to ts[0]. */
  predicate FillsDown(fs: seq<Filled>, ts: seq<nat>, i: nat) {
    |fs| == i <= |ts| && forall j :: 0 <= j < i ==> fs[j] == Filled(ts[i - 1 - j])
  }

  lemma FillsCons(f: Filled, fs: seq<Filled>, ts: seq<nat>, i: nat)
    requires 1 <= i <= |ts| && f == Filled(ts[i - 1]) && (i == 1 ==> fs == []) && (i > 1 ==> FillsDown(fs, ts, i - 1))
    ensures FillsDown([f] + fs, ts, i)
  {
  }

  lemma FromAll(c: Sound, ts: seq<nat>)
    requires ts != [] && OnlyFrom(c, ts, 1, 0) && ts[0] in c.active && c.active[ts[0]]
    ensures OnlyActive(c, ts, 0)
  {
  }

  lemma SubmitNone(c: Sound, ts: seq<nat>, vfs: seq<nat>)
    requires 0 < |ts| == |vfs| && Types(ts)
    ensures SubmitDown(c, ts, vfs, 0) == (c, [])
  {
  }

  lemma ActiveUp(c: Sound, r: Sound, ts: seq<nat>, i: nat)
    requires i + 1 < |ts| && AllIn(c.slots, ts) && OnlyActive(c, ts, i)
    requires r.active == c.active[ts[i] := false][ts[i + 1] := true]
    ensures OnlyActive(r, ts, i + 1)
  {
  }

  lemma {:induction false} UpHands(c: Sound, ts: seq<nat>, i: nat)
    requires i < |ts| && AllIn(c.slots, ts) && Linked(c.map0, c.map1, ts) && OnlyActive(c, ts, 0)
    ensures OnlyActive(RecycleUp(c, ts, i).0, ts, i)
  {
    if i > 0 {
      UpNext(c, ts, i);
      hide RecycleUp, Recycle, Valid, OnlyActive;
      UpHands(c, ts, i - 1);
      var m := RecycleUp(c, ts, i - 1).0;
      SameItems(c.slots, m.slots, ts);
      RecycleHands(m, ts, i - 1);
      ActiveUp(m, Recycle(m, ts[i - 1]).0, ts, i - 1);
    }
  }

  /** The submit walk fills ts[n-2] first and ts[0] last and leaves ts[0] the only active one; the recycle walk
      then leaves ts[n-1] the only active one. */
  predicate HandsOn(c: Sound, ts: seq<nat>, vfs: seq<nat>)
    requires 2 <= |ts| == |vfs| && Types(ts)
  {
    var n := |ts|;
    var (d, fs) := SubmitDown(c, ts, vfs, n - 1);
    && FillsDown(fs, ts, n - 1)
    && OnlyActive(d, ts, 0) && OnlyActive(RecycleUp(d, ts, n - 1).0, ts, n - 1)
  }

  /** The submit walk fills the items in the reverse of the order they were attached in, and the
      recycle walk goes back. */
  lemma WalksHandOn(c: Sound, ts: seq<nat>, vfs: seq<nat>)
    requires 2 <= |ts| == |vfs| && AllIn(c.slots, ts) && Linked(c.map0, c.map1, ts) && c.active.Keys == c.slots.Keys
    ensures HandsOn(c, ts, vfs)
  {
    var n := |ts|;
    assert OnlyFrom(c, ts, n, 0) && Types(ts) && Ready(c, ts);
    hide *;
    var d := SubmitDown(c, ts, vfs, n - 1).0;
    DownFills(c, ts, vfs, n - 1, 0);
    SameItems(c.slots, d.slots, ts);
    GoneDown(c, ts, vfs);
    UpHands(d, ts, n - 1);
    HandsOnIs(c, ts, vfs);
  }

  lemma GoneDown(c: Sound, ts: seq<nat>, vfs: seq<nat>)
    requires 2 <= |ts| == |vfs| && Types(ts) && GoesDown(c, ts, vfs, |ts| - 1)
    ensures var (d, fs) := SubmitDown(c, ts, vfs, |ts| - 1); FillsDown(fs, ts, |ts| - 1) && OnlyActive(d, ts, 0)
  {
    hide SubmitDown, FillsDown, OnlyActive, Types;
  }

  lemma HandsOnIs(c: Sound, ts: seq<nat>, vfs: seq<nat>)
    requires 2 <= |ts| == |vfs| && Types(ts)
    ensures var n := |ts|;
            var (d, fs) := SubmitDown(c, ts, vfs, n - 1);
            FillsDown(fs, ts, n - 1) && OnlyActive(d, ts, 0) && OnlyActive(RecycleUp(d, ts, n - 1).0, ts, n - 1)
            <==> HandsOn(c, ts, vfs)
  {
    hide SubmitDown, RecycleUp, OnlyActive, Types, FillsDown;
  }

  // ----- walks over a chain as it was attached -----

  /** An attached item holds no frame and is not active. */
  lemma {:induction false} AttachedSlots(c: Sound, ts: seq<nat>)
    requires Types(ts)
    ensures forall j :: 0 <= j < |ts| ==> ts[j] in AttachAll(c, ts).slots && AttachAll(c, ts).slots[ts[j]] == [0, 0, 0]
    ensures forall j :: 0 <= j < |ts| ==> ts[j] in AttachAll(c, ts).active && !AttachAll(c, ts).active[ts[j]]
  {
    if ts != [] { AttachedSlots(c, ts[..|ts| - 1]); }
  }

  /** On a chain as it was attached, whatever it went through before, a full submit walk and a full recycle
      walk hand every owner its own frame, go through the items in order and leave all slots free. */
  lemma AttachedChainReturnsAll(c: Sound, ts: seq<nat>, vfs: seq<nat>)
    requires Types(ts) && 1 <= |ts| == |vfs| && forall j :: 1 <= j < |vfs| ==> vfs[j] != 0
    ensures var a := AttachAll(c, ts); AllIn(a.slots, ts) && ReturnsAll(a, ts, vfs)
    ensures |ts| >= 2 ==> HandsOn(AttachAll(c, ts), ts, vfs)
  {
    AttachedSlots(c, ts);
    AttachAllLinks(c, ts);
    hide AttachAll, Linked, ReturnsAll, HandsOn;
    WalkReturnsAll(AttachAll(c, ts), ts, vfs);
    if |ts| >= 2 { WalksHandOn(AttachAll(c, ts), ts, vfs); }
  }

  // ----- several frames of one owner -----

  function Slot(vf: nat): seq<nat> { if vf == 0 then [] else [vf] }

  /** The outstanding frames in the order in which pops will return them. */
  function Outstanding(s: seq<nat>): seq<nat>
    requires |s| == 3
  {
    Slot(s[0]) + Slot(s[1]) + Slot(s[2])
  }

  /** No free slot lies before a used one. */
  predicate Compact(s: seq<nat>) { forall i, j :: 0 <= i < j < |s| && s[j] != 0 ==> s[i] != 0 }

  /** A pop returns the first outstanding frame and leaves the others in their order. */
  lemma PopTakesFirst(s: seq<nat>)
    requires |s| == 3 && Outstanding(s) != []
    ensures Outstanding(s) == [Popped(s)] + Outstanding(Pop(s))
  {
    SlotsOf3(s);
  }

  lemma SlotsOf3(s: seq<nat>)
    requires |s| == 3
    ensures FirstFree(s) == if s[0] == 0 then 0 else if s[1] == 0 then 1 else if s[2] == 0 then 2 else 3
    ensures FirstUsed(s) == if s[0] != 0 then 0 else if s[1] != 0 then 1 else if s[2] != 0 then 2 else 3
  {
  }

  /** Without an outstanding frame a pop returns null, and with three a push loses its frame; the slots stay. */
  lemma NoneOrFull(s: seq<nat>, vf: nat)
    requires |s| == 3
    ensures Outstanding(s) == [] ==> Popped(s) == 0 && Pop(s) == s
    ensures 0 !in s ==> Push(s, vf) == s && |Outstanding(s)| == 3
  {
    SlotsOf3(s);
  }

  /** With a slot free, a new frame queues up behind the outstanding ones if and only if no free slot lies
      before a used one; otherwise it overtakes frames that were pushed before it. */
  lemma PushKeepsOrder(s: seq<nat>, vf: nat)
    requires |s| == 3 && vf != 0 && vf !in s && 0 in s
    ensures Outstanding(Push(s, vf)) == Outstanding(s) + [vf] <==> Compact(s)
  {
    SlotsOf3(s);
    var p, q := Outstanding(Push(s, vf)), Outstanding(s) + [vf];
    if s[0] == 0 {
      assert Compact(s) <==> s[1] == 0 && s[2] == 0;
      assert p[0] == vf;
      if !Compact(s) { assert q[0] == if s[1] != 0 then s[1] else s[2]; }
    } else if s[1] == 0 {
      assert Compact(s) <==> s[2] == 0;
      assert p[1] == vf;
      if !Compact(s) { assert q[1] == s[2]; }
    } else {
      assert Compact(s);
    }
  }

  /** Two frames out, the first comes back, a third goes out: it returns before the second. */
  lemma OvertakingExample()
    ensures Outstanding(Push(Pop(Push(Push([0, 0, 0], 1), 2)), 3)) == [3, 2]
  {
    var s: seq<nat> := [3, 2, 0];
    SlotsOf3([0, 0, 0]);
    SlotsOf3([1, 0, 0]);
    SlotsOf3([1, 2, 0]);
    SlotsOf3([0, 2, 0]);
    assert Push([0, 0, 0], 1) == [1, 0, 0] && Push([1, 0, 0], 2) == [1, 2, 0];
    assert Pop([1, 2, 0]) == [0, 2, 0] && Push([0, 2, 0], 3) == s;
  }
}
