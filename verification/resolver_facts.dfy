/**
 * What one content-provider pass does to a scene: loaded slots are left
 * alone, every other slot is loaded and gains exactly one child showing the
 * catalog's content for its widget and zone, a catalog gap is fatal at the
 * first slot that hits it, a settled scene is a fixed point, and a scene
 * whose widgets come from the widget catalog settles within two passes.
 */
module ResolverFacts {
  import opened Wrappers
  import opened Ui
  import opened Patches
  import opened Widgets
  import opened Catalog
  import opened Resolver

  /** Entity `e` is a widget spawned for `id` by the widget catalog. */
  ghost predicate HasWidget(w: World, e: Entity, id: UiId)
  {
    e in w.nodes && w.nodes[e] == WidgetNode(WidgetFor(id))
  }

  /** Entity `e` is a button spawned by the widget catalog. */
  ghost predicate IsButtonWidget(w: World, e: Entity)
  {
    e in w.nodes && w.nodes[e].WidgetNode? && w.nodes[e].widget.id.Button?
    && w.nodes[e].widget == WidgetFor(w.nodes[e].widget.id)
  }

  /**
   * Entity `c` is the content `spec` describes: a text node with no children, or a column
   * whose two children are the widgets spawned right after it, the second
   * one first, listed first then second.
   */
  ghost predicate Shows(w: World, c: Entity, spec: ContentSpec)
  {
    && c in w.nodes
    && match spec
       case Text(t) => w.nodes[c] == TextNode(t) && Kids(w, c) == []
       case Column(first, second) =>
         && w.nodes[c] == ColumnNode
         && Kids(w, c) == [c + 2, c + 1]
         && HasWidget(w, c + 2, first)
         && HasWidget(w, c + 1, second)
  }

  /** `x` is the entity of one of the slots of `w`. */
  ghost predicate IsSlotEntity(w: World, x: Entity)
  {
    exists j | 0 <= j < |w.slots| :: w.slots[j].entity == x
  }

  /** Handles in strictly increasing order, so without repetition. */
  ghost predicate Increasing(s: seq<Entity>)
  {
    forall i, j | 0 <= i < j < |s| :: s[i] < s[j]
  }

  /** Unloaded slots of widget `p`, one per zone of `zones`, under the handles from `base` on. */
  function ZoneSlots(base: Entity, p: Entity, zones: seq<Zone>): (r: seq<Slot>)
    ensures |r| == |zones|
  {
    seq(|zones|, j requires 0 <= j < |zones| => Slot(base + j, p, zones[j], false))
  }

  /** The slots the `k` first queued widgets get, in queue order, under handles from `w.next` on. */
  function QueuedSlots(w: World, k: nat): seq<Slot>
    requires k <= |w.pending|
  {
    if k == 0 then []
    else
      var before := QueuedSlots(w, k - 1);
      var p := w.pending[k - 1];
      before + ZoneSlots(w.next + |before|, p, DeclaredZones(w, p))
  }

  /** The zones of the slots of `slots` that belong to widget `e`, in slot order. */
  function ZonesOf(slots: seq<Slot>, e: Entity): seq<Zone>
  {
    if |slots| == 0 then []
    else
      var last := slots[|slots| - 1];
      ZonesOf(slots[..|slots| - 1], e) + (if last.parent == e then [last.zone] else [])
  }

  lemma {:induction false} ZonesOfAppend(a: seq<Slot>, b: seq<Slot>, e: Entity)
    ensures ZonesOf(a + b, e) == ZonesOf(a, e) + ZonesOf(b, e)
  {
    if |b| == 0 {
      assert a + b == a;
    } else {
      var n := |b| - 1;
      assert (a + b)[..|a + b| - 1] == a + b[..n];
      ZonesOfAppend(a, b[..n], e);
    }
  }

  /** A widget owning none of the slots has no zones among them. */
  lemma {:induction false} ZonesOfAbsent(slots: seq<Slot>, e: Entity)
    requires forall j | 0 <= j < |slots| :: slots[j].parent != e
    ensures ZonesOf(slots, e) == []
  {
    if |slots| > 0 {
      ZonesOfAbsent(slots[..|slots| - 1], e);
    }
  }

  /** Zones per widget only depend on the slots' owners and zones, not on whether they are loaded. */
  lemma {:induction false} ZonesOfSameShape(a: seq<Slot>, b: seq<Slot>, e: Entity)
    requires |a| == |b|
    requires forall j | 0 <= j < |a| :: a[j].parent == b[j].parent && a[j].zone == b[j].zone
    ensures ZonesOf(a, e) == ZonesOf(b, e)
  {
    if |a| > 0 {
      ZonesOfSameShape(a[..|a| - 1], b[..|b| - 1], e);
    }
  }

  /** The slots built for one widget carry exactly its zones, in order. */
  lemma {:induction false} ZonesOfZoneSlots(base: Entity, p: Entity, zones: seq<Zone>, e: Entity)
    ensures ZonesOf(ZoneSlots(base, p, zones), e) == if e == p then zones else []
  {
    if |zones| > 0 {
      var n := |zones| - 1;
      assert ZoneSlots(base, p, zones)[..n] == ZoneSlots(base, p, zones[..n]);
      ZonesOfZoneSlots(base, p, zones[..n], e);
      assert zones[..n] + [zones[n]] == zones;
    }
  }

  /**
   * With a queue without repetition, slot building gives each of the `k`
   * first queued widgets one slot per zone it declares, in order, and no
   * slot to any other entity.
   */
  lemma {:induction false} ZonesOfQueued(w: World, k: nat, e: Entity)
    requires k <= |w.pending| && Increasing(w.pending)
    ensures ZonesOf(QueuedSlots(w, k), e) == if e in w.pending[..k] then DeclaredZones(w, e) else []
  {
    if k > 0 {
      var p := w.pending[k - 1];
      ZonesOfQueuedStep(w, k, e);
      ZonesOfQueued(w, k - 1, e);
      PrefixMember(w.pending, k, e);
      if e == p {
        IncreasingLastNew(w.pending, k);
      }
      ChooseZones(ZonesOf(QueuedSlots(w, k), e), ZonesOf(QueuedSlots(w, k - 1), e), DeclaredZones(w, e),
        e in w.pending[..k], e in w.pending[..k - 1], e == p);
    } else {
      assert w.pending[..k] == [];
    }
  }

  /** The bookkeeping of one step of ZonesOfQueued: a widget's zones are added once, when it is first met. */
  lemma ChooseZones(now: seq<Zone>, before: seq<Zone>, zones: seq<Zone>, metNow: bool, metBefore: bool, here: bool)
    requires now == before + (if here then zones else [])
    requires before == if metBefore then zones else []
    requires metNow == (metBefore || here) && (here ==> !metBefore)
    ensures now == if metNow then zones else []
  {
    if here {
      assert before + zones == zones;
    } else {
      assert before + [] == before;
    }
  }

  /** The step of ZonesOfQueued: the `k`-th queued widget adds its own zones and nobody else's. */
  lemma ZonesOfQueuedStep(w: World, k: nat, e: Entity)
    requires 0 < k <= |w.pending|
    ensures ZonesOf(QueuedSlots(w, k), e)
         == ZonesOf(QueuedSlots(w, k - 1), e) + (if e == w.pending[k - 1] then DeclaredZones(w, e) else [])
  {
    var before := QueuedSlots(w, k - 1);
    var p := w.pending[k - 1];
    var zones := DeclaredZones(w, p);
    assert QueuedSlots(w, k) == before + ZoneSlots(w.next + |before|, p, zones);
    ZonesOfAppendSlots(before, w.next + |before|, p, zones, e);
  }

  lemma ZonesOfAppendSlots(before: seq<Slot>, base: Entity, p: Entity, zones: seq<Zone>, e: Entity)
    ensures ZonesOf(before + ZoneSlots(base, p, zones), e) == ZonesOf(before, e) + (if e == p then zones else [])
  {
    ZonesOfAppend(before, ZoneSlots(base, p, zones), e);
    ZonesOfZoneSlots(base, p, zones, e);
  }

  /** Slot `j` of `f` has no catalog entry: the pass must panic on reaching it. */
  ghost predicate Gap(f: World, j: nat)
    requires j < |f.slots|
  {
    !f.slots[j].loaded && ContentOf(f, j).None?
  }

  /** Among the `n` first slots of `f`, none that is unloaded resolves to a column. */
  ghost predicate NoColumn(f: World, n: nat)
    requires n <= |f.slots|
  {
    forall j | 0 <= j < n && !f.slots[j].loaded :: ContentOf(f, j).None? || ContentOf(f, j).value.Text?
  }

  /** From `f` to `w`, slot `j` gained exactly one child, a fresh one showing its catalog content. */
  ghost predicate Attached(f: World, w: World, j: nat)
    requires j < |f.slots|
  {
    var e := f.slots[j].entity;
    var before := Kids(f, e);
    var after := Kids(w, e);
    && |after| == |before| + 1
    && after[..|before|] == before
    && f.next <= after[|before|]
    && ContentOf(f, j).Some?
    && Shows(w, after[|before|], ContentOf(f, j).value)
  }

  /** The state of the scan of `f` after its `n` first slots, reaching `w`. */
  ghost predicate Scanned(f: World, w: World, n: nat)
    requires n <= |f.slots|
  {
    && Valid(w)
    && f.next <= w.next
    && |w.slots| == |f.slots|
    && (forall j | 0 <= j < |f.slots| :: w.slots[j] == f.slots[j].(loaded := f.slots[j].loaded || j < n))
    && (forall e | e in f.nodes :: e in w.nodes && w.nodes[e] == f.nodes[e])
    && (forall e | e in w.nodes :: e in f.nodes || f.next <= e)
    && (forall e | e in w.nodes && e !in f.nodes && w.nodes[e].WidgetNode? ::
          w.nodes[e].widget == WidgetFor(w.nodes[e].widget.id))
    && (forall j | 0 <= j < |f.slots| ::
          if j < n && !f.slots[j].loaded then Attached(f, w, j)
          else Kids(w, f.slots[j].entity) == Kids(f, f.slots[j].entity))
    && |f.pending| <= |w.pending|
    && w.pending[..|f.pending|] == f.pending
    && (forall k | |f.pending| <= k < |w.pending| :: IsButtonWidget(w, w.pending[k]))
    && (NoColumn(f, n) ==> w.pending == f.pending)
  }

  lemma {:induction false} AddSlotsFacts(w: World, p: Entity, zones: seq<Zone>, n: nat)
    requires Valid(w) && p < w.next && n <= |zones|
    ensures var v := AddSlots(w, p, zones, n);
      && Valid(v)
      && v.next == w.next + n
      && |v.slots| == |w.slots| + n
      && (forall j | 0 <= j < |w.slots| :: v.slots[j] == w.slots[j])
      && (forall j | |w.slots| <= j < |v.slots| ::
            v.slots[j] == Slot(w.next + (j - |w.slots|), p, zones[j - |w.slots|], false))
  {
    if n > 0 {
      AddSlotsFacts(w, p, zones, n - 1);
      var u := AddSlots(w, p, zones, n - 1);
      assert AddSlots(w, p, zones, n) == u.(slots := u.slots + [Slot(u.next, p, zones[n - 1], false)], next := u.next + 1);
      AppendSlotKeepsValid(u, p, zones[n - 1]);
    }
  }

  /** Appending one slot under the next handle keeps the scene well formed. */
  lemma AppendSlotKeepsValid(u: World, p: Entity, z: Zone)
    requires Valid(u) && p < u.next
    ensures Valid(u.(slots := u.slots + [Slot(u.next, p, z, false)], next := u.next + 1))
  {
  }

  lemma PrefixMember(s: seq<Entity>, k: nat, e: Entity)
    requires 0 < k <= |s|
    ensures (e in s[..k]) == (e in s[..k - 1] || e == s[k - 1])
  {
    assert s[..k] == s[..k - 1] + [s[k - 1]];
  }

  /** In an increasing queue, an entry does not occur before its place. */
  lemma IncreasingLastNew(s: seq<Entity>, k: nat)
    requires 0 < k <= |s| && Increasing(s)
    ensures s[k - 1] !in s[..k - 1]
  {
    forall idx | 0 <= idx < k - 1
      ensures s[idx] != s[k - 1]
    {
      assert s[idx] < s[k - 1];
    }
  }

  /**
   * Slot building for the `k` first queued widgets keeps the scene well
   * formed and only appends fresh unloaded slots, each for a queued widget
   * and a zone it declares; FlushLayout gives the appended slots exactly.
   */
  lemma {:induction false} FlushFacts(w: World, k: nat)
    requires Valid(w) && k <= |w.pending|
    ensures var f := FlushUpTo(w, k);
      && Valid(f)
      && w.next <= f.next
      && |w.slots| <= |f.slots|
      && (forall j | 0 <= j < |w.slots| :: f.slots[j] == w.slots[j])
      && (forall j | |w.slots| <= j < |f.slots| ::
            && !f.slots[j].loaded
            && w.next <= f.slots[j].entity
            && f.slots[j].parent in w.pending
            && f.slots[j].zone in DeclaredZones(w, f.slots[j].parent))
  {
    if k > 0 {
      FlushFacts(w, k - 1);
      var v := FlushUpTo(w, k - 1);
      var p := w.pending[k - 1];
      var zones := DeclaredZones(w, p);
      AddSlotsFacts(v, p, zones, |zones|);
      var f := FlushUpTo(w, k);
      forall j | |v.slots| <= j < |f.slots|
        ensures f.slots[j].parent in w.pending && f.slots[j].zone in DeclaredZones(w, f.slots[j].parent)
      {
        assert f.slots[j].parent == p && f.slots[j].zone == zones[j - |v.slots|];
      }
    }
  }

  /** Slot building for the `k` first queued widgets appends exactly their slots, in queue order. */
  lemma {:induction false} FlushLayout(w: World, k: nat)
    requires k <= |w.pending|
    ensures var f := FlushUpTo(w, k);
      && f.slots == w.slots + QueuedSlots(w, k)
      && f.next == w.next + |QueuedSlots(w, k)|
  {
    if k > 0 {
      FlushLayout(w, k - 1);
      var v := FlushUpTo(w, k - 1);
      var p := w.pending[k - 1];
      var zones := DeclaredZones(w, p);
      var before := QueuedSlots(w, k - 1);
      var added := ZoneSlots(v.next, p, zones);
      assert FlushUpTo(w, k).slots == v.slots + added && FlushUpTo(w, k).next == v.next + |zones| by {
        assert FlushUpTo(w, k) == AddSlots(v, p, zones, |zones|);
        AddSlotsAppends(v, p, zones);
      }
      assert QueuedSlots(w, k) == before + added;
      assert v.slots + added == w.slots + (before + added);
    }
  }

  /** All the slots of one widget, appended: exactly its zones under consecutive fresh handles. */
  lemma AddSlotsAppends(w: World, p: Entity, zones: seq<Zone>)
    ensures var v := AddSlots(w, p, zones, |zones|);
      v.slots == w.slots + ZoneSlots(w.next, p, zones) && v.next == w.next + |zones|
  {
    AddSlotsLayout(w, p, zones, |zones|);
  }

  lemma {:induction false} AddSlotsLayout(w: World, p: Entity, zones: seq<Zone>, n: nat)
    requires n <= |zones|
    ensures var v := AddSlots(w, p, zones, n);
      && v.next == w.next + n
      && |v.slots| == |w.slots| + n
      && (forall j | 0 <= j < |w.slots| :: v.slots[j] == w.slots[j])
      && (forall j | |w.slots| <= j < |v.slots| ::
            v.slots[j] == Slot(w.next + (j - |w.slots|), p, zones[j - |w.slots|], false))
  {
    if n > 0 {
      AddSlotsLayout(w, p, zones, n - 1);
    }
  }

  /** Showing content only depends on the content's own nodes and child lists. */
  lemma ShowsKept(w: World, v: World, c: Entity, spec: ContentSpec)
    requires Valid(w) && Shows(w, c, spec)
    requires forall e | e in w.nodes :: e in v.nodes && v.nodes[e] == w.nodes[e]
    requires Kids(v, c) == Kids(w, c)
    ensures Shows(v, c, spec)
  {
    if spec.Column? {
      assert Kids(w, c)[0] in w.nodes && Kids(w, c)[1] in w.nodes;
    }
  }

  /** Spawning adds exactly one node, under the fresh handle. */
  lemma SpawnFacts(w: World, n: Node)
    requires Valid(w)
    ensures var v := Spawn(w, n);
      && Valid(v) && v.slots == w.slots && v.children == w.children && v.pending == w.pending
      && v.next == w.next + 1 && v.nodes == w.nodes[w.next := n] && w.next !in w.nodes
  {
  }

  /** Spawning a widget adds one catalog widget and queues it. */
  lemma SpawnUiFacts(w: World, id: UiId)
    requires Valid(w)
    ensures var v := SpawnUi(w, id);
      && Valid(v) && v.slots == w.slots && v.children == w.children
      && v.pending == w.pending + [w.next]
      && v.next == w.next + 1 && v.nodes == w.nodes[w.next := WidgetNode(WidgetFor(id))] && w.next !in w.nodes
  {
    SpawnFacts(w, WidgetNode(WidgetFor(id)));
  }

  /** Spawning content: only fresh nodes appear, and the root `w.next` shows `spec`. */
  lemma MaterializeFacts(w: World, spec: ContentSpec)
    requires Valid(w)
    requires spec.Column? ==> spec.first.Button? && spec.second.Button?
    ensures var m := Materialize(w, spec);
      && Valid(m)
      && m.slots == w.slots
      && m.next == w.next + (if spec.Column? then 3 else 1)
      && (forall x | x in w.nodes :: x in m.nodes && m.nodes[x] == w.nodes[x])
      && (forall x | x in m.nodes :: x in w.nodes || w.next <= x)
      && (forall x | x in m.nodes && x !in w.nodes && m.nodes[x].WidgetNode? ::
            m.nodes[x].widget == WidgetFor(m.nodes[x].widget.id) && x in m.pending)
      && (forall x: Entity | x < w.next :: Kids(m, x) == Kids(w, x))
      && Shows(m, w.next, spec)
      && m.pending == w.pending + (if spec.Column? then [w.next + 1, w.next + 2] else [])
      && (forall k | |w.pending| <= k < |m.pending| :: IsButtonWidget(m, m.pending[k]))
  {
    match spec
    case Text(t) =>
      SpawnFacts(w, TextNode(t));
    case Column(first, second) =>
      MaterializeColumnFacts(w, first, second);
  }

  /** MaterializeFacts for a column of two buttons. */
  lemma MaterializeColumnFacts(w: World, first: UiId, second: UiId)
    requires Valid(w) && first.Button? && second.Button?
    ensures var m := Materialize(w, Column(first, second));
      && Valid(m)
      && m.slots == w.slots
      && m.next == w.next + 3
      && (forall x | x in w.nodes :: x in m.nodes && m.nodes[x] == w.nodes[x])
      && (forall x | x in m.nodes :: x in w.nodes || w.next <= x)
      && (forall x | x in m.nodes && x !in w.nodes && m.nodes[x].WidgetNode? ::
            m.nodes[x].widget == WidgetFor(m.nodes[x].widget.id) && x in m.pending)
      && (forall x: Entity | x < w.next :: Kids(m, x) == Kids(w, x))
      && Shows(m, w.next, Column(first, second))
      && m.pending == w.pending + [w.next + 1, w.next + 2]
      && (forall k | |w.pending| <= k < |m.pending| :: IsButtonWidget(m, m.pending[k]))
  {
    ColumnNodeFacts(w, first, second);
    ColumnKidFacts(w, first, second);
  }

  /** The nodes and the queue after a column of two buttons is spawned. */
  lemma ColumnNodeFacts(w: World, first: UiId, second: UiId)
    requires Valid(w) && first.Button? && second.Button?
    ensures var m := Materialize(w, Column(first, second));
      && (forall x | x in w.nodes :: x in m.nodes && m.nodes[x] == w.nodes[x])
      && (forall x | x in m.nodes :: x in w.nodes || w.next <= x)
      && (forall x | x in m.nodes && x !in w.nodes && m.nodes[x].WidgetNode? ::
            m.nodes[x].widget == WidgetFor(m.nodes[x].widget.id) && x in m.pending)
      && (forall k | |w.pending| <= k < |m.pending| :: IsButtonWidget(m, m.pending[k]))
  {
    ColumnFacts(w, first, second);
  }

  /** The child lists after a column of two buttons is spawned. */
  lemma ColumnKidFacts(w: World, first: UiId, second: UiId)
    requires Valid(w) && first.Button? && second.Button?
    ensures var m := Materialize(w, Column(first, second));
      && (forall x: Entity | x < w.next :: Kids(m, x) == Kids(w, x))
      && Shows(m, w.next, Column(first, second))
  {
    ColumnFacts(w, first, second);
  }

  /** The column case of MaterializeFacts. */
  lemma ColumnFacts(w: World, first: UiId, second: UiId)
    requires Valid(w) && first.Button? && second.Button?
    ensures var m := Materialize(w, Column(first, second));
      && Valid(m)
      && m.slots == w.slots
      && m.next == w.next + 3
      && m.nodes == w.nodes[w.next := ColumnNode][w.next + 1 := WidgetNode(WidgetFor(second))][w.next + 2 := WidgetNode(WidgetFor(first))]
      && w.next !in w.nodes
      && m.children == w.children[w.next := [w.next + 2, w.next + 1]]
      && m.pending == w.pending + [w.next + 1, w.next + 2]
  {
    SpawnFacts(w, ColumnNode);
    var v1 := Spawn(w, ColumnNode);
    SpawnUiFacts(v1, second);
    var v2 := SpawnUi(v1, second);
    SpawnUiFacts(v2, first);
    var v3 := SpawnUi(v2, first);
    assert v3.children == w.children;
    assert Kids(v3, w.next) == [] by {
      assert w.next !in w.children;
    }
    assert [] + [w.next + 2, w.next + 1] == [w.next + 2, w.next + 1];
    assert Materialize(w, Column(first, second)) == PushChildren(v3, w.next, [w.next + 2, w.next + 1]);
  }

  /** One slot of the scan, when it is unloaded and the catalog has its content. */
  lemma StepFacts(w: World, i: nat, spec: ContentSpec)
    requires Valid(w) && i < |w.slots| && !w.slots[i].loaded && ContentOf(w, i) == Some(spec)
    ensures StepSlot(w, i).Done?
    ensures var v := StepSlot(w, i).world;
      var e := w.slots[i].entity;
      && Valid(v)
      && v.next == w.next + (if spec.Column? then 3 else 1)
      && v.slots == w.slots[i := w.slots[i].(loaded := true)]
      && (forall x | x in w.nodes :: x in v.nodes && v.nodes[x] == w.nodes[x])
      && (forall x | x in v.nodes :: x in w.nodes || w.next <= x)
      && (forall x | x in v.nodes && x !in w.nodes && v.nodes[x].WidgetNode? ::
            v.nodes[x].widget == WidgetFor(v.nodes[x].widget.id))
      && (forall x: Entity | x < w.next && x != e :: Kids(v, x) == Kids(w, x))
      && Kids(v, e) == Kids(w, e) + [w.next]
      && Shows(v, w.next, spec)
      && v.pending == w.pending + (if spec.Column? then [w.next + 1, w.next + 2] else [])
      && (forall k | |w.pending| <= k < |v.pending| :: IsButtonWidget(v, v.pending[k]))
  {
    StepNodeFacts(w, i, spec);
    StepKidFacts(w, i, spec);
  }

  /** The nodes, queue, counter and slots after one slot is filled. */
  lemma StepNodeFacts(w: World, i: nat, spec: ContentSpec)
    requires Valid(w) && i < |w.slots| && !w.slots[i].loaded && ContentOf(w, i) == Some(spec)
    ensures StepSlot(w, i).Done?
    ensures var v := StepSlot(w, i).world;
      && Valid(v)
      && v.next == w.next + (if spec.Column? then 3 else 1)
      && v.slots == w.slots[i := w.slots[i].(loaded := true)]
      && (forall x | x in w.nodes :: x in v.nodes && v.nodes[x] == w.nodes[x])
      && (forall x | x in v.nodes :: x in w.nodes || w.next <= x)
      && (forall x | x in v.nodes && x !in w.nodes && v.nodes[x].WidgetNode? ::
            v.nodes[x].widget == WidgetFor(v.nodes[x].widget.id))
      && v.pending == w.pending + (if spec.Column? then [w.next + 1, w.next + 2] else [])
      && (forall k | |w.pending| <= k < |v.pending| :: IsButtonWidget(v, v.pending[k]))
  {
    var e := w.slots[i].entity;
    MaterializeFacts(w, spec);
    var m := Materialize(w, spec);
    var v := StepSlot(w, i).world;
    assert v == PushChildren(m, e, [w.next]).(slots := m.slots[i := m.slots[i].(loaded := true)]);
    LoadKeepsValid(m, i, e, [w.next]);
    assert v.nodes == m.nodes && v.pending == m.pending && v.next == m.next;
  }

  /** Marking a slot loaded and giving an existing entity existing children keeps the scene well formed. */
  lemma LoadKeepsValid(m: World, i: nat, e: Entity, es: seq<Entity>)
    requires Valid(m) && i < |m.slots| && e < m.next
    requires forall k | 0 <= k < |es| :: es[k] < m.next
    ensures Valid(PushChildren(m, e, es).(slots := m.slots[i := m.slots[i].(loaded := true)]))
  {
  }

  /** The child lists after one slot is filled. */
  lemma StepKidFacts(w: World, i: nat, spec: ContentSpec)
    requires Valid(w) && i < |w.slots| && !w.slots[i].loaded && ContentOf(w, i) == Some(spec)
    ensures StepSlot(w, i).Done?
    ensures var v := StepSlot(w, i).world;
      var e := w.slots[i].entity;
      && (forall x: Entity | x < w.next && x != e :: Kids(v, x) == Kids(w, x))
      && Kids(v, e) == Kids(w, e) + [w.next]
      && Shows(v, w.next, spec)
  {
    var e := w.slots[i].entity;
    MaterializeFacts(w, spec);
    var m := Materialize(w, spec);
    var v := StepSlot(w, i).world;
    assert v == PushChildren(m, e, [w.next]).(slots := w.slots[i := w.slots[i].(loaded := true)]);
    assert e < w.next;
    ShowsKept(m, v, w.next, spec);
  }

  /** The widgets one slot spawns are all queued for slot building. */
  lemma StepQueuesNewWidgets(w: World, i: nat, spec: ContentSpec)
    requires Valid(w) && i < |w.slots| && !w.slots[i].loaded && ContentOf(w, i) == Some(spec)
    ensures StepSlot(w, i).Done?
    ensures var v := StepSlot(w, i).world;
      forall x | x in v.nodes && x !in w.nodes && v.nodes[x].WidgetNode? :: x in v.pending
  {
    MaterializeFacts(w, spec);
    var m := Materialize(w, spec);
    var v := StepSlot(w, i).world;
    assert v.nodes == m.nodes && v.pending == m.pending;
  }

  /** Scanning the `n` first slots: completes exactly when none of them is a gap, else panics at the first gap. */
  lemma {:induction false} ScanFacts(f: World, n: nat)
    requires Valid(f) && n <= |f.slots|
    ensures ScanUpTo(f, n).Done? <==> forall j | 0 <= j < n :: !Gap(f, j)
    ensures ScanUpTo(f, n).Done? ==> Scanned(f, ScanUpTo(f, n).world, n)
    ensures ScanUpTo(f, n).Fatal? ==>
      var i := ScanUpTo(f, n).slot; Gap(f, i) && forall j | 0 <= j < i :: !Gap(f, j)
  {
    if n == 0 {
      ScanStart(f);
    } else {
      ScanFacts(f, n - 1);
      match ScanUpTo(f, n - 1)
      case Fatal(_) =>
      case Done(w) =>
        ScannedAhead(f, w, n - 1);
        assert ScanUpTo(f, n) == StepSlot(w, n - 1);
        if f.slots[n - 1].loaded {
          ScanSkips(f, w, n - 1);
        } else if ContentOf(f, n - 1).Some? {
          StepOnScan(f, w, n - 1);
          assert !Gap(f, n - 1);
        } else {
          assert Gap(f, n - 1);
        }
    }
  }

  lemma ScanStart(f: World)
    requires Valid(f)
    ensures Scanned(f, f, 0)
  {
    assert f.pending[..|f.pending|] == f.pending;
  }

  /** A slot the scan has not reached yet looks as it did before the pass. */
  lemma ScannedAhead(f: World, w: World, i: nat)
    requires Valid(f) && i < |f.slots| && Scanned(f, w, i)
    ensures w.slots[i] == f.slots[i] && ContentOf(w, i) == ContentOf(f, i)
  {
    var p := f.slots[i].parent;
    assert w.slots[i] == f.slots[i];
    assert p < f.next;
    assert ParentId(w, p) == ParentId(f, p);
  }

  /** The inductive step of ScanFacts for a loaded slot. */
  lemma ScanSkips(f: World, w: World, i: nat)
    requires Valid(f) && i < |f.slots| && Scanned(f, w, i) && f.slots[i].loaded
    ensures StepSlot(w, i) == Done(w) && Scanned(f, w, i + 1)
  {
    assert w.slots[i] == f.slots[i];
    if NoColumn(f, i + 1) {
      assert NoColumn(f, i);
    }
  }

  /** The inductive step of ScanFacts for an unloaded slot that resolves. */
  lemma StepOnScan(f: World, w: World, i: nat)
    requires Valid(f) && i < |f.slots| && Scanned(f, w, i)
    requires !f.slots[i].loaded && ContentOf(f, i).Some? && ContentOf(w, i) == ContentOf(f, i)
    ensures StepSlot(w, i).Done? && Scanned(f, StepSlot(w, i).world, i + 1)
  {
    var spec := ContentOf(f, i).value;
    StepNodeFacts(w, i, spec);
    var v := StepSlot(w, i).world;
    forall j | 0 <= j < |f.slots|
      ensures if j < i + 1 && !f.slots[j].loaded then Attached(f, v, j)
              else Kids(v, f.slots[j].entity) == Kids(f, f.slots[j].entity)
    {
      StepKeepsAttached(f, w, i, j);
    }
    StepKeepsQueue(f, w, i);
    assert Scanned(f, v, i + 1);
  }

  /** During the scan, slot `i` gains its one child and no other slot's children change. */
  lemma StepKeepsAttached(f: World, w: World, i: nat, j: nat)
    requires Valid(f) && i < |f.slots| && j < |f.slots| && Scanned(f, w, i)
    requires !f.slots[i].loaded && ContentOf(f, i).Some? && ContentOf(w, i) == ContentOf(f, i)
    ensures StepSlot(w, i).Done?
    ensures var v := StepSlot(w, i).world;
      if j < i + 1 && !f.slots[j].loaded then Attached(f, v, j)
      else Kids(v, f.slots[j].entity) == Kids(f, f.slots[j].entity)
  {
    StepFacts(w, i, ContentOf(f, i).value);
    var v := StepSlot(w, i).world;
    var ei := f.slots[i].entity;
    var ej := f.slots[j].entity;
    assert ej < f.next <= w.next;
    if j == i {
      assert Kids(w, ei) == Kids(f, ei);
      assert Kids(v, ei)[..|Kids(f, ei)|] == Kids(f, ei);
    } else {
      assert ej != ei;
      assert Kids(v, ej) == Kids(w, ej);
      if j < i && !f.slots[j].loaded {
        assert Attached(f, w, j);
        var c := Kids(w, ej)[|Kids(f, ej)|];
        assert c in w.nodes;
        assert Kids(v, c) == Kids(w, c);
        ShowsKept(w, v, c, ContentOf(f, j).value);
      }
    }
  }

  /** During the scan, the queue only grows, and only by catalog buttons spawned by columns. */
  lemma StepKeepsQueue(f: World, w: World, i: nat)
    requires Valid(f) && i < |f.slots| && Scanned(f, w, i)
    requires !f.slots[i].loaded && ContentOf(f, i).Some? && ContentOf(w, i) == ContentOf(f, i)
    ensures StepSlot(w, i).Done?
    ensures var v := StepSlot(w, i).world;
      && |f.pending| <= |v.pending|
      && v.pending[..|f.pending|] == f.pending
      && (forall k | |f.pending| <= k < |v.pending| :: IsButtonWidget(v, v.pending[k]))
      && (NoColumn(f, i + 1) ==> v.pending == f.pending)
  {
    StepNodeFacts(w, i, ContentOf(f, i).value);
    var v := StepSlot(w, i).world;
    forall k | |f.pending| <= k < |v.pending|
      ensures IsButtonWidget(v, v.pending[k])
    {
      if k < |w.pending| {
        assert v.pending[k] == w.pending[k] && IsButtonWidget(w, w.pending[k]);
      }
    }
    assert v.pending[..|f.pending|] == f.pending;
    if NoColumn(f, i + 1) {
      assert NoColumn(f, i);
    }
  }

  /**
   * What the scan of `f` keeps, up to `w`: the children of every existing
   * entity that is not a slot, and a queue that grows only by fresh handles
   * in increasing order, every widget spawned during the scan among them.
   */
  ghost predicate ScanKeeps(f: World, w: World)
  {
    && |f.pending| <= |w.pending|
    && (forall x: Entity | x < f.next && !IsSlotEntity(f, x) :: Kids(w, x) == Kids(f, x))
    && (forall k | |f.pending| <= k < |w.pending| :: f.next <= w.pending[k])
    && (forall k1, k2 | |f.pending| <= k1 < k2 < |w.pending| :: w.pending[k1] < w.pending[k2])
    && (forall x | x in w.nodes && x !in f.nodes && w.nodes[x].WidgetNode? :: x in w.pending)
  }

  /** A scan that completes keeps what ScanKeeps names. */
  lemma {:induction false} ScanKeepsFacts(f: World, n: nat)
    requires Valid(f) && n <= |f.slots| && ScanUpTo(f, n).Done?
    ensures ScanKeeps(f, ScanUpTo(f, n).world)
  {
    if n > 0 {
      assert ScanUpTo(f, n - 1).Done?;
      ScanKeepsFacts(f, n - 1);
      var w := ScanUpTo(f, n - 1).world;
      assert ScanUpTo(f, n) == StepSlot(w, n - 1);
      var v := StepSlot(w, n - 1).world;
      assert ScanKeeps(f, v) by {
        ScanPrefixFacts(f, n - 1);
        StepKeeps(f, w, n - 1);
      }
      ScanKeepsSame(f, v, ScanUpTo(f, n).world);
    }
  }

  /** ScanKeeps depends only on the scene it describes. */
  lemma ScanKeepsSame(f: World, v: World, u: World)
    requires v == u && ScanKeeps(f, v)
    ensures ScanKeeps(f, u)
  {
  }

  /** A completed partial scan keeps the scene well formed, the slots ahead, and every node. */
  lemma ScanPrefixFacts(f: World, n: nat)
    requires Valid(f) && n < |f.slots| && ScanUpTo(f, n).Done?
    ensures var w := ScanUpTo(f, n).world;
      && Valid(w) && f.next <= w.next && n < |w.slots| && w.slots[n] == f.slots[n]
      && forall x | x in f.nodes :: x in w.nodes
  {
    ScanFacts(f, n);
    ScannedAhead(f, ScanUpTo(f, n).world, n);
  }

  /** The inductive step of ScanKeepsFacts. */
  lemma StepKeeps(f: World, w: World, i: nat)
    requires i < |f.slots| && Valid(w) && f.next <= w.next && i < |w.slots| && w.slots[i] == f.slots[i]
    requires forall x | x in f.nodes :: x in w.nodes
    requires ScanKeeps(f, w) && StepSlot(w, i).Done?
    ensures ScanKeeps(f, StepSlot(w, i).world)
  {
    if !w.slots[i].loaded {
      StepKeepsKids(f, w, i);
      StepKeepsFreshQueue(f, w, i);
    }
  }

  /** One slot of the scan leaves the children of every other existing entity alone. */
  lemma StepKeepsKids(f: World, w: World, i: nat)
    requires i < |f.slots| && Valid(w) && f.next <= w.next && i < |w.slots| && w.slots[i] == f.slots[i]
    requires !w.slots[i].loaded && ContentOf(w, i).Some?
    requires forall x: Entity | x < f.next && !IsSlotEntity(f, x) :: Kids(w, x) == Kids(f, x)
    ensures StepSlot(w, i).Done?
    ensures forall x: Entity | x < f.next && !IsSlotEntity(f, x) :: Kids(StepSlot(w, i).world, x) == Kids(f, x)
  {
    StepKidFacts(w, i, ContentOf(w, i).value);
    var v := StepSlot(w, i).world;
    forall x: Entity | x < f.next && !IsSlotEntity(f, x)
      ensures Kids(v, x) == Kids(f, x)
    {
      assert x != f.slots[i].entity;
    }
  }

  /** One slot of the scan queues only fresh widgets, in handle order, and every widget it spawns. */
  lemma StepKeepsFreshQueue(f: World, w: World, i: nat)
    requires i < |w.slots| && Valid(w) && f.next <= w.next
    requires !w.slots[i].loaded && ContentOf(w, i).Some?
    requires forall x | x in f.nodes :: x in w.nodes
    requires ScanKeeps(f, w)
    ensures StepSlot(w, i).Done?
    ensures var v := StepSlot(w, i).world;
      && |f.pending| <= |v.pending|
      && (forall k | |f.pending| <= k < |v.pending| :: f.next <= v.pending[k])
      && (forall k1, k2 | |f.pending| <= k1 < k2 < |v.pending| :: v.pending[k1] < v.pending[k2])
      && (forall x | x in v.nodes && x !in f.nodes && v.nodes[x].WidgetNode? :: x in v.pending)
  {
    var extra := StepQueueShape(w, i);
    var v := StepSlot(w, i).world;
    AppendKeepsIncreasing(w.pending, extra, |f.pending|, w.next);
    forall x | x in v.nodes && x !in f.nodes && v.nodes[x].WidgetNode?
      ensures x in v.pending
    {
      if x in w.nodes {
        assert x in w.pending;
      }
    }
  }

  /** One slot of the scan appends fresh handles, in increasing order, to the queue; among them every widget it spawns. */
  lemma StepQueueShape(w: World, i: nat) returns (extra: seq<Entity>)
    requires i < |w.slots| && Valid(w) && !w.slots[i].loaded && ContentOf(w, i).Some?
    ensures StepSlot(w, i).Done?
    ensures var v := StepSlot(w, i).world;
      && v.pending == w.pending + extra
      && (forall k | 0 <= k < |extra| :: w.next <= extra[k])
      && (forall k1, k2 | 0 <= k1 < k2 < |extra| :: extra[k1] < extra[k2])
      && (forall x | x in w.nodes :: x in v.nodes && v.nodes[x] == w.nodes[x])
      && (forall x | x in v.nodes && x !in w.nodes && v.nodes[x].WidgetNode? :: x in v.pending)
  {
    var spec := ContentOf(w, i).value;
    extra := if spec.Column? then [w.next + 1, w.next + 2] else [];
    StepNodeFacts(w, i, spec);
    StepQueuesNewWidgets(w, i, spec);
  }

  /** Appending larger handles in increasing order to a queue increasing from `lo` on keeps it so. */
  lemma AppendKeepsIncreasing(a: seq<Entity>, extra: seq<Entity>, lo: nat, bound: Entity)
    requires lo <= |a|
    requires forall k1, k2 | lo <= k1 < k2 < |a| :: a[k1] < a[k2]
    requires forall k | 0 <= k < |a| :: a[k] < bound
    requires forall k | 0 <= k < |extra| :: bound <= extra[k]
    requires forall k1, k2 | 0 <= k1 < k2 < |extra| :: extra[k1] < extra[k2]
    ensures forall k1, k2 | lo <= k1 < k2 < |a + extra| :: (a + extra)[k1] < (a + extra)[k2]
  {
    forall k1, k2 | lo <= k1 < k2 < |a + extra|
      ensures (a + extra)[k1] < (a + extra)[k2]
    {
      if k2 < |a| {
      } else if k1 < |a| {
        assert (a + extra)[k1] == a[k1] < bound <= extra[k2 - |a|];
      } else {
        assert (a + extra)[k1] == extra[k1 - |a|];
      }
    }
  }

  /** Once the scan has panicked, scanning further slots keeps the same verdict. */
  lemma {:induction false} FatalSticks(f: World, n: nat, m: nat)
    requires n <= m <= |f.slots|
    requires ScanUpTo(f, n).Fatal?
    ensures ScanUpTo(f, m) == ScanUpTo(f, n)
  {
    if m > n {
      FatalSticks(f, n, m - 1);
    }
  }

  /** A pass keeps the scene well formed. */
  lemma PassKeepsValid(w: World)
    requires Valid(w)
    ensures Pass(w).Done? ==> Valid(Pass(w).world)
  {
    FlushFacts(w, |w.pending|);
    var f := Flush(w);
    ScanFacts(f, |f.slots|);
  }
}
