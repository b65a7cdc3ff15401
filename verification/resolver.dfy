/**
 * The content-population pass as a function of the scene it runs on.
 *
 * A scene holds the content slots (one per content zone of every widget the
 * nine-patch plugin has built), the nodes spawned so far, the child lists,
 * and the widgets spawned since the last pass, whose slots do not exist yet.
 * One pass first lets those pending widgets' slots appear, then visits every
 * slot in order: a loaded slot is skipped; an unloaded one gets the content
 * the catalog gives for its widget's identity and its zone, attached as its
 * one new child, and is marked loaded. A slot the catalog has no entry for
 * stops the pass with a fatal error.
 */
module Resolver {
  import opened Wrappers
  import opened Ui
  import opened Patches
  import opened Widgets
  import opened Catalog

  /** Entity handles, handed out in increasing order. */
  type Entity = nat

  /** A content slot: its own entity, the widget it belongs to, its zone and whether it is loaded. */
  datatype Slot = Slot(entity: Entity, parent: Entity, zone: Zone, loaded: bool)

  /** What a spawned entity is. */
  datatype Node = WidgetNode(widget: Widget) | TextNode(text: string) | ColumnNode

  datatype World = World(
    slots: seq<Slot>,
    nodes: map<Entity, Node>,
    children: map<Entity, seq<Entity>>,
    pending: seq<Entity>,
    next: Entity)

  /** A pass either completes or panics at the slot it could not resolve. */
  datatype PassResult = Done(world: World) | Fatal(slot: nat)

  function Kids(w: World, e: Entity): seq<Entity>
  {
    if e in w.children then w.children[e] else []
  }

  /** The identity of entity `e`, if it is a widget. */
  function ParentId(w: World, e: Entity): Option<UiId>
  {
    if e in w.nodes && w.nodes[e].WidgetNode? then Some(w.nodes[e].widget.id) else None
  }

  /** The zones entity `e` exposes, if it is a widget. */
  function DeclaredZones(w: World, e: Entity): seq<Zone>
  {
    if e in w.nodes && w.nodes[e].WidgetNode? then WidgetZones(w.nodes[e].widget) else []
  }

  /** The catalog entry for slot `i`: keyed by its widget's identity and its zone only. */
  function ContentOf(w: World, i: nat): Option<ContentSpec>
    requires i < |w.slots|
  {
    Content(ParentId(w, w.slots[i].parent), w.slots[i].zone)
  }

  /**
   * Every handle a slot, a node, a child list (its owner and its entries)
   * or the pending queue mentions is below `next`, and slot entities are
   * distinct.
   */
  ghost predicate Valid(w: World)
  {
    && (forall i | 0 <= i < |w.slots| :: w.slots[i].entity < w.next && w.slots[i].parent < w.next)
    && (forall i, j | 0 <= i < j < |w.slots| :: w.slots[i].entity != w.slots[j].entity)
    && (forall e | e in w.nodes :: e < w.next)
    && (forall e | e in w.children :: e < w.next)
    && (forall e, k | e in w.children && 0 <= k < |w.children[e]| :: w.children[e][k] < w.next)
    && (forall k | 0 <= k < |w.pending| :: w.pending[k] < w.next)
  }

  /** Spawns a node under a fresh handle, `w.next`. */
  function Spawn(w: World, n: Node): World
  {
    w.(nodes := w.nodes[w.next := n], next := w.next + 1)
  }

  /** `spawn_ui`: a widget for `id`, queued until the plugin builds its slots. */
  function SpawnUi(w: World, id: UiId): World
  {
    Spawn(w, WidgetNode(WidgetFor(id))).(pending := w.pending + [w.next])
  }

  /** `push_children`: appends `es` to the children of `e`. */
  function PushChildren(w: World, e: Entity, es: seq<Entity>): World
  {
    w.(children := w.children[e := Kids(w, e) + es])
  }

  /**
   * Spawns the content `spec` describes; its root is `w.next`. A column is
   * spawned first, then its second widget, then its first one, and is
   * given the two as children, first then second.
   */
  function Materialize(w: World, spec: ContentSpec): World
  {
    match spec
    case Text(t) => Spawn(w, TextNode(t))
    case Column(first, second) =>
      var v := SpawnUi(SpawnUi(Spawn(w, ColumnNode), second), first);
      PushChildren(v, w.next, [w.next + 2, w.next + 1])
  }

  /** The `n` first slots of widget `parent` with zones `zones`, appended under fresh handles. */
  function AddSlots(w: World, parent: Entity, zones: seq<Zone>, n: nat): (r: World)
    requires n <= |zones|
    ensures r.nodes == w.nodes && r.children == w.children && r.pending == w.pending
  {
    if n == 0 then w
    else
      var v := AddSlots(w, parent, zones, n - 1);
      v.(slots := v.slots + [Slot(v.next, parent, zones[n - 1], false)], next := v.next + 1)
  }

  /** The slots of the `k` first pending widgets appear; the queue is emptied. */
  function FlushUpTo(w: World, k: nat): (r: World)
    requires k <= |w.pending|
    ensures r.nodes == w.nodes && r.children == w.children && r.pending == []
  {
    if k == 0 then w.(pending := [])
    else
      var p := w.pending[k - 1];
      var zones := DeclaredZones(w, p);
      AddSlots(FlushUpTo(w, k - 1), p, zones, |zones|)
  }

  function Flush(w: World): World
  {
    FlushUpTo(w, |w.pending|)
  }

  /** One slot of the scan. */
  function StepSlot(w: World, i: nat): (r: PassResult)
    requires i < |w.slots|
    ensures r.Fatal? ==> r.slot == i
    ensures r.Done? ==> |r.world.slots| == |w.slots|
  {
    var s := w.slots[i];
    if s.loaded then Done(w)
    else
      match ContentOf(w, i)
      case None => Fatal(i)
      case Some(spec) =>
        var v := PushChildren(Materialize(w, spec), s.entity, [w.next]);
        Done(v.(slots := w.slots[i := s.(loaded := true)]))
  }

  /** The scan of the `n` first slots. */
  function ScanUpTo(w: World, n: nat): (r: PassResult)
    requires n <= |w.slots|
    ensures r.Fatal? ==> r.slot < n
    ensures r.Done? ==> |r.world.slots| == |w.slots|
  {
    if n == 0 then Done(w)
    else
      match ScanUpTo(w, n - 1)
      case Fatal(j) => Fatal(j)
      case Done(v) => StepSlot(v, n - 1)
  }

  /** One run of the content provider over all slots. */
  function Scan(w: World): PassResult
  {
    ScanUpTo(w, |w.slots|)
  }

  /** One tick: the queued widgets' slots appear, then the content provider runs. */
  function Pass(w: World): PassResult
  {
    Scan(Flush(w))
  }

  /** The scene right after start-up: the lobby panel spawned, its slots not built yet. */
  function Initial(): World
  {
    SpawnUi(World([], map[], map[], [], 0), Panel(LobbyMenu))
  }
}
