/**
 * The scene the content provider runs on, updated in place: the slot
 * components, the spawned nodes, the child lists, the queue of widgets whose
 * slots the nine-patch plugin has yet to build, and the next free handle.
 */
module Scene {
  import opened Wrappers
  import opened Ui
  import opened Widgets
  import opened Catalog
  import opened Resolver
  import ResolverFacts

  class Scene {
    var slots: seq<Slot>
    var nodes: map<Entity, Node>
    var children: map<Entity, seq<Entity>>
    var pending: seq<Entity>
    var next: Entity

    function State(): World
      reads this
    {
      World(slots, nodes, children, pending, next)
    }

    ghost predicate Valid()
      reads this
    {
      Resolver.Valid(State())
    }

    /** Start-up: spawns the lobby panel. */
    constructor Setup()
      ensures State() == Initial()
      ensures Valid()
    {
      slots, nodes, children, pending, next := [], map[], map[], [], 0;
      new;
      var lobby := SpawnUi(Panel(LobbyMenu));
    }

    /** `spawn_ui`: spawns a widget tagged `id` and queues it for the plugin. */
    method SpawnUi(id: UiId) returns (e: Entity)
      modifies this
      ensures e == old(next)
      ensures State() == Resolver.SpawnUi(old(State()), id)
      ensures old(Valid()) ==> Valid()
    {
      e := next;
      nodes := nodes[e := WidgetNode(WidgetFor(id))];
      pending := pending + [e];
      next := next + 1;
    }

    /** The slots of widget `p`, one per zone of `zones`, appended under fresh handles. */
    method AddWidgetSlots(p: Entity, zones: seq<Zone>)
      modifies this
      ensures State() == AddSlots(old(State()), p, zones, |zones|)
    {
      ghost var w0 := State();
      var j := 0;
      while j < |zones|
        invariant 0 <= j <= |zones|
        invariant State() == AddSlots(w0, p, zones, j)
      {
        slots := slots + [Slot(next, p, zones[j], false)];
        next := next + 1;
        j := j + 1;
      }
    }

    /**
     * The nine-patch plugin's part of a tick: every queued widget gets one
     * unloaded slot per content zone of its model, and the queue empties.
     */
    method BuildPendingSlots()
      modifies this
      ensures State() == Flush(old(State()))
      ensures old(Valid()) ==> Valid()
    {
      ghost var w0 := State();
      var queued := pending;
      pending := [];
      var k := 0;
      while k < |queued|
        invariant 0 <= k <= |queued| && queued == w0.pending
        invariant State() == FlushUpTo(w0, k)
      {
        var zones := DeclaredZones(State(), queued[k]);
        assert zones == DeclaredZones(w0, queued[k]);
        AddWidgetSlots(queued[k], zones);
        k := k + 1;
      }
      if Resolver.Valid(w0) {
        ResolverFacts.FlushFacts(w0, |w0.pending|);
      }
    }

    /**
     * Slot `i` of the content provider's loop, when it is unloaded and
     * `spec` is its catalog content: spawns the content and attaches it.
     */
    method FillSlot(i: nat, spec: ContentSpec)
      requires i < |slots| && !slots[i].loaded && ContentOf(State(), i) == Some(spec)
      modifies this
      ensures StepSlot(old(State()), i) == Done(State())
    {
      ghost var w0 := State();
      var s := slots[i];
      var e := next;
      match spec {
        case Text(t) =>
          nodes := nodes[e := TextNode(t)];
          next := next + 1;
        case Column(first, second) =>
          nodes := nodes[e := ColumnNode];
          next := next + 1;
          ghost var w1 := State();
          assert w1 == Spawn(w0, ColumnNode);
          var e2 := SpawnUi(second);
          ghost var w2 := State();
          assert w2 == Resolver.SpawnUi(w1, second);
          var e1 := SpawnUi(first);
          assert State() == Resolver.SpawnUi(w2, first);
          children := children[e := Kids(State(), e) + [e1, e2]];
          assert State() == Materialize(w0, spec);
      }
      children := children[s.entity := Kids(State(), s.entity) + [e]];
      slots := slots[i := s.(loaded := true)];
    }

    /**
     * `ui_content_provider`: every unloaded slot gets the catalog's content
     * for its widget's identity and its zone as its one new child, and is
     * marked loaded. On a catalog gap it stops and reports that slot.
     */
    method ProvideContent() returns (fatal: Option<nat>)
      modifies this
      ensures Scan(old(State())).Fatal? ==> fatal == Some(Scan(old(State())).slot)
      ensures Scan(old(State())).Done? ==> fatal.None? && State() == Scan(old(State())).world
    {
      ghost var f := State();
      var i := 0;
      while i < |slots|
        invariant 0 <= i <= |slots| == |f.slots|
        invariant ScanUpTo(f, i) == Done(State())
      {
        if !slots[i].loaded {
          match Content(ParentId(State(), slots[i].parent), slots[i].zone)
          case None =>
            ResolverFacts.FatalSticks(f, i + 1, |f.slots|);
            return Some(i);
          case Some(spec) =>
            FillSlot(i, spec);
        }
        i := i + 1;
      }
      fatal := None;
    }

    /** One tick: the plugin builds the queued widgets' slots, then the content provider runs. */
    method Tick() returns (fatal: Option<nat>)
      modifies this
      ensures Pass(old(State())).Fatal? ==> fatal == Some(Pass(old(State())).slot)
      ensures Pass(old(State())).Done? ==> fatal.None? && State() == Pass(old(State())).world
      ensures old(Valid()) && fatal.None? ==> Valid()
    {
      ghost var w0 := State();
      BuildPendingSlots();
      fatal := ProvideContent();
      if Resolver.Valid(w0) {
        ResolverFacts.PassKeepsValid(w0);
      }
    }
  }
}
