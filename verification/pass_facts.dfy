/**
 * Properties of a whole tick (the plugin building queued widgets' slots,
 * then the content provider visiting every slot), stated on the scene
 * before and after.
 */
module PassFacts {
  import opened Wrappers
  import opened Ui
  import opened Patches
  import opened Widgets
  import opened Catalog
  import opened Resolver
  import opened ResolverFacts

  /** Every slot of the scene is loaded. */
  ghost predicate AllLoaded(w: World)
  {
    forall j | 0 <= j < |w.slots| :: w.slots[j].loaded
  }

  /**
   * Slot `j` of `w'` gained exactly one child since `w`, showing the catalog
   * content for its widget's identity (as it was in `w`) and its zone.
   */
  ghost predicate GainedContent(w: World, w': World, j: nat)
    requires j < |w'.slots|
  {
    var s := w'.slots[j];
    var before := Kids(w, s.entity);
    var after := Kids(w', s.entity);
    var spec := Content(ParentId(w, s.parent), s.zone);
    && |after| == |before| + 1
    && after[..|before|] == before
    && spec.Some?
    && Shows(w', after[|before|], spec.value)
  }

  /**
   * Every widget has one slot per zone it declares, in order, unless it is
   * queued, in which case it has none yet.
   */
  ghost predicate SlotsComplete(w: World)
  {
    forall e | e in w.nodes && w.nodes[e].WidgetNode? ::
      ZonesOf(w.slots, e) == if e in w.pending then [] else DeclaredZones(w, e)
  }

  /**
   * Widgets are the catalog's, every unloaded slot is a zone its widget
   * declares, and queued entities are widgets.
   */
  ghost predicate Catalogued(w: World)
  {
    && Valid(w)
    && (forall e | e in w.nodes && w.nodes[e].WidgetNode? :: w.nodes[e].widget == WidgetFor(w.nodes[e].widget.id))
    && (forall j | 0 <= j < |w.slots| && !w.slots[j].loaded ::
          w.slots[j].zone in DeclaredZones(w, w.slots[j].parent))
    && (forall k | 0 <= k < |w.pending| :: w.pending[k] in w.nodes && w.nodes[w.pending[k]].WidgetNode?)
  }

  /**
   * A scene built by the widget catalog: catalogued, widgets queued in the
   * order they were spawned, and every widget that is not queued has all
   * its slots.
   */
  ghost predicate Wired(w: World)
  {
    Catalogued(w) && Increasing(w.pending) && SlotsComplete(w)
  }

  /** The flush and the scan facts of one tick, side by side. */
  lemma PassParts(w: World)
    requires Valid(w)
    ensures var f := Flush(w);
      && f.nodes == w.nodes && f.children == w.children && f.pending == []
      && Valid(f) && w.next <= f.next
      && f.slots == w.slots + QueuedSlots(w, |w.pending|)
      && |w.slots| <= |f.slots|
      && (forall j | 0 <= j < |w.slots| :: f.slots[j] == w.slots[j])
      && (forall j | |w.slots| <= j < |f.slots| ::
            && !f.slots[j].loaded
            && w.next <= f.slots[j].entity
            && f.slots[j].parent in w.pending
            && f.slots[j].zone in DeclaredZones(w, f.slots[j].parent))
      && (Pass(w).Done? <==> forall j | 0 <= j < |f.slots| :: !Gap(f, j))
      && (Pass(w).Done? ==> Scanned(f, Pass(w).world, |f.slots|) && ScanKeeps(f, Pass(w).world))
      && (Pass(w).Fatal? ==> var i := Pass(w).slot; Gap(f, i) && forall j | 0 <= j < i :: !Gap(f, j))
  {
    FlushFacts(w, |w.pending|);
    FlushLayout(w, |w.pending|);
    ScanFacts(Flush(w), |Flush(w).slots|);
    if Pass(w).Done? {
      ScanKeepsFacts(Flush(w), |Flush(w).slots|);
    }
  }

  /** A slot that is already loaded is skipped: it and its children stay as they were. */
  lemma PassSkipsLoaded(w: World)
    requires Valid(w) && Pass(w).Done?
    ensures var w' := Pass(w).world;
      && |w.slots| <= |w'.slots|
      && forall j | 0 <= j < |w.slots| && w.slots[j].loaded ::
           w'.slots[j] == w.slots[j] && Kids(w', w.slots[j].entity) == Kids(w, w.slots[j].entity)
  {
    PassParts(w);
  }

  /**
   * After a tick every slot is loaded; every slot that was not (and every
   * slot built in this tick) gained exactly one child, showing the catalog
   * content for its widget's identity and its zone.
   */
  lemma PassLoadsEachOnce(w: World)
    requires Valid(w) && Pass(w).Done?
    ensures var w' := Pass(w).world;
      && |w.slots| <= |w'.slots|
      && AllLoaded(w')
      && (forall j | 0 <= j < |w.slots| :: w'.slots[j] == w.slots[j].(loaded := true))
      && (forall j | 0 <= j < |w'.slots| && (|w.slots| <= j || !w.slots[j].loaded) :: GainedContent(w, w', j))
  {
    PassParts(w);
    var f := Flush(w);
    var w' := Pass(w).world;
    forall j | 0 <= j < |w'.slots| && (|w.slots| <= j || !w.slots[j].loaded)
      ensures GainedContent(w, w', j)
    {
      assert !f.slots[j].loaded;
      assert Attached(f, w', j);
      assert ParentId(f, f.slots[j].parent) == ParentId(w, f.slots[j].parent);
    }
  }

  /** The slots built in a tick belong to queued widgets, one per declared zone, each with its one child. */
  lemma PassBuildsQueuedSlots(w: World)
    requires Valid(w) && Pass(w).Done?
    ensures var w' := Pass(w).world;
      forall j | |w.slots| <= j < |w'.slots| ::
        && w'.slots[j].parent in w.pending
        && w'.slots[j].zone in DeclaredZones(w, w'.slots[j].parent)
        && w.next <= w'.slots[j].entity
        && |Kids(w', w'.slots[j].entity)| == 1
  {
    PassParts(w);
    var f := Flush(w);
    var w' := Pass(w).world;
    forall j | |w.slots| <= j < |w'.slots|
      ensures |Kids(w', w'.slots[j].entity)| == 1
    {
      var e := f.slots[j].entity;
      assert Attached(f, w', j);
      assert e !in f.children;
    }
  }

  /**
   * With a queue in spawn order, a tick gives every queued widget one slot
   * per zone it declares, in order, after the slots it had, and gives no
   * slot to any other entity.
   */
  lemma PassBuildsEveryZone(w: World)
    requires Valid(w) && Increasing(w.pending) && Pass(w).Done?
    ensures var w' := Pass(w).world;
      forall e: Entity :: ZonesOf(w'.slots, e) == ZonesOf(w.slots, e) + (if e in w.pending then DeclaredZones(w, e) else [])
  {
    PassParts(w);
    var f := Flush(w);
    var w' := Pass(w).world;
    assert w.pending[..|w.pending|] == w.pending;
    forall e: Entity
      ensures ZonesOf(w'.slots, e) == ZonesOf(w.slots, e) + (if e in w.pending then DeclaredZones(w, e) else [])
    {
      ZonesOfSameShape(w'.slots, f.slots, e);
      ZonesOfAppend(w.slots, QueuedSlots(w, |w.pending|), e);
      ZonesOfQueued(w, |w.pending|, e);
    }
  }

  /** A tick leaves the children of every entity that is not a slot as they were. */
  lemma PassKeepsOtherChildren(w: World)
    requires Valid(w) && Pass(w).Done?
    ensures var w' := Pass(w).world;
      forall x: Entity | x < w.next && !IsSlotEntity(w, x) :: Kids(w', x) == Kids(w, x)
  {
    PassParts(w);
    var f := Flush(w);
    forall x: Entity | x < w.next && !IsSlotEntity(w, x)
      ensures Kids(Pass(w).world, x) == Kids(w, x)
    {
      assert !IsSlotEntity(f, x) by {
        forall j | 0 <= j < |f.slots|
          ensures f.slots[j].entity != x
        {
          if j < |w.slots| {
            assert f.slots[j] == w.slots[j];
          }
        }
      }
    }
  }

  /**
   * A tick panics exactly when some slot it visits has no catalog entry,
   * and then at the first such slot: a gap is never skipped.
   */
  lemma PassFatalIff(w: World)
    requires Valid(w)
    ensures var f := Flush(w);
      && (Pass(w).Fatal? <==> exists j | 0 <= j < |f.slots| :: Gap(f, j))
      && (Pass(w).Fatal? ==>
            var i := Pass(w).slot;
            && i < |f.slots|
            && !f.slots[i].loaded
            && Content(ParentId(w, f.slots[i].parent), f.slots[i].zone).None?
            && forall j | 0 <= j < i :: !Gap(f, j))
  {
    PassParts(w);
    var f := Flush(w);
    if Pass(w).Fatal? {
      assert Pass(w).slot < |f.slots|;
    }
  }

  /** Scanning a scene whose slots are all loaded changes nothing. */
  lemma {:induction false} ScanLoadedIsIdentity(w: World, n: nat)
    requires n <= |w.slots| && AllLoaded(w)
    ensures ScanUpTo(w, n) == Done(w)
  {
    if n > 0 {
      ScanLoadedIsIdentity(w, n - 1);
    }
  }

  /** Idempotence: once every slot is loaded and no widget is queued, a tick changes nothing. */
  lemma PassIdempotent(w: World)
    requires AllLoaded(w) && w.pending == []
    ensures Pass(w) == Done(w)
  {
    assert Flush(w) == w;
    ScanLoadedIsIdentity(w, |w.slots|);
  }

  /**
   * On a scene built by the widget catalog a tick never panics, loads every
   * slot, keeps the scene so built, and leaves only catalog buttons queued.
   */
  lemma PassOnWired(w: World)
    requires Wired(w)
    ensures Pass(w).Done?
    ensures var w' := Pass(w).world;
      && Wired(w') && AllLoaded(w')
      && forall k | 0 <= k < |w'.pending| :: IsButtonWidget(w', w'.pending[k])
  {
    PassKeepsCatalogued(w);
    PassKeepsZones(w);
  }

  /** The part of PassOnWired about Catalogued. */
  lemma PassKeepsCatalogued(w: World)
    requires Catalogued(w)
    ensures Pass(w).Done?
    ensures var w' := Pass(w).world;
      && Catalogued(w') && AllLoaded(w')
      && forall k | 0 <= k < |w'.pending| :: IsButtonWidget(w', w'.pending[k])
  {
    PassParts(w);
    var f := Flush(w);
    forall j | 0 <= j < |f.slots|
      ensures !Gap(f, j)
    {
      if !f.slots[j].loaded {
        var s := f.slots[j];
        assert s.zone in DeclaredZones(w, s.parent);
        var id := w.nodes[s.parent].widget.id;
        assert ParentId(f, s.parent) == Some(id);
        CatalogMatchesDeclaredZones(id, s.zone);
      }
    }
    PassLoadsEachOnce(w);
  }

  /** The part of PassOnWired about the queue order and SlotsComplete. */
  lemma PassKeepsZones(w: World)
    requires Wired(w)
    ensures Pass(w).Done?
    ensures Increasing(Pass(w).world.pending) && SlotsComplete(Pass(w).world)
  {
    assert Pass(w).Done? by {
      PassKeepsCatalogued(w);
    }
    var f := Flush(w);
    var w' := Pass(w).world;
    PassShape(w);
    PassBuildsEveryZone(w);
    forall e | e in w'.nodes && w'.nodes[e].WidgetNode?
      ensures ZonesOf(w'.slots, e) == if e in w'.pending then [] else DeclaredZones(w', e)
    {
      if e in w.nodes {
        OldWidgetComplete(w, f, w', e);
      } else {
        NewWidgetComplete(f, w', e);
      }
    }
  }

  /** What a completed tick keeps of the flushed scene, as PassKeepsZones uses it. */
  lemma PassShape(w: World)
    requires Valid(w) && Pass(w).Done?
    ensures var f := Flush(w);
      var w' := Pass(w).world;
      && f.pending == [] && f.nodes == w.nodes && Valid(f) && w.next <= f.next
      && |w'.slots| == |f.slots|
      && (forall j | 0 <= j < |f.slots| :: w'.slots[j].parent == f.slots[j].parent)
      && (forall e | e in f.nodes :: e in w'.nodes && w'.nodes[e] == f.nodes[e])
      && (forall e | e in w'.nodes :: e in f.nodes || f.next <= e)
      && ScanKeeps(f, w')
  {
    PassParts(w);
  }

  /** A widget that existed before a tick has, after it, one slot per declared zone. */
  lemma OldWidgetComplete(w: World, f: World, w': World, e: Entity)
    requires Valid(w) && SlotsComplete(w) && e in w.nodes && w.nodes[e].WidgetNode?
    requires w.next <= f.next
    requires e in w'.nodes && w'.nodes[e] == w.nodes[e]
    requires forall k | 0 <= k < |w'.pending| :: f.next <= w'.pending[k]
    requires ZonesOf(w'.slots, e) == ZonesOf(w.slots, e) + (if e in w.pending then DeclaredZones(w, e) else [])
    ensures ZonesOf(w'.slots, e) == if e in w'.pending then [] else DeclaredZones(w', e)
  {
    assert e < w.next;
    assert e !in w'.pending by {
      forall k | 0 <= k < |w'.pending|
        ensures w'.pending[k] != e
      {
        assert f.next <= w'.pending[k];
      }
    }
    assert DeclaredZones(w', e) == DeclaredZones(w, e);
  }

  /** A widget spawned during a tick is queued and has no slot yet. */
  lemma NewWidgetComplete(f: World, w': World, e: Entity)
    requires Valid(f) && f.pending == [] && e in w'.nodes && e !in f.nodes && w'.nodes[e].WidgetNode?
    requires |w'.slots| == |f.slots|
    requires forall j | 0 <= j < |f.slots| :: w'.slots[j].parent == f.slots[j].parent
    requires forall x | x in w'.nodes :: x in f.nodes || f.next <= x
    requires ScanKeeps(f, w')
    ensures e in w'.pending && ZonesOf(w'.slots, e) == []
  {
    forall j | 0 <= j < |w'.slots|
      ensures w'.slots[j].parent != e
    {
      assert w'.slots[j].parent == f.slots[j].parent < f.next;
    }
    ZonesOfAbsent(w'.slots, e);
  }

  /**
   * A scene built by the widget catalog settles within two ticks: panels
   * queue buttons in the first, whose captions are text, so after the second
   * every widget has a loaded slot for each zone it declares, nothing is
   * queued and further ticks change nothing.
   */
  lemma TwoPassesSettle(w: World)
    requires Wired(w)
    ensures Pass(w).Done? && Pass(Pass(w).world).Done?
    ensures var w2 := Pass(Pass(w).world).world;
      && AllLoaded(w2) && w2.pending == [] && Pass(w2) == Done(w2)
      && forall e | e in w2.nodes && w2.nodes[e].WidgetNode? :: ZonesOf(w2.slots, e) == DeclaredZones(w2, e)
  {
    PassOnWired(w);
    var w1 := Pass(w).world;
    PassOnWired(w1);
    ButtonsQueueNothing(w1);
    var w2 := Pass(w1).world;
    PassIdempotent(w2);
    assert SlotsComplete(w2);
  }

  /** A tick over a loaded scene whose queue holds only buttons queues nothing: captions are text. */
  lemma ButtonsQueueNothing(w1: World)
    requires Catalogued(w1) && AllLoaded(w1)
    requires forall k | 0 <= k < |w1.pending| :: IsButtonWidget(w1, w1.pending[k])
    ensures Pass(w1).Done? && Pass(w1).world.pending == []
  {
    PassKeepsCatalogued(w1);
    FlushFacts(w1, |w1.pending|);
    var f1 := Flush(w1);
    ScanFacts(f1, |f1.slots|);
    forall j | 0 <= j < |f1.slots| && !f1.slots[j].loaded
      ensures ContentOf(f1, j).None? || ContentOf(f1, j).value.Text?
    {
      var p := f1.slots[j].parent;
      assert p in w1.pending;
      var k :| 0 <= k < |w1.pending| && w1.pending[k] == p;
      assert IsButtonWidget(w1, p);
      assert ParentId(f1, p).value.Button?;
    }
    assert NoColumn(f1, |f1.slots|);
  }

  /** `spawn_ui` keeps a scene built by the widget catalog. */
  lemma SpawnUiKeepsWired(w: World, id: UiId)
    requires Wired(w)
    ensures Wired(SpawnUi(w, id))
  {
    SpawnUiKeepsCatalogued(w, id);
    SpawnUiKeepsOrder(w, id);
    SpawnUiKeepsComplete(w, id);
  }

  /** `spawn_ui` adds a catalog widget and keeps every slot's zone declared. */
  lemma SpawnUiKeepsCatalogued(w: World, id: UiId)
    requires Catalogued(w)
    ensures Catalogued(SpawnUi(w, id))
  {
    SpawnUiFacts(w, id);
    var v := SpawnUi(w, id);
    forall j | 0 <= j < |v.slots| && !v.slots[j].loaded
      ensures v.slots[j].zone in DeclaredZones(v, v.slots[j].parent)
    {
      assert v.slots[j].parent < w.next;
      assert DeclaredZones(v, v.slots[j].parent) == DeclaredZones(w, v.slots[j].parent);
    }
  }

  /** `spawn_ui` queues a handle above every queued one. */
  lemma SpawnUiKeepsOrder(w: World, id: UiId)
    requires Valid(w) && Increasing(w.pending)
    ensures Increasing(SpawnUi(w, id).pending)
  {
    SpawnUiFacts(w, id);
    var v := SpawnUi(w, id);
    forall k1, k2 | 0 <= k1 < k2 < |v.pending|
      ensures v.pending[k1] < v.pending[k2]
    {
      if k2 == |w.pending| {
        assert v.pending[k1] == w.pending[k1] < w.next;
      }
    }
  }

  /** `spawn_ui` queues the new widget, which has no slots yet, and changes no other widget's slots. */
  lemma SpawnUiKeepsComplete(w: World, id: UiId)
    requires Valid(w) && SlotsComplete(w)
    ensures SlotsComplete(SpawnUi(w, id))
  {
    SpawnUiFacts(w, id);
    var v := SpawnUi(w, id);
    forall e | e in v.nodes && v.nodes[e].WidgetNode?
      ensures ZonesOf(v.slots, e) == if e in v.pending then [] else DeclaredZones(v, e)
    {
      if e == w.next {
        forall j | 0 <= j < |v.slots|
          ensures v.slots[j].parent != e
        {
          assert v.slots[j].parent < w.next;
        }
        ZonesOfAbsent(v.slots, e);
      } else {
        assert (e in v.pending) == (e in w.pending);
        assert DeclaredZones(v, e) == DeclaredZones(w, e);
      }
    }
  }

  /** The start-up scene, the lobby panel queued, is built by the widget catalog. */
  lemma InitialWired()
    ensures Wired(Initial())
  {
    var empty := World([], map[], map[], [], 0);
    assert Wired(empty);
    SpawnUiKeepsWired(empty, Panel(LobbyMenu));
  }

  /**
   * From start-up, two ticks populate the whole lobby: the title shows "Game
   * Lobby", the inner zone a column whose children are the Quit Game and the
   * Ready to play buttons, and each button's zone its caption. Every widget
   * then has a loaded slot for each of its zones, nothing is queued, and the
   * scene stays as it is.
   */
  lemma LobbySettlesInTwoPasses()
    ensures Pass(Initial()).Done? && Pass(Pass(Initial()).world).Done?
    ensures var w2 := Pass(Pass(Initial()).world).world;
      && AllLoaded(w2) && w2.pending == [] && Pass(w2) == Done(w2)
      && (forall e | e in w2.nodes && w2.nodes[e].WidgetNode? :: ZonesOf(w2.slots, e) == DeclaredZones(w2, e))
      && |w2.slots| == 4
      && w2.slots[0] == Slot(1, 0, PanelTitle, true) && w2.slots[1] == Slot(2, 0, PanelInner, true)
      && w2.slots[2] == Slot(7, 5, ButtonInner, true) && w2.slots[3] == Slot(8, 6, ButtonInner, true)
      && Kids(w2, 1) == [3] && Shows(w2, 3, Text("Game Lobby"))
      && Kids(w2, 2) == [4] && Shows(w2, 4, Column(Button(QuitGame), Button(ReadyPlayer)))
      && Kids(w2, 7) == [9] && Shows(w2, 9, Text("Ready to play!"))
      && Kids(w2, 8) == [10] && Shows(w2, 10, Text("Quit Game"))
  {
    InitialWired();
    TwoPassesSettle(Initial());
    LobbySecondPass();
  }

  /** The slots the lobby panel gets at the first tick: title, then inner. */
  lemma LobbyFlush()
    ensures var f := Flush(Initial());
      && Valid(f)
      && |f.slots| == 2 && f.slots[0] == Slot(1, 0, PanelTitle, false) && f.slots[1] == Slot(2, 0, PanelInner, false)
      && f.nodes == Initial().nodes && f.children == map[] && f.pending == [] && f.next == 3
  {
    var w0 := Initial();
    assert w0.pending == [0] && w0.next == 1 && w0.slots == [] && w0.children == map[];
    assert w0.nodes == map[0 := WidgetNode(WidgetFor(Panel(LobbyMenu)))];
    assert Valid(w0);
    FlushFacts(w0, 1);
    FlushLayout(w0, 1);
    assert DeclaredZones(w0, 0) == [PanelTitle, PanelInner];
    assert QueuedSlots(w0, 1) == [] + ZoneSlots(1, 0, [PanelTitle, PanelInner]);
  }

  /**
   * The first tick from start-up: the lobby's title slot shows "Game Lobby"
   * and its inner slot a column whose children are the Quit Game button
   * then the Ready to play button; the two buttons are queued, Ready to
   * play first, as they were spawned.
   */
  lemma LobbyFirstPass()
    ensures Pass(Initial()).Done?
    ensures var w1 := Pass(Initial()).world;
      && Valid(w1) && w1.next == 7
      && |w1.slots| == 2 && w1.slots[0] == Slot(1, 0, PanelTitle, true) && w1.slots[1] == Slot(2, 0, PanelInner, true)
      && Kids(w1, 1) == [3] && Shows(w1, 3, Text("Game Lobby"))
      && Kids(w1, 2) == [4] && Shows(w1, 4, Column(Button(QuitGame), Button(ReadyPlayer)))
      && Kids(w1, 4) == [6, 5]
      && w1.pending == [5, 6]
  {
    LobbyFlush();
    CatalogTexts();
    var f := Flush(Initial());
    assert ParentId(f, 0) == Some(Panel(LobbyMenu));
    assert ContentOf(f, 0) == Some(Text("Game Lobby"));
    StepFacts(f, 0, Text("Game Lobby"));
    var v1 := StepSlot(f, 0).world;
    assert ScanUpTo(f, 1) == Done(v1);
    assert Kids(v1, 2) == [];
    assert ContentOf(v1, 1) == Some(Column(Button(QuitGame), Button(ReadyPlayer))) by {
      assert v1.slots[1] == f.slots[1] && ParentId(v1, 0) == ParentId(f, 0);
    }
    StepFacts(v1, 1, Column(Button(QuitGame), Button(ReadyPlayer)));
    var v2 := StepSlot(v1, 1).world;
    assert ScanUpTo(f, 2) == Done(v2);
    assert Pass(Initial()) == Done(v2);
    assert Kids(v2, 1) == Kids(v1, 1);
  }

  /**
   * The second tick from start-up: the two queued buttons get their inner
   * slots, in queue order, which show "Ready to play!" and "Quit Game";
   * the lobby's content stays as it was.
   */
  lemma LobbySecondPass()
    ensures Pass(Initial()).Done? && Pass(Pass(Initial()).world).Done?
    ensures var w2 := Pass(Pass(Initial()).world).world;
      && |w2.slots| == 4
      && w2.slots[0] == Slot(1, 0, PanelTitle, true) && w2.slots[1] == Slot(2, 0, PanelInner, true)
      && w2.slots[2] == Slot(7, 5, ButtonInner, true) && w2.slots[3] == Slot(8, 6, ButtonInner, true)
      && Kids(w2, 1) == [3] && Shows(w2, 3, Text("Game Lobby"))
      && Kids(w2, 2) == [4] && Shows(w2, 4, Column(Button(QuitGame), Button(ReadyPlayer)))
      && Kids(w2, 7) == [9] && Shows(w2, 9, Text("Ready to play!"))
      && Kids(w2, 8) == [10] && Shows(w2, 10, Text("Quit Game"))
  {
    LobbyFirstPass();
    var w1 := Pass(Initial()).world;
    LobbyButtonsFlush(w1);
    var f1 := Flush(w1);
    assert f1.nodes[5] == WidgetNode(WidgetFor(Button(ReadyPlayer)));
    assert f1.nodes[6] == WidgetNode(WidgetFor(Button(QuitGame)));
    assert Kids(f1, 7) == [] && Kids(f1, 8) == [];
    LobbyCaptions(f1);
    assert Pass(w1) == Scan(f1);
    LobbyContentKept(w1, Scan(f1).world);
  }

  /** The scan of the second tick: the two button slots get their captions, nothing else changes. */
  lemma LobbyCaptions(f1: World)
    requires Valid(f1) && f1.next == 9 && f1.pending == []
    requires |f1.slots| == 4 && f1.slots[0].loaded && f1.slots[1].loaded
    requires f1.slots[2] == Slot(7, 5, ButtonInner, false) && f1.slots[3] == Slot(8, 6, ButtonInner, false)
    requires 5 in f1.nodes && f1.nodes[5] == WidgetNode(WidgetFor(Button(ReadyPlayer)))
    requires 6 in f1.nodes && f1.nodes[6] == WidgetNode(WidgetFor(Button(QuitGame)))
    requires Kids(f1, 7) == [] && Kids(f1, 8) == []
    ensures Scan(f1).Done?
    ensures var w2 := Scan(f1).world;
      && |w2.slots| == 4
      && w2.slots[0] == f1.slots[0] && w2.slots[1] == f1.slots[1]
      && w2.slots[2] == Slot(7, 5, ButtonInner, true) && w2.slots[3] == Slot(8, 6, ButtonInner, true)
      && Kids(w2, 7) == [9] && Shows(w2, 9, Text("Ready to play!"))
      && Kids(w2, 8) == [10] && Shows(w2, 10, Text("Quit Game"))
      && (forall x | x in f1.nodes :: x in w2.nodes && w2.nodes[x] == f1.nodes[x])
      && (forall x: Entity | x < 7 :: Kids(w2, x) == Kids(f1, x))
  {
    CatalogTexts();
    assert ScanUpTo(f1, 2) == Done(f1) by {
      assert ScanUpTo(f1, 1) == Done(f1);
    }
    assert ContentOf(f1, 2) == Some(Text("Ready to play!")) by {
      assert ParentId(f1, 5) == Some(Button(ReadyPlayer));
    }
    StepFacts(f1, 2, Text("Ready to play!"));
    var u1 := StepSlot(f1, 2).world;
    assert ScanUpTo(f1, 3) == Done(u1);
    assert ContentOf(u1, 3) == Some(Text("Quit Game")) by {
      assert u1.slots[3] == f1.slots[3];
      assert ParentId(u1, 6) == ParentId(f1, 6) == Some(Button(QuitGame));
    }
    StepFacts(u1, 3, Text("Quit Game"));
    var u2 := StepSlot(u1, 3).world;
    assert ScanUpTo(f1, 4) == Done(u2);
    assert Kids(u2, 7) == Kids(u1, 7);
  }

  /** At the second tick, the two queued buttons get one inner slot each, in queue order. */
  lemma LobbyButtonsFlush(w1: World)
    requires Valid(w1) && w1.next == 7 && w1.pending == [5, 6]
    requires |w1.slots| == 2 && w1.slots[0] == Slot(1, 0, PanelTitle, true) && w1.slots[1] == Slot(2, 0, PanelInner, true)
    requires Shows(w1, 4, Column(Button(QuitGame), Button(ReadyPlayer)))
    ensures var f1 := Flush(w1);
      && Valid(f1) && f1.next == 9 && f1.nodes == w1.nodes && f1.children == w1.children && f1.pending == []
      && |f1.slots| == 4 && f1.slots[0] == w1.slots[0] && f1.slots[1] == w1.slots[1]
      && f1.slots[2] == Slot(7, 5, ButtonInner, false) && f1.slots[3] == Slot(8, 6, ButtonInner, false)
  {
    FlushFacts(w1, 2);
    FlushLayout(w1, 2);
    assert DeclaredZones(w1, 5) == [ButtonInner] && DeclaredZones(w1, 6) == [ButtonInner];
    assert QueuedSlots(w1, 1) == [] + ZoneSlots(7, 5, [ButtonInner]);
    assert QueuedSlots(w1, 2) == QueuedSlots(w1, 1) + ZoneSlots(8, 6, [ButtonInner]);
  }

  /** The lobby's content, attached at the first tick, is untouched by the second. */
  lemma LobbyContentKept(w1: World, w2: World)
    requires Valid(w1) && w1.next == 7
    requires Kids(w1, 1) == [3] && Shows(w1, 3, Text("Game Lobby"))
    requires Kids(w1, 2) == [4] && Shows(w1, 4, Column(Button(QuitGame), Button(ReadyPlayer)))
    requires forall x | x in w1.nodes :: x in w2.nodes && w2.nodes[x] == w1.nodes[x]
    requires forall x: Entity | x < w1.next :: Kids(w2, x) == Kids(w1, x)
    ensures Kids(w2, 1) == [3] && Shows(w2, 3, Text("Game Lobby"))
    ensures Kids(w2, 2) == [4] && Shows(w2, 4, Column(Button(QuitGame), Button(ReadyPlayer)))
  {
    assert Kids(w2, 4) == Kids(w1, 4) && Kids(w2, 3) == Kids(w1, 3);
    ShowsKept(w1, w2, 3, Text("Game Lobby"));
    ShowsKept(w1, w2, 4, Column(Button(QuitGame), Button(ReadyPlayer)));
  }

  /**
   * The first tick over a scene holding only a freshly spawned panel: its
   * title slot and its inner slot appear, in that order, and each gets the
   * catalog content for the panel and that zone as its one child.
   */
  lemma FirstPassOfPanel(w: World, p: Entity, panel: PanelId)
    requires Wired(w) && w.slots == [] && w.pending == [p]
    requires p in w.nodes && w.nodes[p] == WidgetNode(WidgetFor(Panel(panel)))
    ensures Pass(w).Done?
    ensures var w1 := Pass(w).world;
      && |w1.slots| == 2
      && w1.slots[0] == Slot(w.next, p, PanelTitle, true)
      && w1.slots[1] == Slot(w.next + 1, p, PanelInner, true)
      && |Kids(w1, w.next)| == 1 && Shows(w1, Kids(w1, w.next)[0], Content(Some(Panel(panel)), PanelTitle).value)
      && |Kids(w1, w.next + 1)| == 1 && Shows(w1, Kids(w1, w.next + 1)[0], Content(Some(Panel(panel)), PanelInner).value)
      && forall k | 0 <= k < |w1.pending| :: IsButtonWidget(w1, w1.pending[k])
  {
    assert Pass(w).Done? && forall k | 0 <= k < |Pass(w).world.pending| ::
      IsButtonWidget(Pass(w).world, Pass(w).world.pending[k]) by {
      PassOnWired(w);
    }
    var f := Flush(w);
    assert |f.slots| == 2 && f.slots[0] == Slot(w.next, p, PanelTitle, false)
      && f.slots[1] == Slot(w.next + 1, p, PanelInner, false) by {
      PanelFlush(w, p, panel);
    }
    var w1 := Pass(w).world;
    assert |w1.slots| == 2 && w1.slots[0] == Slot(w.next, p, PanelTitle, true)
      && w1.slots[1] == Slot(w.next + 1, p, PanelInner, true) by {
      PassParts(w);
    }
    assert GainedContent(w, w1, 0) && GainedContent(w, w1, 1) by {
      PassLoadsEachOnce(w);
    }
    assert ParentId(w, p) == Some(Panel(panel));
    assert Kids(w, w.next) == [] && Kids(w, w.next + 1) == [];
    PanelContentShown(w, w1, p, panel);
  }

  /** The two panel slots of a first tick each show their catalog content. */
  lemma PanelContentShown(w: World, w1: World, p: Entity, panel: PanelId)
    requires |w1.slots| == 2
    requires w1.slots[0] == Slot(w.next, p, PanelTitle, true) && w1.slots[1] == Slot(w.next + 1, p, PanelInner, true)
    requires GainedContent(w, w1, 0) && GainedContent(w, w1, 1) && ParentId(w, p) == Some(Panel(panel))
    requires Kids(w, w.next) == [] && Kids(w, w.next + 1) == []
    ensures |Kids(w1, w.next)| == 1 && Shows(w1, Kids(w1, w.next)[0], Content(Some(Panel(panel)), PanelTitle).value)
    ensures |Kids(w1, w.next + 1)| == 1 && Shows(w1, Kids(w1, w.next + 1)[0], Content(Some(Panel(panel)), PanelInner).value)
  {
    FirstChild(w, w1, 0, w.next, Content(Some(Panel(panel)), PanelTitle).value);
    FirstChild(w, w1, 1, w.next + 1, Content(Some(Panel(panel)), PanelInner).value);
  }

  /** Slot building for a lone queued panel: its title slot, then its inner slot. */
  lemma PanelFlush(w: World, p: Entity, panel: PanelId)
    requires w.slots == [] && w.pending == [p]
    requires p in w.nodes && w.nodes[p] == WidgetNode(WidgetFor(Panel(panel)))
    ensures var f := Flush(w);
      |f.slots| == 2 && f.slots[0] == Slot(w.next, p, PanelTitle, false) && f.slots[1] == Slot(w.next + 1, p, PanelInner, false)
  {
    assert DeclaredZones(w, p) == [PanelTitle, PanelInner];
    FlushLayout(w, 1);
    assert QueuedSlots(w, 1) == [] + ZoneSlots(w.next, p, [PanelTitle, PanelInner]);
  }

  /** A slot that had no child before a tick has exactly the child the tick gave it. */
  lemma FirstChild(w: World, w1: World, j: nat, e: Entity, spec: ContentSpec)
    requires j < |w1.slots| && GainedContent(w, w1, j) && w1.slots[j].entity == e && Kids(w, e) == []
    requires Content(ParentId(w, w1.slots[j].parent), w1.slots[j].zone) == Some(spec)
    ensures |Kids(w1, e)| == 1 && Shows(w1, Kids(w1, e)[0], spec)
  {
  }
}
