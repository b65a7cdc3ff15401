# Nine-patch lobby UI: widget catalog and content provider

This project models the application side of a small Bevy playground that
draws its UI with nine-patch images: the content zones (`PanelTitle`,
`PanelInner`, `ButtonInner`), the panel and button identities, the patch
table of the panel and the margin-derived button, the `spawn_ui` dispatch
that spawns a panel or a button tagged with its identity, and the
`ui_content_provider` system that, on every frame, visits the content slots
the nine-patch plugin built under each widget and attaches the catalog's
content to each slot that is not loaded yet: a caption, or for the lobby's
inner zone a column whose children are a Quit Game button then a Ready to
play button, whose own slots are filled one frame later.

Modules:

- `Wrappers`: `Option`.
- `Ui`: the three enums and `UiId`.
- `Patches`: the panel's patch table (growth modes, sizes, content cells), the
  button's `by_margins(10, 10, 10, 10, ButtonInner)` model, and the content
  zones of a model in row-major order.
- `Widgets`: the two textures and nine-patch handles of the start-up
  configuration, the zones of the slots a widget gets, and `WidgetFor`,
  the `spawn_ui` dispatch.
- `Catalog`: the content match table of `ui_content_provider`.
- `Resolver`: the scene as a value (`World`: slots, nodes, child lists,
  queued widgets, the next free entity handle) and one frame as a
  function, `Pass` = `Flush` (the plugin builds the queued widgets' slots)
  then `Scan` (the content provider visits every slot in order). A panic is
  the result `Fatal(slot)`.
- `ResolverFacts`: what spawning, one slot, and a scan do to the scene.
- `Scene`: the class `Scene` whose fields are updated in place by
  `SpawnUi`, `BuildPendingSlots`, `FillSlot`, `ProvideContent` and `Tick`,
  each proved equal to the `Resolver` function of the old state.
- `PassFacts`: properties of whole frames: loaded slots are skipped, every
  slot is loaded exactly once, panics exactly at the first catalog gap,
  idempotence, and the lobby settling within two frames.

Entities are natural-number handles taken from a counter. Deferred commands
are modelled only where they change what a later system sees: a widget
spawned during a frame is queued, and its slots appear at the next flush.
Within one frame the model runs the plugin's slot building before the
content provider, so a nested catalog settles in one frame fewer than its
number of levels (two for panel, button, caption); the opposite system order
would need one frame per level, which is not modelled.

## Model

| member | source | states |
|---|---|---|
| Patches.PanelPatches | src/main.rs:51-149 | the panel table has three rows of 7, 3 and 3 patches; every row is 68 px wide; row heights are 16, 1 and 16; the middle and bottom rows have equal column widths |
| Patches.PanelZones | src/main.rs:51-149 | the content cells of `Patches.PanelModel`, the panel table, in row-major order, are the title zone then the inner zone |
| Widgets.SlotZonesFollowModel | src/main.rs:151-155 | the slots built under a widget are exactly the content cells of its registered model: title and inner for `Patches.PanelModel`, the single `ButtonInner` zone for `Patches.ButtonModel`, the margin model |
| Widgets.WidgetFor | src/main.rs:175-216 | any panel gets the panel nine-patch, `ui.png` and 420×240; any button gets the button nine-patch, `btn.png` and 128×48; the widget carries the identity it was spawned for; its slots are title and inner for a panel and the inner zone for a button |
| Catalog.Content | src/main.rs:251-290 | no identity means no content; a button's content is always text; the content is a column exactly for the lobby's inner zone, and that column's children are Quit Game then Ready to play |
| Catalog.CatalogMatchesDeclaredZones | src/main.rs:251-289 | for every identity and zone, the table has an entry exactly when the zone is one of the slots that widget gets, so every other pair outside the table has no entry and the panic arm is unreachable for slots of catalog widgets |
| Catalog.CatalogTexts | src/main.rs:252-285 | the five captions of the table: "Connection Error", "Failed to connect to server.", "Game Lobby", "Ready to play!", "Quit Game" |
| Resolver.StepSlot | src/main.rs:243-293 | visiting one slot either panics at that slot or keeps the number of slots |
| Resolver.ScanUpTo | src/main.rs:243-294 | a scan that panics does so at a slot it visited; a scan that completes keeps the number of slots |
| ResolverFacts.MaterializeFacts | src/main.rs:253-285 | `Resolver.Materialize`, the content of one match arm: spawning content only adds fresh nodes and leaves every existing child list alone; its root shows the spec: a text node with no children, or a column whose two children are the catalog buttons for its first then its second identity, spawned and queued in the opposite order (Ready to play, then Quit Game); every new widget is queued; the scene stays well formed |
| ResolverFacts.StepFacts | src/main.rs:251-293 | an unloaded slot with a catalog entry gets exactly one new child, the fresh content root showing that entry, is marked loaded, and no other existing entity changes children; the counter grows by the number of spawned entities and only a column queues anything |
| ResolverFacts.FlushLayout | src/main.rs:151-155 | `Resolver.Flush`, slot building, appends, after the existing slots, exactly the queued slots: for each queued widget in queue order, one unloaded slot per declared zone under consecutive fresh handles |
| ResolverFacts.ZonesOfQueued | src/main.rs:151-155 | with a queue in spawn order, the queued slots owned by an entity are exactly its declared zones when it is queued, and none otherwise |
| ResolverFacts.ScanFacts | src/main.rs:243-294 | `Resolver.Scan`, the content provider's loop: a scan completes exactly when none of its slots is a gap, and otherwise panics at the first gap; when it completes, every visited unloaded slot is attached to its catalog content and every visited loaded slot keeps its children |
| ResolverFacts.ScanKeepsFacts | src/main.rs:243-294 | a completed scan leaves the children of every existing non-slot entity unchanged, only appends to the queue, queues only fresh handles in increasing order, and queues every widget it spawns |
| ResolverFacts.FatalSticks | src/main.rs:287-289 | once the scan has panicked, visiting more slots does not change the verdict |
| ResolverFacts.PassKeepsValid | src/main.rs:237-295 | a frame that completes keeps the scene well formed: distinct slot handles, and every slot, node, child-list owner and entry, and queued handle below the counter |
| Scene.Scene.Setup | src/main.rs:168 | the start-up scene is the lobby panel spawned and queued, with no slots, and is well formed |
| ResolverFacts.SpawnUiFacts | src/main.rs:175-216 | `Resolver.SpawnUi` adds the catalog widget for the identity under the next handle, appends it to the queue, changes no slot or child list, and keeps the scene well formed |
| Scene.Scene.SpawnUi | src/main.rs:175-216 | returns the fresh handle and adds the catalog widget for the identity, queued for slot building; keeps the scene well formed |
| Scene.Scene.AddWidgetSlots | src/main.rs:151-155 | appends one unloaded slot under fresh handles for each given zone of a widget |
| Scene.Scene.BuildPendingSlots | src/main.rs:151-155 | builds the slots of every queued widget in queue order and empties the queue; keeps the scene well formed |
| Scene.Scene.FillSlot | src/main.rs:251-293 | fills one unloaded slot with its catalog content, as one step of the content provider |
| Scene.Scene.ProvideContent | src/main.rs:237-295 | returns the first gap slot exactly when the scan panics; otherwise the new scene is the scan of the old one |
| Scene.Scene.Tick | src/main.rs:300-302 | one frame is slot building then the content provider; it reports a panic exactly when the frame panics, and a completed frame keeps the scene well formed |
| PassFacts.PassParts | src/main.rs:237-295 | `Resolver.Pass`, one frame: slot building appends exactly the queued slots (new, unloaded, under fresh handles, for queued widgets and their zones); the frame completes exactly when there is no gap and otherwise stops at the first one; a completed frame attaches every unloaded slot's content and leaves the children of every existing non-slot entity unchanged |
| PassFacts.PassSkipsLoaded | src/main.rs:243-246 | a slot already loaded is skipped: the slot and its children are unchanged |
| PassFacts.PassLoadsEachOnce | src/main.rs:292-293 | after a frame every slot is loaded, and each slot that was not gained exactly one child, its catalog content for the widget's identity and its zone, after its old children |
| PassFacts.PassBuildsQueuedSlots | src/main.rs:151-155 | the slots added in a frame belong to queued widgets, for declared zones, under fresh handles, each with one child |
| PassFacts.PassBuildsEveryZone | src/main.rs:151-155 | with a queue in spawn order, a frame gives every queued widget one slot per declared zone, in order, after the slots it had, and gives no slot to any other entity |
| PassFacts.PassKeepsOtherChildren | src/main.rs:292 | a completed frame changes the children of no existing entity other than slots |
| PassFacts.PassFatalIff | src/main.rs:248-289 | a frame panics exactly when some unloaded slot has no catalog entry for its widget's identity and zone, and then at the first such slot |
| PassFacts.ScanLoadedIsIdentity | src/main.rs:243-246 | a scan over loaded slots changes nothing |
| PassFacts.PassIdempotent | src/main.rs:243-293 | once all slots are loaded and nothing is queued, a frame changes nothing |
| PassFacts.PassOnWired | src/main.rs:251-290 | on a scene built from the catalog a frame never panics, loads every slot, keeps the scene catalog-built (widgets from the catalog, queue in spawn order, every widget not queued has one slot per declared zone), and leaves only buttons queued |
| PassFacts.TwoPassesSettle | src/main.rs:262-285 | a catalog-built scene settles within two frames: all slots loaded, every widget has exactly one slot per declared zone, nothing queued, and later frames change nothing |
| PassFacts.SpawnUiKeepsWired | src/main.rs:175-216 | spawning a widget keeps the scene catalog-built |
| PassFacts.InitialWired | src/main.rs:168 | `Resolver.Initial`, the lobby panel spawned into an empty scene, is catalog-built |
| PassFacts.LobbySettlesInTwoPasses | src/main.rs:168 | from start-up, two frames build four slots (title, inner, and one inner zone per button) and load them: "Game Lobby" in the title, the column of Quit Game then Ready to play in the inner zone, "Ready to play!" and "Quit Game" in the buttons; every widget has its zones, nothing is queued, and the scene then stays as it is |
| PassFacts.FirstPassOfPanel | src/main.rs:251-261 | the first frame over a lone spawned panel builds its title then inner slot, loads both and gives each one child showing its catalog content |
| PassFacts.LobbyFirstPass | src/main.rs:258-279 | the first frame from start-up shows "Game Lobby" in the title slot and, in the inner slot, a column whose children are Quit Game then Ready to play, with both buttons queued, Ready to play first |
| PassFacts.LobbySecondPass | src/main.rs:281-286 | the second frame from start-up gives each queued button its inner slot, in queue order, showing "Ready to play!" and "Quit Game", and keeps the lobby's content |

## Left out

- The layout solver of the nine-patch crate (stretch distribution, cell
  rectangles), the geometry of `by_margins`, and the validation done by
  `from_patches`: the crate is not part of this model. `Patches.PanelPatches`
  records the table; its row-width facts are stated, not checked against an
  image size.
- The nine-patch plugin's slot building is modelled as one unloaded slot per
  content cell of the widget's model, in row-major order, each owned by the
  widget, with the queued widgets built in spawn order; that order fixes the
  slot indices, hence which gap is the first and which handles the slots
  get. The plugin's own code and its query order are not part of this
  model.
- Sizes are `PatchSize::Absolute` floats in the source; they are whole
  numbers here, and widget sizes are the pixel values 420×240 and 128×48.
- Asset loading and its `unwrap` calls, the font and text style, the camera,
  the configuration resource and the `App` wiring are left out; textures and
  nine-patch models are handles.
- Style fields of spawned nodes (margins, alignment, flex direction) are not
  modelled; a column is a `ColumnNode`.
- The state after a panic is not modelled: `ProvideContent` returns the
  slot that panicked and makes no promise about the scene.
- `q_parent.get(...).unwrap()` on a parent without an identity panics; the
  model folds that case into the catalog gap (`Content(None, _)` is `None`).
- Bevy's order of systems within a frame and the entity numbering are not
  modelled; handles come from a counter and the plugin runs first.
- The content provider's query visits slots in archetype order; the model
  takes that to be slot-creation order, the order in which the slots were
  built.
- Growth modes carry float weights (`StretchRatio(1.0)`, `StretchRatio(0.0)`);
  the model's weight is a `nat`, since only the table's values are recorded.
- Deferred commands apply at once within a frame except slot building,
  which waits for the next frame; nothing read during a scan depends on
  the difference.
- Removal of widgets and cascading destruction are not part of the source
  and are not modelled.
