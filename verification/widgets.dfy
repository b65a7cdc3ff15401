/**
 * The widget catalog: what a widget of each identity is spawned with (a
 * handle to its nine-patch model, a handle to its texture, and its size in
 * pixels). The handles stand for the entries of the start-up configuration.
 */
module Widgets {
  import opened Ui
  import opened Patches

  /** The two source images, `assets/ui.png` and `assets/btn.png`. */
  datatype Texture = PanelTexture | ButtonTexture

  /** The two nine-patch models registered at start-up. */
  datatype NinePatchHandle = PanelNinePatch | ButtonNinePatch

  /** The model a handle stands for. */
  function NinePatchOf(h: NinePatchHandle): NinePatch
  {
    match h
    case PanelNinePatch => PanelModel()
    case ButtonNinePatch => ButtonModel()
  }

  /** A spawned nine-patch widget, tagged with its identity. */
  datatype Widget = Widget(id: UiId, ninePatch: NinePatchHandle, texture: Texture, width: nat, height: nat)

  /**
   * The content zones the nine-patch plugin builds a slot for, in order, for
   * a widget drawn with the model behind `h`; SlotZonesFollowModel shows they
   * are the content cells of that model.
   */
  function SlotZones(h: NinePatchHandle): seq<Zone>
  {
    match h
    case PanelNinePatch => [PanelTitle, PanelInner]
    case ButtonNinePatch => [ButtonInner]
  }

  /** The slots built for a model are exactly its content cells, in row-major order. */
  lemma SlotZonesFollowModel(h: NinePatchHandle)
    ensures SlotZones(h) == Zones(NinePatchOf(h))
  {
  }

  /** The zones of the slots the plugin builds under a spawned widget. */
  function WidgetZones(w: Widget): seq<Zone>
  {
    SlotZones(w.ninePatch)
  }

  /** The dispatch of `spawn_ui`: panels and buttons differ only by kind, never by variant. */
  function WidgetFor(id: UiId): (w: Widget)
    ensures w.id == id
    ensures id.Panel? ==> w.ninePatch == PanelNinePatch && w.texture == PanelTexture && w.width == 420 && w.height == 240
    ensures id.Button? ==> w.ninePatch == ButtonNinePatch && w.texture == ButtonTexture && w.width == 128 && w.height == 48
    // the slots a spawned widget exposes: title and inner zone for a panel, the inner zone for a button
    ensures WidgetZones(w) == if id.Panel? then [PanelTitle, PanelInner] else [ButtonInner]
  {
    match id
    case Panel(_) => Widget(id, PanelNinePatch, PanelTexture, 420, 240)
    case Button(_) => Widget(id, ButtonNinePatch, ButtonTexture, 128, 48)
  }
}
