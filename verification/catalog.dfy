/**
 * The content catalog: the closed table from a widget's identity and one of
 * its zones to the content that zone shows. A pair outside the table, or a
 * parent without an identity, is a fatal configuration error (`None`).
 */
module Catalog {
  import opened Wrappers
  import opened Ui
  import opened Patches
  import opened Widgets

  /**
   * Content to attach to a zone: a text, or a column container whose two
   * children, `first` then `second`, are newly spawned widgets.
   */
  datatype ContentSpec = Text(value: string) | Column(first: UiId, second: UiId)

  /** The match table of the content provider; `parent` is the identity of the zone's widget, if any. */
  function Content(parent: Option<UiId>, zone: Zone): (r: Option<ContentSpec>)
    // no identity, no content
    ensures parent.None? ==> r.None?
    // buttons only ever show text
    ensures r.Some? && parent.value.Button? ==> r.value.Text?
    // the one composite content: the lobby's inner zone, children Quit Game then Ready to play
    ensures r.Some? && r.value.Column? <==> parent == Some(Panel(LobbyMenu)) && zone == PanelInner
    ensures r.Some? && r.value.Column? ==> r.value == Column(Button(QuitGame), Button(ReadyPlayer))
  {
    match parent
    case None => None
    case Some(id) =>
      match (id, zone)
      case (Panel(SrvConnError), PanelTitle) => Some(Text("Connection Error"))
      case (Panel(SrvConnError), PanelInner) => Some(Text("Failed to connect to server."))
      case (Panel(LobbyMenu), PanelTitle) => Some(Text("Game Lobby"))
      case (Panel(LobbyMenu), PanelInner) => Some(Column(Button(QuitGame), Button(ReadyPlayer)))
      case (Button(ReadyPlayer), ButtonInner) => Some(Text("Ready to play!"))
      case (Button(QuitGame), ButtonInner) => Some(Text("Quit Game"))
      case _ => None
  }

  /**
   * The catalog is exhaustive over exactly the zones each spawned widget
   * declares: a pair has content if and only if the widget of that identity
   * exposes that zone. So a button asked for a panel zone, or a panel asked
   * for the button zone, is fatal.
   */
  lemma CatalogMatchesDeclaredZones(id: UiId, zone: Zone)
    ensures Content(Some(id), zone).Some? <==> zone in WidgetZones(WidgetFor(id))
  {
  }

  /** The captions of the table, entry by entry. */
  lemma CatalogTexts()
    ensures Content(Some(Panel(SrvConnError)), PanelTitle) == Some(Text("Connection Error"))
    ensures Content(Some(Panel(SrvConnError)), PanelInner) == Some(Text("Failed to connect to server."))
    ensures Content(Some(Panel(LobbyMenu)), PanelTitle) == Some(Text("Game Lobby"))
    ensures Content(Some(Button(ReadyPlayer)), ButtonInner) == Some(Text("Ready to play!"))
    ensures Content(Some(Button(QuitGame)), ButtonInner) == Some(Text("Quit Game"))
  {
  }
}
