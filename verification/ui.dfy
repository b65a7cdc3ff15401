/**
 * The identities of the user interface: which content zone a nine-patch
 * cell carries, and which panel or button a widget is.
 */
module Ui {
  /** The zones of a nine-patch that hold application content. */
  datatype Zone = PanelTitle | PanelInner | ButtonInner

  datatype PanelId = SrvConnError | LobbyMenu

  datatype ButtonId = ReadyPlayer | QuitGame

  /** The identity a spawned widget is tagged with; the key of content lookup. */
  datatype UiId = Panel(panel: PanelId) | Button(button: ButtonId)
}
