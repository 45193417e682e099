/** The widgets whose contents the menus change (pkg/menu/menu.go). */
module Widgets {

  function Min(a: int, b: int): int { if a < b then a else b }

  function Max(a: int, b: int): int { if a > b then a else b }

  class ListWidget {
    var Rows: seq<string>
    constructor () ensures Rows == [] { Rows := []; }
  }

  class Paragraph {
    var Text: string
    constructor (text: string) ensures Text == text { Text := text; }
  }

  const HINT := "<Esc> to go back, <Ctrl+d> to exit"
}
