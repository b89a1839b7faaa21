/**
 * The rendition a cell is drawn with: a set of flags and a foreground and
 * background colour. The type is defined in src/ansi/attributes.rs, which is
 * not part of this model; its shape is the one its users rely on (a bit set
 * of the nine flags below, `fg` and `bg`, and a `Default`).
 */
module TextAttributes {
  import Colors

  datatype Flag = Bold | Dim | Italic | Underline | BlinkSlow | BlinkFast | Inverse | Hidden | Strikeout

  datatype Attributes = Attributes(flags: set<Flag>, fg: Colors.Color, bg: Colors.Color)

  /** `Attributes::default()`, taken to be no flags on the default foreground and background. */
  const DefaultAttributes: Attributes := Attributes({}, Colors.ForegroundColor, Colors.BackgroundColor)
}
