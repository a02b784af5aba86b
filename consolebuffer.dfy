/** The values the screen receives from the terminal engine. The engine itself (parser,
    cell grid, scrollback) is not part of this model: the screen sees a buffer only
    through the sizes it reports and the cells it pushes through `RenderCharacter`. */
module ConsoleBuffer {

  /** C#'s `int`. */
  type Int32 = x: int | -0x8000_0000 <= x < 0x8000_0000

  newtype Byte = x: int | 0 <= x < 256

  /** A resolved colour: three channel bytes. */
  datatype ColorInfo = ColorInfo(r: Byte, g: Byte, b: Byte)

  /** One styled cell of the grid: a code point with its resolved colours. */
  datatype Character = Character(glyph: int, foreground: ColorInfo, background: ColorInfo)

  /** The all-zero cell that a freshly allocated C# `Character[,]` holds. */
  const DefaultCharacter := Character(0, ColorInfo(0, 0, 0), ColorInfo(0, 0, 0))

  /** The sizes a `Buffer` reports: `Width` and `Height` of its viewport and
      `BufferSize`, the number of addressable rows (scrollback plus viewport). */
  datatype BufferInfo = BufferInfo(width: Int32, height: Int32, bufferSize: Int32) {
    /** A terminal grid always has at least one row and one column. */
    predicate Valid() {
      1 <= width && 1 <= height
    }
  }

  /** One `IRenderTarget.RenderCharacter(c, x, y)` call. */
  datatype RenderCall = RenderCall(c: Character, x: int, y: int)

  /** Two cells share their colours: the test that ends a run in `Redraw`. */
  predicate SameColours(a: Character, b: Character) {
    a.foreground == b.foreground && a.background == b.background
  }
}
