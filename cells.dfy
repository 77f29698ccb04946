/**
 * The raw worksheet as the spreadsheet reader returns it: a header-less grid
 * of untyped cells addressed by 0-based row and column.
 */
module Cells {

  /** One cell value of the grid. */
  datatype Cell =
    | Missing                            // an empty cell (NaN)
    | Text(s: string)                    // text, or a number already rendered as text
    | DateLike(year: int, text: string)  // a date or timestamp: its year and its str() rendering

  /** `str(v)` of a cell value; an empty cell is the float NaN, whose text is "nan". */
  function Render(c: Cell): string {
    match c
    case Missing => "nan"
    case Text(s) => s
    case DateLike(_, t) => t
  }

  /**
   * The raw grid: `width` columns (`raw.shape[1]`); a row shorter than
   * `width` is padded with empty cells, as the reader pads ragged rows, and
   * the cells of a row past `width` are not part of the grid. Every access
   * goes through `At`, so the grid the model sees is always rectangular.
   */
  datatype Sheet = Sheet(rows: seq<seq<Cell>>, width: nat)

  /** Cell `c` of one row, an empty cell past the row's end. */
  function RowCell(row: seq<Cell>, c: nat): Cell {
    if c < |row| then row[c] else Missing
  }

  /** `raw.iloc[r, c]` for a position inside the grid. */
  function At(sh: Sheet, r: nat, c: nat): Cell
    requires r < |sh.rows| && c < sh.width
  {
    RowCell(sh.rows[r], c)
  }
}
