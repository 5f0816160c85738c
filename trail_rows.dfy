/**
 * A row of the conditions page's run-status table as the cheerio-based
 * scrapers see it, and the character rewrites they share.
 */
module TrailTable {
  import opened Wrappers
  import opened Strings

  /**
   * One `<tr>`: whether it holds a `td.trail_name` cell, the `class`
   * attribute of the `div.trail_open_status_icon i` inside that cell (when
   * there is one), and the text of the cell's first child `div` without an
   * `<i>` in it (`""` when there is none).
   */
  datatype TrailRow = TrailRow(hasTrailNameCell: bool, iconClass: Option<string>, nameText: string)

  /** `(… .attr("class") || "").toLowerCase()` */
  function IconClass(row: TrailRow): (c: string)
    ensures NoUpper(c)
    ensures row.iconClass.None? ==> c == ""
  {
    Lower(row.iconClass.GetOr(""))
  }

  /**
   * The character class `[â€™]`: the three characters that the UTF-8 bytes of
   * a right single quote spell when read as Windows-1252.  The class matches
   * each of them on its own, not the three-character sequence, and not `’`.
   */
  const Mojibake: set<char> := {'\U{00E2}', '\U{20AC}', '\U{2122}'}
}
