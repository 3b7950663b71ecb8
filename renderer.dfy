/**
 * The text the monitor draws for its table: the 23-column method and path
 * cell, the progress bar, one row per request, and the rows of a window of
 * a given height. Console width and height are parameters.
 */
module Renderer {
  import opened Wrappers
  import opened Numbers
  import opened Strings
  import opened UpdateProcessor

  const METHOD_PATH_WIDTH: nat := 23

  // ---- the method and path cell ---------------------------------------

  /**
   * First pass over `Method + " " + Path`, exactly as the code computes it:
   * the query-string length counts the `?` itself, so the kept text is one
   * character wider than the cell.
   */
  function QueryCutAsWritten(s: string, q: int): (t: string)
    requires |s| > METHOD_PATH_WIDTH && -1 <= q < |s|
    ensures q <= 16 ==> |t| == 24
    ensures q > 16 ==> t == s[..q + 1] + "..."
  {
    var total := |s| - q;
    var remove := |s| - METHOD_PATH_WIDTH;
    var visible := total - remove - 3;
    var before := TruncDiv(visible, 2);
    var after := visible - before;
    if before > 1 && after > 1 then
      s[..q + before + 1] + "..." + s[|s| - after..]
    else
      s[..q + 1] + "..."
  }

  /**
   * Middle cut of the second pass, exactly as the code computes it: the
   * second piece starts `remove` characters after the first, so the `...`
   * it inserts is not paid for and the spliced text is 26 characters wide.
   */
  function MiddleSpliceAsWritten(t: string, q: int): (u: string)
    requires |t| > METHOD_PATH_WIDTH && -1 <= q < |t|
    ensures u == t || |u| == METHOD_PATH_WIDTH + 3
  {
    var remove := |t| - METHOD_PATH_WIDTH;
    var visible := q - remove - 3;
    var before := TruncDiv(visible, 2);
    var after := visible - before;
    if before > 1 && after > 1 then t[..before] + "..." + t[before + remove..] else t
  }

  /** The last resort of the second pass: 20 characters and `...`. */
  function BluntCut(t: string): (u: string)
    ensures |u| <= METHOD_PATH_WIDTH
    ensures |t| <= METHOD_PATH_WIDTH ==> u == t
    ensures |t| > METHOD_PATH_WIDTH ==> u == t[..METHOD_PATH_WIDTH - 3] + "..."
  {
    if |t| > METHOD_PATH_WIDTH then t[..METHOD_PATH_WIDTH - 3] + "..." else t
  }

  /** The truncation of lines 265-308 as written; the cell the monitor draws uses it. */
  function TruncateAsWritten(s: string): string
  {
    if |s| <= METHOD_PATH_WIDTH then s
    else
      var q := IndexOf(s, '?');
      var t := QueryCutAsWritten(s, q);
      if |t| > METHOD_PATH_WIDTH then BluntCut(MiddleSpliceAsWritten(t, q)) else t
  }

  /**
   * First pass as evidently intended (the comment's `abcde?12...89`): the
   * query string is the text after the `?`, so a middle cut is exactly 23
   * characters wide.
   */
  function QueryCut(s: string, q: int): (t: string)
    requires |s| > METHOD_PATH_WIDTH && -1 <= q < |s|
    ensures q <= 15 ==> |t| == METHOD_PATH_WIDTH
    ensures q > 15 ==> t == s[..q + 1] + "..."
  {
    var total := |s| - q - 1;
    var remove := |s| - METHOD_PATH_WIDTH;
    var visible := total - remove - 3;
    var before := TruncDiv(visible, 2);
    var after := visible - before;
    if before > 1 && after > 1 then
      s[..q + before + 1] + "..." + s[|s| - after..]
    else
      s[..q + 1] + "..."
  }

  /** Middle cut of the second pass as evidently intended: the `...` replaces three more characters. */
  function MiddleSplice(t: string, q: int): (u: string)
    requires |t| > METHOD_PATH_WIDTH && -1 <= q < |t|
    ensures u == t || |u| == METHOD_PATH_WIDTH
  {
    var remove := |t| - METHOD_PATH_WIDTH;
    var visible := q - remove - 3;
    var before := TruncDiv(visible, 2);
    var after := visible - before;
    if before > 1 && after > 1 then t[..before] + "..." + t[before + remove + 3..] else t
  }

  /** The truncation with both passes corrected, as the comment at lines 275-278 intends. */
  function Truncate(s: string): string
  {
    if |s| <= METHOD_PATH_WIDTH then s
    else
      var q := IndexOf(s, '?');
      var t := QueryCut(s, q);
      if |t| > METHOD_PATH_WIDTH then BluntCut(MiddleSplice(t, q)) else t
  }

  /** The cached cell: the cut text, right-padded to 23 columns, then the separator. */
  function MethodPathCell(httpMethod: string, path: string): string
  {
    PadRight(TruncateAsWritten(httpMethod + " " + path), METHOD_PATH_WIDTH) + " | "
  }

  // ---- the progress bar ------------------------------------------------

  /**
   * `(int)((soFar * barWidth + expected / 2) / expected)` in unchecked
   * `long` arithmetic, then cast to `int`.
   */
  function Fill(soFar: int, expected: int, barWidth: int): int
    requires expected > 0
  {
    RoundedShare(soFar * barWidth, expected)
  }

  /** `(int)((product + expected / 2) / expected)` with the `long` wrap-around. */
  function RoundedShare(product: int, expected: int): int
    requires expected > 0
  {
    Wrap32(TruncDiv(Wrap64(Wrap64(product) + expected / 2), expected))
  }

  /** `GetProgressFilledString(n)`; None where `new string('#', n)` throws. */
  function FilledBar(n: int): (r: Option<string>)
    ensures r.Some? <==> n >= 0
    ensures r.Some? ==> |r.value| == n + 1 && r.value[0] == '['
                        && forall i :: 1 <= i <= n ==> r.value[i] == '#'
  {
    if n < 0 then None else Some("[" + Repeat('#', n))
  }

  /** `GetProgressUnfilledString(n)`; None where `new string('.', n)` throws. */
  function UnfilledBar(n: int): (r: Option<string>)
    ensures r.Some? <==> n >= 0
    ensures r.Some? ==> |r.value| == n + 1 && r.value[n] == ']'
                        && forall i :: 0 <= i < n ==> r.value[i] == '.'
  {
    if n < 0 then None else Some(Repeat('.', n) + "]")
  }

  /** `GetSpaceString(n)`; None where `new string(' ', n)` throws. */
  function SpaceRun(n: int): (r: Option<string>)
    ensures r.Some? <==> n >= 0
    ensures r.Some? ==> |r.value| == n && forall i :: 0 <= i < n ==> r.value[i] == ' '
  {
    if n < 0 then None else Some(Spaces(n))
  }

  // ---- one row ---------------------------------------------------------

  /** Columns used before the byte counts: `{0,9} | `, `{0,-15} | `, the cell, `{0,7} | `. */
  function RowHead(r: Row): string
  {
    PadLeft(FormatInt(r.id), 9) + " | " + PadRight(r.clientIP, 15) + " | "
      + MethodPathCell(r.httpMethod, r.path) + PadLeft(r.state, 7) + " | "
  }

  /** `{0:#,###,###,##0} / {1:#,###,###,##0} ` */
  function Fraction(soFar: int, expected: int): string
  {
    Grouped(soFar) + " / " + Grouped(expected) + " "
  }

  /** Columns left after the head: `WindowWidth - 1` less 12, 18, the cell and 10. */
  function RoomAfterHead(r: Row, windowWidth: int): int
  {
    windowWidth - 1 - 12 - 18 - |MethodPathCell(r.httpMethod, r.path)| - 10
  }

  /** Width of the bar: the room after the head, less the fraction and 2. */
  function BarWidth(soFar: int, expected: int, room: int): int
  {
    room - |Fraction(soFar, expected)| - 2
  }

  /**
   * What follows the head in a room of the given width: the fraction and
   * the bar when the length is known, else the count and blank padding;
   * None where one of the string constructors throws.
   */
  function Counts(soFar: int, expected: int, room: int): Option<string>
  {
    if expected > 0 then
      var barWidth := BarWidth(soFar, expected, room);
      var filled := Fill(soFar, expected, barWidth);
      match FilledBar(filled)
      case None => None
      case Some(f) =>
        match UnfilledBar(Wrap32(barWidth - filled))
        case None => None
        case Some(u) => Some(Fraction(soFar, expected) + f + u)
    else
      var progress := Grouped(soFar);
      match SpaceRun(room - |progress|)
      case None => None
      case Some(sp) => Some(progress + sp)
  }

  /** Everything `RenderRequest` writes for one entry, or None where it throws. */
  function RowText(r: Row, windowWidth: int): Option<string>
  {
    match Counts(r.bytesSoFar, r.bytesExpected, RoomAfterHead(r, windowWidth))
    case None => None
    case Some(c) => Some(RowHead(r) + c)
  }

  // ---- the window ------------------------------------------------------

  /** What `RenderRequests` writes: H - 1 full lines, then the text of the last line. */
  datatype Screen = Screen(lines: seq<string>, last: string)

  /** The first n lines: entry texts while they last, then blank lines; None when one throws. */
  function Lines(texts: seq<Option<string>>, blank: Option<string>, n: nat): Option<seq<string>>
  {
    if n == 0 then Some([])
    else
      match Lines(texts, blank, n - 1)
      case None => None
      case Some(ls) =>
        match (if n - 1 < |texts| then texts[n - 1] else blank)
        case None => None
        case Some(l) => Some(ls + [l])
  }

  /** After the loop: `...` when entries are hidden, the last entry when exactly H fit. */
  function LastLine(texts: seq<Option<string>>, windowHeight: int): Option<string>
  {
    if |texts| > windowHeight then Some("...")
    else if |texts| == windowHeight then
      (if |texts| == 0 then None else texts[|texts| - 1])
    else Some("")
  }

  /** The text of each entry, in list order. */
  function Texts(rows: seq<Row>, windowWidth: int): (texts: seq<Option<string>>)
    ensures |texts| == |rows|
  {
    if rows == [] then [] else [RowText(rows[0], windowWidth)] + Texts(rows[1..], windowWidth)
  }

  /** Entry i's text is `RowText` of entry i. */
  lemma {:induction false} TextsIndex(rows: seq<Row>, windowWidth: int)
    ensures forall i :: 0 <= i < |rows| ==> Texts(rows, windowWidth)[i] == RowText(rows[i], windowWidth)
  {
    if rows != [] {
      TextsIndex(rows[1..], windowWidth);
    }
  }

  /** What `RenderRequests` draws for the entries in list order. */
  function Render(rows: seq<Row>, windowWidth: int, windowHeight: int): Option<Screen>
  {
    Assemble(Texts(rows, windowWidth), SpaceRun(windowWidth - 1), windowHeight)
  }

  /** The entry's cached cell, if any, is the one `RenderRequest` computes for it. */
  predicate CellOk(r: Row)
  {
    r.methodPathString.None? || r.methodPathString == Some(MethodPathCell(r.httpMethod, r.path))
  }

  predicate CellsOk(rows: seq<Row>)
  {
    forall i :: 0 <= i < |rows| ==> CellOk(rows[i])
  }

  /** Every entry of the list and of the dictionary caches only its own cell. */
  predicate CellsCanonical(m: Monitor)
  {
    CellsOk(m.requests) && forall k :: k in m.requestByID ==> CellOk(m.requestByID[k])
  }

  /** The entry once `RenderRequest` has cached its method and path cell. */
  function CacheCell(r: Row): Row
  {
    r.(methodPathString := Some(MethodPathCell(r.httpMethod, r.path)))
  }

  /** The entries after the first k have been drawn. */
  function CachedPrefix(rows: seq<Row>, k: int): (out: seq<Row>)
    ensures |out| == |rows|
    ensures forall i :: 0 <= i < |rows| ==> out[i] == if i < k then CacheCell(rows[i]) else rows[i]
  {
    seq(|rows|, i requires 0 <= i < |rows| => if i < k then CacheCell(rows[i]) else rows[i])
  }

  /** No entry of the list has the id. */
  predicate Unlisted(rows: seq<Row>, id: int)
  {
    forall j :: 0 <= j < |rows| ==> rows[j].id != id
  }

  /** How many entries a successful `RenderRequests` draws: H - 1 of them, or all H when exactly H fit. */
  function Shown(count: nat, windowHeight: int): nat
  {
    var n := if windowHeight - 1 > 0 then windowHeight - 1 else 0;
    if count == windowHeight then count else if count < n then count else n
  }

  function Assemble(texts: seq<Option<string>>, blank: Option<string>, windowHeight: int): Option<Screen>
  {
    var n := if windowHeight - 1 > 0 then windowHeight - 1 else 0;
    match Lines(texts, blank, n)
    case None => None
    case Some(ls) =>
      match LastLine(texts, windowHeight)
      case None => None
      case Some(l) => Some(Screen(ls, l))
  }
}
