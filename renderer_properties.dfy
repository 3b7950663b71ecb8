/** What the table renderer guarantees about the cell, the bar, a row and the window. */
module RendererProperties {
  import opened Wrappers
  import opened Numbers
  import opened Strings
  import opened LineProtocol
  import opened UpdateProcessor
  import opened Renderer

  // ---- the method and path cell ---------------------------------------

  /**
   * Text of at most 23 characters is kept; longer text is cut to between 21
   * and 23 characters, both as written and with the passes corrected.
   */
  lemma TruncateFits(s: string)
    ensures |TruncateAsWritten(s)| <= METHOD_PATH_WIDTH && |Truncate(s)| <= METHOD_PATH_WIDTH
    ensures |s| <= METHOD_PATH_WIDTH ==> TruncateAsWritten(s) == s && Truncate(s) == s
    ensures |s| > METHOD_PATH_WIDTH ==> |TruncateAsWritten(s)| >= METHOD_PATH_WIDTH - 2
  {
    if |s| > METHOD_PATH_WIDTH {
      var q := IndexOf(s, '?');
      var t := QueryCutAsWritten(s, q);
      if q > 16 {
        assert |t| == q + 4;
      }
    }
  }

  /**
   * The cell is always 23 columns and the separator. Short text is kept and
   * right-padded with spaces; longer text ends in `...`, at column 21 or
   * later, and only spaces follow it.
   */
  lemma CellShape(httpMethod: string, path: string)
    ensures var s := httpMethod + " " + path;
      var cell := MethodPathCell(httpMethod, path);
      && |cell| == METHOD_PATH_WIDTH + 3
      && cell[METHOD_PATH_WIDTH..] == " | "
      && (|s| <= METHOD_PATH_WIDTH ==>
            (cell[..|s|] == s && forall i :: |s| <= i < METHOD_PATH_WIDTH ==> cell[i] == ' '))
      && (|s| > METHOD_PATH_WIDTH ==>
            var k := |TruncateAsWritten(s)|;
            && METHOD_PATH_WIDTH - 2 <= k <= METHOD_PATH_WIDTH && cell[k - 3..k] == "..."
            && forall i :: k <= i < METHOD_PATH_WIDTH ==> cell[i] == ' ')
  {
    var s := httpMethod + " " + path;
    TruncateFits(s);
    var t := TruncateAsWritten(s);
    var padded := PadRight(t, METHOD_PATH_WIDTH);
    assert MethodPathCell(httpMethod, path) == padded + " | ";
    assert |padded| == METHOD_PATH_WIDTH;
    if |s| > METHOD_PATH_WIDTH {
      TruncateAsWrittenEndsWithEllipsis(s);
      var k := |t|;
      assert padded[..k] == t;
      assert MethodPathCell(httpMethod, path)[k - 3..k] == t[k - 3..];
    }
  }

  /** t is s's first k characters, `...`, then s's last 20 - k characters. */
  predicate CutAt(s: string, t: string, k: int)
  {
    && 0 <= k <= 20 <= |s|
    && t == s[..k] + "..." + s[|s| - (20 - k)..]
  }

  /**
   * With the first pass corrected, a `?` among the first 16 characters (or
   * none at all) gives a middle cut: the text up to and past the `?`, the
   * ellipsis, then at least two characters of the end of the query string.
   */
  lemma TruncateShowsQueryEnd(s: string)
    requires |s| > METHOD_PATH_WIDTH && IndexOf(s, '?') <= 15
    ensures exists k :: CutAt(s, Truncate(s), k) && IndexOf(s, '?') < k <= 18
  {
    var q := IndexOf(s, '?');
    var k := QueryCutPoint(s, q);
    assert Truncate(s) == QueryCut(s, q);
    assert CutAt(s, Truncate(s), k);
  }

  /** Where the corrected first pass puts its ellipsis when the `?` comes early. */
  lemma QueryCutPoint(s: string, q: int) returns (k: int)
    requires |s| > METHOD_PATH_WIDTH && -1 <= q <= 15 && q < |s|
    ensures q < k <= 18 && CutAt(s, QueryCut(s, q), k)
  {
    var visible := (|s| - q - 1) - (|s| - METHOD_PATH_WIDTH) - 3;
    assert visible == 19 - q >= 4;
    var before := TruncDiv(visible, 2);
    assert before == visible / 2;
    var after := visible - before;
    assert before > 1 && after > 1;
    k := q + before + 1;
    assert QueryCut(s, q) == s[..k] + "..." + s[|s| - after..];
  }

  /**
   * As written, every text longer than 23 characters ends in `...`: the
   * first pass always overshoots by one, so the second pass's blunt cut
   * decides the result and the end of the query string is never shown.
   */
  lemma TruncateAsWrittenEndsWithEllipsis(s: string)
    requires |s| > METHOD_PATH_WIDTH
    ensures var t := TruncateAsWritten(s);
      |t| <= METHOD_PATH_WIDTH && |t| >= 3 && t[|t| - 3..] == "..."
  {
    var q := IndexOf(s, '?');
    var t := QueryCutAsWritten(s, q);
    if |t| > METHOD_PATH_WIDTH {
      var u := BluntCut(MiddleSpliceAsWritten(t, q));
      assert u[METHOD_PATH_WIDTH - 3..] == "...";
    } else {
      assert t == s[..q + 1] + "...";
    }
  }

  /** The two first passes on a text with the `?` early on: 24 characters against 23. */
  lemma FirstPassOvershoots(s: string)
    requires |s| > METHOD_PATH_WIDTH && IndexOf(s, '?') <= 15
    ensures |QueryCutAsWritten(s, IndexOf(s, '?'))| == METHOD_PATH_WIDTH + 1
    ensures |QueryCut(s, IndexOf(s, '?'))| == METHOD_PATH_WIDTH
  {
  }

  /** The two middle cuts of the second pass: 26 characters against 23. */
  lemma SecondPassOvershoots(t: string, q: int)
    requires |t| > METHOD_PATH_WIDTH && q < |t| && |t| - METHOD_PATH_WIDTH <= q - 7
    ensures |MiddleSpliceAsWritten(t, q)| == METHOD_PATH_WIDTH + 3
    ensures |MiddleSplice(t, q)| == METHOD_PATH_WIDTH
  {
    var remove := |t| - METHOD_PATH_WIDTH;
    var visible := q - remove - 3;
    assert visible >= 4;
    assert TruncDiv(visible, 2) == visible / 2;
  }

  /**
   * Any 33-character text whose first `?` is at index 6, such as
   * `GET /p?abcdefghijklmnopqrstuvwxyz`.
   */
  predicate ExampleShape(s: string)
  {
    |s| == 33 && IndexOf(s, '?') == 6
  }

  lemma ExampleTextHasShape()
    ensures ExampleShape("GET /p?abcdefghijklmnopqrstuvwxyz")
  {
    var s := "GET /p?abcdefghijklmnopqrstuvwxyz";
    assert s[..6] == "GET /p";
    IndexOfAt(s, '?', 6);
  }

  /** The first occurrence is where c stands with no c before it. */
  lemma IndexOfAt(s: string, c: char, k: int)
    requires 0 <= k < |s| && s[k] == c && c !in s[..k]
    ensures IndexOf(s, c) == k
  {
    forall j | 0 <= j < k
      ensures s[j] != c
    {
      assert s[..k][j] == s[j];
    }
    forall j | k < j <= |s|
      ensures c in s[..j]
    {
      assert s[..j][k] == c;
    }
  }

  /**
   * As written, the first pass keeps 24 characters (`GET /p?abcdefg...tuvwxyz`
   * for the text above) and the blunt cut then drops the query end:
   * `GET /p?abcdefg...tuv...`.
   */
  lemma TruncateAsWrittenExample(s: string)
    requires ExampleShape(s)
    ensures TruncateAsWritten(s) == s[..14] + "..." + s[26..29] + "..."
  {
    ExampleFirstPassAsWritten(s);
    BluntCutOfCut(s[..14], s[26..]);
    assert s[26..][..3] == s[26..29];
  }

  lemma ExampleFirstPassAsWritten(s: string)
    requires ExampleShape(s)
    ensures QueryCutAsWritten(s, 6) == s[..14] + "..." + s[26..]
    ensures TruncateAsWritten(s) == BluntCut(QueryCutAsWritten(s, 6))
  {
    assert TruncDiv(14, 2) == 7;
    var t := QueryCutAsWritten(s, 6);
    assert |t| == 24;
    SpliceKeepsLateQuery(t, 6);
  }

  lemma BluntCutOfCut(a: string, b: string)
    requires |a| == 14 && |b| == 7
    ensures BluntCut(a + "..." + b) == a + "..." + b[..3] + "..."
  {
    PrefixOfCut(a, b, 20);
  }

  /**
   * Corrected, the first pass alone gives 23 characters that end with the
   * query end: `GET /p?abcdef...tuvwxyz` for the text above.
   */
  lemma TruncateExample(s: string)
    requires ExampleShape(s)
    ensures CutAt(s, Truncate(s), 13)
  {
    assert TruncDiv(13, 2) == 6;
    var t := QueryCut(s, 6);
    assert t == s[..13] + "..." + s[26..];
    assert |t| == METHOD_PATH_WIDTH;
    assert Truncate(s) == t;
  }

  /** The second pass cannot splice when the `?` sits before column 8. */
  lemma SpliceKeepsLateQuery(t: string, q: int)
    requires |t| == METHOD_PATH_WIDTH + 1 && -1 <= q < 8
    ensures MiddleSpliceAsWritten(t, q) == t
  {
    var visible := q - 1 - 3;
    assert visible < 4;
    assert TruncDiv(visible, 2) <= 1;
  }

  lemma PrefixOfCut(a: string, b: string, n: int)
    requires |a| + 3 <= n <= |a| + 3 + |b|
    ensures (a + "..." + b)[..n] == a + "..." + b[..n - |a| - 3]
  {
  }

  // ---- the progress bar ------------------------------------------------

  lemma MulLessCancel(f: int, g: int, e: int)
    requires e > 0 && f * e < g * e
    ensures f < g
  {
  }

  /**
   * Without wrap-around, the share of a product in [0, e * w] is in [0, w]
   * and is the nearest integer to product / e, halves rounded up.
   */
  lemma RoundedShareBounds(n: int, e: int, w: int)
    requires 0 < e && IsInt64(e) && 0 <= w <= INT32_MAX
    requires 0 <= n <= e * w && n + e / 2 <= INT64_MAX
    ensures var f := RoundedShare(n, e);
      && 0 <= f <= w
      && -(e / 2) <= n - f * e < e - e / 2
  {
    var a := n + e / 2;
    var f := a / e;
    DivBounds(a, e);
    assert a < (w + 1) * e by {
      assert (w + 1) * e == e * w + e;
    }
    MulLessCancel(f, w + 1, e);
    RoundedShareNoWrap(n, e, f);
  }

  lemma DivBounds(a: int, e: int)
    requires 0 <= a && 0 < e
    ensures 0 <= a / e && (a / e) * e <= a < (a / e) * e + e
  {
  }

  /** Without wrap-around the share is plain division. */
  lemma RoundedShareNoWrap(n: int, e: int, f: int)
    requires 0 < e && 0 <= n && n + e / 2 <= INT64_MAX
    requires f == (n + e / 2) / e && 0 <= f <= INT32_MAX
    ensures RoundedShare(n, e) == f
  {
    assert Wrap64(n) == n;
    assert Wrap64(n + e / 2) == n + e / 2;
    assert TruncDiv(n + e / 2, e) == f;
    assert Wrap32(f) == f;
  }

  /**
   * With 0 <= soFar <= expected and no `long` overflow, the filled part is
   * between 0 and the bar width and is the nearest integer to
   * soFar * width / expected, halves rounded up.
   */
  lemma FillRoundsToNearest(soFar: int, expected: int, width: int)
    requires 0 <= soFar <= expected && 0 < expected && IsInt64(expected)
    requires 0 <= width <= INT32_MAX
    requires soFar * width + expected / 2 <= INT64_MAX
    ensures var f := Fill(soFar, expected, width);
      && 0 <= f <= width
      && -(expected / 2) <= soFar * width - f * expected < expected - expected / 2
  {
    assert 0 <= soFar * width <= expected * width by {
      assert (expected - soFar) * width >= 0;
    }
    RoundedShareBounds(soFar * width, expected, width);
  }

  /** Half way along a bar of 10 fills 5 of its characters. */
  lemma FillExample()
    ensures Fill(50, 100, 10) == 5
  {
    RoundedShareBounds(500, 100, 10);
  }

  /**
   * Under the same conditions both bar pieces exist, the filled and
   * unfilled counts add up to the width, and the bar is width + 2 wide.
   */
  lemma BarWidthExact(soFar: int, expected: int, width: int)
    requires 0 <= soFar <= expected && 0 < expected && IsInt64(expected)
    requires 0 <= width <= INT32_MAX
    requires soFar * width + expected / 2 <= INT64_MAX
    ensures var f := Fill(soFar, expected, width);
      && FilledBar(f).Some? && UnfilledBar(Wrap32(width - f)).Some?
      && f + Wrap32(width - f) == width
      && |FilledBar(f).value + UnfilledBar(Wrap32(width - f)).value| == width + 2
  {
    FillRoundsToNearest(soFar, expected, width);
  }

  // ---- one row ---------------------------------------------------------

  /** The head is 66 columns when the id, the address and the state fit their fields. */
  lemma RowHeadWidth(r: Row)
    requires |FormatInt(r.id)| <= 9 && |r.clientIP| <= 15 && |r.state| <= 7
    ensures |RowHead(r)| == 66
  {
    CellShape(r.httpMethod, r.path);
    var id := PadLeft(FormatInt(r.id), 9);
    var ip := PadRight(r.clientIP, 15);
    var cell := MethodPathCell(r.httpMethod, r.path);
    var state := PadLeft(r.state, 7);
    assert |id| == 9 && |ip| == 15 && |cell| == 26 && |state| == 7;
    assert RowHead(r) == id + " | " + ip + " | " + cell + state + " | ";
  }

  /**
   * With a known length, 0 <= soFar <= expected and room for the bar, the
   * counts are the fraction, `[`, the filled `#`s, the unfilled `.`s and
   * `]`, exactly filling the room.
   */
  lemma CountsWithBar(soFar: int, expected: int, room: int)
    requires 0 <= soFar <= expected && 0 < expected && IsInt64(expected)
    requires 0 <= BarWidth(soFar, expected, room) <= INT32_MAX
    requires soFar * BarWidth(soFar, expected, room) + expected / 2 <= INT64_MAX
    ensures var w := BarWidth(soFar, expected, room);
      var f := Fill(soFar, expected, w);
      && 0 <= f <= w
      && Counts(soFar, expected, room)
         == Some(Fraction(soFar, expected) + "[" + Repeat('#', f) + Repeat('.', w - f) + "]")
      && |Counts(soFar, expected, room).value| == room
  {
    var w := BarWidth(soFar, expected, room);
    FillRoundsToNearest(soFar, expected, w);
    var f := Fill(soFar, expected, w);
    assert Wrap32(w - f) == w - f;
    assert FilledBar(f) == Some("[" + Repeat('#', f));
    assert UnfilledBar(w - f) == Some(Repeat('.', w - f) + "]");
    var frac := Fraction(soFar, expected);
    assert frac + ("[" + Repeat('#', f)) + (Repeat('.', w - f) + "]")
        == frac + "[" + Repeat('#', f) + Repeat('.', w - f) + "]";
  }

  /** Without a known length the counts fail exactly when the byte count does not fit. */
  lemma CountsWithoutBar(soFar: int, expected: int, room: int)
    requires expected <= 0
    ensures var rest := room - |Grouped(soFar)|;
      && (Counts(soFar, expected, room).Some? <==> rest >= 0)
      && (rest >= 0 ==> Counts(soFar, expected, room) == Some(Grouped(soFar) + Spaces(rest)))
  {
  }

  /** Whatever succeeds fills the room, when the bar width is an `int` and not negative. */
  lemma CountsFillRoom(soFar: int, expected: int, room: int)
    requires Counts(soFar, expected, room).Some?
    requires expected > 0 ==> 0 <= BarWidth(soFar, expected, room) <= INT32_MAX
    ensures |Counts(soFar, expected, room).value| == room
  {
    if expected > 0 {
      var w := BarWidth(soFar, expected, room);
      var f := Fill(soFar, expected, w);
      assert FilledBar(f).Some?;
      assert 0 <= f <= INT32_MAX;
      assert Wrap32(w - f) == w - f;
    }
  }

  /**
   * A drawn row fills exactly `WindowWidth - 1` columns when the id, the
   * address and the state fit their fields and the bar width is an `int`.
   */
  lemma RowTextWidth(r: Row, windowWidth: int)
    requires RowText(r, windowWidth).Some?
    requires |FormatInt(r.id)| <= 9 && |r.clientIP| <= 15 && |r.state| <= 7
    requires r.bytesExpected > 0 ==>
               0 <= BarWidth(r.bytesSoFar, r.bytesExpected, RoomAfterHead(r, windowWidth)) <= INT32_MAX
    ensures |RowText(r, windowWidth).value| == windowWidth - 1
  {
    RowHeadWidth(r);
    CellShape(r.httpMethod, r.path);
    CountsFillRoom(r.bytesSoFar, r.bytesExpected, RoomAfterHead(r, windowWidth));
  }

  // ---- the window ------------------------------------------------------

  lemma {:induction false} LinesIndex(texts: seq<Option<string>>, blank: Option<string>, n: nat)
    requires Lines(texts, blank, n).Some?
    ensures var ls := Lines(texts, blank, n).value;
      && |ls| == n
      && (forall i :: 0 <= i < n && i < |texts| ==> texts[i] == Some(ls[i]))
      && (forall i :: |texts| <= i < n ==> blank == Some(ls[i]))
  {
    if n > 0 {
      LinesIndex(texts, blank, n - 1);
    }
  }

  lemma {:induction false} LinesSucceed(texts: seq<Option<string>>, blank: Option<string>, n: nat)
    requires forall i :: 0 <= i < n && i < |texts| ==> texts[i].Some?
    requires n > |texts| ==> blank.Some?
    ensures Lines(texts, blank, n).Some?
  {
    if n > 0 {
      LinesSucceed(texts, blank, n - 1);
    }
  }

  /** Once a line throws, the frame is not drawn, however many lines were to follow. */
  lemma {:induction false} LinesNoneStays(texts: seq<Option<string>>, blank: Option<string>, k: nat, n: nat)
    requires k <= n && Lines(texts, blank, k).None?
    ensures Lines(texts, blank, n).None?
  {
    if k < n {
      LinesNoneStays(texts, blank, k, n - 1);
    }
  }

  /** One more line: the frame so far grows by it, or stops being drawn. */
  lemma LinesStep(texts: seq<Option<string>>, blank: Option<string>, i: nat, lines: seq<string>, line: Option<string>)
    requires Lines(texts, blank, i) == Some(lines)
    requires line == if i < |texts| then texts[i] else blank
    ensures Lines(texts, blank, i + 1) == if line.None? then None else Some(lines + [line.value])
  {
  }

  /** The frame from its first H - 1 lines and its last line. */
  lemma AssembleFrom(texts: seq<Option<string>>, blank: Option<string>, windowHeight: int, lines: seq<string>, last: Option<string>)
    requires Lines(texts, blank, if windowHeight - 1 > 0 then windowHeight - 1 else 0) == Some(lines)
    requires last == LastLine(texts, windowHeight)
    ensures Assemble(texts, blank, windowHeight) == if last.None? then None else Some(Screen(lines, last.value))
  {
  }

  /** A line that throws before line H - 1 leaves no frame. */
  lemma AssembleFails(texts: seq<Option<string>>, blank: Option<string>, windowHeight: int, k: nat)
    requires k <= (if windowHeight - 1 > 0 then windowHeight - 1 else 0) && Lines(texts, blank, k).None?
    ensures Assemble(texts, blank, windowHeight) == None
  {
    LinesNoneStays(texts, blank, k, if windowHeight - 1 > 0 then windowHeight - 1 else 0);
  }

  /** Caching beyond the end of the list caches nothing more. */
  lemma CachedPrefixClamp(rows: seq<Row>, k: int)
    ensures CachedPrefix(rows, k) == CachedPrefix(rows, if k < |rows| then k else |rows|)
  {
    var j := if k < |rows| then k else |rows|;
    assert forall i :: 0 <= i < |rows| ==> CachedPrefix(rows, k)[i] == CachedPrefix(rows, j)[i];
  }

  /** The window from entry texts: at most H entries are all shown. */
  lemma AssembleShowsAll(texts: seq<Option<string>>, blank: Option<string>, windowHeight: int)
    requires 1 <= windowHeight && |texts| <= windowHeight
    requires Assemble(texts, blank, windowHeight).Some?
    ensures var sc := Assemble(texts, blank, windowHeight).value;
      && |sc.lines| == windowHeight - 1
      && (forall i :: 0 <= i < |texts| && i < windowHeight - 1 ==> texts[i] == Some(sc.lines[i]))
      && (forall i :: |texts| <= i < windowHeight - 1 ==> blank == Some(sc.lines[i]))
      && (|texts| == windowHeight ==> texts[windowHeight - 1] == Some(sc.last))
      && (|texts| < windowHeight ==> sc.last == "")
  {
    LinesIndex(texts, blank, windowHeight - 1);
  }

  /** The window from entry texts: beyond H entries, H - 1 are shown and then `...`. */
  lemma AssembleOverflow(texts: seq<Option<string>>, blank: Option<string>, windowHeight: int)
    requires 1 <= windowHeight < |texts|
    requires Assemble(texts, blank, windowHeight).Some?
    ensures var sc := Assemble(texts, blank, windowHeight).value;
      && |sc.lines| == windowHeight - 1
      && (forall i :: 0 <= i < windowHeight - 1 ==> texts[i] == Some(sc.lines[i]))
      && sc.last == "..."
  {
    LinesIndex(texts, blank, windowHeight - 1);
  }

  /**
   * A window of height H >= 1 holding at most H entries shows every entry:
   * entry i on line i, and entry H - 1 (when there are exactly H) on the
   * last line; the remaining lines are blank.
   */
  lemma RenderShowsAll(rows: seq<Row>, windowWidth: int, windowHeight: int)
    requires 1 <= windowHeight && |rows| <= windowHeight
    requires Render(rows, windowWidth, windowHeight).Some?
    ensures var sc := Render(rows, windowWidth, windowHeight).value;
      && |sc.lines| == windowHeight - 1
      && (forall i :: 0 <= i < |rows| && i < windowHeight - 1 ==> RowText(rows[i], windowWidth) == Some(sc.lines[i]))
      && (forall i :: |rows| <= i < windowHeight - 1 ==> sc.lines[i] == Spaces(windowWidth - 1))
      && (|rows| == windowHeight ==> RowText(rows[windowHeight - 1], windowWidth) == Some(sc.last))
      && (|rows| < windowHeight ==> sc.last == "")
  {
    var texts := Texts(rows, windowWidth);
    TextsIndex(rows, windowWidth);
    AssembleShowsAll(texts, SpaceRun(windowWidth - 1), windowHeight);
  }

  /**
   * More than H entries: the first H - 1 are drawn, and the last line is
   * `...` in place of every later entry.
   */
  lemma RenderOverflow(rows: seq<Row>, windowWidth: int, windowHeight: int)
    requires 1 <= windowHeight < |rows|
    requires Render(rows, windowWidth, windowHeight).Some?
    ensures var sc := Render(rows, windowWidth, windowHeight).value;
      && |sc.lines| == windowHeight - 1
      && (forall i :: 0 <= i < windowHeight - 1 ==> RowText(rows[i], windowWidth) == Some(sc.lines[i]))
      && sc.last == "..."
  {
    var texts := Texts(rows, windowWidth);
    TextsIndex(rows, windowWidth);
    AssembleOverflow(texts, SpaceRun(windowWidth - 1), windowHeight);
  }

  /**
   * The window is drawn whenever every entry and the blank line can be
   * drawn, except with no entries in a window of height 0, where the code
   * reads the entry at index -1.
   */
  lemma RenderSucceeds(rows: seq<Row>, windowWidth: int, windowHeight: int)
    requires windowWidth >= 1
    requires forall i :: 0 <= i < |rows| ==> RowText(rows[i], windowWidth).Some?
    ensures Render(rows, windowWidth, windowHeight).Some? <==> !(|rows| == 0 && windowHeight == 0)
  {
    var texts := Texts(rows, windowWidth);
    TextsIndex(rows, windowWidth);
    var n := if windowHeight - 1 > 0 then windowHeight - 1 else 0;
    LinesSucceed(texts, SpaceRun(windowWidth - 1), n);
  }

  /** What `RenderRequest` writes does not depend on the cached cell. */
  lemma RowTextIgnoresCell(r: Row, c: Option<string>, windowWidth: int)
    ensures RowText(r.(methodPathString := c), windowWidth) == RowText(r, windowWidth)
  {
    var r' := r.(methodPathString := c);
    assert r'.id == r.id && r'.clientIP == r.clientIP && r'.httpMethod == r.httpMethod && r'.path == r.path;
    assert r'.state == r.state && r'.bytesSoFar == r.bytesSoFar && r'.bytesExpected == r.bytesExpected;
    assert RowHead(r') == RowHead(r);
    assert RoomAfterHead(r', windowWidth) == RoomAfterHead(r, windowWidth);
  }

  /** The cached cells take no part in what is drawn: a second frame draws the same window. */
  lemma RenderIgnoresCache(rows: seq<Row>, k: int, windowWidth: int, windowHeight: int)
    ensures Render(CachedPrefix(rows, k), windowWidth, windowHeight) == Render(rows, windowWidth, windowHeight)
  {
    var cached := CachedPrefix(rows, k);
    TextsIndex(rows, windowWidth);
    TextsIndex(cached, windowWidth);
    forall i | 0 <= i < |rows|
      ensures Texts(cached, windowWidth)[i] == Texts(rows, windowWidth)[i]
    {
      RowTextIgnoresCell(rows[i], cached[i].methodPathString, windowWidth);
    }
    assert Texts(cached, windowWidth) == Texts(rows, windowWidth);
  }

  // ---- the cached cells ------------------------------------------------

  lemma UpdateKeepsCells(m: Monitor, r: Row)
    requires CellsCanonical(m) && CellOk(r)
    ensures CellsCanonical(Update(m, r))
  {
  }

  lemma RemoveIdKeepsCells(rows: seq<Row>, id: int)
    requires CellsOk(rows)
    ensures CellsOk(RemoveId(rows, id))
  {
    var out := RemoveId(rows, id);
    forall i | 0 <= i < |out| ensures CellOk(out[i]) {
      assert out[i] in out;
    }
  }

  lemma ApplyCountKeepsCells(m: Monitor, r: Row, parts: seq<string>)
    requires CellsCanonical(m) && |parts| >= 2 && CellOk(r)
    ensures CellsCanonical(ApplyCount(m, r, parts))
  {
    var n := if |parts| < 3 then None else ParseInt64(parts[2]);
    var r' := if n.None? then r.(state := "Stream")
              else if parts[1] == "length" then r.(state := "Stream", bytesExpected := n.value)
              else r.(state := "Stream", bytesSoFar := Wrap64(r.bytesSoFar + n.value));
    UpdateKeepsCells(m, r');
    assert ApplyCount(m, r, parts) == (if n.None? then Fail(Update(m, r')) else Touch(Update(m, r')));
  }

  lemma ApplyToEntryKeepsCells(m: Monitor, id: int, parts: seq<string>)
    requires CellsCanonical(m) && |parts| >= 2 && id in m.requestByID
    ensures CellsCanonical(ApplyToEntry(m, id, parts))
  {
    var r := m.requestByID[id];
    var kind := parts[1];
    if kind == "sent" {
      UpdateKeepsCells(m, r.(state := "Sent"));
    } else if kind == "length" || kind == "progress" {
      ApplyCountKeepsCells(m, r, parts);
    } else if kind == "end" {
      UpdateKeepsCells(m, r.(state := "Done"));
      var m' := Update(m, r.(state := "Done"));
      assert ApplyToEntry(m, id, parts) == Touch(m'.(delayed := m.delayed + [RemoveLine(id)]));
    } else if kind == "remove" {
      RemoveIdKeepsCells(m.requests, id);
    }
  }

  lemma ApplyNewKeepsCells(m: Monitor, id: int, parts: seq<string>)
    requires CellsCanonical(m)
    ensures CellsCanonical(ApplyNew(m, id, parts))
  {
    if id in m.requestByID {
      RemoveIdKeepsCells(m.requests, id);
    }
  }

  /** No record makes an entry cache a cell other than its own. */
  lemma ApplyKeepsCellsCanonical(m: Monitor, u: string)
    requires CellsCanonical(m)
    ensures CellsCanonical(Apply(m, u))
  {
    var parts := Split(u, ' ');
    var pid := ParseInt32(parts[0]);
    if pid.Some? && |parts| >= 2 {
      var id := pid.value;
      if parts[1] == "new" {
        ApplyNewKeepsCells(m, id, parts);
      } else if id in m.requestByID {
        ApplyToEntryKeepsCells(m, id, parts);
      }
    }
  }

  /** Drawing keeps every cached cell canonical. */
  lemma CachedPrefixKeepsCells(rows: seq<Row>, k: int)
    requires CellsOk(rows)
    ensures CellsOk(CachedPrefix(rows, k))
  {
  }
}
