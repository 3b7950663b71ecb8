# FacebonkClickIDRemoverProxy, modelled in Dafny

The proxy is a small ASP.NET Core application. It forwards every request to a
configured upstream server, dropping the `fbclid` tracking parameter from the
query string on the way. While it runs, a second console process (the status
monitor) shows a table of the requests in flight. The proxy sends it one text
line per lifecycle event through a pipe.

This project models the sequential core of those parts and proves properties about it:

- **the line protocol** (`LineProtocol`, `StatusMonitor.Notify*`): the
  `new`, `sent`, `length`, `progress` and `end` records, which the static
  `StatusConsole.Notify*` methods write and `ProcessUpdate` reads back;
- **the monitor's record processor** (`UpdateProcessor`, `StatusMonitor.StatusConsole`).
  `Apply` is the value model of `ProcessUpdate`. It works on the ordered
  request list, the id-indexed dictionary, the pending `remove` records, the
  render trigger and the exiting flag. The `StatusConsole` class holds the
  same list and dictionary of `OngoingRequest` objects and updates them in
  place. Its `ProcessUpdate` is proved to do exactly what `Apply` says;
- **the table renderer** (`Renderer`, `StatusConsole.RenderRequest(s)`).
  It covers:
  - the 23-column method/path cell and its truncation;
  - the progress bar's rounded fill;
  - one row's text;
  - the window of height H, with its `...` overflow line;
  - the memoised glyph strings.

  The class methods are proved to draw what the `Renderer` functions describe;
- **the self-detaching telemetry sender** (`TelemetrySender`). It forwards
  each notification while attached, and detaches for good on the first
  failed write;
- **the forwarding engine** (`Forwarding`, `ProxyMiddleware`). It covers:
  - the `fbclid` query rewrite and the destination URI;
  - the relay of multi-valued headers, with `length` reports;
  - the known-length and read-until-zero body-copy loops, with their
    error exits and abort checks;
  - the lifecycle notifications, with `end` sent from the `finally`;
  - the buffer lease, whose `Dispose` gives the buffer back once.

  `InvokeAsync` and its loops are methods over objects for the HTTP
  client, the response stream, the abort token, the response and the
  notifier. Each is proved equal to a value-level definition in `Forwarding`;
- **the string builders of `ProcessEx`** (`ProcessLaunch`):
  - `BuildCommandLine`;
  - `EnvironmentBlock.ToByteArray`, with its 65535-byte limit on the
    non-Unicode path;
  - the checks and creation flags that `StartNewConsole` computes before
    it calls into Windows.

Integers are unbounded in Dafny, so the model writes the source's integer
behaviour out explicitly:

- `int` and `long` wrap-around: `Wrap32`, `Wrap64`;
- C#'s truncating division: `TruncDiv`;
- `int.Parse` and `long.Parse`: `ParseInt32`, `ParseInt64`.

The console size is a parameter: `windowWidth`, `windowHeight`. Each I/O
object is an object holding a script of its answers:

| object | script |
|---|---|
| stream | read results |
| abort token | the answers of its checks |
| HTTP client | its replies |
| telemetry pipe | whether a write fails |

## Model

| member | source | states |
|---|---|---|
| `Numbers.Wrap32` | CruftRemoverProxyMiddleware.cs:75 | the result is an `int`, congruent to the input modulo 2^32, and equal to it when the input already fits |
| `Numbers.Wrap64` | StatusConsole.cs:178 | the result is a `long`, congruent to the input modulo 2^64, and equal to it when the input fits |
| `Numbers.TruncDiv` | StatusConsole.cs:272 | C# division by a positive divisor: the remainder is smaller than the divisor and has the sign of the dividend (or is 0); it agrees with Euclidean division for a non-negative dividend |
| `Numbers.FormatIntShape` | StatusConsole.cs:48 | `ToString()` of an integer is non-empty and made of digits and `-` only, digits only when non-negative |
| `Numbers.ParseInteger` | StatusConsole.cs:135 | a parsed value lies in the requested range |
| `Numbers.ParseInt32` | StatusConsole.cs:135 | `int.Parse` succeeds only with an `int` |
| `Numbers.ParseInt64` | StatusConsole.cs:172 | `long.Parse` succeeds only with a `long` |
| `Numbers.ParseFormatInteger` | StatusConsole.cs:172 | parsing what `ToString()` printed gives the number back, for every number in the range |
| `Numbers.ParseFormatInt32` | StatusConsole.cs:135 | round trip of an `int` id through text |
| `Numbers.ParseFormatInt64` | StatusConsole.cs:178 | round trip of a `long` count through text |
| `Numbers.GroupedIsDecimal` | StatusConsole.cs:324 | the `#,###,###,##0` form is the plain decimal form with group separators inserted |
| `Numbers.GroupedNatIsDecimal` | StatusConsole.cs:338 | the same for a non-negative count |
| `Numbers.FormatInt` | StatusConsole.cs:48 | `ToString()` of an integer in the invariant culture; `FormatIntShape` states its shape and `ParseFormatInteger` that parsing reads it back |
| `Numbers.Grouped` | StatusConsole.cs:324 | `{0:#,###,###,##0}` in the invariant culture; `GroupedIsDecimal` proves it is `FormatInt` with a comma every three digits |
| `Strings.IndexOf` | StatusConsole.cs:267 | -1 exactly when the character is absent, otherwise the position of its first occurrence |
| `Strings.Split` | StatusConsole.cs:133 | a split has at least one part |
| `Strings.JoinSplit` | StatusConsole.cs:133 | joining the parts of a split restores the string |
| `Strings.SplitJoin` | StatusConsole.cs:133 | splitting joined parts that do not hold the separator gives the parts back |
| `Strings.Repeat` | StatusConsole.cs:355 | `new string(c, n)` has n copies of c |
| `Strings.PadLeft` | StatusConsole.cs:253 | `{0,w}`: the text, right-aligned after spaces, in a field of at least w |
| `Strings.PadRight` | StatusConsole.cs:256 | `{0,-w}`: the text, then spaces, in a field of at least w |
| `Strings.Trim` | ProcessEx.cs:216 | the result is a slice `s[i..j]` of the input with only white space before `i` and after `j`, and no white space at either of its own ends; empty exactly when the input is all white space |
| `Strings.Join` | StatusConsole.cs:133 | the parts with one separator between each two; `JoinSplit` and `SplitJoin` prove it is the inverse of `Split` |
| `Strings.IsNullOrWhiteSpace` | CruftRemoverProxyMiddleware.cs:105 | `string.IsNullOrWhiteSpace`, with null as None; `BuildForwardedRequest` attaches content exactly when it is false |
| `Strings.EqualsIgnoreCase` | CruftRemoverProxyMiddleware.cs:144 | ordinal case-insensitive equality, for ASCII letters; through `IsContentLength`, `RelayResult` and `RelayHeader` use it to pick out the `Content-Length` headers |
| `LineProtocol.Fields` | StatusConsole.cs:46-69 | every record's first field is the id's decimal text, and it has at least two fields |
| `LineProtocol.LineIsJoinedFields` | StatusConsole.cs:46-69 | each `Notify*` line is its fields joined by single spaces, in the five formats of the protocol |
| `LineProtocol.SplitLine` | StatusConsole.cs:133 | a line whose text arguments hold no space splits back into exactly its fields |
| `LineProtocol.SplitRemoveLine` | StatusConsole.cs:191 | the self-posted `<id> remove` record splits into the id and `remove` |
| `LineProtocol.LineIsOneLine` | StatusConsole.cs:32-69 | a record holds no line break when its text arguments hold none, so `WriteLine` delivers one line |
| `LineProtocol.TextSink.WriteLine` | StatusConsole.cs:36-37 | a write appends exactly the message to an intact pipe, and fails and writes nothing on a broken one |
| `LineProtocol.Line` | StatusConsole.cs:46-69 | the text of each notification; `LineIsJoinedFields`, `SplitLine` and `ParsedLine` prove it is its fields joined by spaces and that the monitor reads those fields back |
| `LineProtocol.RemoveLine` | StatusConsole.cs:191 | the `<id> remove` record posted after an `end`; `SplitRemoveLine` and `RemoveRecord` prove it splits back and deletes the entry |
| `StatusMonitor.Deliver` | StatusConsole.cs:32-39 | one line written and flushed, or nothing when the write throws |
| `StatusMonitor.NotifyNewRequest` | StatusConsole.cs:46-49 | exactly one `<id> new <ip> <method> <path>` line |
| `StatusMonitor.NotifyRequestSent` | StatusConsole.cs:51-54 | exactly one `<id> sent` line |
| `StatusMonitor.NotifyRequestLength` | StatusConsole.cs:56-59 | exactly one `<id> length <n>` line |
| `StatusMonitor.NotifyRequestProgress` | StatusConsole.cs:61-64 | exactly one `<id> progress <n>` line |
| `StatusMonitor.NotifyRequestEnd` | StatusConsole.cs:66-69 | exactly one `<id> end` line |
| `StatusMonitor.Notify` | StatusConsole.cs:46-69 | each notification is written as `Line(n)`, and only when the pipe is intact |
| `StatusMonitor.OngoingRequest.constructor` | StatusConsole.cs:149-154 | a new entry carries the record's fields, state `Connect`, no cached cell and zero bytes |
| `StatusMonitor.FirstRef` | StatusConsole.cs:147 | `List.Remove` by reference finds the first position holding the object, or none |
| `StatusMonitor.RemoveRef` | StatusConsole.cs:147 | `List.Remove(request)` on the list of objects; `DropFromList` proves it removes just that id's entry |
| `StatusMonitor.StatusConsole.View` | StatusConsole.cs:27-28 | the list and the dictionary as values; every method of the class states its new state through it, and `ValidViewWellFormed` proves it well formed |
| `StatusMonitor.StatusConsole.constructor` | StatusConsole.cs:27-28 | the monitor starts empty, with the render trigger set and empty memo caches |
| `StatusMonitor.StatusConsole.ValidViewWellFormed` | StatusConsole.cs:27-28 | the objects' list and dictionary, seen as values, are well formed: one list entry per id, each the dictionary's entry for its id |
| `StatusMonitor.StatusConsole.ProcessUpdate` | StatusConsole.cs:129-211 | applying a record in place leaves the list and the dictionary as `Apply` of the old state says, and keeps them linked |
| `StatusMonitor.StatusConsole.ProcessNew` | StatusConsole.cs:144-163 | the `new` case: a live id's list entry is removed first; then a fresh entry is appended and filed, or the missing field throws |
| `StatusMonitor.StatusConsole.DropFromList` | StatusConsole.cs:146-147 | `_requests.Remove(request)` removes just the entry for that id, and the dictionary keeps it |
| `StatusMonitor.StatusConsole.AddEntry` | StatusConsole.cs:159-160 | `Add` and the dictionary store append the entry and file it under its id |
| `StatusMonitor.StatusConsole.SetState` | StatusConsole.cs:166 | only the entry's state changes, in the list and the dictionary alike |
| `StatusMonitor.StatusConsole.SetBytesExpected` | StatusConsole.cs:172 | only the expected byte count changes |
| `StatusMonitor.StatusConsole.SetBytesSoFar` | StatusConsole.cs:178 | only the byte count so far changes |
| `StatusMonitor.StatusConsole.RemoveLive` | StatusConsole.cs:196-201 | `remove` deletes the entry from both structures |
| `StatusMonitor.StatusConsole.Forget` | StatusConsole.cs:199 | `_requestByID.Remove(id)` for an id the list no longer holds |
| `StatusMonitor.StatusConsole.ProcessCount` | StatusConsole.cs:169-180 | `length` and `progress` act as `ApplyCount`; the state is `Stream` even when the number does not parse |
| `StatusMonitor.StatusConsole.ProcessLength` | StatusConsole.cs:169-174 | state `Stream`, then the parsed expected length |
| `StatusMonitor.StatusConsole.ProcessProgress` | StatusConsole.cs:175-180 | state `Stream`, then the delta added to the byte count in `long` arithmetic |
| `StatusMonitor.StatusConsole.ProcessEntry` | StatusConsole.cs:164-201 | the switch on a live entry acts as `ApplyToEntry` |
| `StatusMonitor.StatusConsole.GetProgressFilledString` | StatusConsole.cs:352-358 | returns the canonical `[` plus n `#` and memoises it; every memo entry stays canonical |
| `StatusMonitor.StatusConsole.GetProgressUnfilledString` | StatusConsole.cs:360-366 | returns the canonical n `.` plus `]` and memoises it |
| `StatusMonitor.StatusConsole.GetSpaceString` | StatusConsole.cs:368-374 | returns the canonical n spaces and memoises it |
| `StatusMonitor.StatusConsole.SetMethodPath` | StatusConsole.cs:282 | only the entry's cached cell changes |
| `StatusMonitor.StatusConsole.MethodPathText` | StatusConsole.cs:261-313 | the cell text: a longer text goes through the code's first pass, its second pass and its blunt cut, in that order; the result is padded with `GetSpaceString` to 23 columns, then `" \| "` follows; together this is `MethodPathCell` |
| `StatusMonitor.StatusConsole.CacheMethodPath` | StatusConsole.cs:259-316 | the cell, cut as the code cuts it, is computed on first use and stored; a later call reads back the same cell |
| `StatusMonitor.StatusConsole.RenderRow` | StatusConsole.cs:251-345 | the columns of an entry, written left to right with the width tracked, are `RowText` |
| `StatusMonitor.StatusConsole.RenderCounts` | StatusConsole.cs:322-345 | the fraction and bar, or the count and padding, are `Counts` |
| `StatusMonitor.StatusConsole.RenderRequest` | StatusConsole.cs:249-346 | the text drawn for entry i is `RowText` of the entry as it was; only its cached cell changes |
| `StatusMonitor.StatusConsole.RenderLine` | StatusConsole.cs:236 | `RenderRequest(_requests[i])` inside the row loop |
| `StatusMonitor.StatusConsole.DrawLine` | StatusConsole.cs:235-238 | line i is entry i's text while entries last, then a blank line |
| `StatusMonitor.StatusConsole.DrawLines` | StatusConsole.cs:233-241 | the loop draws `Lines` of the entry texts for H - 1 lines, or stops at the first line that throws |
| `StatusMonitor.StatusConsole.DrawLast` | StatusConsole.cs:243-246 | after the loop: `...`, the last entry, or nothing, as `LastLine` says |
| `StatusMonitor.StatusConsole.RenderRequests` | StatusConsole.cs:229-247 | the frame is `Render` of the entries before it; the drawn entries, counted from the top, now cache their cells; nothing else changes |
| `TelemetrySender.StatusConsoleSender.constructor` | StatusConsoleSender.cs:10-13 | the sender starts attached to the given stream |
| `TelemetrySender.StatusConsoleSender.AutoDetach` | StatusConsoleSender.cs:15-26 | detached stays detached and writes nothing; attached to an intact pipe, exactly the record is written and the sender stays attached; a failed write detaches it |
| `TelemetrySender.StatusConsoleSender.NotifyNewRequest` | StatusConsoleSender.cs:28 | forwards one `new` record under `AutoDetach` |
| `TelemetrySender.StatusConsoleSender.NotifyRequestSent` | StatusConsoleSender.cs:29 | forwards one `sent` record under `AutoDetach` |
| `TelemetrySender.StatusConsoleSender.NotifyRequestLength` | StatusConsoleSender.cs:30 | forwards one `length` record under `AutoDetach` |
| `TelemetrySender.StatusConsoleSender.NotifyRequestProgress` | StatusConsoleSender.cs:31 | forwards one `progress` record under `AutoDetach` |
| `TelemetrySender.StatusConsoleSender.NotifyRequestEnd` | StatusConsoleSender.cs:32 | forwards one `end` record under `AutoDetach` |
| `UpdateProcessor.RemoveId` | StatusConsole.cs:198 | removal from the list keeps only entries of the list, and never makes it longer |
| `UpdateProcessor.RemoveIdMembers` | StatusConsole.cs:147 | on a list with distinct ids, removal keeps exactly the entries with another id |
| `UpdateProcessor.RemoveIdDistinct` | StatusConsole.cs:198 | removal keeps the ids distinct |
| `UpdateProcessor.RemoveIdIds` | StatusConsole.cs:198 | removal takes exactly the id out of the listed ids |
| `UpdateProcessor.SetRow` | StatusConsole.cs:166 | an in-place field update is seen in the list at the entry with that id and nowhere else |
| `UpdateProcessor.TruncateClientIP` | StatusConsole.cs:156-157 | the client address is cut to its first 15 characters, and a shorter one is kept |
| `UpdateProcessor.ApplyCountParsed` | StatusConsole.cs:169-180 | with a parsed count, `length` sets the expected bytes and `progress` adds the delta, both with state `Stream` |
| `UpdateProcessor.Apply` | StatusConsole.cs:129-211 | one record applied to the monitor's state. `ApplyKeepsWellFormed` and `ApplyKeepsConsistent` state the invariants it keeps, and the `*Record` lemmas state what each record does |
| `UpdateProcessor.Dispatch` | StatusConsole.cs:135-142 | after the id parses: `new`, a live id's case, or nothing for an unknown id; `UnknownIdIgnored` and `EntryRecord` state the last two |
| `UpdateProcessor.ApplyNew` | StatusConsole.cs:144-163 | the `new` case in the code's order; `ApplyNewKeeps`, `NewRecordRoundTrip` and `TruncatedNewDesynchronizes` state what it does |
| `UpdateProcessor.AddNew` | StatusConsole.cs:159-160 | the new entry appended and filed; `AddNewKeeps` proves it keeps the structures well formed and adds exactly its id |
| `UpdateProcessor.ApplyToEntry` | StatusConsole.cs:164-201 | the switch for a live entry; `ApplyToEntryKeeps` states the invariants it keeps, and `SentRecord` through `RemoveRecord` what each case does |
| `UpdateProcessor.ApplyCount` | StatusConsole.cs:169-180 | `length` and `progress`; `ApplyCountParsed` and `ApplyCountKeeps` state what it sets and what it keeps |
| `UpdateProcessor.ApplyAll` | StatusConsole.cs:88 | the records in the order the `ActionBlock` applies them, one at a time; `LifecycleExample` runs a whole request through it |
| `UpdateProcessorProperties.InitialIsConsistent` | StatusConsole.cs:27-28 | the empty monitor is consistent |
| `UpdateProcessorProperties.UpdateKeeps` | StatusConsole.cs:164-180 | a field update of a live entry keeps both structures well formed and consistent |
| `UpdateProcessorProperties.RemoveKeeps` | StatusConsole.cs:196-201 | `remove` keeps both structures well formed and consistent |
| `UpdateProcessorProperties.AddNewKeeps` | StatusConsole.cs:159-160 | appending an entry for an unlisted id keeps the structures well formed and adds exactly its id |
| `UpdateProcessorProperties.ApplyNewKeeps` | StatusConsole.cs:144-163 | `new` keeps the structures well formed; they stay consistent unless a truncated record hits a live id |
| `UpdateProcessorProperties.ApplyCountKeeps` | StatusConsole.cs:169-180 | `length` and `progress` keep the structures well formed and consistent |
| `UpdateProcessorProperties.ApplyToEntryKeeps` | StatusConsole.cs:164-201 | every case on a live entry keeps the structures well formed and consistent |
| `UpdateProcessorProperties.ApplyKeepsWellFormed` | StatusConsole.cs:129-211 | every record, malformed ones included, keeps one list entry per id, each the dictionary's entry for its id |
| `UpdateProcessorProperties.ApplyKeepsConsistent` | StatusConsole.cs:129-211 | every record except a truncated `new` for a live id keeps the list and dictionary holding the same entries |
| `UpdateProcessor.ApplyNewFieldsFirst` | StatusConsole.cs:144-163 | `new` with the fields read before the list entry is removed, the corrected half of a finding; `FieldsFirstKeepsConsistent` states its invariant |
| `UpdateProcessorProperties.FieldsFirstKeepsConsistent` | StatusConsole.cs:144-163 | with the fields read first, every `new` record keeps the list and the dictionary holding the same entries, and a truncated one only sets the exiting flag |
| `UpdateProcessorProperties.TruncatedNewDesynchronizes` | StatusConsole.cs:144-153 | `<id> new` for a live id takes the entry out of the list but leaves it in the dictionary, and sets the exiting flag |
| `UpdateProcessorProperties.MalformedRecordSetsExiting` | StatusConsole.cs:206-210 | a line without an `int` id and a type only sets the exiting flag |
| `UpdateProcessorProperties.UnknownIdIgnored` | StatusConsole.cs:138-140 | a non-`new` record for an unknown id changes nothing, not even the render trigger |
| `UpdateProcessorProperties.ParsedLine` | StatusConsole.cs:133-136 | a `Notify*` line splits into its fields, and its id parses back |
| `UpdateProcessorProperties.NewRecordRoundTrip` | StatusConsole.cs:144-163 | a `NotifyNewRequest` line yields the same id, method and path, the address cut to 15, state `Connect` and zero bytes; an older entry for the id leaves the list |
| `UpdateProcessorProperties.NewReplacesLiveEntry` | StatusConsole.cs:146-160 | after a second `new` for an id, the new entry is last and no other entry has the id |
| `UpdateProcessorProperties.EntryRecord` | StatusConsole.cs:138-142 | a non-`new` line for a live id reaches the switch with its own fields |
| `UpdateProcessorProperties.SentRecord` | StatusConsole.cs:164-168 | `sent` sets state `Sent` and nothing else |
| `UpdateProcessorProperties.LengthRecord` | StatusConsole.cs:169-174 | `length n` sets state `Stream` and the expected bytes to n |
| `UpdateProcessorProperties.ProgressRecord` | StatusConsole.cs:175-180 | `progress n` sets state `Stream` and adds n to the bytes so far |
| `UpdateProcessorProperties.EndRecord` | StatusConsole.cs:181-195 | `end` sets state `Done` and schedules exactly one `<id> remove`; the entry stays |
| `UpdateProcessorProperties.RemoveRecord` | StatusConsole.cs:196-201 | the scheduled `remove` deletes the entry from both structures |
| `UpdateProcessorProperties.UnknownIdNotificationIgnored` | StatusConsole.cs:138-140 | notifications other than `new` for an unknown id are ignored |
| `UpdateProcessorProperties.LifecycleAfterNew` | StatusConsole.cs:164-195 | sent, length 1000, progress 400, progress 600 and end take a fresh entry to `Done` with 1000 of 1000 bytes |
| `UpdateProcessorProperties.LifecycleExample` | StatusConsole.cs:144-201 | the whole example sequence from `new` leaves the entry `Done`, 1000 of 1000, with one `remove` pending; that record deletes it |
| `Renderer.QueryCutAsWritten` | StatusConsole.cs:267-288 | as written, the first pass's middle cut is 24 characters wide; otherwise it keeps the text through the `?` and adds `...` |
| `Renderer.MiddleSpliceAsWritten` | StatusConsole.cs:290-303 | as written, the second pass's middle cut is 26 characters wide or leaves the text unchanged |
| `Renderer.BluntCut` | StatusConsole.cs:305-306 | the last resort keeps 20 characters and adds `...`; short text is unchanged |
| `Renderer.QueryCut` | StatusConsole.cs:267-288 | the corrected first pass's middle cut is exactly 23 characters wide |
| `Renderer.MiddleSplice` | StatusConsole.cs:292-303 | the corrected second pass's middle cut is exactly 23 characters wide |
| `Renderer.FilledBar` | StatusConsole.cs:355 | `[` and n `#`, defined exactly when n is not negative |
| `Renderer.UnfilledBar` | StatusConsole.cs:363 | n `.` and `]`, defined exactly when n is not negative |
| `Renderer.SpaceRun` | StatusConsole.cs:371 | n spaces, defined exactly when n is not negative |
| `Renderer.Texts` | StatusConsole.cs:233-236 | one text per entry |
| `Renderer.TextsIndex` | StatusConsole.cs:236 | entry i's text is `RowText` of entry i |
| `Renderer.CachedPrefix` | StatusConsole.cs:259-314 | after k entries are drawn, exactly those k cache their cells |
| `Renderer.TruncateAsWritten` | StatusConsole.cs:265-308 | the two passes and the blunt cut as the code runs them. `TruncateFits` and `TruncateAsWrittenEndsWithEllipsis` prove short text kept, and longer text cut to 21-23 characters ending in `...` |
| `Renderer.Truncate` | StatusConsole.cs:265-308 | the same with both passes corrected. `TruncateShowsQueryEnd` and `TruncateExample` prove it keeps the end of the query string when the `?` comes early |
| `Renderer.MethodPathCell` | StatusConsole.cs:259-316 | the cell `RenderRequest` caches: the code's cut, padded to 23, then `" \| "`; `CellShape` states its shape |
| `Renderer.Fill` | StatusConsole.cs:330-331 | the filled part of the bar; `FillRoundsToNearest` proves it the nearest integer to soFar * w / expected, in [0, w] |
| `Renderer.RoundedShare` | StatusConsole.cs:331 | the rounded `long` division cast to `int`; `RoundedShareBounds` proves it exact when nothing wraps |
| `Renderer.RowHead` | StatusConsole.cs:253-320 | the id, address, cell and state columns; `RowHeadWidth` proves it 66 wide when the fields fit |
| `Renderer.RoomAfterHead` | StatusConsole.cs:251-320 | the width left after the head; `RowTextWidth` proves the counts fill it |
| `Renderer.BarWidth` | StatusConsole.cs:327-328 | the bar's inner width; `BarWidthExact` proves the drawn bar is w + 2 wide |
| `Renderer.Counts` | StatusConsole.cs:322-345 | the fraction and bar, or the count and padding; `CountsWithBar`, `CountsWithoutBar` and `CountsFillRoom` prove what is drawn and that it fills the room |
| `Renderer.RowText` | StatusConsole.cs:249-346 | one entry's row; `RowTextWidth` proves it `WindowWidth - 1` wide, and `RowTextIgnoresCell` that a cached cell changes nothing |
| `Renderer.Lines` | StatusConsole.cs:233-241 | the loop's H - 1 lines; `LinesIndex`, `LinesSucceed`, `LinesNoneStays` and `LinesStep` prove line i is entry i or blank, and that a throw stops the frame |
| `Renderer.LastLine` | StatusConsole.cs:243-246 | the line after the loop; `AssembleShowsAll` and `AssembleOverflow` prove it is the last entry when exactly H fit and `...` when more do |
| `Renderer.Render` | StatusConsole.cs:229-247 | the whole frame; `RenderShowsAll`, `RenderOverflow`, `RenderSucceeds` and `RenderIgnoresCache` prove which entries appear where and when it is drawn |
| `Renderer.Shown` | StatusConsole.cs:233-246 | how many entries a frame draws; `RenderRequests` caches exactly that many cells |
| `Renderer.Assemble` | StatusConsole.cs:229-247 | the frame from the entry texts; `AssembleFrom` and `AssembleFails` prove it is the loop's lines and the last line, or nothing when a line throws |
| `Renderer.Fraction` | StatusConsole.cs:324 | the `soFar / expected ` text; `CountsWithBar` proves the bar follows it and fills the room |
| `Renderer.CacheCell` | StatusConsole.cs:259-316 | the entry with its cell stored; `CacheMethodPath` and `RenderRequest` prove the class stores exactly this cell |
| `RendererProperties.TruncateFits` | StatusConsole.cs:265-308 | text of at most 23 characters is kept; longer text is cut to 21 to 23 characters by the code's passes, and to at most 23 by the corrected ones |
| `RendererProperties.CellShape` | StatusConsole.cs:259-314 | the drawn cell is always 23 columns plus `" \| "`; short text is kept and padded with spaces; for longer text, `...` ends at column 21, 22 or 23, followed only by spaces |
| `RendererProperties.TruncateShowsQueryEnd` | StatusConsole.cs:267-288 | with an early `?` (or none), the corrected cut keeps the text through the `?`, then `...`, then the end of the query string |
| `RendererProperties.QueryCutPoint` | StatusConsole.cs:272-285 | where the corrected first pass puts its ellipsis when the `?` comes early |
| `RendererProperties.TruncateAsWrittenEndsWithEllipsis` | StatusConsole.cs:265-308 | as written, every text longer than 23 ends in `...` |
| `RendererProperties.FirstPassOvershoots` | StatusConsole.cs:269-285 | with an early `?` the first pass as written keeps 24 characters, and corrected it keeps 23 |
| `RendererProperties.SecondPassOvershoots` | StatusConsole.cs:292-302 | the second pass's middle cut is 26 characters as written, and 23 corrected |
| `RendererProperties.ExampleTextHasShape` | StatusConsole.cs:275-278 | `GET /p?abcdefghijklmnopqrstuvwxyz` has the example's shape |
| `RendererProperties.TruncateAsWrittenExample` | StatusConsole.cs:265-308 | as written, that text is shown as `GET /p?abcdefg...tuv...` |
| `RendererProperties.ExampleFirstPassAsWritten` | StatusConsole.cs:280-286 | as written, the first pass gives 24 characters, which the blunt cut then truncates |
| `RendererProperties.TruncateExample` | StatusConsole.cs:280-286 | corrected, that text is shown with its query end: `GET /p?abcdef...tuvwxyz` |
| `RendererProperties.SpliceKeepsLateQuery` | StatusConsole.cs:297 | the second pass leaves the text unchanged when the `?` sits before column 8 |
| `RendererProperties.RoundedShareBounds` | StatusConsole.cs:331 | without wrap-around, the share of a product in [0, e * w] is in [0, w] and is the nearest integer, halves rounded up |
| `RendererProperties.FillRoundsToNearest` | StatusConsole.cs:330-331 | with 0 <= soFar <= expected, the filled count is in [0, w] and is the nearest integer to soFar * w / expected, halves rounded up |
| `RendererProperties.FillExample` | StatusConsole.cs:331 | 50 of 100 on a bar of 10 fills 5 |
| `RendererProperties.BarWidthExact` | StatusConsole.cs:330-334 | both bar pieces exist, filled plus unfilled is w, and the bar is w + 2 wide |
| `RendererProperties.RowHeadWidth` | StatusConsole.cs:253-320 | the columns before the counts are 66 wide when the id, the address and the state fit their fields |
| `RendererProperties.CountsWithBar` | StatusConsole.cs:322-335 | with a known length, the counts are the fraction, `[`, the `#`s, the `.`s and `]`, filling the room |
| `RendererProperties.CountsWithoutBar` | StatusConsole.cs:336-345 | without a known length, the count and padding fail exactly when the count is wider than the room |
| `RendererProperties.CountsFillRoom` | StatusConsole.cs:322-345 | whatever is drawn after the head fills the room |
| `RendererProperties.RowTextWidth` | StatusConsole.cs:249-346 | a drawn row fills exactly `WindowWidth - 1` columns |
| `RendererProperties.LinesIndex` | StatusConsole.cs:233-241 | line i is entry i's text while entries last, then the blank line |
| `RendererProperties.LinesSucceed` | StatusConsole.cs:233-241 | the lines are drawn whenever every entry shown and the blank line can be drawn |
| `RendererProperties.LinesNoneStays` | StatusConsole.cs:233-241 | once a line throws, the frame is not drawn |
| `RendererProperties.LinesStep` | StatusConsole.cs:233-241 | one more line extends the frame by its text, or stops it |
| `RendererProperties.AssembleFrom` | StatusConsole.cs:229-247 | the frame is its H - 1 lines and its last line |
| `RendererProperties.AssembleFails` | StatusConsole.cs:229-247 | a line that throws before line H - 1 leaves no frame |
| `RendererProperties.AssembleShowsAll` | StatusConsole.cs:229-247 | from entry texts: at most H entries are all shown |
| `RendererProperties.AssembleOverflow` | StatusConsole.cs:243-244 | from entry texts: beyond H entries, H - 1 are shown and then `...` |
| `RendererProperties.RenderShowsAll` | StatusConsole.cs:229-247 | at most H entries: entry i on line i, entry H - 1 (when there are exactly H) on the last line; the other lines are blank |
| `RendererProperties.RenderOverflow` | StatusConsole.cs:243-244 | more than H entries: the first H - 1 are drawn, and the last line is `...` |
| `RendererProperties.RenderSucceeds` | StatusConsole.cs:229-247 | the window is drawn whenever every row can be, except with no entries in a window of height 0, where index -1 is read |
| `RendererProperties.RowTextIgnoresCell` | StatusConsole.cs:259-316 | what a row shows does not depend on whether its cell is cached |
| `RendererProperties.RenderIgnoresCache` | StatusConsole.cs:259-316 | a second frame over the same entries draws the same window |
| `RendererProperties.UpdateKeepsCells` | StatusConsole.cs:164-180 | field updates keep every cached cell canonical |
| `RendererProperties.RemoveIdKeepsCells` | StatusConsole.cs:198 | removal keeps every cached cell canonical |
| `RendererProperties.ApplyCountKeepsCells` | StatusConsole.cs:169-180 | `length` and `progress` keep every cached cell canonical |
| `RendererProperties.ApplyToEntryKeepsCells` | StatusConsole.cs:164-201 | the cases on a live entry keep every cached cell canonical |
| `RendererProperties.ApplyNewKeepsCells` | StatusConsole.cs:144-163 | `new` starts with no cached cell |
| `RendererProperties.ApplyKeepsCellsCanonical` | StatusConsole.cs:129-211 | no record makes an entry cache a cell other than its own |
| `RendererProperties.CachedPrefixKeepsCells` | StatusConsole.cs:282-313 | drawing keeps every cached cell canonical |
| `Forwarding.Without` | CruftRemoverProxyMiddleware.cs:95 | `query.Remove` never adds entries |
| `Forwarding.Answer` | CruftRemoverProxyMiddleware.cs:159 | a read never returns more than it was asked for |
| `Forwarding.QueryStringCreate` | CruftRemoverProxyMiddleware.cs:100 | `QueryString.Create` without percent-encoding; `UnpiecesPieces` proves its pieces read back into the pairs |
| `Forwarding.QueryText` | CruftRemoverProxyMiddleware.cs:93-100 | the forwarded query string; `QueryRoundTrip` and `QueryTextEmpty` prove it holds exactly the non-`fbclid` pairs, and is empty exactly when none is left |
| `Forwarding.DestinationUri` | CruftRemoverProxyMiddleware.cs:103 | base URI, path and query string; `BuildForwardedRequest` sends to it |
| `Forwarding.RelayHeaders` | CruftRemoverProxyMiddleware.cs:117-146 | the header relay; `RelayResult` proves the headers are added whole and in order, and when an unparsable `Content-Length` stops it |
| `Forwarding.KnownLengthCopy` | CruftRemoverProxyMiddleware.cs:153-173 | the known-length loop on the stream's scripted reads and the abort answers; `KnownLengthBalance`, `KnownLengthReads`, `KnownLengthChunks` and `KnownLengthShortRead` state what it does |
| `Forwarding.UnknownLengthCopy` | CruftRemoverProxyMiddleware.cs:176-191 | the read-until-zero loop; `UnknownLengthReads`, `UnknownLengthChunks`, `UnknownLengthEnd`, `UnknownLengthTotal` and `UnknownLengthNegative` state what it does |
| `Forwarding.BodyCopy` | CruftRemoverProxyMiddleware.cs:151-192 | the known-length loop when `ContentLength` is declared, the other loop otherwise; `DeclaredLengthReported` and `UndeclaredLengthReported` state what each reports |
| `Forwarding.Responded` | CruftRemoverProxyMiddleware.cs:115-193 | after the reply: the relay's `length` events, then the copy's `progress` events unless the relay threw; `EndExactlyOnce` proves lengths come before progress |
| `Forwarding.Forwarded` | CruftRemoverProxyMiddleware.cs:111-193 | the `try` block after the request is built: `sent`, then a faulted send or `Responded`; `EndExactlyOnce` proves `sent` comes first |
| `Forwarding.Escapes` | CruftRemoverProxyMiddleware.cs:195 | a `TaskCanceledException` is swallowed and any other exception escapes; `InvokeAsync` ends with exactly this |
| `Forwarding.Lifecycle` | CruftRemoverProxyMiddleware.cs:77-199 | `new`, the `try` block's notifications, and `end` from the `finally`; `EndExactlyOnce` proves its order and that `end` comes once |
| `ForwardingProperties.WithoutAppend` | CruftRemoverProxyMiddleware.cs:93-95 | removal keeps the remaining entries in their order |
| `ForwardingProperties.WithoutMembers` | CruftRemoverProxyMiddleware.cs:93-95 | the surviving entries are exactly those with another key |
| `ForwardingProperties.WithoutAbsent` | CruftRemoverProxyMiddleware.cs:93-95 | a query without `fbclid` is forwarded unchanged |
| `ForwardingProperties.WithoutDictionary` | CruftRemoverProxyMiddleware.cs:93-95 | on a dictionary, removal takes out the one entry with the key |
| `ForwardingProperties.PairsWithout` | CruftRemoverProxyMiddleware.cs:95 | removing a key removes exactly the (key, value) pairs with that key |
| `ForwardingProperties.UnpiecesPieces` | CruftRemoverProxyMiddleware.cs:100 | the pieces of the created query string read back into the query's pairs |
| `ForwardingProperties.PiecesCount` | CruftRemoverProxyMiddleware.cs:100 | one piece per value |
| `ForwardingProperties.QueryRoundTrip` | CruftRemoverProxyMiddleware.cs:93-100 | the forwarded query string, read back, holds exactly the request's pairs whose key is not `fbclid`, with their values, in order |
| `ForwardingProperties.QueryTextEmpty` | CruftRemoverProxyMiddleware.cs:97-100 | the query string is `""` exactly when no pair survives, and starts with `?` otherwise |
| `ForwardingProperties.RelayResult` | CruftRemoverProxyMiddleware.cs:117-146 | headers are added in order and whole; the relay stops only after adding a `Content-Length` whose first value does not parse; otherwise every `Content-Length` value is reported, in order |
| `ForwardingProperties.KnownLengthBalance` | CruftRemoverProxyMiddleware.cs:153-173 | the progress reported never exceeds the declared length, and equals it exactly when the loop ends without an exception or an abort |
| `ForwardingProperties.KnownLengthReads` | CruftRemoverProxyMiddleware.cs:155-159 | each read asks for min(65536, what remains), between 1 and a buffer |
| `ForwardingProperties.KnownLengthChunks` | CruftRemoverProxyMiddleware.cs:159-171 | every count is at most what was asked; each chunk is written as read and reported, except the one the abort check stops |
| `ForwardingProperties.KnownLengthShortRead` | CruftRemoverProxyMiddleware.cs:161-162 | "Unexpected short read" is thrown exactly after a read of zero or less |
| `ForwardingProperties.KnownLengthEmptyGot` | CruftRemoverProxyMiddleware.cs:155-162 | a run with no read count did not end in the short-read exception |
| `ForwardingProperties.UnknownLengthReads` | CruftRemoverProxyMiddleware.cs:178 | every read asks for a whole buffer |
| `ForwardingProperties.UnknownLengthChunks` | CruftRemoverProxyMiddleware.cs:176-191 | each positive chunk is written as read and reported with its own size, except the one the abort check stops |
| `ForwardingProperties.UnknownLengthEnd` | CruftRemoverProxyMiddleware.cs:182-183 | the loop ends without an exception or an abort exactly at a zero read after the chunks it wrote |
| `ForwardingProperties.UnknownLengthTotal` | CruftRemoverProxyMiddleware.cs:176-191 | with no abort and no exception, the progress reported adds up to the bytes read |
| `ForwardingProperties.UnknownLengthNegative` | CruftRemoverProxyMiddleware.cs:180-181 | "I/O error" is thrown exactly after a negative read |
| `ForwardingProperties.EndExactlyOnce` | CruftRemoverProxyMiddleware.cs:77-199 | whenever `new` is sent (the remote address is known): `new` first, `sent` second, `end` exactly once and last, all for the request's id, and every `length` before every `progress` |
| `ForwardingProperties.ProgressedEvents` | CruftRemoverProxyMiddleware.cs:171 | the `progress` notifications add up to the reported deltas |
| `ForwardingProperties.ProgressedLengths` | CruftRemoverProxyMiddleware.cs:145 | `length` notifications add no progress |
| `ForwardingProperties.DeclaredLengthReported` | CruftRemoverProxyMiddleware.cs:113-173 | with a declared length, the progress never exceeds it, and a copy that ran to its end reported all of it |
| `ForwardingProperties.UndeclaredLengthReported` | CruftRemoverProxyMiddleware.cs:174-192 | without a declared length, a copy that ran to its end reported every byte read |
| `ForwardingProperties.RequestIdsIncrease` | CruftRemoverProxyMiddleware.cs:75 | ids go up by one per request until the `int` counter wraps to its minimum |
| `ProxyMiddleware.ReadBuffer.constructor` | CruftRemoverProxyMiddleware.cs:41-44 | a fresh 65536-byte buffer |
| `ProxyMiddleware.BufferPool.Get` | CruftRemoverProxyMiddleware.cs:56 | hands out a retained buffer when there is one, a fresh one otherwise, always 65536 bytes |
| `ProxyMiddleware.BufferPool.Return` | CruftRemoverProxyMiddleware.cs:63 | records the return, and retains the buffer while there is room |
| `ProxyMiddleware.ReadBufferLease.constructor` | CruftRemoverProxyMiddleware.cs:53-57 | the lease takes one buffer from the pool and keeps the pool |
| `ProxyMiddleware.ReadBufferLease.Dispose` | CruftRemoverProxyMiddleware.cs:59-66 | the first call returns the buffer and forgets the pool; later calls change nothing, so the buffer goes back exactly once |
| `ProxyMiddleware.ResponseStream.ReadAsync` | CruftRemoverProxyMiddleware.cs:159 | one read consumes one scripted result and never returns more than asked |
| `ProxyMiddleware.CancellationToken.IsCancellationRequested` | CruftRemoverProxyMiddleware.cs:166 | one check consumes one scripted answer |
| `ProxyMiddleware.HttpResponse.AddHeader` | CruftRemoverProxyMiddleware.cs:142 | appends the header with its values |
| `ProxyMiddleware.HttpResponse.WriteAsync` | CruftRemoverProxyMiddleware.cs:164 | appends one chunk of the given length to the body |
| `ProxyMiddleware.StatusNotifier.NotifyNewRequest` | IStatusConsoleSender.cs:8 | logs one `new` notification |
| `ProxyMiddleware.StatusNotifier.NotifyRequestSent` | IStatusConsoleSender.cs:9 | logs one `sent` notification |
| `ProxyMiddleware.StatusNotifier.NotifyRequestLength` | IStatusConsoleSender.cs:10 | logs one `length` notification |
| `ProxyMiddleware.StatusNotifier.NotifyRequestProgress` | IStatusConsoleSender.cs:11 | logs one `progress` notification |
| `ProxyMiddleware.StatusNotifier.NotifyRequestEnd` | IStatusConsoleSender.cs:12 | logs one `end` notification |
| `ProxyMiddleware.HttpClient.SendAsync` | CruftRemoverProxyMiddleware.cs:113 | records the request sent and returns the next scripted reply |
| `ProxyMiddleware.RequestCounter.Increment` | CruftRemoverProxyMiddleware.cs:75 | `Interlocked.Increment`: the counter goes up by one with `int` wrap-around and the new value is returned |
| `ProxyMiddleware.MergeValues` | CruftRemoverProxyMiddleware.cs:119-140 | the first value, and `StringValues` holding the header's values in the same order and number |
| `ProxyMiddleware.RelayHeader` | CruftRemoverProxyMiddleware.cs:119-145 | the header goes to the response whole; a `Content-Length` is then reported with its parsed first value, or throws exactly when that does not parse |
| `ProxyMiddleware.RelayResponseHeaders` | CruftRemoverProxyMiddleware.cs:117-146 | the loop adds the headers, reports the lengths and stops as `RelayHeaders` says |
| `ProxyMiddleware.KnownLengthUnfold` | CruftRemoverProxyMiddleware.cs:155-172 | one pass of the known-length loop: the run it starts with the first read, and what is left after it |
| `ProxyMiddleware.UnknownLengthUnfold` | CruftRemoverProxyMiddleware.cs:176-191 | one pass of the read-until-zero loop, the same way |
| `ProxyMiddleware.KnownLengthPass` | CruftRemoverProxyMiddleware.cs:155-172 | a pass either completes the run with its exception, or moves one chunk to the done part with 0 < bytesRead <= remaining |
| `ProxyMiddleware.UnknownLengthPass` | CruftRemoverProxyMiddleware.cs:176-191 | a pass either completes the run or moves one chunk, shortening the script |
| `ProxyMiddleware.CopyPass` | CruftRemoverProxyMiddleware.cs:157-190 | one read, one write, one abort check and one report, with exactly the logs `PassLogs` gives |
| `ProxyMiddleware.CopyKnownLength` | CruftRemoverProxyMiddleware.cs:153-173 | the loop asks, writes, checks and reports exactly as `KnownLengthCopy` says, and ends with its exception |
| `ProxyMiddleware.CopyUnknownLength` | CruftRemoverProxyMiddleware.cs:174-192 | the loop asks, writes, checks and reports exactly as `UnknownLengthCopy` says |
| `ProxyMiddleware.CopyContent` | CruftRemoverProxyMiddleware.cs:151-192 | the known-length loop when `ContentLength` is declared, the other otherwise |
| `ProxyMiddleware.BuildForwardedRequest` | CruftRemoverProxyMiddleware.cs:81-109 | the same method and headers, the URI `TargetBaseURI + Path + queryString`, and content only with a content type |
| `ProxyMiddleware.CruftRemoverProxyMiddleware.constructor` | CruftRemoverProxyMiddleware.cs:24-36 | wires the sender, the client, the pool and the shared counter |
| `ProxyMiddleware.CruftRemoverProxyMiddleware.CopyBody` | CruftRemoverProxyMiddleware.cs:148-193 | the copy through a leased buffer, as `BodyCopy` says, with the buffer returned exactly once |
| `ProxyMiddleware.CruftRemoverProxyMiddleware.Respond` | CruftRemoverProxyMiddleware.cs:115-193 | the status code, the relay, then the body copy when every header relayed, as `Responded` says |
| `ProxyMiddleware.CruftRemoverProxyMiddleware.Exchange` | CruftRemoverProxyMiddleware.cs:111-193 | `sent`, the send, and on a reply `Respond`, as `Forwarded` says; a buffer is leased exactly when the copy is reached |
| `ProxyMiddleware.CruftRemoverProxyMiddleware.InvokeAsync` | CruftRemoverProxyMiddleware.cs:73-200 | a new id; no remote address throws before any notification; otherwise the notifications are `new`, the exchange's and `end`, the request sent is the rewritten one, and only a non-cancellation exception escapes |
| `ProcessLaunch.BuildCommandLine` | ProcessEx.cs:208-237 | the builder's appends give `CommandLine`: the quoted trimmed name, then a space and the arguments when there are any |
| `ProcessLaunch.CommandLineStartsQuoted` | ProcessEx.cs:216-223 | the command line begins with `"` and with the executable part |
| `ProcessLaunch.CommandLineArguments` | ProcessEx.cs:230-234 | `" " + arguments` follows the executable part exactly when the arguments are non-empty |
| `ProcessLaunch.CommandLineExecutable` | ProcessEx.cs:216-228 | for a name without quotes of its own, the file to run is the trimmed name, whatever the arguments hold |
| `ProcessLaunch.QuotedNameShape` | ProcessEx.cs:217-228 | an already-quoted name is used verbatim and any other is wrapped in quotes |
| `ProcessLaunch.BelowIrreflexive` | ProcessEx.cs:302 | the model's ordinal order is irreflexive |
| `ProcessLaunch.BelowTransitive` | ProcessEx.cs:302 | the model's ordinal order is transitive |
| `ProcessLaunch.BelowTotal` | ProcessEx.cs:302 | the model's ordinal order is total on distinct keys |
| `ProcessLaunch.Insert` | ProcessEx.cs:302 | inserting a key into sorted keys keeps them sorted and adds exactly that key |
| `ProcessLaunch.SortedKeys` | ProcessEx.cs:302 | the keys of a set listed in the model's ordinal order, as a definition; the source's `OrderBy` sorts by the current culture instead (see Left out) |
| `ProcessLaunch.KeyOrderUnique` | ProcessEx.cs:302 | only one sequence lists a set of keys in the model's ordinal order |
| `ProcessLaunch.OrderByKey` | ProcessEx.cs:302 | the loop lists every key of the dictionary once, sorted in ordinal order; `OrderBy(e => e.Key)` itself uses the culture-sensitive default comparer, so the model substitutes ordinal order (see Left out) |
| `ProcessLaunch.Entries` | ProcessEx.cs:302-308 | one `key=value` entry per key |
| `ProcessLaunch.TerminatedSnoc` | ProcessEx.cs:304-307 | one more entry of the loop appends it with its `'\0'` |
| `ProcessLaunch.Utf16` | ProcessEx.cs:316 | `Encoding.Unicode` gives at least two bytes per character |
| `ProcessLaunch.ToByteArray` | ProcessEx.cs:298-327 | the block is the `key=value\0` entries, in the model's ordinal key order, and a final `\0`, in UTF-16; in the default encoding, more than 65535 bytes is an error |
| `ProcessLaunch.BlockOfEmpty` | ProcessEx.cs:300-310 | an empty dictionary gives just `"\0"` |
| `ProcessLaunch.MapOfEntries` | ProcessEx.cs:300-308 | the entries read back into the dictionary's keys and values |
| `ProcessLaunch.BlockEntriesOf` | ProcessEx.cs:300-310 | the block splits back into exactly its entries |
| `ProcessLaunch.BlockRoundTrip` | ProcessEx.cs:300-310 | a process reading the block back finds the dictionary it was built from, when no key holds `=` and nothing holds `'\0'` |
| `ProcessLaunch.CreationFlagsBits` | ProcessEx.cs:94-103 | always CREATE_NEW_CONSOLE; CREATE_NO_WINDOW exactly when asked; CREATE_UNICODE_ENVIRONMENT exactly when there is an environment; no other bit |
| `ProcessLaunch.StartNewConsole` | ProcessEx.cs:22-115 | the first failing check's exception; otherwise the command line, the flags, the UTF-16 environment block and the working directory (the current one when none is given) |
| `ProcessLaunch.StartNewConsoleChecks` | ProcessEx.cs:24-115 | an output encoding without redirect, an error encoding without redirect, or a user name fail, in that order, and nothing else does |
| `ProcessLaunch.QuotedName` | ProcessEx.cs:216-228 | the trimmed file name, quoted unless it already is; `QuotedNameShape` states both cases |
| `ProcessLaunch.CommandLine` | ProcessEx.cs:208-237 | the quoted name, then a space and the arguments when there are any; `CommandLineStartsQuoted`, `CommandLineArguments` and `CommandLineExecutable` state its parts |
| `ProcessLaunch.Block` | ProcessEx.cs:300-310 | the `key=value\0` entries in ordinal key order and a final `\0`; `BlockRoundTrip`, `BlockEntriesOf` and `BlockOfEmpty` state what it holds, and `BlockRoundTrip` holds whatever the order |
| `ProcessLaunch.CreationFlags` | ProcessEx.cs:94-103 | the creation flags; `CreationFlagsBits` states which bits are set and when |
| `ProcessLaunch.CheckError` | ProcessEx.cs:24-115 | the first check that throws, if any; `StartNewConsoleChecks` states each check's condition and their order |

## Left out

- Console I/O is not modelled: cursor positioning, window sizing and the `Console.ReadLine` loop of `Run`. `StatusConsole.Run` and `Launch` are not modelled; the window width and height are parameters.
- Concurrency and timing are modelled sequentially:
  - `ActionBlock` applies records in order, one at a time: `ApplyAll`;
  - the `AutoResetEvent` render trigger is a flag;
  - `Task.Delay(200)` is a pending `remove` record in `delayed`;
  - the `lock` in `Deliver` and `Interlocked.Increment` are plain steps;
  - the static request counter is one `RequestCounter` object that the middlewares share.
- The catch block of `ProcessUpdate` prints the exception; only the exiting flag it sets is modelled.
- `StatusMonitor.StatusConsole.ProcessCount` parses the number before it sets the state. The source sets the state first. Parsing writes nothing, so the final state is the same, and the contract is stated on that final state.
- `StatusMonitor.StatusConsole.RenderRequests` states the frame and the cached cells. The text reaches the console as one value, not write by write. When a line throws, the cells of the entries already drawn are cached, as in the source, but the partial frame is not modelled.
- The cached-cell invariant (`CellsCanonical`) is proved on the values, not carried by the class's `Valid`.
- Number formatting uses the invariant culture: `ToString()` and `#,###,###,##0`.
- `ProcessLaunch.OrderByKey`, `ProcessLaunch.SortedKeys`, `ProcessLaunch.Block` and `ProcessLaunch.ToByteArray`: `sd.OrderBy(e => e.Key)` at ProcessEx.cs:302 has no comparer, so it sorts by `Comparer<string>.Default`, the current culture's collation. The model sorts by ordinal order on characters instead. The two differ even on ASCII keys: the culture puts "a" before "B" and "_FOO" before "ALLUSERSPROFILE", ordinal order the reverse. So the order of the environment block's entries can differ from the source's. Culture collation is not modelled: it depends on the machine's culture, and it can rank distinct keys equal, leaving their order to the dictionary's enumeration. What the model proves about the block's contents (`BlockRoundTrip`, `BlockEntriesOf`) holds whatever the order.
- `UpdateProcessor.TruncateClientIP`, `Renderer.QueryCutAsWritten`, `Renderer.MiddleSpliceAsWritten`, `Renderer.BluntCut`, `Renderer.TruncateAsWritten`: lengths and cuts count Unicode scalar values (Dafny `char`), where C#'s `Length` and `Substring` count UTF-16 code units. A character beyond the first plane counts twice there, and a cut can split its surrogate pair. This does not arise in practice: the path reaches the monitor percent-encoded, and client addresses and HTTP methods are ASCII.
- The default encoding of `ToByteArray`'s non-Unicode path is a parameter. The code does not define it.
- `QueryString.Create` is modelled without its percent-encoding. The model pieces `key=value` together and joins them with `&`, so the query round trip is proved for keys without `=` or `&` and values without `&`.
- Parsing the URI and looking up or caching the `HttpMethod` (lines 83-88) are not modelled; the method name and the URI text are carried through as strings.
- `TryAddWithoutValidation` and `MediaTypeHeaderValue` are not modelled:
  - the request headers are copied one by one as given;
  - a header the message would refuse is not dropped;
  - a content type that does not parse does not throw.
- `HeaderDictionary.Add` can throw on a duplicate key. The model assumes keys are unique and does not model that exception.
- Body bytes are not modelled. The model tracks the length asked of each read, the count returned and the length of each chunk written.
- Write failures and `ReadAsStreamAsync` failures are not modelled. A read failure is a scripted `Throw` step; a write is assumed to succeed.
- `using` disposes the response stream; that disposal is not modelled. Disposing the buffer lease is modelled.
- `ProxyMiddleware.BufferPool` models the provider's `DefaultObjectPool` as a bounded stack. The real pool's retention order may differ; `Get` and `Return` as the middleware uses them are what is modelled.
- `IStatusConsoleSender` inside the middleware is the log of notifications it receives (`StatusNotifier`). The sender class itself is modelled in `TelemetrySender`.
- `ContentLength` of the response content is an independent field of the response head. In .NET it is derived from the `Content-Length` header.
- `ProcessEx` below the checks is not modelled:
  - the pipes and standard handles for redirection (lines 61-90);
  - `CreateProcess`;
  - the reflection into `Process` and `SafeProcessHandle`;
  - the wrapping of the handles into a `Process`;
  - the files NativeMethods.cs, SafeNativeMethods.cs and SafeThreadHandle.cs.
- The message text of the standard-error encoding check (line 27) is not modelled. It says "standard output", but only the kind of exception is kept.
- `ProcessLaunch.CommandLineStartsQuoted`: when the trimmed file name is a single `"`, the quote is not closed. The lemma states only the leading quote and the executable prefix, not a closing quote.
- Program.cs, Startup.cs and CruftRemoverProxyMiddlewareExtensions.cs hold only hosting configuration, and are not part of this model.

## Findings

| source | as written | input that shows it | evidently intended | confidence | as-written member | corrected member |
|---|---|---|---|---|---|---|
| StatusConsole.cs:269-285 | the query-string length counts the `?` itself, so the first pass's middle cut keeps 24 characters, one more than the cell; the second pass then truncates and the end of the query is never shown | `GET /p?abcdefghijklmnopqrstuvwxyz` becomes `GET /p?abcdefg...tuv...` | the 23-character cut of the comment's `abcde?12...89`, which keeps the end of the query: `GET /p?abcdef...tuvwxyz` | not executed | `RendererProperties.FirstPassOvershoots` | `Renderer.QueryCut` |
| StatusConsole.cs:292-302 | the second piece of the second pass's middle cut starts `remove` characters after the first, so the inserted `...` is not paid for and the result is 26 characters wide | a 24-character text whose `?` is at index 8 or later and whose first pass kept it whole | a cut of exactly 23 characters, starting the second piece `remove + 3` characters later | not executed | `RendererProperties.SecondPassOvershoots` | `Renderer.MiddleSplice` |
| StatusConsole.cs:144-153 | the live entry is removed from the list before the fields the record lacks are read, so a `new` record with fewer than five fields leaves the entry in the dictionary but not in the list | `<id> new` for a live id | a malformed record changes nothing but the exiting flag, keeping the list and the dictionary in step | not executed | `UpdateProcessorProperties.TruncatedNewDesynchronizes` | `UpdateProcessor.ApplyNewFieldsFirst` |

The as-written passes are `Renderer.QueryCutAsWritten`, `Renderer.MiddleSpliceAsWritten` and `Renderer.TruncateAsWritten`. The lemmas `RendererProperties.TruncateAsWrittenExample`, `RendererProperties.TruncateAsWrittenEndsWithEllipsis` and `RendererProperties.TruncateFits` state what they do. The corrected passes make up `Renderer.Truncate`. `RendererProperties.TruncateFits`, `RendererProperties.TruncateShowsQueryEnd` and `RendererProperties.TruncateExample` are proved about it.

The monitor's model draws and caches the cell as the code computes it (`Renderer.MethodPathCell` uses `TruncateAsWritten`), so every row and frame lemma describes the screen the program draws. The corrected cut is kept next to it, with its properties proved.

Likewise, `Apply` keeps the code's order for `new`, and `ApplyNewFieldsFirst` is the corrected variant. With no `?` in the text, `IndexOf` gives -1 and the first pass still runs, as in the code.
