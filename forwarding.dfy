/**
 * What `CruftRemoverProxyMiddleware.InvokeAsync` computes, as values: the
 * rewritten query, the destination URI, the relay of upstream headers and
 * the two body-copy loops, each as a run over scripted read results. The
 * loops themselves, over the middleware's objects, are in `ProxyMiddleware`
 * and are proved equal to these definitions.
 */
module Forwarding {
  import opened Wrappers
  import opened Numbers
  import opened Strings
  import opened LineProtocol

  /** The capacity of a `ReadBuffer`: `new byte[65536]`. */
  const BUFFER_SIZE: int := 65536

  /** The query key the proxy exists to remove. */
  const CLICK_ID: string := "fbclid"

  /** A query parameter or a header: a key with its `StringValues`. */
  datatype KeyValues = KeyValues(key: string, values: seq<string>)

  /**
   * The exceptions that can end an exchange. `TaskCanceled` is the only one
   * `InvokeAsync` swallows; `Transport` stands for every other exception the
   * HTTP client or the streams may throw.
   */
  datatype Fault =
    | TaskCanceled
    | Transport
    | NullReference         // `RemoteIpAddress.ToString()` on a connection without one
    | UnexpectedShortRead   // the known-length loop's own exception
    | NegativeRead          // the unknown-length loop's "I/O error"
    | BadContentLength      // `long.Parse` of the first `Content-Length` value

  // ---- the query rewrite -------------------------------------------------

  /** `query.Remove(key)` on the copied query, keeping the order of the rest. */
  function Without(q: seq<KeyValues>, key: string): (r: seq<KeyValues>)
    ensures |r| <= |q|
  {
    if q == [] then []
    else if q[0].key == key then Without(q[1..], key)
    else [q[0]] + Without(q[1..], key)
  }

  /** One `key=value` piece per value, in order (no percent-encoding). */
  function Pieces(q: seq<KeyValues>): seq<string>
  {
    if q == [] then [] else ValuePieces(q[0].key, q[0].values) + Pieces(q[1..])
  }

  function ValuePieces(key: string, values: seq<string>): seq<string>
  {
    if values == [] then [] else [key + "=" + values[0]] + ValuePieces(key, values[1..])
  }

  /** `QueryString.Create(query).ToString()`: `?` and the pieces joined by `&`. */
  function QueryStringCreate(q: seq<KeyValues>): string
  {
    var pieces := Pieces(q);
    if pieces == [] then "" else "?" + Join(pieces, '&')
  }

  /** The forwarded query string: the request's query less `fbclid`, `""` when nothing is left. */
  function QueryText(q: seq<KeyValues>): string
  {
    var query := Without(q, CLICK_ID);
    if |query| > 0 then QueryStringCreate(query) else ""
  }

  /** `new Uri(TargetBaseURI + Path + queryString)`, before the URI is parsed. */
  function DestinationUri(targetBaseUri: string, path: string, q: seq<KeyValues>): string
  {
    targetBaseUri + path + QueryText(q)
  }

  predicate DistinctKeys(q: seq<KeyValues>)
  {
    forall i, j :: 0 <= i < j < |q| ==> q[i].key != q[j].key
  }

  // ---- the header relay --------------------------------------------------

  predicate IsContentLength(key: string)
  {
    EqualsIgnoreCase(key, "Content-Length")
  }

  /** `long.Parse(firstValue)`: `None` for a missing first value or unparsable text. */
  function ParseFirstValue(values: seq<string>): Option<int>
  {
    if values == [] then None else ParseInt64(values[0])
  }

  /**
   * The headers added to the response, the `length` notifications sent,
   * and the exception that stopped the relay, if one did.
   */
  datatype Relay = Relay(added: seq<KeyValues>, lengths: seq<int>, fault: Option<Fault>)

  /**
   * The header loop: every upstream header goes to the response with its
   * values, and a `Content-Length` header is then parsed and reported; a
   * value that does not parse throws after its header was added.
   */
  function RelayHeaders(hs: seq<KeyValues>): (r: Relay)
  {
    if hs == [] then Relay([], [], None)
    else
      var h := hs[0];
      if IsContentLength(h.key) && ParseFirstValue(h.values).None? then
        Relay([h], [], Some(BadContentLength))
      else
        var rest := RelayHeaders(hs[1..]);
        var lengths := if IsContentLength(h.key) then [ParseFirstValue(h.values).value] else [];
        Relay([h] + rest.added, lengths + rest.lengths, rest.fault)
  }

  /** Every `Content-Length` header has a first value that parses. */
  predicate LengthsParse(hs: seq<KeyValues>)
  {
    forall i :: 0 <= i < |hs| && IsContentLength(hs[i].key) ==> ParseFirstValue(hs[i].values).Some?
  }

  /** The parsed first values of the `Content-Length` headers, in order. */
  function ContentLengths(hs: seq<KeyValues>): seq<int>
    requires LengthsParse(hs)
  {
    if hs == [] then []
    else
      (if IsContentLength(hs[0].key) then [ParseFirstValue(hs[0].values).value] else [])
      + ContentLengths(hs[1..])
  }

  // ---- the body copy -----------------------------------------------------

  /**
   * What one `ReadAsync` does: return a count (a negative one is a broken
   * stream) or throw, either `TaskCanceledException` or another exception.
   * A conforming stream never returns more than it was asked for, so a
   * scripted count above the request is cut to it.
   */
  datatype ReadStep = Chunk(size: int) | Throw(canceled: bool)

  /** The next read of a script; a stream whose script is used up is at its end. */
  function Head(steps: seq<ReadStep>): ReadStep
  {
    if steps == [] then Chunk(0) else steps[0]
  }

  function Rest<T>(s: seq<T>): (r: seq<T>)
    ensures |r| == if s == [] then 0 else |s| - 1
  {
    if s == [] then [] else s[1..]
  }

  /** Whether `RequestAborted.IsCancellationRequested` after the next write; unscripted checks say no. */
  function AbortHead(aborts: seq<bool>): bool
  {
    aborts != [] && aborts[0]
  }

  /** The result of a read asking for `count` bytes. */
  function Answer(step: ReadStep, count: int): (r: Result<int, Fault>)
    ensures r.Ok? ==> r.value <= count
  {
    match step
    case Chunk(v) => Ok(if v > count then count else v)
    case Throw(canceled) => Err(if canceled then TaskCanceled else Transport)
  }

  /**
   * One run of a copy loop: the length asked of each read, the count each
   * read returned, the chunks written downstream, the deltas reported as
   * `progress`, the exception that ended the run, and whether it ended at
   * the abort check.
   */
  datatype Copy = Copy(asked: seq<int>, got: seq<int>, writes: seq<int>, reports: seq<int>,
                       fault: Option<Fault>, aborted: bool)

  /** One successful, written and reported chunk in front of the rest of a run. */
  function Then(asked: int, n: int, c: Copy): Copy
  {
    Copy([asked] + c.asked, [n] + c.got, [n] + c.writes, [n] + c.reports, c.fault, c.aborted)
  }

  function Min(a: int, b: int): int { if a < b then a else b }

  function Max0(a: int): int { if a < 0 then 0 else a }

  /**
   * The known-length loop: while bytes remain, ask for at most one buffer
   * and at most what remains; a read of zero or less throws; each chunk is
   * written, the abort check may end the loop, and then the chunk is
   * counted off and reported.
   */
  function KnownLengthCopy(steps: seq<ReadStep>, aborts: seq<bool>, remaining: int, capacity: int): Copy
    requires capacity > 0
    decreases Max0(remaining)
  {
    if remaining <= 0 then Copy([], [], [], [], None, false)
    else
      var readLength := if remaining > capacity then capacity else remaining;
      match Answer(Head(steps), readLength)
      case Err(f) => Copy([readLength], [], [], [], Some(f), false)
      case Ok(n) =>
        if n <= 0 then Copy([readLength], [n], [], [], Some(UnexpectedShortRead), false)
        else if AbortHead(aborts) then Copy([readLength], [n], [n], [], None, true)
        else Then(readLength, n, KnownLengthCopy(Rest(steps), Rest(aborts), remaining - n, capacity))
  }

  /**
   * The unknown-length loop: ask for a whole buffer each time; a negative
   * count throws, zero ends the copy; each chunk is written, the abort
   * check may end the loop, and then the chunk is reported.
   */
  function UnknownLengthCopy(steps: seq<ReadStep>, aborts: seq<bool>, capacity: int): Copy
    requires capacity > 0
    decreases |steps|
  {
    match Answer(Head(steps), capacity)
    case Err(f) => Copy([capacity], [], [], [], Some(f), false)
    case Ok(n) =>
      if n < 0 then Copy([capacity], [n], [], [], Some(NegativeRead), false)
      else if n == 0 then Copy([capacity], [0], [], [], None, false)
      else if AbortHead(aborts) then Copy([capacity], [n], [n], [], None, true)
      else
        assert steps != [];
        Then(capacity, n, UnknownLengthCopy(Rest(steps), Rest(aborts), capacity))
  }

  function Sum(s: seq<int>): int
  {
    if s == [] then 0 else s[0] + Sum(s[1..])
  }

  /** Every chunk is reported after it is written, except the one the abort check stops. */
  predicate ReportsFollowWrites(c: Copy)
  {
    && (forall i :: 0 <= i < |c.writes| ==> c.writes[i] > 0)
    && (if c.aborted then |c.writes| == |c.reports| + 1 && c.reports == c.writes[..|c.reports|]
        else c.reports == c.writes)
  }

  // ---- one exchange ------------------------------------------------------

  /** The response as `SendAsync` returns it once its headers are in, without its body. */
  datatype ResponseHead = ResponseHead(statusCode: int, headers: seq<KeyValues>,
                                       contentHeaders: seq<KeyValues>, contentLength: Option<int>)

  /** One `length` notification per value, in order. */
  function LengthEvents(id: int, lengths: seq<int>): (es: seq<Notification>)
  {
    seq(|lengths|, k requires 0 <= k < |lengths| => RequestLength(id, lengths[k]))
  }

  /** One `progress` notification per delta, in order. */
  function ProgressEvents(id: int, deltas: seq<int>): (es: seq<Notification>)
  {
    seq(|deltas|, k requires 0 <= k < |deltas| => RequestProgress(id, deltas[k]))
  }

  lemma LengthEventsAppend(id: int, lengths: seq<int>, more: seq<int>)
    ensures LengthEvents(id, lengths + more) == LengthEvents(id, lengths) + LengthEvents(id, more)
  {
  }

  lemma ProgressEventsSnoc(id: int, deltas: seq<int>, n: int)
    ensures ProgressEvents(id, deltas + [n]) == ProgressEvents(id, deltas) + [RequestProgress(id, n)]
  {
  }

  /** What the body copy does for a response head: the known-length loop when the length is declared. */
  function BodyCopy(head: ResponseHead, steps: seq<ReadStep>, aborts: seq<bool>): Copy
  {
    if head.contentLength.Some? then KnownLengthCopy(steps, aborts, head.contentLength.value, BUFFER_SIZE)
    else UnknownLengthCopy(steps, aborts, BUFFER_SIZE)
  }

  /** The notifications sent inside the `try`, and the exception that left it, if any. */
  datatype Outcome = Outcome(events: seq<Notification>, fault: Option<Fault>)

  /**
   * What follows a successful send: the relay of the response headers and
   * content headers, then the body copy over the response stream's reads.
   */
  function Responded(id: int, head: ResponseHead, steps: seq<ReadStep>, aborts: seq<bool>): Outcome
  {
    var relay := RelayHeaders(head.headers + head.contentHeaders);
    var lengths := LengthEvents(id, relay.lengths);
    if relay.fault.Some? then Outcome(lengths, relay.fault)
    else
      var copy := BodyCopy(head, steps, aborts);
      Outcome(lengths + ProgressEvents(id, copy.reports), copy.fault)
  }

  /** The `try` block of `InvokeAsync` after the request is built: `sent`, then the send and what follows it. */
  function Forwarded(id: int, reply: Result<ResponseHead, Fault>, steps: seq<ReadStep>, aborts: seq<bool>): Outcome
  {
    match reply
    case Err(f) => Outcome([RequestSent(id)], Some(f))
    case Ok(head) =>
      var o := Responded(id, head, steps, aborts);
      Outcome([RequestSent(id)] + o.events, o.fault)
  }

  /** The `catch (TaskCanceledException)`: that exception ends the exchange quietly, others escape. */
  function Escapes(fault: Option<Fault>): Option<Fault>
  {
    if fault == Some(TaskCanceled) then None else fault
  }

  /** Every notification of one exchange: `new`, the `try` block's, and `end` from the `finally`. */
  function Lifecycle(id: int, clientIP: string, httpMethod: string, path: string, o: Outcome): seq<Notification>
  {
    [NewRequest(id, clientIP, httpMethod, path)] + o.events + [RequestEnd(id)]
  }
}
