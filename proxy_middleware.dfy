/**
 * `CruftRemoverProxyMiddleware` over objects: the buffer pool and its
 * lease, the upstream response stream, the abort token, the downstream
 * response, the status notifier and the upstream client. Each loop of
 * `InvokeAsync` is a method proved equal to its definition in `Forwarding`,
 * and `InvokeAsync` itself is proved to send exactly the notifications of
 * `Forwarding.Lifecycle`.
 */
module ProxyMiddleware {
  import opened Wrappers
  import opened Numbers
  import opened Strings
  import opened LineProtocol
  import opened Forwarding

  // ---- buffers, the pool and the lease -----------------------------------

  class ReadBuffer {
    const buffer: array<bv8>

    constructor ()
      ensures buffer.Length == BUFFER_SIZE && fresh(buffer)
    {
      buffer := new bv8[BUFFER_SIZE];
    }
  }

  /**
   * The `ObjectPool<ReadBuffer>` the provider creates: it hands out a
   * retained buffer when it has one and a new one otherwise, and keeps a
   * returned buffer only while fewer than `maximumRetained` are retained.
   * `returned` records every `Return` call.
   */
  class BufferPool {
    const maximumRetained: nat
    var items: seq<ReadBuffer>
    ghost var returned: seq<ReadBuffer>

    constructor (maximumRetained: nat)
      ensures this.maximumRetained == maximumRetained && items == [] && returned == []
      ensures Valid()
    {
      this.maximumRetained := maximumRetained;
      items := [];
      returned := [];
    }

    predicate Valid()
      reads this
    {
      && |items| <= maximumRetained
      && forall i :: 0 <= i < |items| ==> items[i].buffer.Length == BUFFER_SIZE
    }

    method Get() returns (b: ReadBuffer)
      requires Valid()
      modifies this`items
      ensures Valid() && b.buffer.Length == BUFFER_SIZE
      ensures if old(items) == [] then fresh(b) && items == []
              else b == old(items)[0] && items == old(items)[1..]
    {
      if items == [] {
        b := new ReadBuffer();
      } else {
        b := items[0];
        items := items[1..];
      }
    }

    method Return(b: ReadBuffer)
      modifies this`items, this`returned
      ensures returned == old(returned) + [b]
      ensures items == if |old(items)| < maximumRetained then [b] + old(items) else old(items)
      ensures old(Valid()) && b.buffer.Length == BUFFER_SIZE ==> Valid()
    {
      returned := returned + [b];
      if |items| < maximumRetained {
        items := [b] + items;
      }
    }
  }

  /** `ReadBufferLease`: takes a buffer from the pool and gives it back on the first `Dispose`. */
  class ReadBufferLease {
    var pool: Option<BufferPool>
    const bufferObject: ReadBuffer

    constructor (pool: BufferPool)
      requires pool.Valid()
      modifies pool`items
      ensures this.pool == Some(pool) && pool.Valid()
      ensures bufferObject.buffer.Length == BUFFER_SIZE
      ensures if old(pool.items) == [] then fresh(bufferObject) && pool.items == []
              else bufferObject == old(pool.items)[0] && pool.items == old(pool.items)[1..]
    {
      var b := pool.Get();
      this.pool := Some(pool);
      bufferObject := b;
    }

    function Pools(): set<BufferPool>
      reads this`pool
    {
      if pool.Some? then {pool.value} else {}
    }

    /**
     * The first call returns the buffer and forgets the pool; every later
     * call finds no pool and changes nothing, so the buffer goes back once.
     */
    method Dispose()
      modifies this`pool, Pools()
      ensures pool == None
      ensures old(pool).Some? ==>
        && old(pool).value.returned == old(pool.value.returned) + [bufferObject]
        && old(pool).value.items == (if |old(pool.value.items)| < old(pool).value.maximumRetained
                                     then [bufferObject] + old(pool.value.items) else old(pool.value.items))
        && (old(pool.value.Valid()) && bufferObject.buffer.Length == BUFFER_SIZE ==> old(pool).value.Valid())
    {
      if pool.Some? {
        pool.value.Return(bufferObject);
        pool := None;
      }
    }
  }

  // ---- the objects an exchange talks to ----------------------------------

  /** The upstream body as `ReadAsStreamAsync` returns it: a script of read results. */
  class ResponseStream {
    var script: seq<ReadStep>
    var asked: seq<int>

    constructor (script: seq<ReadStep>)
      ensures this.script == script && asked == []
    {
      this.script := script;
      asked := [];
    }

    /** `ReadAsync(buffer, offset, count, token)`; only the count of bytes read is modelled. */
    method ReadAsync(buffer: array<bv8>, offset: int, count: int) returns (r: Result<int, Fault>)
      requires 0 <= offset && 0 <= count && offset + count <= buffer.Length
      modifies this
      ensures asked == old(asked) + [count] && script == Rest(old(script))
      ensures r == Answer(Head(old(script)), count)
    {
      asked := asked + [count];
      r := Answer(Head(script), count);
      script := Rest(script);
    }
  }

  /** `HttpContext.RequestAborted`: the answers its `IsCancellationRequested` checks give, in turn. */
  class CancellationToken {
    var checks: seq<bool>

    constructor (checks: seq<bool>)
      ensures this.checks == checks
    {
      this.checks := checks;
    }

    method IsCancellationRequested() returns (b: bool)
      modifies this
      ensures b == AbortHead(old(checks)) && checks == Rest(old(checks))
    {
      b := AbortHead(checks);
      checks := Rest(checks);
    }
  }

  /** `HttpContext.Response`: its status code, the headers added, and the length of each body write. */
  class HttpResponse {
    var statusCode: int
    var headers: seq<KeyValues>
    var body: seq<int>

    constructor ()
      ensures statusCode == 200 && headers == [] && body == []
    {
      statusCode := 200;
      headers := [];
      body := [];
    }

    method AddHeader(key: string, values: seq<string>)
      modifies this`headers
      ensures headers == old(headers) + [KeyValues(key, values)]
    {
      headers := headers + [KeyValues(key, values)];
    }

    method WriteAsync(buffer: array<bv8>, offset: int, count: int)
      requires 0 <= offset && 0 <= count && offset + count <= buffer.Length
      modifies this`body
      ensures body == old(body) + [count]
    {
      body := body + [count];
    }
  }

  /** `IStatusConsoleSender` as the log of the notifications it was given. */
  class StatusNotifier {
    var events: seq<Notification>

    constructor ()
      ensures events == []
    {
      events := [];
    }

    method NotifyNewRequest(requestID: int, clientIP: string, httpMethod: string, path: string)
      modifies this
      ensures events == old(events) + [NewRequest(requestID, clientIP, httpMethod, path)]
    {
      events := events + [NewRequest(requestID, clientIP, httpMethod, path)];
    }

    method NotifyRequestSent(requestID: int)
      modifies this
      ensures events == old(events) + [RequestSent(requestID)]
    {
      events := events + [RequestSent(requestID)];
    }

    method NotifyRequestLength(requestID: int, expectedLength: int)
      modifies this
      ensures events == old(events) + [RequestLength(requestID, expectedLength)]
    {
      events := events + [RequestLength(requestID, expectedLength)];
    }

    method NotifyRequestProgress(requestID: int, bytesProgress: int)
      modifies this
      ensures events == old(events) + [RequestProgress(requestID, bytesProgress)]
    {
      events := events + [RequestProgress(requestID, bytesProgress)];
    }

    method NotifyRequestEnd(requestID: int)
      modifies this
      ensures events == old(events) + [RequestEnd(requestID)]
    {
      events := events + [RequestEnd(requestID)];
    }
  }

  /** The `HttpRequestMessage` the proxy sends upstream. */
  datatype ForwardedRequest = ForwardedRequest(httpMethod: string, requestUri: string,
                                               headers: seq<KeyValues>, contentType: Option<string>)

  /** What `SendAsync` completes with once the response headers are read. */
  datatype UpstreamResponse = UpstreamResponse(head: ResponseHead, content: ResponseStream)

  /** `HttpClient`: the replies it gives to successive sends, and the requests sent so far. */
  class HttpClient {
    const replies: seq<Result<UpstreamResponse, Fault>>
    var sent: seq<ForwardedRequest>

    constructor (replies: seq<Result<UpstreamResponse, Fault>>)
      ensures this.replies == replies && sent == []
    {
      this.replies := replies;
      sent := [];
    }

    /** The reply to the next send; an unscripted send fails. */
    function Next(): Result<UpstreamResponse, Fault>
      reads this`sent
    {
      if |sent| < |replies| then replies[|sent|] else Err(Transport)
    }

    function Streams(): set<ResponseStream>
    {
      set i | 0 <= i < |replies| && replies[i].Ok? :: replies[i].value.content
    }

    method SendAsync(request: ForwardedRequest) returns (r: Result<UpstreamResponse, Fault>)
      modifies this`sent
      ensures sent == old(sent) + [request] && r == old(Next())
      ensures r.Ok? ==> r.value.content in Streams()
    {
      r := Next();
      sent := sent + [request];
    }
  }

  /** The response head of a reply, without its stream. */
  function HeadOf(reply: Result<UpstreamResponse, Fault>): Result<ResponseHead, Fault>
  {
    match reply
    case Ok(r) => Ok(r.head)
    case Err(f) => Err(f)
  }

  /** The reads the stream of a reply still has in store. */
  function ScriptOf(reply: Result<UpstreamResponse, Fault>): seq<ReadStep>
    reads if reply.Ok? then {reply.value.content} else {}
  {
    if reply.Ok? then reply.value.content.script else []
  }

  /** `Interlocked.Increment` on the static `s_nextRequestID`, shared by every middleware. */
  class RequestCounter {
    var value: int

    constructor ()
      ensures value == 0
    {
      value := 0;
    }

    method Increment() returns (v: int)
      modifies this
      ensures value == Wrap32(old(value) + 1) && v == value && IsInt32(v)
    {
      value := Wrap32(value + 1);
      v := value;
    }
  }

  /** The parts of `HttpContext.Request` the proxy reads. */
  datatype HttpRequest = HttpRequest(remoteIpAddress: Option<string>, httpMethod: string, path: string,
                                     query: seq<KeyValues>, headers: seq<KeyValues>,
                                     contentType: Option<string>)

  // ---- the loops of InvokeAsync ------------------------------------------

  /**
   * The inner header loop: the first value, and the `StringValues` built
   * from the first value alone or from the list of all values, which holds
   * the header's values in order either way.
   */
  method MergeValues(values: seq<string>) returns (firstValue: Option<string>, merged: seq<string>)
    ensures firstValue == if values == [] then None else Some(values[0])
    ensures merged == values
  {
    firstValue := None;
    var allValues: Option<seq<string>> := None;
    var i := 0;
    while i < |values|
      invariant 0 <= i <= |values|
      invariant firstValue == if i == 0 then None else Some(values[0])
      invariant allValues == if i <= 1 then None else Some(values[..i])
    {
      var value := values[i];
      if firstValue.None? {
        firstValue := Some(value);
      } else {
        if allValues.None? {
          allValues := Some([firstValue.value]);
          assert values[..1] == [values[0]];
        }
        assert values[..i + 1] == values[..i] + [value];
        allValues := Some(allValues.value + [value]);
      }
      i := i + 1;
    }
    if allValues.None? {
      merged := if firstValue.None? then [] else [firstValue.value];
      assert merged == values[..i];
    } else {
      merged := allValues.value;
    }
    assert values[..|values|] == values;
  }

  /** A relay run behind headers already added and lengths already reported. */
  function Behind(added: seq<KeyValues>, lengths: seq<int>, r: Relay): Relay
  {
    Relay(added + r.added, lengths + r.lengths, r.fault)
  }

  lemma RelayUnfold(t: seq<KeyValues>)
    requires t != []
    ensures var h := t[0]; var rest := RelayHeaders(t[1..]);
      RelayHeaders(t) == if IsContentLength(h.key) && ParseFirstValue(h.values).None? then Relay([h], [], Some(BadContentLength))
        else Relay([h] + rest.added, (if IsContentLength(h.key) then [ParseFirstValue(h.values).value] else []) + rest.lengths, rest.fault)
  {
  }

  /**
   * The relay of the length a `Content-Length` header declares: its parsed
   * first value, or `None` for the exception `long.Parse` throws.
   */
  function DeclaredLengths(header: KeyValues): seq<int>
  {
    if IsContentLength(header.key) && ParseFirstValue(header.values).Some?
    then [ParseFirstValue(header.values).value] else []
  }

  /**
   * The body of the outer header loop: the header goes to the response with
   * its merged values; a `Content-Length` header is then parsed and reported.
   */
  method RelayHeader(requestID: int, header: KeyValues, response: HttpResponse, notifier: StatusNotifier)
    returns (fault: Option<Fault>)
    modifies response`headers, notifier
    ensures response.headers == old(response.headers) + [header]
    ensures notifier.events == old(notifier.events) + LengthEvents(requestID, DeclaredLengths(header))
    ensures fault.Some? <==> IsContentLength(header.key) && ParseFirstValue(header.values).None?
    ensures fault.Some? ==> fault == Some(BadContentLength)
  {
    var firstValue, values := MergeValues(header.values);
    assert KeyValues(header.key, values) == header;
    response.AddHeader(header.key, values);
    fault := None;
    if IsContentLength(header.key) {
      var parsed := if firstValue.None? then None else ParseInt64(firstValue.value);
      assert parsed == ParseFirstValue(header.values);
      if parsed.None? {
        return Some(BadContentLength);
      }
      notifier.NotifyRequestLength(requestID, parsed.value);
    }
  }

  /** One header of the relay, taken off the front of what is left. */
  lemma RelayStep(whole: Relay, done: seq<KeyValues>, lengths: seq<int>, rest: seq<KeyValues>)
    requires rest != []
    requires whole == Behind(done, lengths, RelayHeaders(rest))
    ensures IsContentLength(rest[0].key) && ParseFirstValue(rest[0].values).None? ==>
      whole == Relay(done + [rest[0]], lengths, Some(BadContentLength))
    ensures !(IsContentLength(rest[0].key) && ParseFirstValue(rest[0].values).None?) ==>
      whole == Behind(done + [rest[0]], lengths + DeclaredLengths(rest[0]), RelayHeaders(rest[1..]))
  {
    RelayUnfold(rest);
    var h := rest[0];
    if !(IsContentLength(h.key) && ParseFirstValue(h.values).None?) {
      var more := RelayHeaders(rest[1..]);
      var l := DeclaredLengths(h);
      assert done + ([h] + more.added) == done + [h] + more.added;
      assert lengths + (l + more.lengths) == lengths + l + more.lengths;
    }
  }

  /**
   * The outer header loop over response headers then content headers: each
   * is relayed in order, and a `Content-Length` value that does not parse
   * ends the loop.
   */
  method RelayResponseHeaders(requestID: int, hs: seq<KeyValues>, response: HttpResponse,
                              notifier: StatusNotifier) returns (fault: Option<Fault>)
    modifies response`headers, notifier
    ensures response.headers == old(response.headers) + RelayHeaders(hs).added
    ensures notifier.events == old(notifier.events) + LengthEvents(requestID, RelayHeaders(hs).lengths)
    ensures fault == RelayHeaders(hs).fault
  {
    ghost var whole := RelayHeaders(hs);
    ghost var done: seq<KeyValues> := [];
    ghost var lengths: seq<int> := [];
    assert whole == Behind(done, lengths, RelayHeaders(hs));
    var rest := hs;
    while rest != []
      invariant response.headers == old(response.headers) + done
      invariant notifier.events == old(notifier.events) + LengthEvents(requestID, lengths)
      invariant whole == Behind(done, lengths, RelayHeaders(rest))
      decreases |rest|
    {
      RelayStep(whole, done, lengths, rest);
      fault := RelayHeader(requestID, rest[0], response, notifier);
      if fault.Some? {
        return;
      }
      LengthEventsAppend(requestID, lengths, DeclaredLengths(rest[0]));
      done, lengths := done + [rest[0]], lengths + DeclaredLengths(rest[0]);
      rest := rest[1..];
    }
    assert done + [] == done && lengths + [] == lengths;
    fault := None;
  }

  lemma SeqAssoc<T>(a: seq<T>, b: seq<T>, c: seq<T>)
    ensures a + b + c == a + (b + c)
  {
  }

  /** A copy run behind reads already asked for and chunks already copied. */
  function After(asks: seq<int>, chunks: seq<int>, c: Copy): Copy
  {
    Copy(asks + c.asked, chunks + c.got, chunks + c.writes, chunks + c.reports, c.fault, c.aborted)
  }

  lemma AfterThen(asks: seq<int>, chunks: seq<int>, a: int, n: int, c: Copy)
    ensures After(asks, chunks, Then(a, n, c)) == After(asks + [a], chunks + [n], c)
  {
    assert asks + ([a] + c.asked) == asks + [a] + c.asked;
    assert chunks + ([n] + c.got) == chunks + [n] + c.got;
    assert chunks + ([n] + c.writes) == chunks + [n] + c.writes;
    assert chunks + ([n] + c.reports) == chunks + [n] + c.reports;
  }

  /** `s` after `n` of its elements are taken, one `Rest` at a time. */
  function Drop<T>(s: seq<T>, n: nat): seq<T>
  {
    if n <= |s| then s[n..] else []
  }

  lemma DropRest<T>(s: seq<T>, n: nat)
    ensures Drop(s, n + 1) == Rest(Drop(s, n))
  {
    if n < |s| {
      assert s[n..][1..] == s[n + 1..];
    }
  }

  /** How one pass of a copy loop ends: on to the next read, or out of the loop. */
  datatype Pass = Continue(bytesRead: int) | Stop(fault: Option<Fault>)

  /**
   * How a pass ends for a read result: an exception; a read at or below
   * zero in the known-length loop, or below zero in the other, throws; a
   * read of zero ends the read-until-zero loop; a chunk ends the loop when
   * the abort check after its write says so.
   */
  function PassOf(a: Result<int, Fault>, knownLength: bool, abort: bool): Pass
  {
    if a.Err? then Stop(Some(a.error))
    else if a.value < 0 || (knownLength && a.value == 0) then
      Stop(Some(if knownLength then UnexpectedShortRead else NegativeRead))
    else if a.value == 0 then Stop(None)
    else if abort then Stop(None)
    else Continue(a.value)
  }

  /** The count a pass read, if the read returned. */
  function Got(a: Result<int, Fault>): seq<int>
  {
    if a.Ok? then [a.value] else []
  }

  /** The chunk a pass wrote, if it wrote one. */
  function Wrote(a: Result<int, Fault>): seq<int>
  {
    if a.Ok? && a.value > 0 then [a.value] else []
  }

  /** One pass of the known-length loop: how the run starts for the first read, and what is left after it. */
  lemma KnownLengthUnfold(steps: seq<ReadStep>, aborts: seq<bool>, remaining: int, capacity: int, readLength: int)
    requires capacity > 0 && remaining > 0
    requires readLength == if remaining > capacity then capacity else remaining
    ensures var a := Answer(Head(steps), readLength);
      var p := PassOf(a, true, AbortHead(aborts));
      && (p.Stop? ==> KnownLengthCopy(steps, aborts, remaining, capacity)
                        == Copy([readLength], Got(a), Wrote(a), [], p.fault, Wrote(a) != []))
      && (p.Continue? ==>
            KnownLengthCopy(steps, aborts, remaining, capacity)
              == Then(readLength, p.bytesRead, KnownLengthCopy(Rest(steps), Rest(aborts), remaining - p.bytesRead, capacity)))
  {
  }

  /** One pass of the read-until-zero loop: how the run starts for the first read, and what is left after it. */
  lemma UnknownLengthUnfold(steps: seq<ReadStep>, aborts: seq<bool>, capacity: int)
    requires capacity > 0
    ensures var a := Answer(Head(steps), capacity);
      var p := PassOf(a, false, AbortHead(aborts));
      && (p.Stop? ==> UnknownLengthCopy(steps, aborts, capacity)
                        == Copy([capacity], Got(a), Wrote(a), [], p.fault, Wrote(a) != []))
      && (p.Continue? ==>
            && steps != []
            && UnknownLengthCopy(steps, aborts, capacity)
                 == Then(capacity, p.bytesRead, UnknownLengthCopy(Rest(steps), Rest(aborts), capacity)))
  {
  }

  /** What the copy loops act on, read off the stream, the token, the response body and the notifier. */
  datatype Logs = Logs(asked: seq<int>, script: seq<ReadStep>, checks: seq<bool>, body: seq<int>,
                       events: seq<Notification>)

  function LogsOf(stream: ResponseStream, token: CancellationToken, response: HttpResponse,
                  notifier: StatusNotifier): Logs
    reads stream, token, response, notifier
  {
    Logs(stream.asked, stream.script, token.checks, response.body, notifier.events)
  }

  /** What one pass asking for `readLength` bytes and ending as `pass` does to the logs. */
  function PassLogs(before: Logs, id: int, readLength: int, a: Result<int, Fault>, pass: Pass): Logs
  {
    Logs(before.asked + [readLength], Rest(before.script),
         if Wrote(a) == [] then before.checks else Rest(before.checks),
         before.body + Wrote(a),
         before.events + if pass.Continue? then [RequestProgress(id, pass.bytesRead)] else [])
  }

  /**
   * A copy loop part-way through the run `whole`: the reads `asks` asked
   * for and the `chunks` copied so far are in the logs `now`, past the logs
   * `start`, and `rest` is what the run still does.
   */
  ghost predicate Copying(id: int, whole: Copy, asks: seq<int>, chunks: seq<int>, rest: Copy, start: Logs, now: Logs)
  {
    && whole == After(asks, chunks, rest)
    && now.asked == start.asked + asks
    && now.script == Drop(start.script, |asks|)
    && now.checks == Drop(start.checks, |chunks|)
    && now.body == start.body + chunks
    && now.events == start.events + ProgressEvents(id, chunks)
  }

  /** A copy loop that ran `c` from the logs `start` to the logs `now`. */
  ghost predicate Copied(id: int, c: Copy, start: Logs, now: Logs)
  {
    && now.asked == start.asked + c.asked
    && now.script == Drop(start.script, |c.asked|)
    && now.checks == Drop(start.checks, |c.writes|)
    && now.body == start.body + c.writes
    && now.events == start.events + ProgressEvents(id, c.reports)
  }

  lemma CopyingStarts(id: int, whole: Copy, start: Logs)
    ensures Copying(id, whole, [], [], whole, start, start)
  {
    assert whole == After([], [], whole);
    assert start.asked + [] == start.asked && start.body + [] == start.body && start.events + [] == start.events;
  }

  lemma CopyingEnds(id: int, whole: Copy, asks: seq<int>, chunks: seq<int>, start: Logs, now: Logs)
    requires Copying(id, whole, asks, chunks, Copy([], [], [], [], None, false), start, now)
    ensures Copied(id, whole, start, now) && whole.fault.None?
  {
    assert asks + [] == asks && chunks + [] == chunks;
  }

  /** A pass that leaves the loop completes the run. */
  lemma PassStops(id: int, whole: Copy, asks: seq<int>, chunks: seq<int>, start: Logs, before: Logs,
                  readLength: int, a: Result<int, Fault>, pass: Pass)
    requires pass.Stop?
    requires Copying(id, whole, asks, chunks, Copy([readLength], Got(a), Wrote(a), [], pass.fault, Wrote(a) != []),
                     start, before)
    ensures Copied(id, whole, start, PassLogs(before, id, readLength, a, pass)) && whole.fault == pass.fault
  {
    var after := PassLogs(before, id, readLength, a, pass);
    DropRest(start.script, |asks|);
    DropRest(start.checks, |chunks|);
    SeqAssoc(start.asked, asks, [readLength]);
    SeqAssoc(start.body, chunks, Wrote(a));
    assert chunks + [] == chunks;
    assert after.events == start.events + ProgressEvents(id, chunks);
  }

  /** A pass that goes on to the next read moves one read and one chunk from what is left to what is done. */
  lemma PassContinues(id: int, whole: Copy, asks: seq<int>, chunks: seq<int>, next: Copy, start: Logs, before: Logs,
                      readLength: int, a: Result<int, Fault>, pass: Pass)
    requires pass.Continue? && a == Ok(pass.bytesRead) && pass.bytesRead > 0
    requires Copying(id, whole, asks, chunks, Then(readLength, pass.bytesRead, next), start, before)
    ensures var after := PassLogs(before, id, readLength, a, pass);
      && after.script == Rest(before.script) && after.checks == Rest(before.checks)
      && Copying(id, whole, asks + [readLength], chunks + [pass.bytesRead], next, start, after)
  {
    var n := pass.bytesRead;
    AfterThen(asks, chunks, readLength, n, next);
    DropRest(start.script, |asks|);
    DropRest(start.checks, |chunks|);
    SeqAssoc(start.asked, asks, [readLength]);
    SeqAssoc(start.body, chunks, [n]);
    ProgressEventsSnoc(id, chunks, n);
    SeqAssoc(start.events, ProgressEvents(id, chunks), [RequestProgress(id, n)]);
  }

  /** One pass of the known-length loop, from the logs `before` to the logs `after` it leaves. */
  lemma KnownLengthPass(id: int, whole: Copy, asks: seq<int>, chunks: seq<int>, start: Logs, before: Logs,
                        remaining: int, capacity: int, readLength: int, pass: Pass, after: Logs)
    requires capacity > 0 && remaining > 0
    requires readLength == if remaining > capacity then capacity else remaining
    requires Copying(id, whole, asks, chunks, KnownLengthCopy(before.script, before.checks, remaining, capacity),
                     start, before)
    requires var a := Answer(Head(before.script), readLength);
      && pass == PassOf(a, true, AbortHead(before.checks))
      && after == PassLogs(before, id, readLength, a, pass)
    ensures pass.Stop? ==> Copied(id, whole, start, after) && whole.fault == pass.fault
    ensures pass.Continue? ==>
      && 0 < pass.bytesRead <= remaining
      && Copying(id, whole, asks + [readLength], chunks + [pass.bytesRead],
                 KnownLengthCopy(after.script, after.checks, remaining - pass.bytesRead, capacity), start, after)
  {
    var a := Answer(Head(before.script), readLength);
    KnownLengthUnfold(before.script, before.checks, remaining, capacity, readLength);
    if pass.Stop? {
      PassStops(id, whole, asks, chunks, start, before, readLength, a, pass);
    } else {
      PassContinues(id, whole, asks, chunks,
                    KnownLengthCopy(Rest(before.script), Rest(before.checks), remaining - pass.bytesRead, capacity),
                    start, before, readLength, a, pass);
    }
  }

  /** One pass of the read-until-zero loop, from the logs `before` to the logs `after` it leaves. */
  lemma UnknownLengthPass(id: int, whole: Copy, asks: seq<int>, chunks: seq<int>, start: Logs, before: Logs,
                          capacity: int, pass: Pass, after: Logs)
    requires capacity > 0
    requires Copying(id, whole, asks, chunks, UnknownLengthCopy(before.script, before.checks, capacity), start, before)
    requires var a := Answer(Head(before.script), capacity);
      && pass == PassOf(a, false, AbortHead(before.checks))
      && after == PassLogs(before, id, capacity, a, pass)
    ensures pass.Stop? ==> Copied(id, whole, start, after) && whole.fault == pass.fault
    ensures pass.Continue? ==>
      && |after.script| < |before.script|
      && Copying(id, whole, asks + [capacity], chunks + [pass.bytesRead],
                 UnknownLengthCopy(after.script, after.checks, capacity), start, after)
  {
    var a := Answer(Head(before.script), capacity);
    UnknownLengthUnfold(before.script, before.checks, capacity);
    if pass.Stop? {
      PassStops(id, whole, asks, chunks, start, before, capacity, a, pass);
    } else {
      PassContinues(id, whole, asks, chunks, UnknownLengthCopy(Rest(before.script), Rest(before.checks), capacity),
                    start, before, capacity, a, pass);
    }
  }

  /**
   * One pass of either copy loop: read at most `readLength` bytes, stop on
   * an exception, a bad count or the end of the stream; otherwise write the
   * chunk, poll the abort token, and report the chunk unless it says abort.
   */
  method CopyPass(requestID: int, readLength: int, knownLength: bool, buffer: array<bv8>, stream: ResponseStream,
                  token: CancellationToken, response: HttpResponse, notifier: StatusNotifier)
    returns (pass: Pass)
    requires 0 < readLength <= buffer.Length
    modifies stream, token, response`body, notifier
    ensures var a := Answer(Head(old(stream.script)), readLength);
      && pass == PassOf(a, knownLength, AbortHead(old(token.checks)))
      && LogsOf(stream, token, response, notifier)
           == PassLogs(old(LogsOf(stream, token, response, notifier)), requestID, readLength, a, pass)
  {
    var read := stream.ReadAsync(buffer, 0, readLength);
    if read.Err? {
      return Stop(Some(read.error));
    }
    var bytesRead := read.value;
    if knownLength && bytesRead <= 0 {
      return Stop(Some(UnexpectedShortRead));
    }
    if bytesRead < 0 {
      return Stop(Some(NegativeRead));
    }
    if bytesRead == 0 {
      return Stop(None);
    }
    response.WriteAsync(buffer, 0, bytesRead);
    var aborted := token.IsCancellationRequested();
    if aborted {
      return Stop(None);
    }
    notifier.NotifyRequestProgress(requestID, bytesRead);
    pass := Continue(bytesRead);
  }

  /**
   * The known-length loop (`ContentLength` declared): it asks the stream,
   * writes, polls the abort token and reports exactly as
   * `KnownLengthCopy` says, and leaves the stream and the token past what
   * it consumed.
   */
  method CopyKnownLength(requestID: int, contentLength: int, buffer: array<bv8>, stream: ResponseStream,
                         token: CancellationToken, response: HttpResponse, notifier: StatusNotifier)
    returns (fault: Option<Fault>)
    requires buffer.Length > 0
    modifies stream, token, response`body, notifier
    ensures var c := KnownLengthCopy(old(stream.script), old(token.checks), contentLength, buffer.Length);
      && Copied(requestID, c, old(LogsOf(stream, token, response, notifier)), LogsOf(stream, token, response, notifier))
      && fault == c.fault
  {
    ghost var start := LogsOf(stream, token, response, notifier);
    ghost var whole := KnownLengthCopy(start.script, start.checks, contentLength, buffer.Length);
    ghost var asks: seq<int> := [];
    ghost var chunks: seq<int> := [];
    CopyingStarts(requestID, whole, start);
    var bytesRemaining := contentLength;
    while bytesRemaining > 0
      invariant var now := LogsOf(stream, token, response, notifier);
        Copying(requestID, whole, asks, chunks, KnownLengthCopy(now.script, now.checks, bytesRemaining, buffer.Length),
                start, now)
      decreases bytesRemaining
    {
      var readLength := if bytesRemaining > buffer.Length then buffer.Length else bytesRemaining;
      ghost var before := LogsOf(stream, token, response, notifier);
      var pass := CopyPass(requestID, readLength, true, buffer, stream, token, response, notifier);
      KnownLengthPass(requestID, whole, asks, chunks, start, before, bytesRemaining, buffer.Length, readLength, pass,
                      LogsOf(stream, token, response, notifier));
      if pass.Stop? {
        return pass.fault;
      }
      bytesRemaining := bytesRemaining - pass.bytesRead;
      asks, chunks := asks + [readLength], chunks + [pass.bytesRead];
    }
    CopyingEnds(requestID, whole, asks, chunks, start, LogsOf(stream, token, response, notifier));
    fault := None;
  }

  /**
   * The read-until-zero loop (no declared length): it asks for whole
   * buffers, writes, polls the abort token and reports exactly as
   * `UnknownLengthCopy` says.
   */
  method CopyUnknownLength(requestID: int, buffer: array<bv8>, stream: ResponseStream,
                           token: CancellationToken, response: HttpResponse, notifier: StatusNotifier)
    returns (fault: Option<Fault>)
    requires buffer.Length > 0
    modifies stream, token, response`body, notifier
    ensures var c := UnknownLengthCopy(old(stream.script), old(token.checks), buffer.Length);
      && Copied(requestID, c, old(LogsOf(stream, token, response, notifier)), LogsOf(stream, token, response, notifier))
      && fault == c.fault
  {
    ghost var start := LogsOf(stream, token, response, notifier);
    ghost var whole := UnknownLengthCopy(start.script, start.checks, buffer.Length);
    ghost var asks: seq<int> := [];
    ghost var chunks: seq<int> := [];
    CopyingStarts(requestID, whole, start);
    while true
      invariant var now := LogsOf(stream, token, response, notifier);
        Copying(requestID, whole, asks, chunks, UnknownLengthCopy(now.script, now.checks, buffer.Length), start, now)
      decreases |stream.script|
    {
      ghost var before := LogsOf(stream, token, response, notifier);
      var pass := CopyPass(requestID, buffer.Length, false, buffer, stream, token, response, notifier);
      UnknownLengthPass(requestID, whole, asks, chunks, start, before, buffer.Length, pass,
                        LogsOf(stream, token, response, notifier));
      if pass.Stop? {
        return pass.fault;
      }
      asks, chunks := asks + [buffer.Length], chunks + [pass.bytesRead];
    }
  }

  /** The choice of loop: the known-length one when the response declares its length. */
  method CopyContent(requestID: int, head: ResponseHead, buffer: array<bv8>, stream: ResponseStream,
                     token: CancellationToken, response: HttpResponse, notifier: StatusNotifier)
    returns (fault: Option<Fault>)
    requires buffer.Length == BUFFER_SIZE
    modifies stream, token, response`body, notifier
    ensures var c := BodyCopy(head, old(stream.script), old(token.checks));
      && Copied(requestID, c, old(LogsOf(stream, token, response, notifier)), LogsOf(stream, token, response, notifier))
      && fault == c.fault
  {
    if head.contentLength.Some? {
      fault := CopyKnownLength(requestID, head.contentLength.value, buffer, stream, token, response, notifier);
    } else {
      fault := CopyUnknownLength(requestID, buffer, stream, token, response, notifier);
    }
  }

  /**
   * The request message: the request's headers copied one by one, the
   * destination URI, and content only when the request has a content type.
   */
  method BuildForwardedRequest(targetBaseUri: string, request: HttpRequest) returns (forwarded: ForwardedRequest)
    ensures forwarded.httpMethod == request.httpMethod
    ensures forwarded.requestUri == DestinationUri(targetBaseUri, request.path, request.query)
    ensures forwarded.headers == request.headers
    ensures forwarded.contentType == if IsNullOrWhiteSpace(request.contentType) then None else request.contentType
  {
    var headers: seq<KeyValues> := [];
    for i := 0 to |request.headers|
      invariant headers == request.headers[..i]
    {
      assert request.headers[..i + 1] == request.headers[..i] + [request.headers[i]];
      headers := headers + [request.headers[i]];
    }
    assert request.headers[..|request.headers|] == request.headers;
    var query := Without(request.query, CLICK_ID);
    var queryString := "";
    if |query| > 0 {
      queryString := QueryStringCreate(query);
    }
    var contentType := None;
    if !IsNullOrWhiteSpace(request.contentType) {
      contentType := request.contentType;
    }
    forwarded := ForwardedRequest(request.httpMethod, targetBaseUri + request.path + queryString, headers, contentType);
  }

  /** Whether an exchange gets as far as leasing a buffer: the send succeeded and every header relayed. */
  predicate Leases(reply: Result<ResponseHead, Fault>)
  {
    reply.Ok? && RelayHeaders(reply.value.headers + reply.value.contentHeaders).fault.None?
  }

  // ---- the middleware ----------------------------------------------------

  class CruftRemoverProxyMiddleware {
    const targetBaseUri: string
    const statusConsoleSender: StatusNotifier
    const client: HttpClient
    const bufferPool: BufferPool
    const requestIds: RequestCounter

    constructor (targetBaseUri: string, statusConsoleSender: StatusNotifier, client: HttpClient,
                 bufferPool: BufferPool, requestIds: RequestCounter)
      ensures this.targetBaseUri == targetBaseUri && this.statusConsoleSender == statusConsoleSender
      ensures this.client == client && this.bufferPool == bufferPool && this.requestIds == requestIds
    {
      this.targetBaseUri := targetBaseUri;
      this.statusConsoleSender := statusConsoleSender;
      this.client := client;
      this.bufferPool := bufferPool;
      this.requestIds := requestIds;
    }

    /**
     * The body copy through a leased buffer: the `using` block around the
     * two loops, which returns the buffer to the pool however the copy ends.
     */
    method CopyBody(requestID: int, head: ResponseHead, stream: ResponseStream, token: CancellationToken,
                    response: HttpResponse) returns (fault: Option<Fault>)
      requires bufferPool.Valid()
      modifies stream, token, response`body, statusConsoleSender, bufferPool
      ensures bufferPool.Valid() && |bufferPool.returned| == |old(bufferPool.returned)| + 1
      ensures var c := BodyCopy(head, old(stream.script), old(token.checks));
        && Copied(requestID, c, old(LogsOf(stream, token, response, statusConsoleSender)),
                  LogsOf(stream, token, response, statusConsoleSender))
        && fault == c.fault
    {
      var bufferLease := new ReadBufferLease(bufferPool);
      fault := CopyContent(requestID, head, bufferLease.bufferObject.buffer, stream, token, response, statusConsoleSender);
      bufferLease.Dispose();
    }

    /**
     * What follows a successful send: copy the status code, relay the
     * headers, and copy the body when every header relayed.
     */
    method Respond(requestID: int, head: ResponseHead, stream: ResponseStream, response: HttpResponse,
                   token: CancellationToken) returns (fault: Option<Fault>)
      requires bufferPool.Valid()
      modifies stream, token, response, statusConsoleSender, bufferPool
      ensures bufferPool.Valid()
      ensures var o := Responded(requestID, head, old(stream.script), old(token.checks));
        && statusConsoleSender.events == old(statusConsoleSender.events) + o.events
        && fault == o.fault
      ensures var relay := RelayHeaders(head.headers + head.contentHeaders);
        && |bufferPool.returned| == |old(bufferPool.returned)| + (if relay.fault.None? then 1 else 0)
        && response.statusCode == head.statusCode
        && response.headers == old(response.headers) + relay.added
        && response.body == old(response.body)
             + if relay.fault.None? then BodyCopy(head, old(stream.script), old(token.checks)).writes else []
    {
      response.statusCode := head.statusCode;
      ghost var relay := RelayHeaders(head.headers + head.contentHeaders);
      fault := RelayResponseHeaders(requestID, head.headers + head.contentHeaders, response, statusConsoleSender);
      if fault.Some? {
        return;
      }
      ghost var events1 := statusConsoleSender.events;
      fault := CopyBody(requestID, head, stream, token, response);
      ghost var c := BodyCopy(head, old(stream.script), old(token.checks));
      assert statusConsoleSender.events == events1 + ProgressEvents(requestID, c.reports);
      SeqAssoc(old(statusConsoleSender.events), LengthEvents(requestID, relay.lengths), ProgressEvents(requestID, c.reports));
    }

    /** The `try` block from `sent` on: send, and on a reply go on with `Respond`. */
    method Exchange(requestID: int, forwarded: ForwardedRequest, response: HttpResponse,
                    token: CancellationToken) returns (fault: Option<Fault>)
      requires bufferPool.Valid()
      modifies statusConsoleSender, client`sent, response, token, client.Streams(), bufferPool
      ensures bufferPool.Valid()
      ensures client.sent == old(client.sent) + [forwarded]
      ensures var o := Forwarded(requestID, HeadOf(old(client.Next())), old(ScriptOf(client.Next())), old(token.checks));
        && statusConsoleSender.events == old(statusConsoleSender.events) + o.events
        && fault == o.fault
      ensures |bufferPool.returned| == |old(bufferPool.returned)| + if Leases(HeadOf(old(client.Next()))) then 1 else 0
      ensures old(client.Next()).Ok? ==>
        var head := old(client.Next()).value.head;
        var relay := RelayHeaders(head.headers + head.contentHeaders);
        && response.statusCode == head.statusCode
        && response.headers == old(response.headers) + relay.added
        && response.body == old(response.body)
             + if relay.fault.None? then BodyCopy(head, old(ScriptOf(client.Next())), old(token.checks)).writes else []
      ensures old(client.Next()).Err? ==>
        response.statusCode == old(response.statusCode) && response.headers == old(response.headers)
        && response.body == old(response.body)
    {
      ghost var script0 := ScriptOf(client.Next());
      statusConsoleSender.NotifyRequestSent(requestID);
      ghost var events1 := statusConsoleSender.events;
      var reply := client.SendAsync(forwarded);
      if reply.Err? {
        return Some(reply.error);
      }
      assert reply.value.content.script == script0;
      fault := Respond(requestID, reply.value.head, reply.value.content, response, token);
      ghost var o := Responded(requestID, reply.value.head, script0, old(token.checks));
      SeqAssoc(old(statusConsoleSender.events), [RequestSent(requestID)], o.events);
    }

    /**
     * One request: take the next id; a connection without a remote address
     * throws before anything is sent; otherwise `new`, the exchange, and
     * `end` from the `finally`, with a `TaskCanceledException` swallowed and
     * any other exception escaping.
     */
    method InvokeAsync(request: HttpRequest, response: HttpResponse, token: CancellationToken)
      returns (escaped: Option<Fault>)
      requires bufferPool.Valid()
      modifies requestIds, statusConsoleSender, client`sent, response, token, client.Streams(), bufferPool
      ensures bufferPool.Valid()
      ensures requestIds.value == Wrap32(old(requestIds.value) + 1) && IsInt32(requestIds.value)
      ensures request.remoteIpAddress.None? ==>
        && escaped == Some(NullReference)
        && statusConsoleSender.events == old(statusConsoleSender.events)
        && client.sent == old(client.sent)
      ensures request.remoteIpAddress.Some? ==>
        var id := requestIds.value;
        var o := Forwarded(id, HeadOf(old(client.Next())), old(ScriptOf(client.Next())), old(token.checks));
        && statusConsoleSender.events == old(statusConsoleSender.events)
             + Lifecycle(id, request.remoteIpAddress.value, request.httpMethod, request.path, o)
        && client.sent == old(client.sent)
             + [ForwardedRequest(request.httpMethod, DestinationUri(targetBaseUri, request.path, request.query),
                                 request.headers,
                                 if IsNullOrWhiteSpace(request.contentType) then None else request.contentType)]
        && escaped == Escapes(o.fault)
    {
      ghost var reply0 := client.Next();
      ghost var script0 := ScriptOf(reply0);
      var requestID := requestIds.Increment();
      if request.remoteIpAddress.None? {
        return Some(NullReference);
      }
      statusConsoleSender.NotifyNewRequest(requestID, request.remoteIpAddress.value, request.httpMethod, request.path);
      ghost var events1 := statusConsoleSender.events;
      var forwarded := BuildForwardedRequest(targetBaseUri, request);
      assert client.Next() == reply0 && ScriptOf(client.Next()) == script0;
      var fault := Exchange(requestID, forwarded, response, token);
      ghost var o := Forwarded(requestID, HeadOf(reply0), script0, old(token.checks));
      assert statusConsoleSender.events == events1 + o.events;
      escaped := Escapes(fault);
      statusConsoleSender.NotifyRequestEnd(requestID);
      assert requestIds.value == requestID;
      SeqAssoc(old(statusConsoleSender.events), [NewRequest(requestID, request.remoteIpAddress.value, request.httpMethod,
                                                          request.path)], o.events);
    }
  }
}
