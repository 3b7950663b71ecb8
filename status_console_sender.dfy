/**
 * The proxy's side of the telemetry pipe: `StatusConsoleSender` forwards each
 * lifecycle notification to the monitor's input stream and, the first time a
 * write fails, detaches from it for good, so that no telemetry failure ever
 * reaches the request being proxied.
 */
module TelemetrySender {
  import opened Wrappers
  import opened LineProtocol
  import opened StatusMonitor

  class StatusConsoleSender {
    /** `_statusConsoleInputStream`; `None` once detached. */
    var statusConsoleInputStream: Option<TextSink>

    constructor (stream: TextSink)
      ensures statusConsoleInputStream == Some(stream)
    {
      statusConsoleInputStream := Some(stream);
    }

    /** The stream a forwarder may write to: the attached one, if any. */
    function Attached(): set<TextSink>
      reads this`statusConsoleInputStream
    {
      if statusConsoleInputStream.Some? then {statusConsoleInputStream.value} else {}
    }

    /**
     * `AutoDetach`: run the serialiser only while attached; a serialiser that
     * throws detaches the sender and is swallowed. Detached stays detached,
     * and a sender stays attached exactly while its writes succeed.
     */
    method AutoDetach(n: Notification)
      modifies this`statusConsoleInputStream, Attached()
      ensures old(statusConsoleInputStream).None? ==> statusConsoleInputStream.None?
      ensures old(statusConsoleInputStream).Some? ==>
        var s := old(statusConsoleInputStream).value;
        if old(s.broken) then statusConsoleInputStream.None? && s.lines == old(s.lines)
        else statusConsoleInputStream == old(statusConsoleInputStream) && s.lines == old(s.lines) + [Line(n)]
    {
      if statusConsoleInputStream.Some? {
        var ok := Notify(statusConsoleInputStream.value, n);
        if !ok {
          statusConsoleInputStream := None;
        }
      }
    }

    method NotifyNewRequest(requestID: int, clientIP: string, httpMethod: string, path: string)
      modifies this`statusConsoleInputStream, Attached()
      ensures old(statusConsoleInputStream).None? ==> statusConsoleInputStream.None?
      ensures old(statusConsoleInputStream).Some? ==>
        var s := old(statusConsoleInputStream).value;
        if old(s.broken) then statusConsoleInputStream.None? && s.lines == old(s.lines)
        else statusConsoleInputStream == old(statusConsoleInputStream)
             && s.lines == old(s.lines) + [Line(NewRequest(requestID, clientIP, httpMethod, path))]
    {
      AutoDetach(NewRequest(requestID, clientIP, httpMethod, path));
    }

    method NotifyRequestSent(requestID: int)
      modifies this`statusConsoleInputStream, Attached()
      ensures old(statusConsoleInputStream).None? ==> statusConsoleInputStream.None?
      ensures old(statusConsoleInputStream).Some? ==>
        var s := old(statusConsoleInputStream).value;
        if old(s.broken) then statusConsoleInputStream.None? && s.lines == old(s.lines)
        else statusConsoleInputStream == old(statusConsoleInputStream)
             && s.lines == old(s.lines) + [Line(RequestSent(requestID))]
    {
      AutoDetach(RequestSent(requestID));
    }

    method NotifyRequestLength(requestID: int, expectedLength: int)
      modifies this`statusConsoleInputStream, Attached()
      ensures old(statusConsoleInputStream).None? ==> statusConsoleInputStream.None?
      ensures old(statusConsoleInputStream).Some? ==>
        var s := old(statusConsoleInputStream).value;
        if old(s.broken) then statusConsoleInputStream.None? && s.lines == old(s.lines)
        else statusConsoleInputStream == old(statusConsoleInputStream)
             && s.lines == old(s.lines) + [Line(RequestLength(requestID, expectedLength))]
    {
      AutoDetach(RequestLength(requestID, expectedLength));
    }

    method NotifyRequestProgress(requestID: int, bytesProgress: int)
      modifies this`statusConsoleInputStream, Attached()
      ensures old(statusConsoleInputStream).None? ==> statusConsoleInputStream.None?
      ensures old(statusConsoleInputStream).Some? ==>
        var s := old(statusConsoleInputStream).value;
        if old(s.broken) then statusConsoleInputStream.None? && s.lines == old(s.lines)
        else statusConsoleInputStream == old(statusConsoleInputStream)
             && s.lines == old(s.lines) + [Line(RequestProgress(requestID, bytesProgress))]
    {
      AutoDetach(RequestProgress(requestID, bytesProgress));
    }

    method NotifyRequestEnd(requestID: int)
      modifies this`statusConsoleInputStream, Attached()
      ensures old(statusConsoleInputStream).None? ==> statusConsoleInputStream.None?
      ensures old(statusConsoleInputStream).Some? ==>
        var s := old(statusConsoleInputStream).value;
        if old(s.broken) then statusConsoleInputStream.None? && s.lines == old(s.lines)
        else statusConsoleInputStream == old(statusConsoleInputStream)
             && s.lines == old(s.lines) + [Line(RequestEnd(requestID))]
    {
      AutoDetach(RequestEnd(requestID));
    }
  }
}
