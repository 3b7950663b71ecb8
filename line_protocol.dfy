/**
 * The telemetry line protocol between the proxy and the monitor: one
 * space-separated text record per lifecycle notification, written by the
 * static `StatusConsole.Notify*` methods and read back by `ProcessUpdate`.
 */
module LineProtocol {
  import opened Numbers
  import opened Strings

  /** The five notifications of `IStatusConsoleSender`, with their arguments. */
  datatype Notification =
    | NewRequest(id: int, clientIP: string, httpMethod: string, path: string)
    | RequestSent(id: int)
    | RequestLength(id: int, expectedLength: int)
    | RequestProgress(id: int, bytesProgress: int)
    | RequestEnd(id: int)

  /** The space-separated fields of the record a notification is written as. */
  function Fields(n: Notification): (f: seq<string>)
    ensures |f| >= 2 && f[0] == FormatInt(n.id)
  {
    match n
    case NewRequest(id, ip, m, p) => [FormatInt(id), "new", ip, m, p]
    case RequestSent(id) => [FormatInt(id), "sent"]
    case RequestLength(id, len) => [FormatInt(id), "length", FormatInt(len)]
    case RequestProgress(id, d) => [FormatInt(id), "progress", FormatInt(d)]
    case RequestEnd(id) => [FormatInt(id), "end"]
  }

  /**
   * The text `Deliver` writes for a notification: `"{0} new {1} {2} {3}"`,
   * `"{0} sent"`, `"{0} length {1}"`, `"{0} progress {1}"` or `"{0} end"`.
   */
  function Line(n: Notification): (s: string)
  {
    match n
    case NewRequest(id, ip, m, p) => FormatInt(id) + " new " + ip + " " + m + " " + p
    case RequestSent(id) => FormatInt(id) + " sent"
    case RequestLength(id, len) => FormatInt(id) + " length " + FormatInt(len)
    case RequestProgress(id, d) => FormatInt(id) + " progress " + FormatInt(d)
    case RequestEnd(id) => FormatInt(id) + " end"
  }

  /** The record the monitor posts to itself 200 ms after an `end`: `requestID + " remove"`. */
  function RemoveLine(id: int): string
  {
    FormatInt(id) + " remove"
  }

  /** No text argument contains the field separator (the protocol does not escape it). */
  predicate SpaceFree(n: Notification)
  {
    n.NewRequest? ==> ' ' !in n.clientIP && ' ' !in n.httpMethod && ' ' !in n.path
  }

  lemma FormatIntHasNoSpace(n: int)
    ensures ' ' !in FormatInt(n) && '\n' !in FormatInt(n) && '\r' !in FormatInt(n)
  {
    FormatIntShape(n);
  }

  lemma Assoc(a: string, b: string, c: string)
    ensures a + (b + c) == a + b + c
  {
  }

  lemma JoinTwo(a: string, b: string)
    ensures Join([a, b], ' ') == a + " " + b
  {
    assert [a, b][1..] == [b];
  }

  lemma JoinThree(a: string, b: string, c: string)
    ensures Join([a, b, c], ' ') == a + " " + b + " " + c
  {
    assert [a, b, c][1..] == [b, c];
    JoinTwo(b, c);
  }

  lemma JoinNew(i: string, ip: string, m: string, p: string)
    ensures Join([i, "new", ip, m, p], ' ') == i + " new " + ip + " " + m + " " + p
  {
    var f := [i, "new", ip, m, p];
    assert f[1..] == ["new", ip, m, p];
    assert f[1..][1..] == [ip, m, p];
    JoinThree(ip, m, p);
    var x := ip + " " + m + " " + p;
    assert Join(f, ' ') == i + " " + ("new" + " " + x);
    assert i + " " + ("new" + " " + x) == i + " new " + x by {
      assert " " + ("new" + " " + x) == " new " + x;
    }
    assert i + " new " + x == i + " new " + ip + " " + m + " " + p by {
      Assoc(i + " new ", ip + " " + m + " ", p);
      Assoc(i + " new ", ip + " ", m);
      Assoc(i + " new ", ip, " ");
      Assoc(i + " new " + ip + " " + m, " ", p);
    }
  }

  /** A two-field record: the id, a space and the keyword. */
  lemma JoinKeyword(i: string, kind: string, sep: string)
    requires sep == " " + kind
    ensures Join([i, kind], ' ') == i + sep
  {
    JoinTwo(i, kind);
  }

  /** A three-field record: the id, the keyword between spaces, the number. */
  lemma JoinCount(i: string, kind: string, v: string, sep: string)
    requires sep == " " + kind + " "
    ensures Join([i, kind, v], ' ') == i + sep + v
  {
    JoinThree(i, kind, v);
    Assoc(i, " " + kind, " ");
    Assoc(i, " ", kind);
  }

  /** Every record is its fields joined by single spaces. */
  lemma LineIsJoinedFields(n: Notification)
    ensures Line(n) == Join(Fields(n), ' ')
  {
    match n
    case NewRequest(id, ip, m, p) => JoinNew(FormatInt(id), ip, m, p);
    case RequestSent(id) => JoinKeyword(FormatInt(id), "sent", " sent");
    case RequestLength(id, len) => JoinCount(FormatInt(id), "length", FormatInt(len), " length ");
    case RequestProgress(id, d) => JoinCount(FormatInt(id), "progress", FormatInt(d), " progress ");
    case RequestEnd(id) => JoinKeyword(FormatInt(id), "end", " end");
  }

  /** Splitting a record on spaces gives back its fields when no argument contains a space. */
  lemma SplitLine(n: Notification)
    requires SpaceFree(n)
    ensures Split(Line(n), ' ') == Fields(n)
  {
    LineIsJoinedFields(n);
    FormatIntHasNoSpace(n.id);
    match n {
      case RequestLength(_, len) => FormatIntHasNoSpace(len);
      case RequestProgress(_, d) => FormatIntHasNoSpace(d);
      case _ =>
    }
    assert NoneContains(Fields(n), ' ');
    SplitJoin(Fields(n), ' ');
  }

  lemma SplitRemoveLine(id: int)
    ensures Split(RemoveLine(id), ' ') == [FormatInt(id), "remove"]
  {
    FormatIntHasNoSpace(id);
    JoinTwo(FormatInt(id), "remove");
    assert FormatInt(id) + " " + "remove" == FormatInt(id) + " remove";
    SplitJoin([FormatInt(id), "remove"], ' ');
  }

  /** A record is one line on the wire when no text argument contains a line break. */
  lemma LineIsOneLine(n: Notification)
    requires n.NewRequest? ==> forall c :: c in ['\n', '\r'] ==> c !in n.clientIP && c !in n.httpMethod && c !in n.path
    ensures '\n' !in Line(n) && '\r' !in Line(n)
  {
    FormatIntHasNoSpace(n.id);
    match n
    case RequestLength(_, len) => FormatIntHasNoSpace(len);
    case RequestProgress(_, d) => FormatIntHasNoSpace(d);
    case _ =>
  }

  /**
   * The writable end of the monitor's standard input. A write either delivers
   * its whole line or throws (`broken`: the reading side has gone away).
   */
  class TextSink {
    var lines: seq<string>
    var broken: bool

    constructor ()
      ensures lines == [] && !broken
    {
      lines := [];
      broken := false;
    }

    /** `WriteLine` followed by `Flush`; `false` stands for the exception it throws. */
    method WriteLine(message: string) returns (ok: bool)
      modifies this
      ensures ok == !old(broken) && broken == old(broken)
      ensures lines == if ok then old(lines) + [message] else old(lines)
    {
      ok := !broken;
      if ok {
        lines := lines + [message];
      }
    }

    /** The reading side closes its end; every later write fails. */
    method Break()
      modifies this
      ensures broken && lines == old(lines)
    {
      broken := true;
    }
  }
}
