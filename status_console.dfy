/**
 * The monitor process: the entries it tracks as objects updated in place,
 * the list and dictionary that hold them, `ProcessUpdate`, the renderer
 * with its memo caches, and the static `Notify*` serialisers.
 */
module StatusMonitor {
  import opened Wrappers
  import opened Numbers
  import opened Strings
  import opened LineProtocol
  import opened UpdateProcessor
  import opened Renderer
  import opened RendererProperties

  /** One request the monitor is showing; its fields change as records arrive. */
  class OngoingRequest {
    const requestID: int
    const clientIP: string
    const httpMethod: string
    const path: string
    var methodPathString: Option<string>
    var state: string
    var bytesSoFar: int
    var bytesExpected: int

    /** The `new` branch: the fields from the record, state `Connect`, no bytes. */
    constructor (id: int, ip: string, m: string, p: string)
      ensures requestID == id && clientIP == ip && httpMethod == m && path == p
      ensures methodPathString == None && state == "Connect" && bytesSoFar == 0 && bytesExpected == 0
    {
      requestID := id;
      clientIP := ip;
      httpMethod := m;
      path := p;
      methodPathString := None;
      state := "Connect";
      bytesSoFar := 0;
      bytesExpected := 0;
    }

    function Snapshot(): Row
      reads this`methodPathString, this`state, this`bytesSoFar, this`bytesExpected
    {
      Row(requestID, clientIP, httpMethod, path, methodPathString, state, bytesSoFar, bytesExpected)
    }
  }

  // ---- the list and the dictionary ---------------------------------------

  /** `List.IndexOf` by reference: the first position holding o, or -1. */
  function FirstRef(rs: seq<OngoingRequest>, o: OngoingRequest): (k: int)
    ensures -1 <= k < |rs|
    ensures k >= 0 ==> rs[k] == o && forall j :: 0 <= j < k ==> rs[j] != o
    ensures k == -1 ==> forall j :: 0 <= j < |rs| ==> rs[j] != o
  {
    if rs == [] then -1
    else if rs[0] == o then 0
    else
      var k := FirstRef(rs[1..], o);
      if k < 0 then -1 else k + 1
  }

  /** `List.Remove`: drops the first occurrence of the object, if any. */
  function RemoveRef(rs: seq<OngoingRequest>, o: OngoingRequest): (out: seq<OngoingRequest>)
  {
    var k := FirstRef(rs, o);
    if k < 0 then rs else rs[..k] + rs[k + 1..]
  }

  /** Each dictionary slot holds the object with its id. */
  ghost predicate FiledById(m: map<int, OngoingRequest>)
  {
    forall k :: k in m ==> m[k].requestID == k
  }

  /** Each list element is the dictionary's object for its id. */
  ghost predicate Listed(rs: seq<OngoingRequest>, m: map<int, OngoingRequest>)
  {
    forall i :: 0 <= i < |rs| ==> rs[i].requestID in m && m[rs[i].requestID] == rs[i]
  }

  ghost predicate DistinctRequestIds(rs: seq<OngoingRequest>)
  {
    forall i, j :: 0 <= i < j < |rs| ==> rs[i].requestID != rs[j].requestID
  }

  /** No list element has the id. */
  ghost predicate Omits(rs: seq<OngoingRequest>, id: int)
  {
    forall i :: 0 <= i < |rs| ==> rs[i].requestID != id
  }

  /** The links between the list and the dictionary; ids never change, so this reads nothing. */
  ghost predicate Linked(rs: seq<OngoingRequest>, m: map<int, OngoingRequest>)
  {
    FiledById(m) && Listed(rs, m) && DistinctRequestIds(rs)
  }

  /** The values mirror the dictionary's objects, key by key. */
  ghost predicate Mirrors(m: map<int, OngoingRequest>, es: map<int, Row>)
    reads m.Values`methodPathString, m.Values`state, m.Values`bytesSoFar, m.Values`bytesExpected
  {
    es.Keys == m.Keys && forall k :: k in m ==> es[k] == m[k].Snapshot()
  }

  /** The value list follows the object list through the dictionary's values. */
  ghost predicate Follows(rs: seq<OngoingRequest>, rows: seq<Row>, es: map<int, Row>)
  {
    |rows| == |rs| && forall i :: 0 <= i < |rs| ==> rs[i].requestID in es && rows[i] == es[rs[i].requestID]
  }

  /** Values filed under their own ids. */
  ghost predicate Keyed(es: map<int, Row>)
  {
    forall k :: k in es ==> es[k].id == k
  }

  /** Taking out the element at k keeps the others listed, and none has its id. */
  lemma CutListed(rs: seq<OngoingRequest>, m: map<int, OngoingRequest>, k: int)
    requires Listed(rs, m) && DistinctRequestIds(rs) && 0 <= k < |rs|
    ensures Listed(rs[..k] + rs[k + 1..], m) && Omits(rs[..k] + rs[k + 1..], rs[k].requestID)
    ensures Listed(rs[..k] + rs[k + 1..], m - {rs[k].requestID})
  {
    var out := rs[..k] + rs[k + 1..];
    forall i | 0 <= i < |out|
      ensures out[i].requestID != rs[k].requestID && out[i].requestID in m && m[out[i].requestID] == out[i]
    {
      var j := if i < k then i else i + 1;
      assert out[i] == rs[j];
    }
  }

  lemma CutDistinct(rs: seq<OngoingRequest>, k: int)
    requires DistinctRequestIds(rs) && 0 <= k < |rs|
    ensures DistinctRequestIds(rs[..k] + rs[k + 1..])
  {
    var out := rs[..k] + rs[k + 1..];
    forall i, j | 0 <= i < j < |out| ensures out[i].requestID != out[j].requestID {
      var i', j' := if i < k then i else i + 1, if j < k then j else j + 1;
      assert out[i] == rs[i'] && out[j] == rs[j'];
    }
  }

  /** The list after `_requests.Remove(o)`, with or without the dictionary entry. */
  lemma LinkedDrop(rs: seq<OngoingRequest>, m: map<int, OngoingRequest>, o: OngoingRequest)
    requires Linked(rs, m) && o.requestID in m && m[o.requestID] == o
    ensures Linked(RemoveRef(rs, o), m) && Linked(RemoveRef(rs, o), m - {o.requestID})
    ensures Omits(RemoveRef(rs, o), o.requestID)
  {
    var k := FirstRef(rs, o);
    if k >= 0 {
      CutListed(rs, m, k);
      CutDistinct(rs, k);
    } else {
      forall i | 0 <= i < |rs| ensures rs[i].requestID != o.requestID {
        assert rs[i] != o;
      }
    }
  }

  /** The list and the dictionary after adding an object for an id the list does not hold. */
  lemma LinkedAppend(rs: seq<OngoingRequest>, m: map<int, OngoingRequest>, r: OngoingRequest)
    requires Linked(rs, m) && Omits(rs, r.requestID)
    ensures Linked(rs + [r], m[r.requestID := r])
  {
  }

  /** `RemoveId` drops the first entry carrying the id. */
  lemma {:induction false} RemoveIdAt(rows: seq<Row>, id: int, k: int)
    requires 0 <= k < |rows| && rows[k].id == id
    requires forall j :: 0 <= j < k ==> rows[j].id != id
    ensures RemoveId(rows, id) == rows[..k] + rows[k + 1..]
  {
    if k > 0 {
      RemoveIdAt(rows[1..], id, k - 1);
      assert rows[1..][..k - 1] == rows[1..k];
      assert rows[1..][k..] == rows[k + 1..];
      assert rows[..k] == [rows[0]] + rows[1..k];
    }
  }

  lemma {:induction false} RemoveIdAbsent(rows: seq<Row>, id: int)
    requires forall j :: 0 <= j < |rows| ==> rows[j].id != id
    ensures RemoveId(rows, id) == rows
  {
    if rows != [] {
      RemoveIdAbsent(rows[1..], id);
    }
  }

  /** Removing the object with an id from the list removes the value with that id from the rows. */
  lemma FollowsRemove(rs: seq<OngoingRequest>, rows: seq<Row>, es: map<int, Row>, o: OngoingRequest)
    requires Follows(rs, rows, es) && Keyed(es)
    requires forall i :: 0 <= i < |rs| && rs[i].requestID == o.requestID ==> rs[i] == o
    ensures Follows(RemoveRef(rs, o), RemoveId(rows, o.requestID), es)
  {
    var k := FirstRef(rs, o);
    if k < 0 {
      forall j | 0 <= j < |rows| ensures rows[j].id != o.requestID {
        assert rs[j] != o;
      }
      RemoveIdAbsent(rows, o.requestID);
    } else {
      forall j | 0 <= j < k ensures rows[j].id != o.requestID {
        assert rs[j] != o;
      }
      RemoveIdAt(rows, o.requestID, k);
      var out, left := rs[..k] + rs[k + 1..], rows[..k] + rows[k + 1..];
      forall i | 0 <= i < |out| ensures out[i].requestID in es && left[i] == es[out[i].requestID] {
        if i < k {
          assert left[i] == rows[i] && out[i] == rs[i];
        } else {
          assert left[i] == rows[i + 1] && out[i] == rs[i + 1];
        }
      }
    }
  }

  /** Forgetting the value of an id the list does not hold. */
  lemma FollowsForget(rs: seq<OngoingRequest>, rows: seq<Row>, es: map<int, Row>, id: int)
    requires Follows(rs, rows, es) && Omits(rs, id)
    ensures Follows(rs, rows, es - {id})
  {
  }

  /** Replacing the value of a listed id replaces its row. */
  lemma FollowsSet(rs: seq<OngoingRequest>, rows: seq<Row>, es: map<int, Row>, r: Row)
    requires Follows(rs, rows, es) && Keyed(es) && r.id in es
    ensures Follows(rs, SetRow(rows, r), es[r.id := r])
  {
    forall i | 0 <= i < |rs| ensures SetRow(rows, r)[i] == es[r.id := r][rs[i].requestID] {
      assert rows[i].id == rs[i].requestID;
    }
  }

  class StatusConsole {
    var requests: seq<OngoingRequest>
    var requestByID: map<int, OngoingRequest>
    /** `remove` records that `Task.Delay(200)` will post. */
    var delayed: seq<string>
    var renderTrigger: bool
    var exiting: bool
    var progressFilledStrings: map<int, string>
    var progressUnfilledStrings: map<int, string>
    var spaceStrings: map<int, string>
    /** The list and the dictionary, as values; `Valid` ties them to the objects. */
    ghost var rows: seq<Row>
    ghost var entries: map<int, Row>

    /** The state as in the constructor and the field initialisers. */
    constructor ()
      ensures Valid() && GlyphsCanonical() && View() == Initial()
      ensures progressFilledStrings == map[] && progressUnfilledStrings == map[] && spaceStrings == map[]
    {
      requests := [];
      requestByID := map[];
      delayed := [];
      renderTrigger := true;
      exiting := false;
      progressFilledStrings := map[];
      progressUnfilledStrings := map[];
      spaceStrings := map[];
      rows := [];
      entries := map[];
    }

    ghost function View(): Monitor
      reads this`rows, this`entries, this`delayed, this`renderTrigger, this`exiting
    {
      Monitor(rows, entries, delayed, renderTrigger, exiting)
    }

    /** Every memo entry holds the string its getter builds for that count. */
    ghost predicate GlyphsCanonical()
      reads this`progressFilledStrings, this`progressUnfilledStrings, this`spaceStrings
    {
      && (forall n :: n in progressFilledStrings ==> FilledBar(n) == Some(progressFilledStrings[n]))
      && (forall n :: n in progressUnfilledStrings ==> UnfilledBar(n) == Some(progressUnfilledStrings[n]))
      && (forall n :: n in spaceStrings ==> SpaceRun(n) == Some(spaceStrings[n]))
    }

    /** The list, the dictionary and their values agree. */
    ghost predicate Valid()
      reads this`requests, this`requestByID, this`rows, this`entries
      reads requestByID.Values`methodPathString, requestByID.Values`state
      reads requestByID.Values`bytesSoFar, requestByID.Values`bytesExpected
    {
      && Linked(requests, requestByID)
      && Mirrors(requestByID, entries) && Follows(requests, rows, entries)
    }

    /** The values are filed under their ids. */
    lemma ValidKeyed()
      requires Valid()
      ensures Keyed(entries)
    {
      forall k | k in entries ensures entries[k].id == k {
        assert entries[k] == requestByID[k].Snapshot();
      }
    }

    lemma ValidViewWellFormed()
      requires Valid()
      ensures WellFormed(View())
    {
      ValidKeyed();
      forall i, j | 0 <= i < j < |rows| ensures rows[i].id != rows[j].id {
        assert rows[i].id == requests[i].requestID;
        assert rows[j].id == requests[j].requestID;
      }
      forall r | r in rows ensures r.id in entries && entries[r.id] == r {
        var i :| 0 <= i < |rows| && rows[i] == r;
        assert r.id == requests[i].requestID;
      }
    }

    // ---- ProcessUpdate ------------------------------------------------

    /**
     * `ProcessUpdate`: applies one record to the list and the dictionary in
     * place, exactly as the value model `Apply` describes; the memo caches
     * are not touched.
     */
    method ProcessUpdate(update: string)
      requires Valid()
      modifies this`requests, this`requestByID, this`rows, this`entries, this`delayed, this`renderTrigger, this`exiting
      modifies requestByID.Values`state, requestByID.Values`bytesExpected, requestByID.Values`bytesSoFar
      ensures Valid()
      ensures View() == Apply(old(View()), update)
    {
      var parts := Split(update, ' ');
      var parsed := ParseInt32(parts[0]);
      if parsed.None? || |parts| < 2 {
        exiting := true;
        return;
      }
      var requestID, updateType := parsed.value, parts[1];
      if requestID !in requestByID && updateType != "new" {
        return;
      }
      if updateType == "new" {
        ProcessNew(requestID, parts);
      } else {
        ProcessEntry(requestByID[requestID], parts);
      }
    }

    /** The `new` case: the list entry of a live id leaves first, then the fields are read. */
    method ProcessNew(id: int, parts: seq<string>)
      requires Valid()
      modifies this`requests, this`requestByID, this`rows, this`entries, this`renderTrigger, this`exiting
      ensures Valid()
      ensures View() == ApplyNew(old(View()), id, parts)
    {
      ghost var v := View();
      ghost var m1 := if id in v.requestByID then v.(requests := RemoveId(v.requests, id)) else v;
      if |parts| < 5 {
        exiting := true;
      }
      if id in requestByID {
        DropFromList(requestByID[id]);
      }
      assert View() == if |parts| < 5 then Fail(m1) else m1;
      if |parts| < 5 {
        return;
      }
      var request := new OngoingRequest(id, TruncateClientIP(parts[2]), parts[3], parts[4]);
      assert request.Snapshot() == NewRow(id, parts[2], parts[3], parts[4]);
      AddEntry(request);
    }

    /** `_requests.Remove(prev)` for the live entry `prev`; the dictionary keeps it. */
    method DropFromList(prev: OngoingRequest)
      requires Valid() && prev.requestID in requestByID && requestByID[prev.requestID] == prev
      modifies this`requests, this`rows
      ensures Valid()
      ensures requests == RemoveRef(old(requests), prev) && Omits(requests, prev.requestID)
      ensures View() == old(View()).(requests := RemoveId(old(View()).requests, prev.requestID))
    {
      ValidKeyed();
      LinkedDrop(requests, requestByID, prev);
      FollowsRemove(requests, rows, entries, prev);
      requests := RemoveRef(requests, prev);
      rows := RemoveId(rows, prev.requestID);
    }

    /** `_requests.Add(r)`, `_requestByID[r.RequestID] = r` and the render trigger, for an id the list does not hold. */
    method AddEntry(r: OngoingRequest)
      requires Valid() && Omits(requests, r.requestID)
      modifies this`requests, this`requestByID, this`rows, this`entries, this`renderTrigger
      ensures Valid()
      ensures View() == AddNew(old(View()), r.Snapshot())
    {
      renderTrigger := true;
      LinkedAppend(requests, requestByID, r);
      requests := requests + [r];
      requestByID := requestByID[r.requestID := r];
      rows := rows + [r.Snapshot()];
      entries := entries[r.requestID := r.Snapshot()];
    }

    /** `request.State = s`. */
    method SetState(request: OngoingRequest, s: string)
      requires Valid() && request.requestID in requestByID && requestByID[request.requestID] == request
      modifies this`rows, this`entries, request`state
      ensures Valid()
      ensures request.Snapshot() == old(request.Snapshot()).(state := s)
      ensures View() == Update(old(View()), request.Snapshot())
    {
      ValidKeyed();
      request.state := s;
      FollowsSet(requests, rows, entries, request.Snapshot());
      rows := SetRow(rows, request.Snapshot());
      entries := entries[request.requestID := request.Snapshot()];
      forall k | k in requestByID ensures entries[k] == requestByID[k].Snapshot() {
        if k != request.requestID {
          assert requestByID[k] != request;
        }
      }
    }

    /** `request.BytesExpected = n`. */
    method SetBytesExpected(request: OngoingRequest, n: int)
      requires Valid() && request.requestID in requestByID && requestByID[request.requestID] == request
      modifies this`rows, this`entries, request`bytesExpected
      ensures Valid()
      ensures request.Snapshot() == old(request.Snapshot()).(bytesExpected := n)
      ensures View() == Update(old(View()), request.Snapshot())
    {
      ValidKeyed();
      request.bytesExpected := n;
      FollowsSet(requests, rows, entries, request.Snapshot());
      rows := SetRow(rows, request.Snapshot());
      entries := entries[request.requestID := request.Snapshot()];
      forall k | k in requestByID ensures entries[k] == requestByID[k].Snapshot() {
        if k != request.requestID {
          assert requestByID[k] != request;
        }
      }
    }

    /** Stores the new `request.BytesSoFar`. */
    method SetBytesSoFar(request: OngoingRequest, n: int)
      requires Valid() && request.requestID in requestByID && requestByID[request.requestID] == request
      modifies this`rows, this`entries, request`bytesSoFar
      ensures Valid()
      ensures request.Snapshot() == old(request.Snapshot()).(bytesSoFar := n)
      ensures View() == Update(old(View()), request.Snapshot())
    {
      ValidKeyed();
      request.bytesSoFar := n;
      FollowsSet(requests, rows, entries, request.Snapshot());
      rows := SetRow(rows, request.Snapshot());
      entries := entries[request.requestID := request.Snapshot()];
      forall k | k in requestByID ensures entries[k] == requestByID[k].Snapshot() {
        if k != request.requestID {
          assert requestByID[k] != request;
        }
      }
    }

    /** `remove`: the entry leaves the list and the dictionary. */
    method RemoveLive(request: OngoingRequest)
      requires Valid() && request.requestID in requestByID && requestByID[request.requestID] == request
      modifies this`requests, this`requestByID, this`rows, this`entries
      ensures Valid()
      ensures View() == RemoveEntry(old(View()), request.requestID)
    {
      DropFromList(request);
      Forget(request.requestID);
    }

    /** `_requestByID.Remove(id)` for an id the list no longer holds. */
    method Forget(id: int)
      requires Valid() && Omits(requests, id)
      modifies this`requestByID, this`entries
      ensures Valid()
      ensures View() == old(View()).(requestByID := old(View()).requestByID - {id})
    {
      FollowsForget(requests, rows, entries, id);
      requestByID := requestByID - {id};
      entries := entries - {id};
      forall k | k in requestByID ensures entries[k] == requestByID[k].Snapshot() {
        assert requestByID[k] == old(requestByID)[k];
      }
    }

    /**
     * `length` and `progress`: the state, then the parsed count. The parse
     * is evaluated first here; it writes nothing, so the final state is the same.
     */
    method ProcessCount(request: OngoingRequest, parts: seq<string>)
      requires Valid() && |parts| >= 2
      requires request.requestID in requestByID && requestByID[request.requestID] == request
      modifies this`rows, this`entries, this`renderTrigger, this`exiting, request`state, request`bytesExpected, request`bytesSoFar
      ensures Valid()
      ensures View() == ApplyCount(old(View()), old(request.Snapshot()), parts)
    {
      var n := if |parts| < 3 then None else ParseInt64(parts[2]);
      if n.None? {
        exiting := true;
        SetState(request, "Stream");
      } else if parts[1] == "length" {
        ProcessLength(request, parts, n.value);
      } else {
        ProcessProgress(request, parts, n.value);
      }
    }

    /** `request.State = "Stream"`, then `request.BytesExpected = n`. */
    method ProcessLength(request: OngoingRequest, parts: seq<string>, n: int)
      requires Valid() && request.requestID in requestByID && requestByID[request.requestID] == request
      requires |parts| >= 3 && parts[1] == "length" && ParseInt64(parts[2]) == Some(n)
      modifies this`rows, this`entries, this`renderTrigger, request`state, request`bytesExpected
      ensures Valid()
      ensures View() == ApplyCount(old(View()), old(request.Snapshot()), parts)
    {
      renderTrigger := true;
      ghost var v := View();
      SetState(request, "Stream");
      ghost var r1 := request.Snapshot();
      SetBytesExpected(request, n);
      UpdateTwice(v, r1, request.Snapshot());
    }

    /** `request.State = "Stream"`, then `request.BytesSoFar += n` in unchecked `long` arithmetic. */
    method ProcessProgress(request: OngoingRequest, parts: seq<string>, n: int)
      requires Valid() && request.requestID in requestByID && requestByID[request.requestID] == request
      requires |parts| >= 3 && parts[1] != "length" && ParseInt64(parts[2]) == Some(n)
      modifies this`rows, this`entries, this`renderTrigger, request`state, request`bytesSoFar
      ensures Valid()
      ensures View() == ApplyCount(old(View()), old(request.Snapshot()), parts)
    {
      ghost var v0, r0 := View(), request.Snapshot();
      var total := Wrap64(request.bytesSoFar + n);
      ProgressCase(v0, r0, parts, n, total);
      renderTrigger := true;
      ghost var v := View();
      SetState(request, "Stream");
      ghost var r1 := request.Snapshot();
      SetBytesSoFar(request, total);
      UpdateTwice(v, r1, request.Snapshot());
    }

    /** The cases that act on the live entry, each followed by the render trigger. */
    method ProcessEntry(request: OngoingRequest, parts: seq<string>)
      requires Valid() && |parts| >= 2
      requires request.requestID in requestByID && requestByID[request.requestID] == request
      modifies this`requests, this`requestByID, this`rows, this`entries, this`delayed, this`renderTrigger, this`exiting
      modifies request`state, request`bytesExpected, request`bytesSoFar
      ensures Valid()
      ensures View() == ApplyToEntry(old(View()), request.requestID, parts)
    {
      var id := request.requestID;
      var updateType := parts[1];
      if updateType == "sent" {
        renderTrigger := true;
        SetState(request, "Sent");
      } else if updateType == "length" || updateType == "progress" {
        ProcessCount(request, parts);
      } else if updateType == "end" {
        renderTrigger := true;
        delayed := delayed + [RemoveLine(id)];
        SetState(request, "Done");
      } else if updateType == "remove" {
        renderTrigger := true;
        RemoveLive(request);
      } else {
        renderTrigger := true;
      }
    }

    // ---- the renderer ---------------------------------------------------

    /** `GetProgressFilledString`: memoised `"[" + new string('#', n)`; None where that throws. */
    method GetProgressFilledString(n: int) returns (r: Option<string>)
      requires GlyphsCanonical()
      modifies this`progressFilledStrings
      ensures GlyphsCanonical()
      ensures r == FilledBar(n)
      ensures progressFilledStrings == if r.Some? then old(progressFilledStrings)[n := r.value] else old(progressFilledStrings)
    {
      if n in progressFilledStrings {
        return Some(progressFilledStrings[n]);
      }
      if n < 0 {
        return None;
      }
      var value := "[" + Repeat('#', n);
      progressFilledStrings := progressFilledStrings[n := value];
      r := Some(value);
    }

    /** `GetProgressUnfilledString`: memoised `new string('.', n) + "]"`; None where that throws. */
    method GetProgressUnfilledString(n: int) returns (r: Option<string>)
      requires GlyphsCanonical()
      modifies this`progressUnfilledStrings
      ensures GlyphsCanonical()
      ensures r == UnfilledBar(n)
      ensures progressUnfilledStrings == if r.Some? then old(progressUnfilledStrings)[n := r.value] else old(progressUnfilledStrings)
    {
      if n in progressUnfilledStrings {
        return Some(progressUnfilledStrings[n]);
      }
      if n < 0 {
        return None;
      }
      var value := Repeat('.', n) + "]";
      progressUnfilledStrings := progressUnfilledStrings[n := value];
      r := Some(value);
    }

    /** `GetSpaceString`: memoised `new string(' ', n)`; None where that throws. */
    method GetSpaceString(n: int) returns (r: Option<string>)
      requires GlyphsCanonical()
      modifies this`spaceStrings
      ensures GlyphsCanonical()
      ensures r == SpaceRun(n)
      ensures spaceStrings == if r.Some? then old(spaceStrings)[n := r.value] else old(spaceStrings)
    {
      if n in spaceStrings {
        return Some(spaceStrings[n]);
      }
      if n < 0 {
        return None;
      }
      var value := Spaces(n);
      spaceStrings := spaceStrings[n := value];
      r := Some(value);
    }

    /** `request.MethodPathString = s`, for the entry's canonical cell. */
    method SetMethodPath(request: OngoingRequest, s: string)
      requires Valid() && request.requestID in requestByID && requestByID[request.requestID] == request
      modifies this`rows, this`entries, request`methodPathString
      ensures Valid()
      ensures request.Snapshot() == old(request.Snapshot()).(methodPathString := Some(s))
      ensures View() == Update(old(View()), request.Snapshot())
    {
      ValidKeyed();
      request.methodPathString := Some(s);
      FollowsSet(requests, rows, entries, request.Snapshot());
      rows := SetRow(rows, request.Snapshot());
      entries := entries[request.requestID := request.Snapshot()];
      forall k | k in requestByID ensures entries[k] == requestByID[k].Snapshot() {
        if k != request.requestID {
          assert requestByID[k] != request;
        }
      }
    }

    /**
     * The method and path cell of entry i: computed, padded with
     * `GetSpaceString` and stored on first use, read back afterwards.
     */
    method CacheMethodPath(request: OngoingRequest, i: int) returns (cell: string)
      requires Valid() && GlyphsCanonical() && 0 <= i < |requests| && requests[i] == request && CellOk(rows[i])
      modifies this`rows, this`entries, request`methodPathString, this`spaceStrings
      ensures Valid() && GlyphsCanonical()
      ensures cell == MethodPathCell(old(rows[i]).httpMethod, old(rows[i]).path)
      ensures rows == old(rows)[i := CacheCell(old(rows[i]))]
      ensures entries == old(entries)[old(rows[i]).id := CacheCell(old(rows[i]))]
    {
      ValidKeyed();
      ValidViewWellFormed();
      assert rows[i] == request.Snapshot();
      if request.methodPathString.Some? {
        return request.methodPathString.value;
      }
      cell := MethodPathText(request.httpMethod, request.path);
      SetMethodPath(request, cell);
      SetRowAt(old(rows), i, request.Snapshot());
    }

    /**
     * `RenderRequest` for entry i of the list: the id, the client address,
     * the cached cell, the state and then the counts, written left to right;
     * None where one of the string constructors throws.
     */
    method RenderRequest(request: OngoingRequest, i: int, windowWidth: int) returns (text: Option<string>)
      requires Valid() && GlyphsCanonical() && 0 <= i < |requests| && requests[i] == request && CellOk(rows[i])
      modifies this`rows, this`entries, request`methodPathString
      modifies this`progressFilledStrings, this`progressUnfilledStrings, this`spaceStrings
      ensures Valid()
      ensures GlyphsCanonical()
      ensures text == RowText(old(rows[i]), windowWidth)
      ensures rows == old(rows)[i := CacheCell(old(rows[i]))]
      ensures entries == old(entries)[old(rows[i]).id := CacheCell(old(rows[i]))]
    {
      var r := request.Snapshot();
      var cell := CacheMethodPath(request, i);
      text := RenderRow(r, cell, windowWidth);
      assert Linked(requests, requestByID);
      assert Follows(requests, rows, entries);
      assert Mirrors(requestByID, entries);
    }

    /**
     * `RenderRequests`: H - 1 lines, each an entry while they last and then
     * a blank line, and after them `...`, the last entry or nothing. The
     * frame is `Render` of the entries as they were before it; the entries
     * drawn (`rendered` of them, from the top) now cache their cells, and no
     * other entry changes. None where one of the string constructors throws.
     */
    method RenderRequests(windowWidth: int, windowHeight: int) returns (screen: Option<Screen>, ghost rendered: nat)
      requires Valid() && GlyphsCanonical() && CellsOk(rows)
      modifies this`rows, this`entries, requests`methodPathString
      modifies this`progressFilledStrings, this`progressUnfilledStrings, this`spaceStrings
      ensures Valid() && GlyphsCanonical()
      ensures screen == Render(old(rows), windowWidth, windowHeight)
      ensures rows == CachedPrefix(old(rows), rendered)
      ensures screen.Some? ==> rendered == Shown(|old(rows)|, windowHeight)
    {
      ghost var rows0 := rows;
      ghost var texts := Texts(rows, windowWidth);
      ghost var blank := SpaceRun(windowWidth - 1);
      assert Render(rows0, windowWidth, windowHeight) == Assemble(texts, blank, windowHeight);
      var lines;
      lines, rendered := DrawLines(windowWidth, windowHeight, rows0);
      if lines.None? {
        AssembleFails(texts, blank, windowHeight, rendered);
        return None, rendered;
      }
      var last;
      last, rendered := DrawLast(windowWidth, windowHeight, rows0);
      AssembleFrom(texts, blank, windowHeight, lines.value, last);
      if last.None? {
        return None, rendered;
      }
      screen := Some(Screen(lines.value, last.value));
    }

    /**
     * The loop of `RenderRequests`: lines 0 to H - 2. On success every one
     * is drawn; when line k - 1 throws, the first k lines were begun and
     * the frame is not drawn.
     */
    method DrawLines(windowWidth: int, windowHeight: int, ghost rows0: seq<Row>) returns (lines: Option<seq<string>>, ghost tried: nat)
      requires Valid() && GlyphsCanonical() && CellsOk(rows0) && rows == rows0
      modifies this`rows, this`entries, requests`methodPathString
      modifies this`progressFilledStrings, this`progressUnfilledStrings, this`spaceStrings
      ensures Valid() && GlyphsCanonical()
      ensures tried <= (if windowHeight - 1 > 0 then windowHeight - 1 else 0)
      ensures lines == Lines(Texts(rows0, windowWidth), SpaceRun(windowWidth - 1), tried)
      ensures lines.Some? ==> tried == (if windowHeight - 1 > 0 then windowHeight - 1 else 0)
      ensures rows == CachedPrefix(rows0, tried)
    {
      ghost var texts := Texts(rows0, windowWidth);
      ghost var blank := SpaceRun(windowWidth - 1);
      var n := if windowHeight - 1 > 0 then windowHeight - 1 else 0;
      lines := Some([]);
      var i := 0;
      while i < n && lines.Some?
        invariant 0 <= i <= n
        invariant Valid() && GlyphsCanonical()
        invariant rows == CachedPrefix(rows0, i)
        invariant lines == Lines(texts, blank, i)
      {
        var line := DrawLine(i, windowWidth, rows0);
        LinesStep(texts, blank, i, lines.value, line);
        lines := if line.None? then None else Some(lines.value + [line.value]);
        i := i + 1;
      }
      tried := i;
    }

    /**
     * The last line, once H - 1 lines are drawn: `...` when entries are
     * hidden, `RenderRequest` of the last entry when exactly H are held,
     * else nothing.
     */
    method DrawLast(windowWidth: int, windowHeight: int, ghost rows0: seq<Row>) returns (last: Option<string>, ghost rendered: nat)
      requires Valid() && GlyphsCanonical() && CellsOk(rows0)
      requires rows == CachedPrefix(rows0, if windowHeight - 1 > 0 then windowHeight - 1 else 0)
      modifies this`rows, this`entries, requests`methodPathString
      modifies this`progressFilledStrings, this`progressUnfilledStrings, this`spaceStrings
      ensures Valid() && GlyphsCanonical()
      ensures last == LastLine(Texts(rows0, windowWidth), windowHeight)
      ensures rows == CachedPrefix(rows0, rendered)
      ensures last.Some? ==> rendered == Shown(|rows0|, windowHeight)
    {
      ghost var texts := Texts(rows0, windowWidth);
      assert |texts| == |rows0| == |requests|;
      var n := if windowHeight - 1 > 0 then windowHeight - 1 else 0;
      rendered := if n < |requests| then n else |requests|;
      CachedPrefixClamp(rows0, n);
      if |requests| > windowHeight {
        last := Some("...");
      } else if |requests| == windowHeight {
        if |requests| == 0 {
          last := None;
        } else {
          last := DrawLine(|requests| - 1, windowWidth, rows0);
          rendered := |requests|;
        }
      } else {
        last := Some("");
      }
    }

    /** Line i of the frame: `RenderRequest(_requests[i])` while entries last, then a blank line. */
    method DrawLine(i: int, windowWidth: int, ghost rows0: seq<Row>) returns (line: Option<string>)
      requires Valid() && GlyphsCanonical() && CellsOk(rows0) && 0 <= i
      requires rows == CachedPrefix(rows0, i)
      modifies this`rows, this`entries, requests`methodPathString
      modifies this`progressFilledStrings, this`progressUnfilledStrings, this`spaceStrings
      ensures Valid() && GlyphsCanonical()
      ensures line == if i < |rows0| then Texts(rows0, windowWidth)[i] else SpaceRun(windowWidth - 1)
      ensures rows == CachedPrefix(rows0, i + 1)
    {
      if i < |requests| {
        line := RenderLine(i, windowWidth, rows0);
        TextsIndex(rows0, windowWidth);
      } else {
        line := GetSpaceString(windowWidth - 1);
        CachedPrefixClamp(rows0, i);
        CachedPrefixClamp(rows0, i + 1);
      }
    }

    /** `RenderRequest(_requests[i])` while the entries from i on are as they were. */
    method RenderLine(i: int, windowWidth: int, ghost rows0: seq<Row>) returns (text: Option<string>)
      requires Valid() && GlyphsCanonical() && CellsOk(rows0) && 0 <= i < |requests|
      requires rows == CachedPrefix(rows0, i)
      modifies this`rows, this`entries, requests`methodPathString
      modifies this`progressFilledStrings, this`progressUnfilledStrings, this`spaceStrings
      ensures Valid() && GlyphsCanonical()
      ensures text == RowText(rows0[i], windowWidth)
      ensures rows == CachedPrefix(rows0, i + 1)
    {
      var request := requests[i];
      assert requestByID[request.requestID] == request;
      text := RenderRequest(request, i, windowWidth);
      assert rows == CachedPrefix(rows0, i + 1);
    }

    /** The columns of one entry, written left to right with the remaining width tracked. */
    method RenderRow(r: Row, cell: string, windowWidth: int) returns (text: Option<string>)
      requires GlyphsCanonical() && cell == MethodPathCell(r.httpMethod, r.path)
      modifies this`progressFilledStrings, this`progressUnfilledStrings, this`spaceStrings
      ensures GlyphsCanonical()
      ensures text == RowText(r, windowWidth)
    {
      var width := windowWidth - 1;
      var written := PadLeft(FormatInt(r.id), 9) + " | ";
      width := width - 12;
      written := written + PadRight(r.clientIP, 15) + " | ";
      width := width - 18;
      written := written + cell;
      width := width - |cell|;
      written := written + PadLeft(r.state, 7) + " | ";
      width := width - 10;
      var counts := RenderCounts(r.bytesSoFar, r.bytesExpected, width);
      if counts.None? {
        return None;
      }
      text := Some(written + counts.value);
    }

    /** What follows the state column: the fraction and the bar, or the count and blank padding. */
    method RenderCounts(soFar: int, expected: int, room: int) returns (c: Option<string>)
      requires GlyphsCanonical()
      modifies this`progressFilledStrings, this`progressUnfilledStrings, this`spaceStrings
      ensures GlyphsCanonical()
      ensures c == Counts(soFar, expected, room)
    {
      if expected > 0 {
        var fraction := Fraction(soFar, expected);
        var width := room - |fraction|;
        var progressBarWidth := width - 2;
        var progressChars := Fill(soFar, expected, progressBarWidth);
        var filled := GetProgressFilledString(progressChars);
        if filled.None? {
          return None;
        }
        var unfilled := GetProgressUnfilledString(Wrap32(progressBarWidth - progressChars));
        if unfilled.None? {
          return None;
        }
        c := Some(fraction + filled.value + unfilled.value);
      } else {
        var progress := Grouped(soFar);
        var width := room - |progress|;
        var padding := GetSpaceString(width);
        if padding.None? {
          return None;
        }
        c := Some(progress + padding.value);
      }
    }

    /** The text stored in `MethodPathString`: the cut text, padded with `GetSpaceString`, and the separator. */
    method MethodPathText(httpMethod: string, path: string) returns (s: string)
      requires GlyphsCanonical()
      modifies this`spaceStrings
      ensures GlyphsCanonical()
      ensures s == MethodPathCell(httpMethod, path)
    {
      s := httpMethod + " " + path;
      if |s| > METHOD_PATH_WIDTH {
        var q := IndexOf(s, '?');
        s := QueryCutAsWritten(s, q);
        if |s| > METHOD_PATH_WIDTH {
          s := MiddleSpliceAsWritten(s, q);
          if |s| > METHOD_PATH_WIDTH {
            s := s[..METHOD_PATH_WIDTH - 3] + "...";
          }
        }
      }
      assert s == TruncateAsWritten(httpMethod + " " + path);
      if |s| < METHOD_PATH_WIDTH {
        var pad := GetSpaceString(METHOD_PATH_WIDTH - |s|);
        s := s + pad.value;
      }
      s := s + " | ";
    }
  }

  // ---- the serialisers ---------------------------------------------------

  /**
   * `Deliver`: write one line and flush. A write to a broken pipe throws;
   * `ok` is false exactly then, and nothing is written.
   */
  method Deliver(stream: TextSink, message: string) returns (ok: bool)
    modifies stream
    ensures ok == !stream.broken && stream.broken == old(stream.broken)
    ensures stream.lines == if ok then old(stream.lines) + [message] else old(stream.lines)
  {
    ok := stream.WriteLine(message);
  }

  /** `NotifyNewRequest`: one `new` record, in the format `ProcessUpdate` parses. */
  method NotifyNewRequest(stream: TextSink, requestID: int, clientIP: string, httpMethod: string, path: string)
    returns (ok: bool)
    modifies stream
    ensures ok == !stream.broken && stream.broken == old(stream.broken)
    ensures stream.lines == if ok then old(stream.lines) + [Line(NewRequest(requestID, clientIP, httpMethod, path))]
                            else old(stream.lines)
  {
    ok := Deliver(stream, FormatInt(requestID) + " new " + clientIP + " " + httpMethod + " " + path);
  }

  /** `NotifyRequestSent`: one `sent` record. */
  method NotifyRequestSent(stream: TextSink, requestID: int) returns (ok: bool)
    modifies stream
    ensures ok == !stream.broken && stream.broken == old(stream.broken)
    ensures stream.lines == if ok then old(stream.lines) + [Line(RequestSent(requestID))] else old(stream.lines)
  {
    ok := Deliver(stream, FormatInt(requestID) + " sent");
  }

  /** `NotifyRequestLength`: one `length` record. */
  method NotifyRequestLength(stream: TextSink, requestID: int, expectedLength: int) returns (ok: bool)
    modifies stream
    ensures ok == !stream.broken && stream.broken == old(stream.broken)
    ensures stream.lines == if ok then old(stream.lines) + [Line(RequestLength(requestID, expectedLength))]
                            else old(stream.lines)
  {
    ok := Deliver(stream, FormatInt(requestID) + " length " + FormatInt(expectedLength));
  }

  /** `NotifyRequestProgress`: one `progress` record. */
  method NotifyRequestProgress(stream: TextSink, requestID: int, bytesProgress: int) returns (ok: bool)
    modifies stream
    ensures ok == !stream.broken && stream.broken == old(stream.broken)
    ensures stream.lines == if ok then old(stream.lines) + [Line(RequestProgress(requestID, bytesProgress))]
                            else old(stream.lines)
  {
    ok := Deliver(stream, FormatInt(requestID) + " progress " + FormatInt(bytesProgress));
  }

  /** `NotifyRequestEnd`: one `end` record. */
  method NotifyRequestEnd(stream: TextSink, requestID: int) returns (ok: bool)
    modifies stream
    ensures ok == !stream.broken && stream.broken == old(stream.broken)
    ensures stream.lines == if ok then old(stream.lines) + [Line(RequestEnd(requestID))] else old(stream.lines)
  {
    ok := Deliver(stream, FormatInt(requestID) + " end");
  }

  /** The serialiser for a notification: the method `Notify*` of the same name. */
  method Notify(stream: TextSink, n: Notification) returns (ok: bool)
    modifies stream
    ensures ok == !stream.broken && stream.broken == old(stream.broken)
    ensures stream.lines == if ok then old(stream.lines) + [Line(n)] else old(stream.lines)
  {
    match n
    case NewRequest(id, ip, m, p) => ok := NotifyNewRequest(stream, id, ip, m, p);
    case RequestSent(id) => ok := NotifyRequestSent(stream, id);
    case RequestLength(id, len) => ok := NotifyRequestLength(stream, id, len);
    case RequestProgress(id, d) => ok := NotifyRequestProgress(stream, id, d);
    case RequestEnd(id) => ok := NotifyRequestEnd(stream, id);
  }

  /** `ApplyCount` for a parsed `progress` count, with the sum already wrapped. */
  lemma ProgressCase(m: Monitor, r: Row, parts: seq<string>, n: int, total: int)
    requires |parts| >= 3 && parts[1] != "length" && ParseInt64(parts[2]) == Some(n)
    requires total == Wrap64(r.bytesSoFar + n)
    ensures ApplyCount(m, r, parts) == Update(m.(renderTrigger := true), r.(state := "Stream", bytesSoFar := total))
  {
  }

  /** With distinct ids, replacing the row for an id is replacing the row at its index. */
  lemma SetRowAt(rows: seq<Row>, i: int, r: Row)
    requires DistinctIds(rows) && 0 <= i < |rows| && rows[i].id == r.id
    ensures SetRow(rows, r) == rows[i := r]
  {
  }

  /** Two updates of the same entry amount to the second. */
  lemma UpdateTwice(m: Monitor, a: Row, b: Row)
    requires a.id == b.id
    ensures Update(Update(m, a), b) == Update(m, b)
  {
    assert SetRow(SetRow(m.requests, a), b) == SetRow(m.requests, b);
  }
}
