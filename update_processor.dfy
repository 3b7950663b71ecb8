/**
 * `StatusConsole.ProcessUpdate` as a function on the monitor's state: the
 * ordered request list, the id-indexed dictionary, the `remove` records the
 * 200 ms timers will post, the render trigger and the exiting flag.
 * The `StatusConsole` class in module StatusMonitor is proved to follow it.
 */
module UpdateProcessor {
  import opened Wrappers
  import opened Numbers
  import opened Strings
  import opened LineProtocol

  const CLIENT_IP_WIDTH: nat := 15

  /** A snapshot of one `OngoingRequest`. */
  datatype Row = Row(
    id: int,
    clientIP: string,
    httpMethod: string,
    path: string,
    methodPathString: Option<string>,
    state: string,
    bytesSoFar: int,
    bytesExpected: int)

  datatype Monitor = Monitor(
    requests: seq<Row>,
    requestByID: map<int, Row>,
    delayed: seq<string>,
    renderTrigger: bool,
    exiting: bool)

  /** The state of a freshly constructed monitor (the render event starts signalled). */
  function Initial(): Monitor
  {
    Monitor([], map[], [], true, false)
  }

  predicate DistinctIds(rs: seq<Row>)
  {
    forall i, j :: 0 <= i < j < |rs| ==> rs[i].id != rs[j].id
  }

  function IdSet(rs: seq<Row>): set<int>
  {
    set r | r in rs :: r.id
  }

  /**
   * What every record preserves: one list entry per id, each list entry the
   * dictionary's entry for its id, each dictionary entry filed under its own id.
   */
  predicate WellFormed(m: Monitor)
  {
    && DistinctIds(m.requests)
    && (forall r :: r in m.requests ==> r.id in m.requestByID && m.requestByID[r.id] == r)
    && (forall k :: k in m.requestByID ==> m.requestByID[k].id == k)
  }

  /** Well formed, and the list and the dictionary hold exactly the same entries. */
  predicate Consistent(m: Monitor)
  {
    WellFormed(m) && m.requestByID.Keys == IdSet(m.requests)
  }

  /** `_requests.Remove(request)`: drops the first entry with that id. */
  function RemoveId(rs: seq<Row>, id: int): (out: seq<Row>)
    ensures |out| <= |rs|
    ensures forall r :: r in out ==> r in rs
  {
    if rs == [] then []
    else if rs[0].id == id then rs[1..]
    else [rs[0]] + RemoveId(rs[1..], id)
  }

  /** The tail of a list with distinct ids has distinct ids, none of them the head's. */
  lemma DistinctTail(rs: seq<Row>)
    requires DistinctIds(rs) && rs != []
    ensures DistinctIds(rs[1..])
    ensures forall r :: r in rs[1..] ==> r.id != rs[0].id
  {
    var tail := rs[1..];
    forall i, j | 0 <= i < j < |tail| ensures tail[i].id != tail[j].id {
      assert tail[i] == rs[i + 1] && tail[j] == rs[j + 1];
    }
    forall r | r in tail ensures r.id != rs[0].id {
      var j :| 0 <= j < |tail| && tail[j] == r;
      assert rs[j + 1] == r;
    }
  }

  lemma {:induction false} RemoveIdMembers(rs: seq<Row>, id: int)
    requires DistinctIds(rs)
    ensures forall r :: r in RemoveId(rs, id) <==> r in rs && r.id != id
  {
    if rs != [] {
      var tail := rs[1..];
      DistinctTail(rs);
      RemoveIdMembers(tail, id);
      assert forall r :: r in rs <==> r == rs[0] || r in tail;
    }
  }

  lemma {:induction false} RemoveIdDistinct(rs: seq<Row>, id: int)
    requires DistinctIds(rs)
    ensures DistinctIds(RemoveId(rs, id))
  {
    if rs != [] && rs[0].id != id {
      var tail := rs[1..];
      DistinctTail(rs);
      RemoveIdDistinct(tail, id);
      var rest := RemoveId(tail, id);
      var out := [rs[0]] + rest;
      assert RemoveId(rs, id) == out;
      forall i, j | 0 <= i < j < |out| ensures out[i].id != out[j].id {
        if i == 0 {
          assert out[j] == rest[j - 1] && rest[j - 1] in rest;
        } else {
          assert out[i] == rest[i - 1] && out[j] == rest[j - 1];
        }
      }
    } else if rs != [] {
      DistinctTail(rs);
    }
  }

  lemma RemoveIdIds(rs: seq<Row>, id: int)
    requires DistinctIds(rs)
    ensures IdSet(RemoveId(rs, id)) == IdSet(rs) - {id}
  {
    RemoveIdMembers(rs, id);
  }

  /** Replaces the list entry that has the same id as r. */
  function SetRow(rs: seq<Row>, r: Row): (out: seq<Row>)
    ensures |out| == |rs|
    ensures forall i :: 0 <= i < |rs| ==> out[i] == if rs[i].id == r.id then r else rs[i]
  {
    seq(|rs|, i requires 0 <= i < |rs| => if rs[i].id == r.id then r else rs[i])
  }

  /** An in-place update of the entry r.id, seen through both structures. */
  function Update(m: Monitor, r: Row): Monitor
  {
    m.(requests := SetRow(m.requests, r), requestByID := m.requestByID[r.id := r])
  }

  function Touch(m: Monitor): Monitor { m.(renderTrigger := true) }

  /** The catch block: the exception is reported and `_exiting` is set. */
  function Fail(m: Monitor): Monitor { m.(exiting := true) }

  function TruncateClientIP(ip: string): (r: string)
    ensures |r| <= CLIENT_IP_WIDTH
    ensures r == if |ip| <= CLIENT_IP_WIDTH then ip else ip[..CLIENT_IP_WIDTH]
  {
    if |ip| > CLIENT_IP_WIDTH then ip[..CLIENT_IP_WIDTH] else ip
  }

  function NewRow(id: int, ip: string, httpMethod: string, path: string): Row
  {
    Row(id, TruncateClientIP(ip), httpMethod, path, None, "Connect", 0, 0)
  }

  /** `ProcessUpdate(update)`, including the exceptions its catch block absorbs. */
  function Apply(m: Monitor, update: string): Monitor
  {
    var parts := Split(update, ' ');
    match ParseInt32(parts[0])
    case None => Fail(m)
    case Some(id) => if |parts| < 2 then Fail(m) else Dispatch(m, id, parts)
  }

  /** From the dictionary lookup on: the early return and the switch on the record type. */
  function Dispatch(m: Monitor, id: int, parts: seq<string>): Monitor
    requires |parts| >= 2
  {
    if id !in m.requestByID && parts[1] != "new" then m
    else if parts[1] == "new" then ApplyNew(m, id, parts)
    else ApplyToEntry(m, id, parts)
  }

  /** The list entry of a live id leaves first; then the fields are read. */
  function ApplyNew(m: Monitor, id: int, parts: seq<string>): Monitor
  {
    var m1 := if id in m.requestByID then m.(requests := RemoveId(m.requests, id)) else m;
    if |parts| < 5 then Fail(m1) else AddNew(m1, NewRow(id, parts[2], parts[3], parts[4]))
  }

  /**
   * `new` as evidently intended: the fields are read before the live entry
   * leaves the list, so a truncated record only sets the exiting flag.
   */
  function ApplyNewFieldsFirst(m: Monitor, id: int, parts: seq<string>): Monitor
  {
    if |parts| < 5 then Fail(m) else ApplyNew(m, id, parts)
  }

  function AddNew(m: Monitor, r: Row): Monitor
  {
    Touch(m.(requests := m.requests + [r], requestByID := m.requestByID[r.id := r]))
  }

  /** The cases of the switch that act on an existing entry. */
  function ApplyToEntry(m: Monitor, id: int, parts: seq<string>): Monitor
    requires |parts| >= 2 && id in m.requestByID
  {
    var r := m.requestByID[id];
    var kind := parts[1];
    if kind == "sent" then Touch(Update(m, r.(state := "Sent")))
    else if kind == "length" || kind == "progress" then ApplyCount(m, r, parts)
    else if kind == "end" then Touch(Update(m, r.(state := "Done")).(delayed := m.delayed + [RemoveLine(id)]))
    else if kind == "remove" then Touch(RemoveEntry(m, id))
    else Touch(m)
  }

  /** `length` and `progress`: the state is set before the number is parsed. */
  function ApplyCount(m: Monitor, r: Row, parts: seq<string>): Monitor
    requires |parts| >= 2
  {
    var n := if |parts| < 3 then None else ParseInt64(parts[2]);
    if n.None? then Fail(Update(m, r.(state := "Stream")))
    else if parts[1] == "length" then Touch(Update(m, r.(state := "Stream", bytesExpected := n.value)))
    else Touch(Update(m, r.(state := "Stream", bytesSoFar := Wrap64(r.bytesSoFar + n.value))))
  }

  /** `ApplyCount` once the count has been read. */
  lemma ApplyCountParsed(m: Monitor, r: Row, parts: seq<string>, n: int)
    requires |parts| >= 3 && ParseInt64(parts[2]) == Some(n)
    ensures ApplyCount(m, r, parts)
         == if parts[1] == "length" then Touch(Update(m, r.(state := "Stream", bytesExpected := n)))
            else Touch(Update(m, r.(state := "Stream", bytesSoFar := Wrap64(r.bytesSoFar + n))))
  {
  }

  function RemoveEntry(m: Monitor, id: int): Monitor
  {
    m.(requests := RemoveId(m.requests, id), requestByID := m.requestByID - {id})
  }

  /** Records applied one after another, as the single-consumer queue does. */
  function ApplyAll(m: Monitor, updates: seq<string>): Monitor
    decreases |updates|
  {
    if updates == [] then m else ApplyAll(Apply(m, updates[0]), updates[1..])
  }
}

/** What `ProcessUpdate` preserves and what each record of the protocol does. */
module UpdateProcessorProperties {
  import opened Wrappers
  import opened Numbers
  import opened Strings
  import opened LineProtocol
  import opened UpdateProcessor

  lemma InitialIsConsistent()
    ensures Consistent(Initial())
  {
  }

  lemma IdSetIndex(rs: seq<Row>, id: int)
    ensures id in IdSet(rs) <==> exists i :: 0 <= i < |rs| && rs[i].id == id
  {
    if id in IdSet(rs) {
      var r :| r in rs && r.id == id;
      var i :| 0 <= i < |rs| && rs[i] == r;
    }
  }

  lemma UpdateKeeps(m: Monitor, r: Row)
    requires WellFormed(m) && r.id in m.requestByID
    ensures WellFormed(Update(m, r))
    ensures Consistent(m) ==> Consistent(Update(m, r))
  {
    var rs, out := m.requests, Update(m, r).requests;
    var byId := Update(m, r).requestByID;
    forall x | x in out ensures x.id in byId && byId[x.id] == x {
      var i :| 0 <= i < |out| && out[i] == x;
      if rs[i].id != r.id {
        assert rs[i] in rs;
      }
    }
    forall id ensures id in IdSet(out) <==> id in IdSet(rs) {
      IdSetIndex(out, id);
      IdSetIndex(rs, id);
    }
  }

  lemma RemoveKeeps(m: Monitor, id: int)
    requires WellFormed(m)
    ensures WellFormed(RemoveEntry(m, id))
    ensures Consistent(m) ==> Consistent(RemoveEntry(m, id))
  {
    RemoveIdMembers(m.requests, id);
    RemoveIdDistinct(m.requests, id);
    RemoveIdIds(m.requests, id);
  }

  lemma RemoveListEntryKeeps(m: Monitor, id: int)
    requires WellFormed(m)
    ensures WellFormed(m.(requests := RemoveId(m.requests, id)))
    ensures forall x :: x in RemoveId(m.requests, id) ==> x.id != id
  {
    RemoveIdMembers(m.requests, id);
    RemoveIdDistinct(m.requests, id);
  }

  lemma AddNewKeeps(m: Monitor, r: Row)
    requires WellFormed(m) && forall x :: x in m.requests ==> x.id != r.id
    ensures WellFormed(AddNew(m, r))
    ensures IdSet(AddNew(m, r).requests) == IdSet(m.requests) + {r.id}
  {
    var rs := m.requests + [r];
    forall i, j | 0 <= i < j < |rs| ensures rs[i].id != rs[j].id {
      if j < |rs| - 1 {
        assert rs[i] == m.requests[i] && rs[j] == m.requests[j];
      } else {
        assert rs[i] in m.requests;
      }
    }
    assert forall x :: x in rs <==> x in m.requests || x == r;
  }

  lemma ApplyNewKeeps(m: Monitor, id: int, parts: seq<string>)
    requires WellFormed(m)
    ensures WellFormed(ApplyNew(m, id, parts))
    ensures Consistent(m) && (|parts| >= 5 || id !in m.requestByID) ==> Consistent(ApplyNew(m, id, parts))
  {
    var m1 := if id in m.requestByID then m.(requests := RemoveId(m.requests, id)) else m;
    RemoveListEntryKeeps(m, id);
    assert forall x :: x in m1.requests ==> x.id != id;
    if |parts| >= 5 {
      AddNewKeeps(m1, NewRow(id, parts[2], parts[3], parts[4]));
      if id in m.requestByID {
        RemoveIdIds(m.requests, id);
      }
    }
  }

  lemma ApplyCountKeeps(m: Monitor, r: Row, parts: seq<string>)
    requires WellFormed(m) && |parts| >= 2 && r.id in m.requestByID
    ensures WellFormed(ApplyCount(m, r, parts))
    ensures Consistent(m) ==> Consistent(ApplyCount(m, r, parts))
  {
    var n := if |parts| < 3 then None else ParseInt64(parts[2]);
    var r' := if n.None? then r.(state := "Stream")
              else if parts[1] == "length" then r.(state := "Stream", bytesExpected := n.value)
              else r.(state := "Stream", bytesSoFar := Wrap64(r.bytesSoFar + n.value));
    assert r'.id == r.id;
    UpdateKeeps(m, r');
    assert ApplyCount(m, r, parts) == (if n.None? then Fail(Update(m, r')) else Touch(Update(m, r')));
  }

  lemma ApplyToEntryKeeps(m: Monitor, id: int, parts: seq<string>)
    requires WellFormed(m) && |parts| >= 2 && id in m.requestByID
    ensures WellFormed(ApplyToEntry(m, id, parts))
    ensures Consistent(m) ==> Consistent(ApplyToEntry(m, id, parts))
  {
    var r := m.requestByID[id];
    var kind := parts[1];
    if kind == "sent" {
      UpdateKeeps(m, r.(state := "Sent"));
    } else if kind == "length" || kind == "progress" {
      ApplyCountKeeps(m, r, parts);
    } else if kind == "end" {
      UpdateKeeps(m, r.(state := "Done"));
      var m' := Update(m, r.(state := "Done"));
      assert ApplyToEntry(m, id, parts) == Touch(m'.(delayed := m.delayed + [RemoveLine(id)]));
    } else if kind == "remove" {
      RemoveKeeps(m, id);
    }
  }

  /** Every record, malformed ones included, keeps the monitor well formed. */
  lemma ApplyKeepsWellFormed(m: Monitor, update: string)
    requires WellFormed(m)
    ensures WellFormed(Apply(m, update))
  {
    var parts := Split(update, ' ');
    var pid := ParseInt32(parts[0]);
    if pid.Some? && |parts| >= 2 {
      var id := pid.value;
      if parts[1] == "new" {
        ApplyNewKeeps(m, id, parts);
      } else if id in m.requestByID {
        ApplyToEntryKeeps(m, id, parts);
      }
    }
  }

  /**
   * A `new` record with fewer than five fields for an id that is live: the
   * list entry is removed before the missing field throws.
   */
  predicate TruncatedNewForLiveId(m: Monitor, update: string)
  {
    var parts := Split(update, ' ');
    && |parts| >= 2 && parts[1] == "new" && |parts| < 5
    && ParseInt32(parts[0]).Some? && ParseInt32(parts[0]).value in m.requestByID
  }

  /**
   * Every record except a truncated `new` for a live id keeps the list and the
   * dictionary holding the same entries.
   */
  lemma ApplyKeepsConsistent(m: Monitor, update: string)
    requires Consistent(m) && !TruncatedNewForLiveId(m, update)
    ensures Consistent(Apply(m, update))
  {
    var parts := Split(update, ' ');
    var pid := ParseInt32(parts[0]);
    if pid.Some? && |parts| >= 2 {
      var id := pid.value;
      if parts[1] == "new" {
        ApplyNewKeeps(m, id, parts);
      } else if id in m.requestByID {
        ApplyToEntryKeeps(m, id, parts);
      }
    }
  }

  /** The exception: a truncated `new` for a live id leaves it in the dictionary only. */
  lemma TruncatedNewDesynchronizes(m: Monitor, id: int)
    requires Consistent(m) && IsInt32(id) && id in m.requestByID
    ensures var m' := Apply(m, FormatInt(id) + " new");
      && WellFormed(m') && m'.exiting
      && id in m'.requestByID && id !in IdSet(m'.requests)
      && !Consistent(m')
  {
    var u := FormatInt(id) + " new";
    LineProtocol.FormatIntHasNoSpace(id);
    JoinTwo(FormatInt(id), "new");
    assert FormatInt(id) + " " + "new" == u;
    SplitJoin([FormatInt(id), "new"], ' ');
    ParseFormatInt32(id);
    ApplyKeepsWellFormed(m, u);
    RemoveIdIds(m.requests, id);
  }

  /**
   * With the fields read first, every `new` record keeps the list and the
   * dictionary holding the same entries, and a truncated one changes nothing
   * but the exiting flag.
   */
  lemma FieldsFirstKeepsConsistent(m: Monitor, id: int, parts: seq<string>)
    requires Consistent(m)
    ensures Consistent(ApplyNewFieldsFirst(m, id, parts))
    ensures |parts| < 5 ==> ApplyNewFieldsFirst(m, id, parts) == m.(exiting := true)
  {
    if |parts| >= 5 {
      ApplyNewKeeps(m, id, parts);
    }
  }

  /** A line that is not `<int> <type> ...` only sets the exiting flag. */
  lemma MalformedRecordSetsExiting(m: Monitor, update: string)
    requires ParseInt32(Split(update, ' ')[0]).None? || |Split(update, ' ')| < 2
    ensures Apply(m, update) == m.(exiting := true)
  {
  }

  /** A record for an id the monitor does not know, other than `new`, changes nothing. */
  lemma UnknownIdIgnored(m: Monitor, update: string)
    requires |Split(update, ' ')| >= 2 && Split(update, ' ')[1] != "new"
    requires ParseInt32(Split(update, ' ')[0]).Some?
    requires ParseInt32(Split(update, ' ')[0]).value !in m.requestByID
    ensures Apply(m, update) == m
  {
  }

  lemma ParsedLine(n: Notification)
    requires SpaceFree(n) && IsInt32(n.id)
    ensures Split(Line(n), ' ') == Fields(n)
    ensures ParseInt32(Fields(n)[0]) == Some(n.id)
  {
    SplitLine(n);
    ParseFormatInt32(n.id);
  }

  /**
   * Round trip of `new`: the entry built from the line carries the sent id,
   * method and path, the client address cut to 15 characters, state
   * `Connect` and no bytes; an older entry with the same id leaves the list.
   */
  lemma NewRecordRoundTrip(m: Monitor, id: int, ip: string, httpMethod: string, path: string)
    requires IsInt32(id) && SpaceFree(NewRequest(id, ip, httpMethod, path))
    ensures var m' := Apply(m, Line(NewRequest(id, ip, httpMethod, path)));
      && m'.requestByID == m.requestByID[id := Row(id, TruncateClientIP(ip), httpMethod, path, None, "Connect", 0, 0)]
      && m'.requests == (if id in m.requestByID then RemoveId(m.requests, id) else m.requests)
                        + [Row(id, TruncateClientIP(ip), httpMethod, path, None, "Connect", 0, 0)]
      && m'.delayed == m.delayed && m'.renderTrigger && m'.exiting == m.exiting
  {
    var n := NewRequest(id, ip, httpMethod, path);
    ParsedLine(n);
    var parts := Fields(n);
    assert Apply(m, Line(n)) == ApplyNew(m, id, parts);
    assert parts[2] == ip && parts[3] == httpMethod && parts[4] == path;
  }

  /** A second `new` for a live id leaves exactly one entry for it: the new one, last. */
  lemma NewReplacesLiveEntry(m: Monitor, id: int, ip: string, httpMethod: string, path: string)
    requires WellFormed(m) && IsInt32(id) && SpaceFree(NewRequest(id, ip, httpMethod, path))
    ensures var rs := Apply(m, Line(NewRequest(id, ip, httpMethod, path))).requests;
      && |rs| >= 1 && rs[|rs| - 1] == NewRow(id, ip, httpMethod, path)
      && forall i :: 0 <= i < |rs| - 1 ==> rs[i].id != id
  {
    var u := Line(NewRequest(id, ip, httpMethod, path));
    NewRecordRoundTrip(m, id, ip, httpMethod, path);
    ApplyKeepsWellFormed(m, u);
  }

  /** A non-`new` record for a live id reaches the switch with its own fields. */
  lemma EntryRecord(m: Monitor, n: Notification)
    requires !n.NewRequest? && SpaceFree(n) && IsInt32(n.id) && n.id in m.requestByID
    ensures Apply(m, Line(n)) == ApplyToEntry(m, n.id, Fields(n))
  {
    ParsedLine(n);
    var parts := Split(Line(n), ' ');
    assert Apply(m, Line(n)) == Dispatch(m, n.id, parts);
  }

  /** Round trip of `sent`: the state becomes `Sent`, nothing else changes. */
  lemma SentRecord(m: Monitor, id: int)
    requires IsInt32(id) && id in m.requestByID
    ensures Apply(m, Line(RequestSent(id))) == Touch(Update(m, m.requestByID[id].(state := "Sent")))
  {
    EntryRecord(m, RequestSent(id));
  }

  /** Round trip of `length`: state `Stream` and the expected byte count is set. */
  lemma LengthRecord(m: Monitor, id: int, n: int)
    requires IsInt32(id) && IsInt64(n) && id in m.requestByID
    ensures Apply(m, Line(RequestLength(id, n)))
         == Touch(Update(m, m.requestByID[id].(state := "Stream", bytesExpected := n)))
  {
    EntryRecord(m, RequestLength(id, n));
    ParseFormatInt64(n);
    var parts := [FormatInt(id), "length", FormatInt(n)];
    assert ApplyToEntry(m, id, parts) == ApplyCount(m, m.requestByID[id], parts);
  }

  /** Round trip of `progress`: state `Stream` and the delta is added (in `long`). */
  lemma ProgressRecord(m: Monitor, r: Row, n: int)
    requires IsInt32(r.id) && IsInt64(n) && r.id in m.requestByID && m.requestByID[r.id] == r
    ensures Apply(m, Line(RequestProgress(r.id, n)))
         == Touch(Update(m, r.(state := "Stream", bytesSoFar := Wrap64(r.bytesSoFar + n))))
  {
    EntryRecord(m, RequestProgress(r.id, n));
    ParseFormatInt64(n);
    var parts := [FormatInt(r.id), "progress", FormatInt(n)];
    assert parts[1] != "length" && ParseInt64(parts[2]) == Some(n);
    ApplyCountParsed(m, r, parts, n);
    assert ApplyToEntry(m, r.id, parts) == ApplyCount(m, r, parts);
  }

  /**
   * Round trip of `end`: state `Done` and exactly one `remove` record is
   * scheduled; the entry itself stays in both structures.
   */
  lemma EndRecord(m: Monitor, r: Row)
    requires IsInt32(r.id) && r.id in m.requestByID && m.requestByID[r.id] == r
    ensures Apply(m, Line(RequestEnd(r.id)))
         == Touch(Update(m, r.(state := "Done")).(delayed := m.delayed + [RemoveLine(r.id)]))
  {
    EntryRecord(m, RequestEnd(r.id));
  }

  /** The scheduled `remove` deletes the entry from both structures. */
  lemma RemoveRecord(m: Monitor, id: int)
    requires IsInt32(id) && id in m.requestByID
    ensures Apply(m, RemoveLine(id)) == Touch(RemoveEntry(m, id))
  {
    SplitRemoveLine(id);
    ParseFormatInt32(id);
  }

  /** Lifecycle notifications for an id the monitor does not know are ignored. */
  lemma UnknownIdNotificationIgnored(m: Monitor, n: Notification)
    requires !n.NewRequest? && IsInt32(n.id) && n.id !in m.requestByID
    ensures Apply(m, Line(n)) == m
  {
    ParsedLine(n);
  }

  lemma ApplyAllCons(m: Monitor, u: string, rest: seq<string>)
    ensures ApplyAll(m, [u] + rest) == ApplyAll(Apply(m, u), rest)
  {
    assert ([u] + rest)[1..] == rest;
  }

  /** The entry for row.id is row, and it is the last one in the list. */
  predicate LastEntryIs(m: Monitor, row: Row)
  {
    && row.id in m.requestByID && m.requestByID[row.id] == row
    && |m.requests| >= 1 && m.requests[|m.requests| - 1] == row
  }

  lemma UpdateLastEntry(m: Monitor, row: Row, row': Row)
    requires LastEntryIs(m, row) && row'.id == row.id
    ensures LastEntryIs(Touch(Update(m, row')), row')
  {
  }

  /** A record whose effect is to replace the last entry keeps the shape. */
  lemma UpdateStep(m: Monitor, row: Row, row': Row, u: string)
    requires WellFormed(m) && LastEntryIs(m, row) && row'.id == row.id
    requires Apply(m, u) == Touch(Update(m, row'))
    ensures WellFormed(Apply(m, u)) && LastEntryIs(Apply(m, u), row') && Apply(m, u).delayed == m.delayed
  {
    ApplyKeepsWellFormed(m, u);
    UpdateLastEntry(m, row, row');
  }

  lemma SentStep(m: Monitor, row: Row)
    requires WellFormed(m) && LastEntryIs(m, row) && IsInt32(row.id)
    ensures var m' := Apply(m, Line(RequestSent(row.id)));
      WellFormed(m') && LastEntryIs(m', row.(state := "Sent")) && m'.delayed == m.delayed
  {
    ApplyKeepsWellFormed(m, Line(RequestSent(row.id)));
    SentRecord(m, row.id);
    UpdateLastEntry(m, row, row.(state := "Sent"));
  }

  lemma LengthStep(m: Monitor, row: Row, n: int)
    requires WellFormed(m) && LastEntryIs(m, row) && IsInt32(row.id) && IsInt64(n)
    ensures var m' := Apply(m, Line(RequestLength(row.id, n)));
      WellFormed(m') && LastEntryIs(m', row.(state := "Stream", bytesExpected := n)) && m'.delayed == m.delayed
  {
    ApplyKeepsWellFormed(m, Line(RequestLength(row.id, n)));
    LengthRecord(m, row.id, n);
    UpdateLastEntry(m, row, row.(state := "Stream", bytesExpected := n));
  }

  lemma ProgressStep(m: Monitor, row: Row, n: int)
    requires WellFormed(m) && LastEntryIs(m, row) && IsInt32(row.id) && IsInt64(n)
    ensures var m' := Apply(m, Line(RequestProgress(row.id, n)));
      && WellFormed(m')
      && LastEntryIs(m', row.(state := "Stream", bytesSoFar := Wrap64(row.bytesSoFar + n)))
      && m'.delayed == m.delayed
  {
    ProgressRecord(m, row, n);
    UpdateStep(m, row, row.(state := "Stream", bytesSoFar := Wrap64(row.bytesSoFar + n)), Line(RequestProgress(row.id, n)));
  }

  lemma EndStep(m: Monitor, row: Row)
    requires WellFormed(m) && LastEntryIs(m, row) && IsInt32(row.id)
    ensures var m' := Apply(m, Line(RequestEnd(row.id)));
      && WellFormed(m') && LastEntryIs(m', row.(state := "Done"))
      && m'.delayed == m.delayed + [RemoveLine(row.id)]
  {
    var m' := Apply(m, Line(RequestEnd(row.id)));
    var row' := row.(state := "Done");
    EndRecord(m, row);
    var u := Update(m, row');
    UpdateKeeps(m, row');
    UpdateLastEntry(m, row, row');
    assert m' == Touch(u).(delayed := m.delayed + [RemoveLine(row.id)]);
    SameTables(u, m');
    SameTables(Touch(u), m');
  }

  /** Well-formedness and the last entry depend on the list and the dictionary only. */
  lemma SameTables(a: Monitor, b: Monitor)
    requires a.requests == b.requests && a.requestByID == b.requestByID
    ensures WellFormed(a) == WellFormed(b)
    ensures forall row :: LastEntryIs(a, row) == LastEntryIs(b, row)
  {
  }

  lemma ApplyAllStep(m: Monitor, us: seq<string>)
    requires us != []
    ensures ApplyAll(m, us) == ApplyAll(Apply(m, us[0]), us[1..])
  {
  }

  lemma SixTails(l0: string, l1: string, l2: string, l3: string, l4: string, l5: string)
    ensures [l0, l1, l2, l3, l4, l5][1..] == [l1, l2, l3, l4, l5]
    ensures [l1, l2, l3, l4, l5][1..] == [l2, l3, l4, l5]
    ensures [l2, l3, l4, l5][1..] == [l3, l4, l5]
    ensures [l3, l4, l5][1..] == [l4, l5]
    ensures [l4, l5][1..] == [l5]
    ensures [l5][1..] == []
  {
  }

  lemma ApplyAllSix(m: Monitor, l0: string, l1: string, l2: string, l3: string, l4: string, l5: string)
    ensures ApplyAll(m, [l0, l1, l2, l3, l4, l5])
         == Apply(Apply(Apply(Apply(Apply(Apply(m, l0), l1), l2), l3), l4), l5)
  {
    SixTails(l0, l1, l2, l3, l4, l5);
    var m1 := Apply(m, l0);
    ApplyAllStep(m, [l0, l1, l2, l3, l4, l5]);
    var m2 := Apply(m1, l1);
    ApplyAllStep(m1, [l1, l2, l3, l4, l5]);
    var m3 := Apply(m2, l2);
    ApplyAllStep(m2, [l2, l3, l4, l5]);
    var m4 := Apply(m3, l3);
    ApplyAllStep(m3, [l3, l4, l5]);
    var m5 := Apply(m4, l4);
    ApplyAllStep(m4, [l4, l5]);
    ApplyAllStep(m5, [l5]);
  }

  /** The five records after `new` take the fresh entry to `Done` with 1000 of 1000 bytes. */
  lemma LifecycleAfterNew(m: Monitor, row: Row)
    requires WellFormed(m) && LastEntryIs(m, row) && IsInt32(row.id)
    requires row.state == "Connect" && row.bytesSoFar == 0 && row.bytesExpected == 0
    ensures var id := row.id;
      var done := Apply(Apply(Apply(Apply(Apply(m, Line(RequestSent(id))), Line(RequestLength(id, 1000))),
                                    Line(RequestProgress(id, 400))), Line(RequestProgress(id, 600))),
                        Line(RequestEnd(id)));
      && WellFormed(done)
      && LastEntryIs(done, row.(state := "Done", bytesSoFar := 1000, bytesExpected := 1000))
      && done.delayed == m.delayed + [RemoveLine(id)]
  {
    var id := row.id;
    var m2 := Apply(m, Line(RequestSent(id)));
    SentStep(m, row);
    var r1 := row.(state := "Sent");
    var m3 := Apply(m2, Line(RequestLength(id, 1000)));
    LengthStep(m2, r1, 1000);
    var r2 := r1.(state := "Stream", bytesExpected := 1000);
    var m4 := Apply(m3, Line(RequestProgress(id, 400)));
    ProgressStep(m3, r2, 400);
    assert Wrap64(r2.bytesSoFar + 400) == 400;
    var r3 := r2.(bytesSoFar := 400);
    assert r2.(state := "Stream", bytesSoFar := Wrap64(r2.bytesSoFar + 400)) == r3;
    var m5 := Apply(m4, Line(RequestProgress(id, 600)));
    ProgressStep(m4, r3, 600);
    assert Wrap64(r3.bytesSoFar + 600) == 1000;
    var r4 := r3.(bytesSoFar := 1000);
    assert r3.(state := "Stream", bytesSoFar := Wrap64(r3.bytesSoFar + 600)) == r4;
    EndStep(m5, r4);
  }

  /**
   * `new`, `sent`, `length 1000`, `progress 400`, `progress 600`, `end` leave
   * the entry `Done` with 1000 of 1000 bytes, last in the list, and one
   * scheduled `remove`; applying that record then deletes the entry.
   */
  lemma LifecycleExample(m: Monitor, id: int, ip: string, httpMethod: string, path: string)
    requires WellFormed(m) && IsInt32(id) && SpaceFree(NewRequest(id, ip, httpMethod, path))
    ensures var lines := [Line(NewRequest(id, ip, httpMethod, path)), Line(RequestSent(id)),
                          Line(RequestLength(id, 1000)), Line(RequestProgress(id, 400)),
                          Line(RequestProgress(id, 600)), Line(RequestEnd(id))];
      var done := ApplyAll(m, lines);
      var row := Row(id, TruncateClientIP(ip), httpMethod, path, None, "Done", 1000, 1000);
      && LastEntryIs(done, row)
      && done.delayed == m.delayed + [RemoveLine(id)]
      && var gone := Apply(done, RemoveLine(id));
         id !in gone.requestByID && id !in IdSet(gone.requests)
  {
    var l0 := Line(NewRequest(id, ip, httpMethod, path));
    var r0 := Row(id, TruncateClientIP(ip), httpMethod, path, None, "Connect", 0, 0);
    var m1 := Apply(m, l0);
    NewRecordRoundTrip(m, id, ip, httpMethod, path);
    ApplyKeepsWellFormed(m, l0);
    assert LastEntryIs(m1, r0);
    LifecycleAfterNew(m1, r0);
    ApplyAllSix(m, l0, Line(RequestSent(id)), Line(RequestLength(id, 1000)), Line(RequestProgress(id, 400)),
                Line(RequestProgress(id, 600)), Line(RequestEnd(id)));
    var done := Apply(Apply(Apply(Apply(Apply(m1, Line(RequestSent(id))), Line(RequestLength(id, 1000))),
                                  Line(RequestProgress(id, 400))), Line(RequestProgress(id, 600))),
                      Line(RequestEnd(id)));
    RemoveRecord(done, id);
    RemoveIdIds(done.requests, id);
  }
}
