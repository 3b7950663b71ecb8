/**
 * What the forwarding engine promises, proved about the definitions in
 * `Forwarding`: the query loses exactly `fbclid`, the headers are relayed
 * whole and in order, and each copy loop asks for the right lengths, writes
 * and reports every chunk and accounts for every byte.
 */
module ForwardingProperties {
  import opened Wrappers
  import opened Numbers
  import opened Strings
  import opened LineProtocol
  import opened Forwarding

  // ---- the query ---------------------------------------------------------

  /** Removal keeps the remaining entries in their order. */
  lemma {:induction false} WithoutAppend(a: seq<KeyValues>, b: seq<KeyValues>, key: string)
    ensures Without(a + b, key) == Without(a, key) + Without(b, key)
  {
    if a != [] {
      assert (a + b)[0] == a[0] && (a + b)[1..] == a[1..] + b;
      WithoutAppend(a[1..], b, key);
      var h := if a[0].key == key then [] else [a[0]];
      assert Without(a + b, key) == h + Without(a[1..] + b, key);
      assert h + (Without(a[1..], key) + Without(b, key)) == (h + Without(a[1..], key)) + Without(b, key);
    } else {
      assert a + b == b;
    }
  }

  /** The entries that survive are exactly those with another key. */
  lemma {:induction false} WithoutMembers(q: seq<KeyValues>, key: string)
    ensures forall e :: e in Without(q, key) <==> e in q && e.key != key
  {
    if q != [] {
      WithoutMembers(q[1..], key);
      assert q == [q[0]] + q[1..];
    }
  }

  /** A query without the key is forwarded unchanged. */
  lemma {:induction false} WithoutAbsent(q: seq<KeyValues>, key: string)
    requires forall j :: 0 <= j < |q| ==> q[j].key != key
    ensures Without(q, key) == q
  {
    if q != [] {
      WithoutAbsent(q[1..], key);
    }
  }

  /** On a dictionary (distinct keys), removal takes out the one entry with the key. */
  lemma WithoutDictionary(q: seq<KeyValues>, key: string, i: int)
    requires DistinctKeys(q) && 0 <= i < |q| && q[i].key == key
    ensures Without(q, key) == q[..i] + q[i + 1..]
  {
    assert q == q[..i] + ([q[i]] + q[i + 1..]);
    WithoutAppend(q[..i], [q[i]] + q[i + 1..], key);
    WithoutAbsent(q[..i], key);
    assert ([q[i]] + q[i + 1..])[1..] == q[i + 1..];
    WithoutAbsent(q[i + 1..], key);
  }

  /** The (key, value) pairs of a query, one per value, in order. */
  function Pairs(q: seq<KeyValues>): seq<(string, string)>
  {
    if q == [] then [] else ValuePairs(q[0].key, q[0].values) + Pairs(q[1..])
  }

  function ValuePairs(key: string, values: seq<string>): seq<(string, string)>
  {
    if values == [] then [] else [(key, values[0])] + ValuePairs(key, values[1..])
  }

  /** The pairs whose key is not `key`, in order. */
  function Others(ps: seq<(string, string)>, key: string): seq<(string, string)>
  {
    if ps == [] then [] else (if ps[0].0 == key then [] else [ps[0]]) + Others(ps[1..], key)
  }

  /** Reading a query string back: the pieces after `?`, each cut at its first `=`. */
  function Unquery(s: string): seq<(string, string)>
  {
    if s == [] then [] else Unpieces(Split(s[1..], '&'))
  }

  function Unpieces(pieces: seq<string>): seq<(string, string)>
  {
    if pieces == [] then [] else [Unpiece(pieces[0])] + Unpieces(pieces[1..])
  }

  /** A piece cut at its first `=`; a piece without one is a key with an empty value. */
  function Unpiece(p: string): (string, string)
  {
    var i := IndexOf(p, '=');
    if i < 0 then (p, "") else (p[..i], p[i + 1..])
  }

  lemma {:induction false} OthersAppend(a: seq<(string, string)>, b: seq<(string, string)>, key: string)
    ensures Others(a + b, key) == Others(a, key) + Others(b, key)
  {
    if a != [] {
      assert (a + b)[0] == a[0] && (a + b)[1..] == a[1..] + b;
      OthersAppend(a[1..], b, key);
      var h := if a[0].0 == key then [] else [a[0]];
      assert h + (Others(a[1..], key) + Others(b, key)) == (h + Others(a[1..], key)) + Others(b, key);
    } else {
      assert a + b == b;
    }
  }

  lemma {:induction false} OthersValuePairs(k: string, values: seq<string>, key: string)
    ensures Others(ValuePairs(k, values), key) == if k == key then [] else ValuePairs(k, values)
  {
    if values != [] {
      OthersAppend([(k, values[0])], ValuePairs(k, values[1..]), key);
      OthersValuePairs(k, values[1..], key);
    }
  }

  /** Removing a key from the query removes exactly the pairs with that key. */
  lemma {:induction false} PairsWithout(q: seq<KeyValues>, key: string)
    ensures Pairs(Without(q, key)) == Others(Pairs(q), key)
  {
    if q != [] {
      OthersAppend(ValuePairs(q[0].key, q[0].values), Pairs(q[1..]), key);
      OthersValuePairs(q[0].key, q[0].values, key);
      PairsWithout(q[1..], key);
      if q[0].key != key {
        PairsAppend([q[0]], Without(q[1..], key));
        assert [q[0]][1..] == [];
      }
    }
  }

  lemma {:induction false} PairsAppend(a: seq<KeyValues>, b: seq<KeyValues>)
    ensures Pairs(a + b) == Pairs(a) + Pairs(b)
  {
    if a != [] {
      assert (a + b)[0] == a[0] && (a + b)[1..] == a[1..] + b;
      PairsAppend(a[1..], b);
      var h := ValuePairs(a[0].key, a[0].values);
      assert h + (Pairs(a[1..]) + Pairs(b)) == (h + Pairs(a[1..])) + Pairs(b);
    } else {
      assert a + b == b;
    }
  }

  lemma {:induction false} UnpiecesAppend(a: seq<string>, b: seq<string>)
    ensures Unpieces(a + b) == Unpieces(a) + Unpieces(b)
  {
    if a != [] {
      assert (a + b)[0] == a[0] && (a + b)[1..] == a[1..] + b;
      UnpiecesAppend(a[1..], b);
    } else {
      assert a + b == b;
    }
  }

  lemma PieceCut(key: string, v: string)
    requires '=' !in key
    ensures IndexOf(key + "=" + v, '=') == |key|
  {
    var p := key + "=" + v;
    assert p[|key|] == '=';
    assert p[..|key|] == key;
  }

  lemma {:induction false} UnpiecesValues(key: string, values: seq<string>)
    requires '=' !in key
    ensures Unpieces(ValuePieces(key, values)) == ValuePairs(key, values)
  {
    if values != [] {
      var p := key + "=" + values[0];
      UnpiecesAppend([p], ValuePieces(key, values[1..]));
      PieceCut(key, values[0]);
      assert p[..|key|] == key && p[|key| + 1..] == values[0];
      UnpiecesValues(key, values[1..]);
    }
  }

  /** The text the query passes through: no key holds `=` or `&`, no value holds `&`. */
  predicate PlainQuery(q: seq<KeyValues>)
  {
    forall e :: e in q ==> '=' !in e.key && '&' !in e.key && forall v :: v in e.values ==> '&' !in v
  }

  lemma {:induction false} UnpiecesPieces(q: seq<KeyValues>)
    requires PlainQuery(q)
    ensures Unpieces(Pieces(q)) == Pairs(q)
    ensures NoneContains(Pieces(q), '&')
  {
    if q != [] {
      assert q[0] in q;
      UnpiecesAppend(ValuePieces(q[0].key, q[0].values), Pieces(q[1..]));
      UnpiecesValues(q[0].key, q[0].values);
      ValuePiecesPlain(q[0].key, q[0].values);
      assert forall e :: e in q[1..] ==> e in q;
      UnpiecesPieces(q[1..]);
    }
  }

  lemma {:induction false} ValuePiecesPlain(key: string, values: seq<string>)
    requires '&' !in key && forall v :: v in values ==> '&' !in v
    ensures NoneContains(ValuePieces(key, values), '&')
  {
    if values != [] {
      assert values[0] in values;
      assert forall v :: v in values[1..] ==> v in values;
      ValuePiecesPlain(key, values[1..]);
      var p := key + "=" + values[0];
      assert forall c :: c in p ==> c in key || c == '=' || c in values[0];
    }
  }

  /**
   * The forwarded query, read back, holds exactly the request's pairs
   * whose key is not `fbclid`, with their values, in their order.
   */
  lemma QueryRoundTrip(q: seq<KeyValues>)
    requires PlainQuery(q)
    ensures Unquery(QueryText(q)) == Others(Pairs(q), CLICK_ID)
  {
    var kept := Without(q, CLICK_ID);
    PairsWithout(q, CLICK_ID);
    WithoutMembers(q, CLICK_ID);
    UnpiecesPieces(kept);
    var pieces := Pieces(kept);
    if |kept| > 0 && pieces != [] {
      var s := "?" + Join(pieces, '&');
      assert s[1..] == Join(pieces, '&');
      SplitJoin(pieces, '&');
    }
  }

  /** The query string is empty exactly when no pair survives, and starts with `?` otherwise. */
  lemma QueryTextEmpty(q: seq<KeyValues>)
    ensures QueryText(q) == "" <==> Others(Pairs(q), CLICK_ID) == []
    ensures QueryText(q) != "" ==> QueryText(q)[0] == '?'
  {
    var kept := Without(q, CLICK_ID);
    PairsWithout(q, CLICK_ID);
    PiecesCount(kept);
  }

  lemma {:induction false} PiecesCount(q: seq<KeyValues>)
    ensures |Pieces(q)| == |Pairs(q)|
  {
    if q != [] {
      ValuePiecesCount(q[0].key, q[0].values);
      PiecesCount(q[1..]);
    }
  }

  lemma {:induction false} ValuePiecesCount(key: string, values: seq<string>)
    ensures |ValuePieces(key, values)| == |ValuePairs(key, values)| == |values|
  {
    if values != [] {
      ValuePiecesCount(key, values[1..]);
    }
  }

  // ---- the headers -------------------------------------------------------

  /**
   * The relay adds the upstream headers in order, whole; it stops only at a
   * `Content-Length` header whose first value does not parse, after adding
   * it; otherwise it reports every `Content-Length` value, in order.
   */
  lemma {:induction false} RelayResult(hs: seq<KeyValues>)
    ensures var r := RelayHeaders(hs);
      && |r.added| <= |hs| && r.added == hs[..|r.added|]
      && (r.fault.None? <==> LengthsParse(hs))
      && (r.fault.None? ==> r.added == hs && r.lengths == ContentLengths(hs))
      && (r.fault.Some? ==>
            && r.fault == Some(BadContentLength) && |r.added| > 0
            && IsContentLength(r.added[|r.added| - 1].key)
            && ParseFirstValue(r.added[|r.added| - 1].values).None?)
  {
    if hs != [] {
      var h := hs[0];
      if IsContentLength(h.key) && ParseFirstValue(h.values).None? {
        assert !LengthsParse(hs);
      } else {
        RelayResult(hs[1..]);
        var r := RelayHeaders(hs);
        var rest := RelayHeaders(hs[1..]);
        assert r.added == [h] + rest.added;
        assert hs[..|r.added|] == [h] + hs[1..][..|rest.added|];
        if rest.fault.Some? {
          assert r.added[|r.added| - 1] == rest.added[|rest.added| - 1];
        }
        LengthsParseCons(hs);
      }
    }
  }

  lemma LengthsParseCons(hs: seq<KeyValues>)
    requires hs != [] && (IsContentLength(hs[0].key) ==> ParseFirstValue(hs[0].values).Some?)
    ensures LengthsParse(hs) <==> LengthsParse(hs[1..])
  {
    if LengthsParse(hs[1..]) {
      forall i | 0 < i < |hs| && IsContentLength(hs[i].key)
        ensures ParseFirstValue(hs[i].values).Some?
      {
        assert hs[i] == hs[1..][i - 1];
      }
    }
    if LengthsParse(hs) {
      forall i | 0 <= i < |hs| - 1 && IsContentLength(hs[1..][i].key)
        ensures ParseFirstValue(hs[1..][i].values).Some?
      {
        assert hs[1..][i] == hs[i + 1];
      }
    }
  }

  // ---- the body copy -----------------------------------------------------

  lemma {:induction false} SumAppend(a: seq<int>, b: seq<int>)
    ensures Sum(a + b) == Sum(a) + Sum(b)
  {
    if a != [] {
      assert (a + b)[0] == a[0] && (a + b)[1..] == a[1..] + b;
      SumAppend(a[1..], b);
    } else {
      assert a + b == b;
    }
  }

  /**
   * The known-length loop never reports more than the declared length, and
   * it ends without an exception or an abort exactly when it has reported
   * all of it: remaining plus the progress reported is the declared length.
   */
  lemma {:induction false} KnownLengthBalance(steps: seq<ReadStep>, aborts: seq<bool>, remaining: int, capacity: int)
    requires capacity > 0
    ensures var c := KnownLengthCopy(steps, aborts, remaining, capacity);
      && Sum(c.reports) <= Max0(remaining)
      && (c.fault.None? && !c.aborted <==> Sum(c.reports) == Max0(remaining))
    decreases Max0(remaining)
  {
    if remaining > 0 {
      var readLength := if remaining > capacity then capacity else remaining;
      var a := Answer(Head(steps), readLength);
      if a.Ok? && a.value > 0 && !AbortHead(aborts) {
        KnownLengthBalance(Rest(steps), Rest(aborts), remaining - a.value, capacity);
      }
    }
  }

  /** Read i asks for a buffer or for the declared length less what was reported before it. */
  predicate AsksWhatRemains(c: Copy, remaining: int, capacity: int)
  {
    forall i :: 0 <= i < |c.asked| ==>
      && i <= |c.reports|
      && c.asked[i] == Min(capacity, remaining - Sum(c.reports[..i]))
      && 0 < c.asked[i] <= capacity
  }

  lemma {:induction false} KnownLengthReads(steps: seq<ReadStep>, aborts: seq<bool>, remaining: int, capacity: int)
    requires capacity > 0
    ensures AsksWhatRemains(KnownLengthCopy(steps, aborts, remaining, capacity), remaining, capacity)
    decreases Max0(remaining)
  {
    if remaining > 0 {
      var readLength := if remaining > capacity then capacity else remaining;
      var a := Answer(Head(steps), readLength);
      var c := KnownLengthCopy(steps, aborts, remaining, capacity);
      if a.Ok? && a.value > 0 && !AbortHead(aborts) {
        var c' := KnownLengthCopy(Rest(steps), Rest(aborts), remaining - a.value, capacity);
        assert c == Then(readLength, a.value, c');
        KnownLengthReads(Rest(steps), Rest(aborts), remaining - a.value, capacity);
        ThenAsks(readLength, a.value, c', remaining, capacity);
      } else {
        assert |c.asked| == 1 && c.asked[0] == readLength && c.reports[..0] == [];
      }
    }
  }

  lemma ThenAsks(readLength: int, n: int, c: Copy, remaining: int, capacity: int)
    requires 0 < readLength <= capacity && readLength == Min(capacity, remaining)
    requires AsksWhatRemains(c, remaining - n, capacity)
    ensures AsksWhatRemains(Then(readLength, n, c), remaining, capacity)
  {
    var d := Then(readLength, n, c);
    forall i | 0 <= i < |d.asked|
      ensures i <= |d.reports|
      ensures d.asked[i] == Min(capacity, remaining - Sum(d.reports[..i]))
      ensures 0 < d.asked[i] <= capacity
    {
      if i == 0 {
        assert d.reports[..0] == [];
      } else {
        assert d.asked[i] == c.asked[i - 1];
        assert d.reports[..i] == [n] + c.reports[..i - 1];
      }
    }
  }

  /**
   * Every read count the known-length loop keeps is at most what it asked
   * for; each positive one is written as read, and reported unless the abort
   * check stopped the loop right after writing it.
   */
  lemma {:induction false} KnownLengthChunks(steps: seq<ReadStep>, aborts: seq<bool>, remaining: int, capacity: int)
    requires capacity > 0
    ensures ChunksAsRead(KnownLengthCopy(steps, aborts, remaining, capacity))
    decreases Max0(remaining)
  {
    if remaining > 0 {
      var readLength := if remaining > capacity then capacity else remaining;
      var a := Answer(Head(steps), readLength);
      if a.Ok? && a.value > 0 && !AbortHead(aborts) {
        var c' := KnownLengthCopy(Rest(steps), Rest(aborts), remaining - a.value, capacity);
        assert KnownLengthCopy(steps, aborts, remaining, capacity) == Then(readLength, a.value, c');
        KnownLengthChunks(Rest(steps), Rest(aborts), remaining - a.value, capacity);
        ThenChunks(readLength, a.value, c');
      }
    }
  }

  /**
   * Every read count kept is at most what was asked; the chunks written are
   * the first counts, as read, and each is reported but for an aborted last.
   */
  predicate ChunksAsRead(c: Copy)
  {
    && |c.got| <= |c.asked|
    && (forall i :: 0 <= i < |c.got| ==> c.got[i] <= c.asked[i])
    && |c.writes| <= |c.got| && c.writes == c.got[..|c.writes|]
    && ReportsFollowWrites(c)
  }

  lemma ThenChunks(asked: int, n: int, c: Copy)
    requires n > 0 && n <= asked && ChunksAsRead(c)
    ensures ChunksAsRead(Then(asked, n, c))
  {
    var d := Then(asked, n, c);
    assert forall i :: 0 < i < |d.got| ==> d.got[i] == c.got[i - 1] && d.asked[i] == c.asked[i - 1];
    assert forall i :: 0 < i < |d.writes| ==> d.writes[i] == c.writes[i - 1];
    assert d.got[..|d.writes|] == [n] + c.got[..|c.writes|];
    if c.aborted {
      assert d.writes[..|d.reports|] == [n] + c.writes[..|c.reports|];
    }
  }

  /** The known-length loop throws its own exception exactly after a read of zero or less. */
  lemma {:induction false} KnownLengthShortRead(steps: seq<ReadStep>, aborts: seq<bool>, remaining: int, capacity: int)
    requires capacity > 0
    ensures var c := KnownLengthCopy(steps, aborts, remaining, capacity);
      c.fault == Some(UnexpectedShortRead) <==> |c.got| > 0 && c.got[|c.got| - 1] <= 0
    decreases Max0(remaining)
  {
    if remaining > 0 {
      var readLength := if remaining > capacity then capacity else remaining;
      var a := Answer(Head(steps), readLength);
      if a.Ok? && a.value > 0 && !AbortHead(aborts) {
        var c' := KnownLengthCopy(Rest(steps), Rest(aborts), remaining - a.value, capacity);
        var c := Then(readLength, a.value, c');
        assert KnownLengthCopy(steps, aborts, remaining, capacity) == c;
        KnownLengthShortRead(Rest(steps), Rest(aborts), remaining - a.value, capacity);
        if c'.got != [] {
          assert c.got[|c.got| - 1] == c'.got[|c'.got| - 1];
        } else {
          KnownLengthEmptyGot(Rest(steps), Rest(aborts), remaining - a.value, capacity);
        }
      }
    }
  }

  /** A known-length run with no read count ended without the loop's own exception. */
  lemma KnownLengthEmptyGot(steps: seq<ReadStep>, aborts: seq<bool>, remaining: int, capacity: int)
    requires capacity > 0
    ensures var c := KnownLengthCopy(steps, aborts, remaining, capacity);
      c.got == [] ==> c.fault != Some(UnexpectedShortRead)
  {
  }

  predicate AsksWholeBuffers(c: Copy, capacity: int)
  {
    forall i :: 0 <= i < |c.asked| ==> c.asked[i] == capacity
  }

  /** Every read of the unknown-length loop asks for a whole buffer. */
  lemma {:induction false} UnknownLengthReads(steps: seq<ReadStep>, aborts: seq<bool>, capacity: int)
    requires capacity > 0
    ensures AsksWholeBuffers(UnknownLengthCopy(steps, aborts, capacity), capacity)
    decreases |steps|
  {
    var a := Answer(Head(steps), capacity);
    if a.Ok? && a.value > 0 && !AbortHead(aborts) {
      var c' := UnknownLengthCopy(Rest(steps), Rest(aborts), capacity);
      var c := Then(capacity, a.value, c');
      assert UnknownLengthCopy(steps, aborts, capacity) == c;
      UnknownLengthReads(Rest(steps), Rest(aborts), capacity);
      assert forall i :: 0 < i < |c.asked| ==> c.asked[i] == c'.asked[i - 1];
    }
  }

  /**
   * The unknown-length loop writes every positive read as read and reports
   * it unless the abort check stopped the loop right after writing it.
   */
  lemma {:induction false} UnknownLengthChunks(steps: seq<ReadStep>, aborts: seq<bool>, capacity: int)
    requires capacity > 0
    ensures ChunksAsRead(UnknownLengthCopy(steps, aborts, capacity))
    decreases |steps|
  {
    var a := Answer(Head(steps), capacity);
    if a.Ok? && a.value > 0 && !AbortHead(aborts) {
      var c' := UnknownLengthCopy(Rest(steps), Rest(aborts), capacity);
      assert UnknownLengthCopy(steps, aborts, capacity) == Then(capacity, a.value, c');
      UnknownLengthChunks(Rest(steps), Rest(aborts), capacity);
      ThenChunks(capacity, a.value, c');
    }
  }

  /**
   * The unknown-length loop ends without an exception or an abort exactly at
   * a read of zero after the chunks it wrote.
   */
  lemma {:induction false} UnknownLengthEnd(steps: seq<ReadStep>, aborts: seq<bool>, capacity: int)
    requires capacity > 0
    ensures var c := UnknownLengthCopy(steps, aborts, capacity);
      c.fault.None? && !c.aborted <==> c.got == c.writes + [0]
    decreases |steps|
  {
    var a := Answer(Head(steps), capacity);
    if a.Ok? && a.value > 0 && !AbortHead(aborts) {
      var c' := UnknownLengthCopy(Rest(steps), Rest(aborts), capacity);
      var c := Then(capacity, a.value, c');
      assert UnknownLengthCopy(steps, aborts, capacity) == c;
      UnknownLengthEnd(Rest(steps), Rest(aborts), capacity);
      assert c.writes + [0] == [a.value] + (c'.writes + [0]);
      assert ([a.value] + c'.got)[1..] == c'.got;
      assert ([a.value] + (c'.writes + [0]))[1..] == c'.writes + [0];
    } else if a.Ok? && a.value <= 0 {
      var c := UnknownLengthCopy(steps, aborts, capacity);
      assert c.got == [a.value] && c.writes + [0] == [0];
    }
  }

  /** With no abort, the progress reported by the unknown-length loop adds up to the bytes it read. */
  lemma UnknownLengthTotal(steps: seq<ReadStep>, aborts: seq<bool>, capacity: int)
    requires capacity > 0
    ensures var c := UnknownLengthCopy(steps, aborts, capacity);
      c.fault.None? && !c.aborted ==> Sum(c.reports) == Sum(c.got)
  {
    var c := UnknownLengthCopy(steps, aborts, capacity);
    UnknownLengthChunks(steps, aborts, capacity);
    UnknownLengthEnd(steps, aborts, capacity);
    if c.fault.None? && !c.aborted {
      SumAppend(c.writes, [0]);
    }
  }

  /** The unknown-length loop throws its "I/O error" exactly after a negative read. */
  lemma {:induction false} UnknownLengthNegative(steps: seq<ReadStep>, aborts: seq<bool>, capacity: int)
    requires capacity > 0
    ensures var c := UnknownLengthCopy(steps, aborts, capacity);
      c.fault == Some(NegativeRead) <==> |c.got| > 0 && c.got[|c.got| - 1] < 0
    decreases |steps|
  {
    var a := Answer(Head(steps), capacity);
    if a.Ok? && a.value > 0 && !AbortHead(aborts) {
      var c' := UnknownLengthCopy(Rest(steps), Rest(aborts), capacity);
      var c := Then(capacity, a.value, c');
      assert UnknownLengthCopy(steps, aborts, capacity) == c;
      UnknownLengthNegative(Rest(steps), Rest(aborts), capacity);
      if c'.got != [] {
        assert c.got[|c.got| - 1] == c'.got[|c'.got| - 1];
      }
    }
  }

  // ---- one exchange ------------------------------------------------------

  /**
   * The notifications of one exchange: `new` first, `sent` second, `end`
   * last, each exactly once, and every one of them about the same request.
   */
  predicate LifecycleShape(es: seq<Notification>, id: int)
  {
    && |es| >= 3
    && (forall k :: 0 <= k < |es| ==> es[k].id == id)
    && (forall k :: 0 <= k < |es| ==> (es[k].NewRequest? <==> k == 0))
    && (forall k :: 0 <= k < |es| ==> (es[k].RequestSent? <==> k == 1))
    && (forall k :: 0 <= k < |es| ==> (es[k].RequestEnd? <==> k == |es| - 1))
  }

  /** Every `length` notification comes before every `progress` notification. */
  predicate LengthsFirst(es: seq<Notification>)
  {
    forall i, j :: 0 <= i < j < |es| && es[i].RequestProgress? ==> !es[j].RequestLength?
  }

  /** `end` is sent exactly once and last, whatever the send, the relay or the copy did. */
  lemma EndExactlyOnce(id: int, clientIP: string, httpMethod: string, path: string,
                       reply: Result<ResponseHead, Fault>, steps: seq<ReadStep>, aborts: seq<bool>)
    ensures LifecycleShape(Lifecycle(id, clientIP, httpMethod, path, Forwarded(id, reply, steps, aborts)), id)
    ensures LengthsFirst(Lifecycle(id, clientIP, httpMethod, path, Forwarded(id, reply, steps, aborts)))
  {
    var o := Forwarded(id, reply, steps, aborts);
    var es := Lifecycle(id, clientIP, httpMethod, path, o);
    var lengths, progress := [], [];
    if reply.Ok? {
      var relay := RelayHeaders(reply.value.headers + reply.value.contentHeaders);
      lengths := LengthEvents(id, relay.lengths);
      if relay.fault.None? {
        progress := ProgressEvents(id, BodyCopy(reply.value, steps, aborts).reports);
      }
    }
    assert o.events == [RequestSent(id)] + lengths + progress;
    assert es == [NewRequest(id, clientIP, httpMethod, path), RequestSent(id)] + lengths + progress + [RequestEnd(id)];
    assert forall k :: 0 <= k < |lengths| ==> lengths[k].RequestLength? && lengths[k].id == id;
    assert forall k :: 0 <= k < |progress| ==> progress[k].RequestProgress? && progress[k].id == id;
    forall k | 2 <= k < |es| - 1
      ensures es[k].id == id && (es[k].RequestLength? || es[k].RequestProgress?)
      ensures es[k].RequestLength? <==> k < 2 + |lengths|
    {
      if k < 2 + |lengths| {
        assert es[k] == lengths[k - 2];
      } else {
        assert es[k] == progress[k - 2 - |lengths|];
      }
    }
  }

  /** The sum of the deltas of the `progress` notifications. */
  function Progressed(es: seq<Notification>): int
  {
    if es == [] then 0
    else (if es[0].RequestProgress? then es[0].bytesProgress else 0) + Progressed(es[1..])
  }

  lemma {:induction false} ProgressedAppend(a: seq<Notification>, b: seq<Notification>)
    ensures Progressed(a + b) == Progressed(a) + Progressed(b)
  {
    if a != [] {
      assert (a + b)[0] == a[0] && (a + b)[1..] == a[1..] + b;
      ProgressedAppend(a[1..], b);
    } else {
      assert a + b == b;
    }
  }

  lemma {:induction false} ProgressedEvents(id: int, deltas: seq<int>)
    ensures Progressed(ProgressEvents(id, deltas)) == Sum(deltas)
    decreases |deltas|
  {
    if deltas != [] {
      var init := deltas[..|deltas| - 1];
      var last := deltas[|deltas| - 1];
      assert deltas == init + [last];
      ProgressEventsSnoc(id, init, last);
      ProgressedEvents(id, init);
      ProgressedAppend(ProgressEvents(id, init), [RequestProgress(id, last)]);
      SumAppend(init, [last]);
    }
  }

  lemma {:induction false} ProgressedLengths(id: int, lengths: seq<int>)
    ensures Progressed(LengthEvents(id, lengths)) == 0
    decreases |lengths|
  {
    if lengths != [] {
      var init := lengths[..|lengths| - 1];
      assert lengths == init + [lengths[|lengths| - 1]];
      LengthEventsAppend(id, init, [lengths[|lengths| - 1]]);
      assert LengthEvents(id, [lengths[|lengths| - 1]]) == [RequestLength(id, lengths[|lengths| - 1])];
      ProgressedLengths(id, init);
      ProgressedAppend(LengthEvents(id, init), [RequestLength(id, lengths[|lengths| - 1])]);
    }
  }

  /**
   * With a declared length, the progress reported never exceeds it, and an
   * exchange whose copy ran to its end without an exception or an abort has
   * reported all of it.
   */
  lemma DeclaredLengthReported(id: int, head: ResponseHead, steps: seq<ReadStep>, aborts: seq<bool>)
    requires head.contentLength.Some?
    ensures var o := Forwarded(id, Ok(head), steps, aborts);
      && Progressed(o.events) <= Max0(head.contentLength.value)
      && (o.fault.None? && !BodyCopy(head, steps, aborts).aborted ==>
            Progressed(o.events) == Max0(head.contentLength.value))
  {
    var relay := RelayHeaders(head.headers + head.contentHeaders);
    var copy := BodyCopy(head, steps, aborts);
    var lengths := LengthEvents(id, relay.lengths);
    var progress := if relay.fault.None? then ProgressEvents(id, copy.reports) else [];
    assert Forwarded(id, Ok(head), steps, aborts).events == [RequestSent(id)] + (lengths + progress);
    ProgressedLengths(id, relay.lengths);
    ProgressedAppend([RequestSent(id)], lengths + progress);
    ProgressedAppend(lengths, progress);
    if relay.fault.None? {
      ProgressedEvents(id, copy.reports);
      KnownLengthBalance(steps, aborts, head.contentLength.value, BUFFER_SIZE);
    }
  }

  /**
   * Without a declared length, an exchange whose copy ran to its end without
   * an exception or an abort has reported every byte it read.
   */
  lemma UndeclaredLengthReported(id: int, head: ResponseHead, steps: seq<ReadStep>, aborts: seq<bool>)
    requires head.contentLength.None?
    ensures var o := Forwarded(id, Ok(head), steps, aborts);
      o.fault.None? && !BodyCopy(head, steps, aborts).aborted ==>
        Progressed(o.events) == Sum(BodyCopy(head, steps, aborts).got)
  {
    var relay := RelayHeaders(head.headers + head.contentHeaders);
    var copy := BodyCopy(head, steps, aborts);
    var lengths := LengthEvents(id, relay.lengths);
    if relay.fault.None? {
      var progress := ProgressEvents(id, copy.reports);
      assert Forwarded(id, Ok(head), steps, aborts).events == [RequestSent(id)] + (lengths + progress);
      ProgressedLengths(id, relay.lengths);
      ProgressedAppend([RequestSent(id)], lengths + progress);
      ProgressedAppend(lengths, progress);
      ProgressedEvents(id, copy.reports);
      UnknownLengthTotal(steps, aborts, BUFFER_SIZE);
    }
  }

  /** Request ids go up by one per exchange, until the `int` counter wraps after 2^31 - 1. */
  lemma RequestIdsIncrease(previous: int)
    requires IsInt32(previous)
    ensures previous < INT32_MAX ==> Wrap32(previous + 1) == previous + 1
    ensures previous == INT32_MAX ==> Wrap32(previous + 1) == INT32_MIN
  {
  }
}
