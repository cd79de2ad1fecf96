// The imperative code of internal/proxy/relay.go and internal/store/proxy_tool_calls.go, proved
// against the transitions of module Correlation.
module Handler {
  import opened Prelude
  import opened RingCache
  import opened Correlation

  // The two tables that a capture writes. A method copies them, changes the copy statement by
  // statement and stores it back on commit, which is what a transaction with rollback does.
  class Store {
    var calls: Origins
    var spans: SpanTable

    constructor ()
      ensures calls == map[] && spans == map[]
    {
      calls, spans := map[], map[];
    }

    method GetProxyToolCall(key: ToolKey) returns (found: Option<Origin>)
      ensures found == if key in calls then Some(calls[key]) else None
    {
      found := if key in calls then Some(calls[key]) else None;
    }

    // The inserts of insertBatch; `fault` is the number of the statement that the database
    // refuses, if any.
    method InsertRows(spans: SpanTable, rows: seq<Row>, fault: Option<nat>) returns (ok: bool, tx: SpanTable)
      ensures ok <==> (fault.Some? ==> fault.value >= |rows|)
      ensures ok ==> tx == UpsertRows(spans, rows)
    {
      tx := spans;
      for i := 0 to |rows|
        invariant tx == UpsertRows(spans, rows[..i])
        invariant fault.Some? ==> fault.value >= i
      {
        if fault == Some(i) {
          return false, tx;
        }
        assert rows[..i + 1][..i] == rows[..i];
        tx := tx[(rows[i].traceId, rows[i].spanId) := rows[i].span];
      }
      assert rows[..|rows|] == rows;
      ok := true;
    }

    method UpsertOne(calls: Origins, origins: Origins, ghost done: set<ToolKey>, tx: Origins, key: ToolKey)
      returns (tx': Origins)
      requires key in origins && done <= origins.Keys - {key}
      requires Upserted(calls, origins, done, tx)
      ensures Upserted(calls, origins, done + {key}, tx')
    {
      tx' := UpsertCall(tx, key, origins[key]);
    }

    // The upserts of the correlation records, in whatever order the map yields them.
    method UpsertAll(calls: Origins, origins: Origins, fault: Option<int>) returns (ok: bool, tx: Origins)
      requires fault.Some? ==> fault.value >= 0
      ensures ok <==> (fault.Some? ==> fault.value >= |origins|)
      ensures ok ==> Upserted(calls, origins, origins.Keys, tx)
    {
      var remaining, n := origins.Keys, 0;
      ghost var done: set<ToolKey> := {};
      tx := calls;
      while remaining != {}
        invariant done !! remaining && done + remaining == origins.Keys && n == |done|
        invariant Upserted(calls, origins, done, tx)
        invariant fault.Some? ==> fault.value >= n
        decreases remaining
      {
        if fault == Some(n) {
          assert |done + remaining| == |done| + |remaining|;
          return false, tx;
        }
        var key :| key in remaining;
        tx := UpsertOne(calls, origins, done, tx, key);
        remaining, done, n := remaining - {key}, done + {key}, n + 1;
      }
      ok := true;
    }

    // The statements are the row inserts, one upsert for each origin, and the commit.
    method InsertProxyBatch(rows: seq<Row>, origins: Origins, fault: Option<nat>) returns (ok: bool)
      modifies this
      ensures ok <==> (fault.Some? ==> fault.value > |rows| + |origins|)
      ensures ok ==> spans == UpsertRows(old(spans), rows) && calls == UpsertCalls(old(calls), origins)
      ensures !ok ==> spans == old(spans) && calls == old(calls)
    {
      var inserted, txSpans := InsertRows(spans, rows, fault);
      if !inserted {
        return false;
      }
      var upserted, txCalls := UpsertAll(calls, origins, if fault.Some? then Some(fault.value - |rows|) else None);
      if !upserted || fault == Some(|rows| + |origins|) {
        return false;
      }
      UpsertedAll(calls, origins, txCalls);
      spans, calls, ok := txSpans, txCalls, true;
    }

    // Retention, or no retention, at this point.
    method MaybeSweep(cutoff: Option<int>)
      modifies this
      ensures calls == Swept(old(calls), cutoff) && spans == old(spans)
    {
      if cutoff.Some? {
        calls := map k | k in calls && calls[k].createdNs >= cutoff.value :: calls[k];
      }
    }
  }

  lemma UpsertedAll(calls: Origins, origins: Origins, tx: Origins)
    requires Upserted(calls, origins, origins.Keys, tx)
    ensures tx == UpsertCalls(calls, origins)
  {
  }

  lemma TracksFromView(cache: Origins, calls: Origins, ex: Exchange)
    ensures Tracks(cache, calls, ex, Ids([]), calls + cache, map[])
  {
  }

  lemma TracksToPending(cache: Origins, calls: Origins, ex: Exchange, rs: seq<Result>, m: Origins, origins: Origins)
    requires Issued(NoteResults(calls + cache, ex, rs), ex, ex.calls.Keys, m)
    requires Tracks(cache, calls, ex, Ids(rs) + ex.calls.Keys, m, origins)
    ensures origins == Pending(cache, calls, ex, rs)
  {
    assert m == After(calls + cache, ex, rs);
  }

  // One more result: what the lookup and the first-result rule do to the map under construction.
  lemma TrackResult(cache: Origins, calls: Origins, ex: Exchange, ids: set<string>, m: Origins, origins: Origins,
                    r: Result)
    requires Tracks(cache, calls, ex, ids, m, origins)
    ensures var key := ex.Key(r.id);
      var origins' := if key !in origins && key !in cache && key in calls then origins[key := calls[key]] else origins;
      var noted := if key in m && !m[key].hasResult then origins'[key := NoteResult(m, ex, r)[key]] else origins';
      Tracks(cache, calls, ex, ids + {r.id}, NoteResult(m, ex, r), noted)
  {
  }

  // One more issued call.
  lemma TrackCall(cache: Origins, calls: Origins, ex: Exchange, ids: set<string>, m: Origins, origins: Origins,
                  id: string, call: Call)
    requires Tracks(cache, calls, ex, ids, m, origins)
    ensures var key := ex.Key(id);
      var origins' := if key !in origins && key !in cache && key in calls then origins[key := calls[key]] else origins;
      if key in m then Tracks(cache, calls, ex, ids + {id}, m, origins')
      else Tracks(cache, calls, ex, ids + {id}, m[key := NewOrigin(ex, call)], origins'[key := NewOrigin(ex, call)])
  {
  }

  class Handler {
    const store: Store
    var toolCalls: Origins
    var toolOrder: seq<ToolKey>
    var nextTool: nat

    ghost function Cache(): Ring<ToolKey, Origin>
      reads this
    {
      Ring(toolCalls, toolOrder, nextTool)
    }

    ghost predicate Valid()
      reads this
    {
      Cache().Valid()
    }

    ghost function State(): Sys
      reads this, store
    {
      Sys(Cache(), store.calls, store.spans)
    }

    // A start or restart: the tables are kept, the cache is not.
    constructor (store: Store)
      ensures this.store == store && Valid()
      ensures State() == Sys(INIT.ring, store.calls, store.spans)
    {
      this.store := store;
      toolCalls, toolOrder, nextTool := map[], [], 0;
    }

    method Lookup(key: ToolKey, origins: Origins) returns (found: Option<Origin>, origins': Origins)
      ensures origins' == if key !in origins && key !in toolCalls && key in store.calls
                          then origins[key := store.calls[key]] else origins
      ensures found == if key in origins' then Some(origins'[key])
                       else if key in toolCalls then Some(toolCalls[key]) else None
    {
      if key in origins {
        return Some(origins[key]), origins;
      }
      if key in toolCalls {
        return Some(toolCalls[key]), origins;
      }
      found := store.GetProxyToolCall(key);
      origins' := if found.Some? then origins[key := found.value] else origins;
    }

    // One turn of the loop over results.
    method LinkResult(ex: Exchange, result: Result, origins: Origins, ghost ids: set<string>, ghost m: Origins)
      returns (row: Row, origins': Origins)
      requires Tracks(toolCalls, store.calls, ex, ids, m, origins)
      ensures Tracks(toolCalls, store.calls, ex, ids + {result.id}, NoteResult(m, ex, result), origins')
      ensures row == ResultRow(NoteResult(m, ex, result), ex, result)
    {
      TrackResult(toolCalls, store.calls, ex, ids, m, origins, result);
      var key := ex.Key(result.id);
      var found;
      found, origins' := Lookup(key, origins);
      assert found == if key in m then Some(m[key]) else None;
      row := Row(ToolTrace(key), ToolSpan(key),
                 Span(NoParent, ex.startNs, ex.startNs, result.name, result.arguments, result.content, result.isError));
      if found.Some? {
        var origin := found.value;
        var name := if result.name == "" then origin.name else result.name;
        var arguments := if result.arguments.None? then origin.arguments else result.arguments;
        if !origin.hasResult {
          origin := origin.(firstResultNs := ex.startNs, hasResult := true);
          origins' := origins'[key := origin];
        }
        row := Row(origin.traceId, ToolSpan(key),
                   Span(origin.spanId, Min(origin.endNs, origin.firstResultNs), origin.firstResultNs, name, arguments,
                        result.content, result.isError));
      }
    }

    // One turn of the loop over issued calls.
    method LinkCall(ex: Exchange, id: string, origins: Origins, ghost ids: set<string>, ghost m: Origins)
      returns (origins': Origins)
      requires id in ex.calls && Tracks(toolCalls, store.calls, ex, ids, m, origins)
      ensures var key := ex.Key(id);
        Tracks(toolCalls, store.calls, ex, ids + {id}, if key in m then m
          else m[key := NewOrigin(ex, ex.calls[id])], origins')
    {
      TrackCall(toolCalls, store.calls, ex, ids, m, origins, id, ex.calls[id]);
      var found;
      found, origins' := Lookup(ex.Key(id), origins);
      if found.None? {
        origins' := origins'[ex.Key(id) := NewOrigin(ex, ex.calls[id])];
      }
    }

    method LinkCalls(ex: Exchange, origins: Origins, ghost ids: set<string>, ghost noted: Origins)
      returns (origins': Origins, ghost m: Origins)
      requires Tracks(toolCalls, store.calls, ex, ids, noted, origins)
      ensures Issued(noted, ex, ex.calls.Keys, m)
      ensures Tracks(toolCalls, store.calls, ex, ids + ex.calls.Keys, m, origins')
    {
      ghost var done: set<string> := {};
      m, origins' := noted, origins;
      assert ids + done == ids;
      var remaining := ex.calls.Keys;
      while remaining != {}
        invariant done !! remaining && done + remaining == ex.calls.Keys
        invariant Issued(noted, ex, done, m)
        invariant Tracks(toolCalls, store.calls, ex, ids + done, m, origins')
        decreases remaining
      {
        var id :| id in remaining;
        origins' := LinkCall(ex, id, origins', ids + done, m);
        assert ids + done + {id} == ids + (done + {id});
        m := if ex.Key(id) in m then m else m[ex.Key(id) := NewOrigin(ex, ex.calls[id])];
        remaining, done := remaining - {id}, done + {id};
      }
    }

    method ToolSpansLocked(ex: Exchange, results: seq<Result>) returns (rows: seq<Row>, origins: Origins)
      ensures rows == ResultRows(State().View(), ex, results)
      ensures origins == Pending(toolCalls, store.calls, ex, results)
    {
      ghost var view := State().View();
      origins, rows := map[], [];
      TracksFromView(toolCalls, store.calls, ex);
      for i := 0 to |results|
        invariant Tracks(toolCalls, store.calls, ex, Ids(results[..i]), NoteResults(view, ex, results[..i]), origins)
        invariant rows == ResultRows(view, ex, results[..i])
      {
        var row;
        row, origins := LinkResult(ex, results[i], origins, Ids(results[..i]), NoteResults(view, ex, results[..i]));
        rows := rows + [row];
        assert results[..i + 1][..i] == results[..i];
        assert Ids(results[..i + 1]) == Ids(results[..i]) + {results[i].id};
      }
      assert results[..|results|] == results;
      ghost var m;
      origins, m := LinkCalls(ex, origins, Ids(results), NoteResults(view, ex, results));
      TracksToPending(toolCalls, store.calls, ex, results, m, origins);
    }

    method CacheOne(key: ToolKey, origin: Origin)
      requires Valid()
      modifies this
      ensures Valid() && Cache() == old(Cache()).Put(key, origin)
    {
      ghost var put := Cache().Put(key, origin);
      assert put.Valid() by { PutIsEnqueue(Cache(), key, origin); }
      if key in toolCalls {
        toolCalls := toolCalls[key := origin];
        return;
      }
      if |toolOrder| < MAX_TOOL_CALLS {
        toolOrder := toolOrder + [key];
      } else {
        toolCalls := toolCalls - {toolOrder[nextTool]};
        toolOrder := toolOrder[nextTool := key];
        nextTool := (nextTool + 1) % MAX_TOOL_CALLS;
      }
      toolCalls := toolCalls[key := origin];
      assert Cache() == put;
    }

    // The order of the loop is the ghost result; `range` over a Go map leaves it open.
    method CacheToolCalls(origins: Origins) returns (ghost visit: seq<ToolKey>)
      requires Valid()
      modifies this
      ensures Valid() && Enumerates(visit, origins.Keys)
      ensures Cache() == PutAll(old(Cache()), origins, visit)
    {
      visit := [];
      ghost var done: set<ToolKey> := {};
      var remaining := origins.Keys;
      while remaining != {}
        invariant done !! remaining && done + remaining == origins.Keys
        invariant Enumerates(visit, done)
        invariant Valid() && Cache() == PutAll(old(Cache()), origins, visit)
        decreases remaining
      {
        var key :| key in remaining;
        CacheOne(key, origins[key]);
        PutAllAppend(old(Cache()), origins, visit, key);
        visit, remaining, done := visit + [key], remaining - {key}, done + {key};
      }
    }

    // Cache entries are published only after their transaction commits.
    method CommitProxy(rows: seq<Row>, origins: Origins, fault: Option<nat>)
      returns (ok: bool, ghost visit: seq<ToolKey>)
      requires Valid()
      modifies this, store
      ensures Valid()
      ensures ok <==> (fault.Some? ==> fault.value > |rows| + |origins|)
      ensures !ok ==> State() == old(State())
      ensures ok ==> Enumerates(visit, origins.Keys)
      ensures ok ==> State() == Sys(PutAll(old(Cache()), origins, visit), UpsertCalls(old(store.calls), origins),
        UpsertRows(old(store.spans), rows))
    {
      visit := [];
      ok := store.InsertProxyBatch(rows, origins, fault);
      if ok {
        visit := CacheToolCalls(origins);
      }
    }

    // The tail of `capture` under toolMu. `sweep` is a retention delete that another goroutine
    // commits between this one's reads and its commit.
    method Capture(ex: Exchange, sweep: Option<int>, fault: Option<nat>) returns (ghost step: Step)
      requires Valid() && ex.WellFormed()
      modifies this, store
      ensures Valid() && Enabled(old(State()), step) && State() == Apply(old(State()), step)
      ensures step.Captured? || step.Failed?
      ensures step.Captured? ==> step.ex == ex && step.sweep == sweep
      ensures step.Failed? ==> step.sweep == sweep && fault.Some?
    {
      var toolRows, origins := ToolSpansLocked(ex, ex.results);
      var rows := [ex.ModelRow()] + toolRows + (if ex.root.Some? then [ex.root.value] else []);
      store.MaybeSweep(sweep);
      var ok;
      ghost var visit;
      ok, visit := CommitProxy(rows, origins, fault);
      step := if ok then Captured(ex, visit, sweep) else Failed(sweep);
    }

    // An exchange that found every capture slot busy: its origins are kept, its spans are not.
    method RecordDroppedOrigins(ex: Exchange, sweep: Option<int>, fault: Option<nat>) returns (ghost step: Step)
      requires Valid() && ex.WellFormed()
      modifies this, store
      ensures Valid() && Enabled(old(State()), step) && State() == Apply(old(State()), step)
      ensures step.Dropped? || step.Failed?
      ensures step.Dropped? ==> step.ex == ex && step.sweep == sweep
      ensures step.Failed? ==> step.sweep == sweep && fault.Some?
    {
      var _, origins := ToolSpansLocked(ex, []);
      store.MaybeSweep(sweep);
      var ok;
      ghost var visit;
      ok, visit := CommitProxy([], origins, fault);
      step := if ok then Dropped(ex, visit, sweep) else Failed(sweep);
    }
  }
}
