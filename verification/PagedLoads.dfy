/**
 The paged reads of src/worker/stall-detector.ts. A table does not change while it is paged; a read of a
 page may fail.
 */
module PagedLoads {
  import opened Common

  const PAGE_SIZE: nat := 100

  /** `.range(offset, offset + PAGE_SIZE - 1)` of the matching rows in id order. */
  function Page<T>(matching: seq<T>, offset: nat): seq<T> {
    if offset >= |matching| then []
    else if offset + PAGE_SIZE <= |matching| then matching[offset..offset + PAGE_SIZE]
    else matching[offset..]
  }

  /** Some page that the loop asks for fails: one that begins within the matching rows, or just behind them. */
  ghost predicate SomePageFails(count: nat, fails: nat -> bool) {
    exists k: nat :: k * PAGE_SIZE <= count && fails(k * PAGE_SIZE)
  }

  /** All pages of one query, or the failure of one of them; a short page is the last. */
  method LoadPages<T>(matching: seq<T>, fails: nat -> bool) returns (rows: Option<seq<T>>)
    ensures rows.Some? ==> rows.value == matching
    ensures rows.None? <==> SomePageFails(|matching|, fails)
  {
    var loaded: seq<T> := [];
    var offset, k := 0, 0;
    while true
      invariant offset == k * PAGE_SIZE <= |matching| && loaded == matching[..offset]
      invariant forall i: nat :: i < k ==> !fails(i * PAGE_SIZE)
      decreases |matching| - offset
    {
      if fails(offset) {
        return None;
      }
      var page := Page(matching, offset);
      loaded := loaded + page;
      if |page| < PAGE_SIZE {
        assert loaded == matching;
        assert forall i: nat :: i * PAGE_SIZE <= |matching| ==> i <= k;
        return Some(loaded);
      }
      assert loaded == matching[..offset + PAGE_SIZE];
      offset, k := offset + PAGE_SIZE, k + 1;
    }
  }

  /** `loadClaimedJobs`: nothing at all if any page fails. */
  method LoadClaimedJobs<T>(matching: seq<T>, fails: nat -> bool) returns (jobs: seq<T>)
    ensures jobs == if SomePageFails(|matching|, fails) then [] else matching
  {
    var rows := LoadPages(matching, fails);
    jobs := if rows.None? then [] else rows.value;
  }

  /** A row of a table that is queried by an owner, which may be absent. */
  datatype Owned<+R> = Owned(owner: Option<string>, row: R)

  /** `.in("agent_job_id", ids)`. */
  function Matching<R>(table: seq<Owned<R>>, ids: seq<string>): seq<Owned<R>> {
    if table == [] then []
    else
      Matching(table[..|table| - 1], ids)
      + (if table[|table| - 1].owner.Some? && table[|table| - 1].owner.value in ids then [table[|table| - 1]] else [])
  }

  predicate OwnedBy<R>(o: Owned<R>, ids: seq<string>) {
    o.owner.Some? && o.owner.value in ids
  }

  lemma {:induction false} MatchingCounts<R>(table: seq<Owned<R>>, ids: seq<string>, o: Owned<R>)
    ensures multiset(Matching(table, ids))[o] == if OwnedBy(o, ids) then multiset(table)[o] else 0
  {
    if table != [] {
      var init, last := table[..|table| - 1], table[|table| - 1];
      MatchingCounts(init, ids, o);
      assert table == init + [last];
    }
  }

  /** How often each row has been loaded once the ids before `n` are done. */
  ghost predicate LoadedOnce<R(!new)>(runs: seq<Owned<R>>, table: seq<Owned<R>>, ids: seq<string>) {
    forall o: Owned<R> ::
      multiset(runs)[o] == if OwnedBy(o, ids) then multiset(table)[o] else 0
  }

  /** The rows of one owner, in table order. */
  function RowsOf<R>(table: seq<Owned<R>>, id: string): seq<R> {
    if table == [] then []
    else
      var last := table[|table| - 1];
      RowsOf(table[..|table| - 1], id) + if last.owner == Some(id) then [last.row] else []
  }

  lemma {:induction false} RowsOfJoins<R>(x: seq<Owned<R>>, y: seq<Owned<R>>, id: string)
    ensures RowsOf(x + y, id) == RowsOf(x, id) + RowsOf(y, id)
  {
    if y == [] {
      assert x + y == x;
    } else {
      assert (x + y)[..|x + y| - 1] == x + y[..|y| - 1];
      RowsOfJoins(x, y[..|y| - 1], id);
    }
  }

  lemma {:induction false} RowsOfMatching<R>(table: seq<Owned<R>>, ids: seq<string>, id: string)
    ensures RowsOf(Matching(table, ids), id) == if id in ids then RowsOf(table, id) else []
  {
    if table != [] {
      var init, last := table[..|table| - 1], table[|table| - 1];
      RowsOfMatching(init, ids, id);
      if OwnedBy(last, ids) {
        assert Matching(table, ids)[..|Matching(init, ids)|] == Matching(init, ids);
      } else {
        assert Matching(table, ids) == Matching(init, ids);
      }
    }
  }

  /** For each owner asked for, its rows are those of the table and stand in the same order. */
  ghost predicate RowsAgree<R(!new)>(runs: seq<Owned<R>>, table: seq<Owned<R>>, ids: seq<string>) {
    forall id: string :: RowsOf(runs, id) == if id in ids then RowsOf(table, id) else []
  }

  /** Each row asked for exactly once, and the rows of one owner in table order. */
  ghost predicate Loaded<R(!new)>(runs: seq<Owned<R>>, table: seq<Owned<R>>, ids: seq<string>) {
    LoadedOnce(runs, table, ids) && RowsAgree(runs, table, ids)
  }

  /** The first batch of ids, and those behind it. */
  function Batch(ids: seq<string>): seq<string> {
    Page(ids, 0)
  }

  function Rest(ids: seq<string>): (rest: seq<string>)
    ensures ids != [] ==> |rest| < |ids|
    ensures Batch(ids) + rest == ids
  {
    if |ids| <= PAGE_SIZE then [] else ids[PAGE_SIZE..]
  }

  /** What the batches bring in, one after the other. */
  function Batched<R>(table: seq<Owned<R>>, ids: seq<string>): seq<Owned<R>>
    decreases |ids|
  {
    if ids == [] then [] else Matching(table, Batch(ids)) + Batched(table, Rest(ids))
  }

  /** A page of some batch fails; `batch` is the offset of the first one. */
  ghost predicate SomeBatchFails<R>(table: seq<Owned<R>>, ids: seq<string>, batch: nat, fails: nat -> nat -> bool)
    decreases |ids|
  {
    ids != []
    && (SomePageFails(|Matching(table, Batch(ids))|, fails(batch))
        || SomeBatchFails(table, Rest(ids), batch + PAGE_SIZE, fails))
  }

  lemma {:induction false} BatchedCounts<R>(table: seq<Owned<R>>, ids: seq<string>, o: Owned<R>)
    requires Distinct(ids)
    ensures multiset(Batched(table, ids))[o] == if OwnedBy(o, ids) then multiset(table)[o] else 0
    decreases |ids|
  {
    if ids != [] {
      BatchedCounts(table, Rest(ids), o);
      MatchingCounts(table, Batch(ids), o);
    }
  }

  lemma {:induction false} BatchedAgrees<R>(table: seq<Owned<R>>, ids: seq<string>, id: string)
    requires Distinct(ids)
    ensures RowsOf(Batched(table, ids), id) == if id in ids then RowsOf(table, id) else []
    decreases |ids|
  {
    if ids != [] {
      BatchedAgrees(table, Rest(ids), id);
      RowsOfJoins(Matching(table, Batch(ids)), Batched(table, Rest(ids)), id);
      RowsOfMatching(table, Batch(ids), id);
    }
  }

  lemma BatchedLoads<R(!new)>(table: seq<Owned<R>>, ids: seq<string>)
    requires Distinct(ids)
    ensures Loaded(Batched(table, ids), table, ids)
  {
    forall o: Owned<R>
      ensures multiset(Batched(table, ids))[o] == if OwnedBy(o, ids) then multiset(table)[o] else 0
    {
      BatchedCounts(table, ids, o);
    }
    forall id: string ensures RowsOf(Batched(table, ids), id) == if id in ids then RowsOf(table, id) else [] {
      BatchedAgrees(table, ids, id);
    }
  }

  lemma BatchedStep<R>(loaded: seq<Owned<R>>, table: seq<Owned<R>>, ids: seq<string>)
    requires ids != []
    ensures loaded + Matching(table, Batch(ids)) + Batched(table, Rest(ids)) == loaded + Batched(table, ids)
  {
    var x, y := Matching(table, Batch(ids)), Batched(table, Rest(ids));
    assert x + y == Batched(table, ids);
    Associates(loaded, x, y);
  }

  /** The loop over the batches. */
  method LoadBatches<R>(table: seq<Owned<R>>, jobIds: seq<string>, fails: nat -> nat -> bool)
    returns (runs: Option<seq<Owned<R>>>)
    ensures runs == if SomeBatchFails(table, jobIds, 0, fails) then None else Some(Batched(table, jobIds))
  {
    var loaded: seq<Owned<R>> := [];
    var batch: nat, rest := 0, jobIds;
    while rest != []
      invariant loaded + Batched(table, rest) == Batched(table, jobIds)
      invariant SomeBatchFails(table, rest, batch, fails) <==> SomeBatchFails(table, jobIds, 0, fails)
      decreases |rest|
    {
      var rows := LoadPages(Matching(table, Batch(rest)), fails(batch));
      if rows.None? {
        return None;
      }
      BatchedStep(loaded, table, rest);
      loaded, batch, rest := loaded + rows.value, batch + PAGE_SIZE, Rest(rest);
    }
    assert loaded + Batched(table, []) == loaded;
    return Some(loaded);
  }

  /**
   `loadRuns`: batches of ids, pages within a batch. Each row of the table that matches is loaded exactly once, and
   the rows of one job keep their order; nothing is returned exactly if a page of some batch fails.
   */
  method LoadRuns<R(!new)>(table: seq<Owned<R>>, jobIds: seq<string>, fails: nat -> nat -> bool)
    returns (runs: Option<seq<Owned<R>>>)
    requires Distinct(jobIds)
    ensures runs.Some? ==> Loaded(runs.value, table, jobIds)
    ensures runs.None? <==> SomeBatchFails(table, jobIds, 0, fails)
  {
    runs := LoadBatches(table, jobIds, fails);
    if runs.Some? {
      BatchedLoads(table, jobIds);
    }
  }
}
