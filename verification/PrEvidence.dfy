/**
 What the pull-request reader judges (src/features/github/pr-verification-api.ts): severities, findings
 and blockers, and the latest row of each source among the check runs and statuses that were listed.
 */
module PrEvidence {
  import opened Common

  datatype Outcome = Passed | Checking | Blocked | Unknown

  datatype Blocker = Blocker(code: string, requirement: Option<string>)

  datatype CheckStatus = Completed | Incomplete

  /** Times are milliseconds; `suite` is the check-suite id. */
  datatype CheckRun = CheckRun(id: int, name: string, headSha: string, status: CheckStatus, conclusion: Option<string>,
                               completedAt: Option<int>, appId: int, appSlug: string, suite: Option<int>)

  datatype CommitStatus = CommitStatus(id: int, context: string, state: string, updatedAt: int)

  datatype Workflow = Workflow(suite: Option<int>, headSha: string, event: string)

  datatype Required = Required(context: string, appId: Option<int>, source: string)

  datatype Evidence = Evidence(checkRuns: seq<CheckRun>, statuses: seq<CommitStatus>, workflows: seq<Workflow>)

  // ----- Severity -----

  function Rank(o: Outcome): nat {
    match o case Passed => 0 case Checking => 1 case Blocked => 2 case Unknown => 3
  }

  /** `lower`: what the running verdict becomes. */
  function Lower(checks: Outcome, outcome: Outcome): Outcome {
    if outcome == Unknown || checks == Unknown then Unknown
    else if outcome == Blocked || checks == Blocked then Blocked
    else if outcome == Checking || checks == Checking then Checking
    else checks
  }

  /** One thing that speaks against the pull request: how bad it is, and the blocker that says so. */
  datatype Finding = Finding(outcome: Outcome, blocker: Blocker)

  function Worst(init: Outcome, findings: seq<Finding>): Outcome {
    if findings == [] then init
    else Lower(Worst(init, findings[..|findings| - 1]), findings[|findings| - 1].outcome)
  }

  function BlockersOf(findings: seq<Finding>): seq<Blocker> {
    seq(|findings|, i requires 0 <= i < |findings| => findings[i].blocker)
  }

  /** The running verdict is the maximum of its contributions: it bounds all of them and is one of them. */
  lemma {:induction false} WorstIsMaximum(init: Outcome, findings: seq<Finding>)
    ensures Rank(Worst(init, findings)) >= Rank(init)
    ensures forall f :: f in findings ==> Rank(Worst(init, findings)) >= Rank(f.outcome)
    ensures Worst(init, findings) == init || exists f :: f in findings && Worst(init, findings) == f.outcome
  {
    if findings != [] {
      var rest, last := findings[..|findings| - 1], findings[|findings| - 1];
      WorstIsMaximum(init, rest);
      assert findings == rest + [last];
    }
  }

  lemma {:induction false} WorstConcat(init: Outcome, a: seq<Finding>, b: seq<Finding>)
    ensures Worst(init, a + b) == Worst(Worst(init, a), b)
  {
    if b == [] {
      assert a + b == a;
    } else {
      assert (a + b)[..|a + b| - 1] == a + b[..|b| - 1];
      WorstConcat(init, a, b[..|b| - 1]);
    }
  }

  /** Only the set of contributions matters: neither order nor repetition. */
  lemma WorstDependsOnSet(init: Outcome, a: seq<Finding>, b: seq<Finding>)
    requires forall f :: f in a <==> f in b
    ensures Worst(init, a) == Worst(init, b)
  {
    WorstIsMaximum(init, a);
    WorstIsMaximum(init, b);
  }

  // ----- The latest row of each source -----

  /** Row `i` is the one of the first `n` by which its source is judged: no later id, no equal id before it. */
  ghost predicate LatestAt<T, K>(rows: seq<T>, n: nat, key: T -> K, id: T -> int, i: nat) {
    && i < n <= |rows|
    && forall j :: 0 <= j < n && key(rows[j]) == key(rows[i]) ==>
         id(rows[j]) < id(rows[i]) || (id(rows[j]) == id(rows[i]) && i <= j)
  }

  ghost predicate IsLatest<T, K>(rows: seq<T>, key: T -> K, id: T -> int, r: T) {
    exists i: nat :: LatestAt(rows, |rows|, key, id, i) && rows[i] == r
  }

  /** `latest` holds one row for each source among the first `n` rows; `at` says where each comes from. */
  ghost predicate Tracks<T, K>(rows: seq<T>, n: nat, key: T -> K, id: T -> int, latest: seq<T>, at: seq<nat>) {
    && n <= |rows| && |at| == |latest|
    && (forall i :: 0 <= i < |latest| ==> LatestAt(rows, n, key, id, at[i]) && latest[i] == rows[at[i]])
    && (forall i, j :: 0 <= i < j < |latest| ==> key(latest[i]) != key(latest[j]))
    && Covers(rows, n, key, latest)
  }

  /** Every source among the rows is in the list. */
  ghost predicate Covers<T, K>(rows: seq<T>, n: nat, key: T -> K, latest: seq<T>)
    requires n <= |rows|
  {
    forall m :: 0 <= m < n ==> exists i :: 0 <= i < |latest| && key(latest[i]) == key(rows[m])
  }

  lemma CoverNew<T, K>(rows: seq<T>, n: nat, key: T -> K, latest: seq<T>)
    requires n < |rows| && Covers(rows, n, key, latest)
    ensures Covers(rows, n + 1, key, latest + [rows[n]])
  {
    var latest' := latest + [rows[n]];
    forall m | 0 <= m < n + 1
      ensures exists i :: 0 <= i < |latest'| && key(latest'[i]) == key(rows[m])
    {
      if m == n {
        assert latest'[|latest|] == rows[n];
      } else {
        var i :| 0 <= i < |latest| && key(latest[i]) == key(rows[m]);
        assert latest'[i] == latest[i];
      }
    }
  }

  lemma TrackNew<T, K>(rows: seq<T>, n: nat, key: T -> K, id: T -> int, latest: seq<T>, at: seq<nat>)
    requires Tracks(rows, n, key, id, latest, at) && n < |rows|
    requires forall i :: 0 <= i < |latest| ==> key(latest[i]) != key(rows[n])
    ensures Tracks(rows, n + 1, key, id, latest + [rows[n]], at + [n])
  {
    CoverNew(rows, n, key, latest);
    forall i | 0 <= i < |latest|
      ensures LatestAt(rows, n + 1, key, id, (at + [n])[i])
    {
      assert LatestAt(rows, n, key, id, at[i]) && latest[i] == rows[at[i]];
    }
    forall j | 0 <= j < n ensures key(rows[j]) != key(rows[n]) {
      var i :| 0 <= i < |latest| && key(latest[i]) == key(rows[j]);
    }
    assert LatestAt(rows, n + 1, key, id, n);
  }

  /** One more row leaves the choice alone, or takes its place. */
  lemma LatestStep<T, K>(rows: seq<T>, n: nat, key: T -> K, id: T -> int, i: nat)
    requires LatestAt(rows, n, key, id, i) && n < |rows|
    ensures key(rows[n]) != key(rows[i]) || id(rows[n]) <= id(rows[i]) ==> LatestAt(rows, n + 1, key, id, i)
    ensures key(rows[n]) == key(rows[i]) && id(rows[n]) > id(rows[i]) ==> LatestAt(rows, n + 1, key, id, n)
  {
  }

  lemma TrackKeep<T, K>(rows: seq<T>, n: nat, key: T -> K, id: T -> int, latest: seq<T>, at: seq<nat>, slot: nat)
    requires Tracks(rows, n, key, id, latest, at) && n < |rows|
    requires slot < |latest| && key(latest[slot]) == key(rows[n]) && id(latest[slot]) >= id(rows[n])
    ensures Tracks(rows, n + 1, key, id, latest, at)
  {
    forall i | 0 <= i < |latest|
      ensures LatestAt(rows, n + 1, key, id, at[i])
    {
      LatestStep(rows, n, key, id, at[i]);
      assert i < slot ==> key(latest[i]) != key(latest[slot]);
      assert slot < i ==> key(latest[slot]) != key(latest[i]);
    }
    forall m | 0 <= m < n + 1
      ensures exists i :: 0 <= i < |latest| && key(latest[i]) == key(rows[m])
    {
      if m == n {
        assert key(latest[slot]) == key(rows[m]);
      }
    }
  }

  lemma TrackReplace<T, K>(rows: seq<T>, n: nat, key: T -> K, id: T -> int, latest: seq<T>, at: seq<nat>, slot: nat)
    requires Tracks(rows, n, key, id, latest, at) && n < |rows|
    requires slot < |latest| && key(latest[slot]) == key(rows[n]) && id(latest[slot]) < id(rows[n])
    ensures Tracks(rows, n + 1, key, id, latest[slot := rows[n]], at[slot := n])
  {
    var latest', at' := latest[slot := rows[n]], at[slot := n];
    forall i | 0 <= i < |latest'|
      ensures LatestAt(rows, n + 1, key, id, at'[i]) && key(latest'[i]) == key(latest[i]) && latest'[i] == rows[at'[i]]
    {
      LatestStep(rows, n, key, id, at[i]);
      assert i < slot ==> key(latest[i]) != key(latest[slot]);
      assert slot < i ==> key(latest[slot]) != key(latest[i]);
    }
    forall m | 0 <= m < n + 1
      ensures exists i :: 0 <= i < |latest'| && key(latest'[i]) == key(rows[m])
    {
      if m == n {
        assert key(latest'[slot]) == key(rows[m]);
      } else {
        var i :| 0 <= i < |latest| && key(latest[i]) == key(rows[m]);
        assert key(latest'[i]) == key(rows[m]);
      }
    }
  }

  /** No two positions are the latest of one source. */
  lemma LatestIsUnique<T, K>(rows: seq<T>, n: nat, key: T -> K, id: T -> int, i: nat, m: nat)
    requires LatestAt(rows, n, key, id, i) && LatestAt(rows, n, key, id, m) && key(rows[i]) == key(rows[m])
    ensures i == m
  {
  }

  lemma LatestIsTracked<T, K>(rows: seq<T>, key: T -> K, id: T -> int, latest: seq<T>, at: seq<nat>, m: nat)
    requires Tracks(rows, |rows|, key, id, latest, at) && LatestAt(rows, |rows|, key, id, m)
    ensures rows[m] in latest
  {
    var i :| 0 <= i < |latest| && key(latest[i]) == key(rows[m]);
    LatestIsUnique(rows, |rows|, key, id, at[i], m);
  }

  lemma TrackedAreLatest<T, K>(rows: seq<T>, key: T -> K, id: T -> int, latest: seq<T>, at: seq<nat>)
    requires Tracks(rows, |rows|, key, id, latest, at)
    ensures forall r :: r in latest <==> IsLatest(rows, key, id, r)
  {
    forall r | r in latest ensures IsLatest(rows, key, id, r) {
      var i :| 0 <= i < |latest| && latest[i] == r;
      assert LatestAt(rows, |rows|, key, id, at[i]);
    }
    forall r | IsLatest(rows, key, id, r) ensures r in latest {
      var m: nat :| LatestAt(rows, |rows|, key, id, m) && rows[m] == r;
      LatestIsTracked(rows, key, id, latest, at, m);
    }
  }

  /** A `Map` in insertion order, filled by "keep the row with the greater id". */
  method LatestPerKey<T, K(==)>(rows: seq<T>, key: T -> K, id: T -> int) returns (latest: seq<T>)
    requires forall r :: r in rows ==> id(r) > 0
    ensures forall r :: r in latest <==> IsLatest(rows, key, id, r)
    ensures forall i, j :: 0 <= i < j < |latest| ==> key(latest[i]) != key(latest[j])
  {
    latest := [];
    ghost var at: seq<nat> := [];
    for n := 0 to |rows|
      invariant Tracks(rows, n, key, id, latest, at)
    {
      var slot := SlotOf(latest, key, rows[n]);
      if slot == |latest| {
        TrackNew(rows, n, key, id, latest, at);
        latest, at := latest + [rows[n]], at + [n];
      } else {
        if id(latest[slot]) < id(rows[n]) {
          TrackReplace(rows, n, key, id, latest, at, slot);
          latest, at := latest[slot := rows[n]], at[slot := n];
        } else {
          TrackKeep(rows, n, key, id, latest, at, slot);
        }
      }
    }
    TrackedAreLatest(rows, key, id, latest, at);
  }

  /** The map lookup: the entry with the key of `row`, or the end. */
  method SlotOf<T, K(==)>(latest: seq<T>, key: T -> K, row: T) returns (slot: nat)
    ensures slot <= |latest|
    ensures slot < |latest| ==> key(latest[slot]) == key(row)
    ensures slot == |latest| ==> forall i :: 0 <= i < |latest| ==> key(latest[i]) != key(row)
  {
    slot := 0;
    while slot < |latest| && key(latest[slot]) != key(row)
      invariant slot <= |latest|
      invariant forall i :: 0 <= i < slot ==> key(latest[i]) != key(row)
    {
      slot := slot + 1;
    }
  }

  /** `a` and `b` are different rows that tie for the latest of one source. */
  ghost predicate Tie<T, K>(rows: seq<T>, key: T -> K, id: T -> int, a: T, b: T) {
    && a in rows && b in rows && a != b && key(a) == key(b) && id(a) == id(b)
    && forall r :: r in rows && key(r) == key(a) ==> id(r) <= id(a)
  }

  ghost predicate Reordering<T>(a: seq<T>, b: seq<T>) {
    multiset(a) == multiset(b)
  }

  lemma ReorderingMembers<T>(a: seq<T>, b: seq<T>)
    requires Reordering(a, b)
    ensures forall x :: x in a <==> x in b
  {
    forall x
      ensures x in a <==> x in b
    {
      assert x in a <==> x in multiset(a);
      assert x in b <==> x in multiset(b);
    }
  }

  /** Without ties the selected rows are those with the greatest id of their source. */
  lemma {:induction false} LatestWithoutTies<T, K>(rows: seq<T>, key: T -> K, id: T -> int, r: T)
    requires forall a, b :: !Tie(rows, key, id, a, b)
    ensures IsLatest(rows, key, id, r) <==> r in rows && forall o :: o in rows && key(o) == key(r) ==> id(o) <= id(r)
  {
    if r in rows && forall o :: o in rows && key(o) == key(r) ==> id(o) <= id(r) {
      var i := FirstIndex(rows, r);
      forall j | 0 <= j < |rows| && key(rows[j]) == key(rows[i])
        ensures id(rows[j]) < id(rows[i]) || (id(rows[j]) == id(rows[i]) && i <= j)
      {
        assert rows[j] in rows;
        assert !Tie(rows, key, id, r, rows[j]);
      }
      assert LatestAt(rows, |rows|, key, id, i);
    }
  }

  lemma FirstIndex<T>(rows: seq<T>, r: T) returns (i: nat)
    requires r in rows
    ensures i < |rows| && rows[i] == r && forall j :: 0 <= j < i ==> rows[j] != r
  {
    i := 0;
    while rows[i] != r
      invariant i < |rows| && forall j :: 0 <= j < i ==> rows[j] != r
      invariant exists k :: i <= k < |rows| && rows[k] == r
      decreases |rows| - i
    {
      i := i + 1;
    }
  }

  /** Moving a row to the front is a reordering. */
  lemma BringToFront<T>(rows: seq<T>, r: T) returns (front: seq<T>)
    requires r in rows
    ensures Reordering(rows, front) && front != [] && front[0] == r
  {
    var i := FirstIndex(rows, r);
    front := [r] + rows[..i] + rows[i + 1..];
    assert rows == rows[..i] + [rows[i]] + rows[i + 1..];
  }

  /** The selection is the same in every order of the rows exactly when no two different rows tie for latest. */
  lemma SelectionIsOrderFree<T(!new), K>(rows: seq<T>, key: T -> K, id: T -> int)
    ensures (forall other: seq<T>, r :: Reordering(rows, other) ==>
               (IsLatest(other, key, id, r) <==> IsLatest(rows, key, id, r)))
       <==> forall a, b :: !Tie(rows, key, id, a, b)
  {
    if forall a, b :: !Tie(rows, key, id, a, b) {
      forall other: seq<T>, r | Reordering(rows, other)
        ensures IsLatest(other, key, id, r) <==> IsLatest(rows, key, id, r)
      {
        ReorderingMembers(rows, other);
        forall a, b
          ensures !Tie(other, key, id, a, b)
        {
          assert !Tie(rows, key, id, a, b);
        }
        LatestWithoutTies(rows, key, id, r);
        LatestWithoutTies(other, key, id, r);
      }
    } else {
      var a, b :| Tie(rows, key, id, a, b);
      var first := BringToFront(rows, a);
      var second := BringToFront(rows, b);
      FrontWinsTie(rows, first, key, id, a, b);
      FrontWinsTie(rows, second, key, id, b, a);
    }
  }

  /** Whichever of two tied rows comes first is selected, and the other one is not. */
  lemma FrontWinsTie<T, K>(rows: seq<T>, front: seq<T>, key: T -> K, id: T -> int, a: T, b: T)
    requires Tie(rows, key, id, a, b) && Reordering(rows, front) && front != [] && front[0] == a
    ensures IsLatest(front, key, id, a) && !IsLatest(front, key, id, b)
  {
    ReorderingMembers(rows, front);
    forall j | 0 <= j < |front| && key(front[j]) == key(a)
      ensures id(front[j]) <= id(a)
    {
      assert front[j] in front;
    }
    assert LatestAt(front, |front|, key, id, 0);
  }
}
