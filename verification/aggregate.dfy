/** The collection loop over `as_completed(futures)`: each result that is a
    pair of truthy URLs sets `url_mapping[old_url] = new_url` and counts as a
    success, anything else counts as a failure. The thread pool finishes the
    tasks in an order the program does not control; `Schedule` turns a
    sequence of scheduler choices into that order, and every order is
    reachable this way. */
module Aggregate {
  import opened Store

  /** `if old_url and new_url`: both present and non-empty. */
  predicate Succeeded(r: TaskResult) {
    r.Migrated? && r.oldUrl != "" && r.newUrl != ""
  }

  datatype Aggregation = Aggregation(mapping: map<string, string>, successful: nat, failed: nat)

  function Step(a: Aggregation, r: TaskResult): Aggregation {
    if Succeeded(r) then Aggregation(a.mapping[r.oldUrl := r.newUrl], a.successful + 1, a.failed)
    else Aggregation(a.mapping, a.successful, a.failed + 1)
  }

  /** The loop over results in completion order. */
  function Collect(completed: seq<TaskResult>): (a: Aggregation)
    // Every result is counted once, as a success or as a failure.
    ensures a.successful + a.failed == |completed|
    // Only pairs of truthy URLs enter the mapping.
    ensures "" !in a.mapping && forall k :: k in a.mapping ==> a.mapping[k] != ""
  {
    if |completed| == 0 then Aggregation(map[], 0, 0)
    else Step(Collect(completed[..|completed| - 1]), completed[|completed| - 1])
  }

  /** Reference count of successes, from the front. */
  function SuccessCount(rs: seq<TaskResult>): nat {
    if |rs| == 0 then 0 else (if Succeeded(rs[0]) then 1 else 0) + SuccessCount(rs[1..])
  }

  /** The source URLs with at least one successful task. */
  function SuccessfulSources(rs: seq<TaskResult>): set<string> {
    set r | r in rs && Succeeded(r) :: r.oldUrl
  }

  /** No two successful results share a source URL. */
  predicate SourcesDistinct(rs: seq<TaskResult>) {
    forall i, j :: 0 <= i < j < |rs| && Succeeded(rs[i]) && Succeeded(rs[j]) ==> rs[i].oldUrl != rs[j].oldUrl
  }

  /** All successful results for one source URL carry the same new URL. */
  predicate Consistent(rs: seq<TaskResult>) {
    forall r1, r2 :: r1 in rs && r2 in rs && Succeeded(r1) && Succeeded(r2) && r1.oldUrl == r2.oldUrl ==> r1.newUrl == r2.newUrl
  }

  // ----- Completion order -----

  /** The completion order chosen by `choices`: each choice picks which of
      the still running tasks finishes next (the first one when the choice is
      out of range or the choices have run out). */
  function Schedule<T>(items: seq<T>, choices: seq<nat>): (s: seq<T>)
    ensures |s| == |items|
    decreases |items|
  {
    if |items| == 0 then []
    else
      var i := if |choices| > 0 && choices[0] < |items| then choices[0] else 0;
      [items[i]] + Schedule(items[..i] + items[i + 1..], if |choices| > 0 then choices[1..] else [])
  }

  lemma RemoveAt<T>(items: seq<T>, i: nat)
    requires i < |items|
    ensures multiset(items) == multiset(items[..i] + items[i + 1..]) + multiset{items[i]}
  {
    assert items == items[..i] + [items[i]] + items[i + 1..];
  }

  /** A schedule is a permutation of the results. */
  lemma {:induction false} SchedulePermutes<T>(items: seq<T>, choices: seq<nat>)
    ensures multiset(Schedule(items, choices)) == multiset(items)
    decreases |items|
  {
    if |items| > 0 {
      var i := if |choices| > 0 && choices[0] < |items| then choices[0] else 0;
      var rest := items[..i] + items[i + 1..];
      var more := if |choices| > 0 then choices[1..] else [];
      SchedulePermutes(rest, more);
      RemoveAt(items, i);
      assert Schedule(items, choices) == [items[i]] + Schedule(rest, more);
      assert multiset(Schedule(items, choices)) == multiset{items[i]} + multiset(Schedule(rest, more));
    }
  }

  /** Choosing `i` first puts `items[i]` first. */
  lemma ScheduleStep<T>(items: seq<T>, i: nat, more: seq<nat>)
    requires i < |items|
    ensures Schedule(items, [i] + more) == [items[i]] + Schedule(items[..i] + items[i + 1..], more)
  {
    var choices := [i] + more;
    assert choices[0] == i && choices[1..] == more;
  }

  /** Removing the same element from two permutations of each other leaves
      permutations of each other. */
  lemma PermutationTail<T>(items: seq<T>, order: seq<T>, i: nat)
    requires multiset(order) == multiset(items)
    requires i < |items| && |order| > 0 && items[i] == order[0]
    ensures multiset(order[1..]) == multiset(items[..i] + items[i + 1..])
  {
    RemoveAt(items, i);
    assert order == [order[0]] + order[1..];
    assert multiset(order) == multiset(order[1..]) + multiset{order[0]};
    assert multiset(order[1..]) == multiset(order) - multiset{order[0]};
  }

  /** Every permutation of the results is some schedule. */
  lemma {:induction false} EveryOrderReachable<T>(items: seq<T>, order: seq<T>)
    requires multiset(order) == multiset(items)
    ensures exists choices :: Schedule(items, choices) == order
    decreases |items|
  {
    if |items| == 0 {
      assert order == [];
      assert Schedule(items, []) == order;
    } else {
      assert |order| == |multiset(order)| == |items|;
      assert order[0] in multiset(items);
      var i :| 0 <= i < |items| && items[i] == order[0];
      var rest := items[..i] + items[i + 1..];
      PermutationTail(items, order, i);
      EveryOrderReachable(rest, order[1..]);
      var more :| Schedule(rest, more) == order[1..];
      ScheduleStep(items, i, more);
      assert Schedule(items, [i] + more) == order;
    }
  }

  // ----- Counters -----

  lemma {:induction false} SuccessCountAppend(a: seq<TaskResult>, b: seq<TaskResult>)
    ensures SuccessCount(a + b) == SuccessCount(a) + SuccessCount(b)
    decreases |a|
  {
    if |a| == 0 {
      assert a + b == b;
    } else {
      assert (a + b)[1..] == a[1..] + b;
      SuccessCountAppend(a[1..], b);
    }
  }

  /** The success counter counts the successful results and the failure
      counter the rest, so together they count every task. */
  lemma {:induction false} CountersAddUp(completed: seq<TaskResult>)
    ensures Collect(completed).successful == SuccessCount(completed)
    ensures Collect(completed).successful + Collect(completed).failed == |completed|
    decreases |completed|
  {
    if |completed| > 0 {
      var n := |completed| - 1;
      CountersAddUp(completed[..n]);
      assert completed == completed[..n] + [completed[n]];
      SuccessCountAppend(completed[..n], [completed[n]]);
    }
  }

  /** With no success anywhere the reference count is zero. */
  lemma {:induction false} NoSuccessCountsZero(rs: seq<TaskResult>)
    requires forall i :: 0 <= i < |rs| ==> !Succeeded(rs[i])
    ensures SuccessCount(rs) == 0
    decreases |rs|
  {
    if |rs| > 0 {
      NoSuccessCountsZero(rs[1..]);
    }
  }

  /** Taking one result out lowers the count by one exactly when it succeeded. */
  lemma SuccessCountRemove(b: seq<TaskResult>, i: nat)
    requires i < |b|
    ensures SuccessCount(b) == SuccessCount(b[..i] + b[i + 1..]) + (if Succeeded(b[i]) then 1 else 0)
  {
    var x, y := b[..i], b[i + 1..];
    var middle := [b[i]] + y;
    assert b == x + middle;
    SuccessCountAppend(x, middle);
    SuccessCountAppend(x, y);
    assert middle[0] == b[i] && middle[1..] == y;
  }

  /** The number of successes does not depend on the order. */
  lemma {:induction false} SuccessCountPermutation(a: seq<TaskResult>, b: seq<TaskResult>)
    requires multiset(a) == multiset(b)
    ensures SuccessCount(a) == SuccessCount(b)
    decreases |a|
  {
    if |a| > 0 {
      assert a[0] in multiset(b);
      var i :| 0 <= i < |b| && b[i] == a[0];
      PermutationTail(b, a, i);
      SuccessCountPermutation(a[1..], b[..i] + b[i + 1..]);
      SuccessCountRemove(b, i);
    } else {
      assert |b| == |multiset(b)| == 0;
    }
  }

  // ----- The mapping -----

  /** The mapping's keys are exactly the source URLs with a successful task. */
  lemma {:induction false} MappingKeys(completed: seq<TaskResult>)
    ensures Collect(completed).mapping.Keys == SuccessfulSources(completed)
    decreases |completed|
  {
    if |completed| > 0 {
      var n := |completed| - 1;
      MappingKeys(completed[..n]);
      assert completed == completed[..n] + [completed[n]];
      assert forall r :: r in completed <==> r in completed[..n] || r == completed[n];
    }
  }

  /** `rs[i]` is the last successful result for the source URL `k`. */
  predicate LastSuccessFor(rs: seq<TaskResult>, k: string, i: int) {
    0 <= i < |rs| && Succeeded(rs[i]) && rs[i].oldUrl == k
    && forall j :: i < j < |rs| ==> !(Succeeded(rs[j]) && rs[j].oldUrl == k)
  }

  /** Each mapped value comes from the last successful result for its key. */
  lemma {:induction false} LastWriterWins(completed: seq<TaskResult>, k: string)
    requires k in Collect(completed).mapping
    ensures exists i :: LastSuccessFor(completed, k, i) && Collect(completed).mapping[k] == completed[i].newUrl
    decreases |completed|
  {
    var n := |completed| - 1;
    var prefix := completed[..n];
    var last := completed[n];
    if Succeeded(last) && last.oldUrl == k {
      assert LastSuccessFor(completed, k, n);
    } else {
      LastWriterWins(prefix, k);
      var i :| LastSuccessFor(prefix, k, i) && Collect(prefix).mapping[k] == prefix[i].newUrl;
      LastSuccessExtends(prefix, last, k, i);
      assert completed == prefix + [last];
    }
  }

  /** A later result that is not a success for `k` leaves the last success
      for `k` where it was. */
  lemma LastSuccessExtends(prefix: seq<TaskResult>, last: TaskResult, k: string, i: int)
    requires LastSuccessFor(prefix, k, i)
    requires !(Succeeded(last) && last.oldUrl == k)
    ensures LastSuccessFor(prefix + [last], k, i)
    ensures (prefix + [last])[i] == prefix[i]
  {
    var completed := prefix + [last];
    assert forall j :: 0 <= j < |prefix| ==> completed[j] == prefix[j];
  }

  /** The mapping never has more entries than there were successes, and it
      has exactly as many when no two successes share a source URL. */
  lemma {:induction false} MappingSize(completed: seq<TaskResult>)
    ensures |Collect(completed).mapping| <= Collect(completed).successful
    ensures |Collect(completed).mapping| == Collect(completed).successful <==> SourcesDistinct(completed)
    decreases |completed|
  {
    if |completed| > 0 {
      var n := |completed| - 1;
      var prefix := completed[..n];
      var last := completed[n];
      MappingSize(prefix);
      MappingKeys(prefix);
      assert completed == prefix + [last];
      if !Succeeded(last) {
        DistinctAfterFailure(prefix, last);
      } else if last.oldUrl in SuccessfulSources(prefix) {
        RepeatedSourceNotDistinct(prefix, last);
      } else {
        assert |Collect(completed).mapping| == |Collect(prefix).mapping| + 1;
        DistinctAfterNewSource(prefix, last);
      }
    }
  }

  lemma DistinctAfterFailure(prefix: seq<TaskResult>, last: TaskResult)
    requires !Succeeded(last)
    ensures SourcesDistinct(prefix + [last]) <==> SourcesDistinct(prefix)
  {
    var completed := prefix + [last];
    assert forall i :: 0 <= i < |prefix| ==> completed[i] == prefix[i];
  }

  lemma RepeatedSourceNotDistinct(prefix: seq<TaskResult>, last: TaskResult)
    requires Succeeded(last) && last.oldUrl in SuccessfulSources(prefix)
    ensures !SourcesDistinct(prefix + [last])
  {
    var completed := prefix + [last];
    var r :| r in prefix && Succeeded(r) && r.oldUrl == last.oldUrl;
    var i :| 0 <= i < |prefix| && prefix[i] == r;
    assert completed[i] == r && completed[|prefix|] == last;
  }

  lemma DistinctAfterNewSource(prefix: seq<TaskResult>, last: TaskResult)
    requires Succeeded(last) && last.oldUrl !in SuccessfulSources(prefix)
    ensures SourcesDistinct(prefix + [last]) <==> SourcesDistinct(prefix)
  {
    var completed := prefix + [last];
    assert forall i :: 0 <= i < |prefix| ==> completed[i] == prefix[i];
    forall i | 0 <= i < |prefix| && Succeeded(completed[i])
      ensures completed[i].oldUrl != last.oldUrl
    {
      assert prefix[i] in prefix;
    }
  }

  /** When all successes for one source URL agree on the new URL, the whole
      aggregation is the same in every completion order. */
  lemma OrderFreeWhenConsistent(a: seq<TaskResult>, b: seq<TaskResult>)
    requires multiset(a) == multiset(b)
    requires Consistent(a)
    ensures Collect(a) == Collect(b)
  {
    SameCounters(a, b);
    SameMapping(a, b);
  }

  lemma SameCounters(a: seq<TaskResult>, b: seq<TaskResult>)
    requires multiset(a) == multiset(b)
    ensures Collect(a).successful == Collect(b).successful
    ensures Collect(a).failed == Collect(b).failed
  {
    CountersAddUp(a);
    CountersAddUp(b);
    SuccessCountPermutation(a, b);
    assert |a| == |multiset(a)| == |b|;
  }

  lemma SameMapping(a: seq<TaskResult>, b: seq<TaskResult>)
    requires multiset(a) == multiset(b)
    requires Consistent(a)
    ensures Collect(a).mapping == Collect(b).mapping
  {
    MappingKeys(a);
    MappingKeys(b);
    SameElements(a, b);
    var ma := Collect(a).mapping;
    var mb := Collect(b).mapping;
    assert ma.Keys == mb.Keys;
    forall k | k in ma
      ensures ma[k] == mb[k]
    {
      SameMappedValue(a, b, k);
    }
  }

  /** Permutations of each other have the same elements. */
  lemma SameElements<T>(a: seq<T>, b: seq<T>)
    requires multiset(a) == multiset(b)
    ensures forall r :: r in a <==> r in b
  {
    forall r
      ensures r in a <==> r in b
    {
      assert r in a <==> r in multiset(a);
      assert r in b <==> r in multiset(b);
    }
  }

  lemma SameMappedValue(a: seq<TaskResult>, b: seq<TaskResult>, k: string)
    requires forall r :: r in a <==> r in b
    requires Consistent(a)
    requires k in Collect(a).mapping && k in Collect(b).mapping
    ensures Collect(a).mapping[k] == Collect(b).mapping[k]
  {
    LastWriterWins(a, k);
    LastWriterWins(b, k);
    var i :| LastSuccessFor(a, k, i) && Collect(a).mapping[k] == a[i].newUrl;
    var j :| LastSuccessFor(b, k, j) && Collect(b).mapping[k] == b[j].newUrl;
    assert a[i] in a && b[j] in a;
  }

  /** The keys and both counters never depend on the completion order. */
  lemma KeysAndCountersOrderFree(results: seq<TaskResult>, choices: seq<nat>)
    ensures Collect(Schedule(results, choices)).mapping.Keys == SuccessfulSources(results)
    ensures Collect(Schedule(results, choices)).successful == SuccessCount(results)
    ensures Collect(Schedule(results, choices)).failed == |results| - SuccessCount(results)
  {
    var order := Schedule(results, choices);
    SchedulePermutes(results, choices);
    MappingKeys(order);
    CountersAddUp(order);
    SuccessCountPermutation(order, results);
    SameElements(order, results);
  }

  /** Without that agreement the mapped value depends on the order: two
      successes for one URL with different keys leave whichever finished
      last. */
  lemma OrderMattersOtherwise()
    ensures var first := Migrated("u", "x");
      var second := Migrated("u", "y");
      Collect([first, second]).mapping["u"] == "y" && Collect([second, first]).mapping["u"] == "x"
  {
    var first := Migrated("u", "x");
    var second := Migrated("u", "y");
    assert [first, second][..1] == [first];
    assert [second, first][..1] == [second];
    assert [first][..0] == [];
    assert [second][..0] == [];
  }
}
