/**
 `runTest` and the invocation loop of `Run` in tbl.go: calling the test function
 once per index of a run order, counting the calls, and stopping after the first
 call that returns false.
 */
module Dispatch {
  import opened Wrappers
  import opened Reflect
  import opened Shapes

  /** The arguments of one call: the index (only for two-parameter forms) and the case. */
  datatype Params<P> = Params(index: Option<int>, testcase: Value<P>)

  /** The test function's boolean result for a call, given the arguments of the
      earlier calls in the same run (so functions that keep state are covered).
      For forms without a result the value is never consulted. */
  type Callback<!P> = (seq<Params<P>>, Params<P>) -> bool

  /** What a run did: how many calls it counted, the case index each call was
      for, and the arguments each call received. */
  datatype Tally<P> = Tally(count: nat, visited: seq<int>, calls: seq<Params<P>>)

  /** The arguments `runTest` passes for case `idx`. */
  function CallParams<P>(s: Shape, idx: int, testcase: Value<P>): (r: Params<P>)
    ensures r.testcase == testcase
    ensures r.index.Some? <==> s.passIndex
    ensures r.index.Some? ==> r.index.value == idx
  {
    Params(if s.passIndex then Some(idx) else None, testcase)
  }

  /** `runTest`: call the function; continue unless it has a bool result and that
      result is false. */
  function RunTest<P>(s: Shape, fn: Callback<P>, history: seq<Params<P>>, p: Params<P>): (proceed: bool)
    ensures !proceed ==> s.hasResult
    ensures s.hasResult ==> (proceed <==> fn(history, p))
  {
    if s.hasResult then fn(history, p) else true
  }

  /** The entries of `order` that index a table of `n` cases, in order. */
  function InRange(order: seq<int>, n: nat): (r: seq<int>)
    ensures |r| <= |order|
    ensures forall k :: 0 <= k < |r| ==> 0 <= r[k] < n
    ensures forall k :: 0 <= k < |r| ==> r[k] in order
    decreases |order|
  {
    if |order| == 0 then []
    else if 0 <= order[0] < n then [order[0]] + InRange(order[1..], n)
    else InRange(order[1..], n)
  }

  /** Filtering works entry by entry: the in-range entries of two orders side
      by side are the in-range entries of each, side by side. */
  lemma {:induction false} InRangeAppend(a: seq<int>, b: seq<int>, n: nat)
    ensures InRange(a + b, n) == InRange(a, n) + InRange(b, n)
    decreases |a|
  {
    if |a| == 0 {
      assert a + b == b;
    } else {
      assert (a + b)[0] == a[0];
      assert (a + b)[1..] == a[1..] + b;
      InRangeAppend(a[1..], b, n);
    }
  }

  /** The number of times each value occurs after filtering: an in-range value
      as often as in `order`, any other value never. */
  lemma {:induction false} InRangeCounts(order: seq<int>, n: nat)
    ensures forall x :: multiset(InRange(order, n))[x] == if 0 <= x < n then multiset(order)[x] else 0
    decreases |order|
  {
    if |order| > 0 {
      InRangeCounts(order[1..], n);
      assert order == [order[0]] + order[1..];
      assert multiset(order) == multiset([order[0]]) + multiset(order[1..]);
    }
  }

  /** A table without cases keeps no entry of any order. */
  lemma {:induction false} InRangeOfNoCases(order: seq<int>)
    ensures InRange(order, 0) == []
    decreases |order|
  {
    if |order| > 0 {
      InRangeOfNoCases(order[1..]);
    }
  }

  /** A single entry is kept exactly when it indexes the table. */
  lemma InRangeSingle(x: int, n: nat)
    ensures InRange([x], n) == if 0 <= x < n then [x] else []
  {
    assert [x][1..] == [];
  }

  /** The invocation loop over `order`, with `history` the calls made so far:
      an out-of-range index is skipped and not counted; otherwise the call is
      counted, and a false continue signal ends the loop. */
  function Drive<P>(order: seq<int>, cases: seq<Value<P>>, s: Shape, fn: Callback<P>,
                    history: seq<Params<P>>): (r: Tally<P>)
    ensures r.count == |r.visited| == |r.calls|
    ensures r.visited <= InRange(order, |cases|)
    decreases |order|
  {
    if |order| == 0 then Tally(0, [], [])
    else
      var idx := order[0];
      if idx < 0 || idx >= |cases| then Drive(order[1..], cases, s, fn, history)
      else
        var p := CallParams(s, idx, cases[idx]);
        if !RunTest(s, fn, history, p) then Tally(1, [idx], [p])
        else
          var rest := Drive(order[1..], cases, s, fn, history + [p]);
          Tally(rest.count + 1, [idx] + rest.visited, [p] + rest.calls)
  }

  /** One step of the loop over a non-empty order, spelled out. */
  lemma DriveStep<P>(order: seq<int>, cases: seq<Value<P>>, s: Shape,
                     fn: Callback<P>, history: seq<Params<P>>)
    requires |order| > 0
    ensures var idx := order[0];
      var r := Drive(order, cases, s, fn, history);
      if idx < 0 || idx >= |cases| then r == Drive(order[1..], cases, s, fn, history)
      else
        var p := CallParams(s, idx, cases[idx]);
        if !RunTest(s, fn, history, p) then r == Tally(1, [idx], [p])
        else
          var rest := Drive(order[1..], cases, s, fn, history + [p]);
          r == Tally(rest.count + 1, [idx] + rest.visited, [p] + rest.calls)
  {
  }

  /** Each call of the tally is for an index of `cases` and receives the
      arguments `runTest` builds for it. */
  ghost predicate CallsMatch<P>(r: Tally<P>, cases: seq<Value<P>>, s: Shape)
    requires |r.visited| == |r.calls|
  {
    forall j :: 0 <= j < |r.calls| ==>
      0 <= r.visited[j] < |cases| && r.calls[j] == CallParams(s, r.visited[j], cases[r.visited[j]])
  }

  /** The j-th call is for the j-th in-range index of the order and receives
      that case, and the index too for two-parameter forms. */
  lemma {:induction false} DriveCalls<P>(order: seq<int>, cases: seq<Value<P>>, s: Shape,
                                         fn: Callback<P>, history: seq<Params<P>>)
    ensures CallsMatch(Drive(order, cases, s, fn, history), cases, s)
    decreases |order|
  {
    var r := Drive(order, cases, s, fn, history);
    if |order| > 0 {
      DriveStep(order, cases, s, fn, history);
      var idx := order[0];
      if idx < 0 || idx >= |cases| {
        DriveCalls(order[1..], cases, s, fn, history);
      } else {
        var p := CallParams(s, idx, cases[idx]);
        if RunTest(s, fn, history, p) {
          var h' := history + [p];
          var rest := Drive(order[1..], cases, s, fn, h');
          DriveCalls(order[1..], cases, s, fn, h');
          forall j | 0 <= j < |r.calls|
            ensures 0 <= r.visited[j] < |cases| && r.calls[j] == CallParams(s, r.visited[j], cases[r.visited[j]])
          {
            if j > 0 {
              assert r.calls[j] == rest.calls[j - 1];
              assert r.visited[j] == rest.visited[j - 1];
            }
          }
        }
      }
    }
  }

  /** Every call of the tally but the last returned the continue signal. */
  ghost predicate ContinuedBeforeLast<P>(r: Tally<P>, s: Shape, fn: Callback<P>, history: seq<Params<P>>) {
    forall j :: 0 <= j < |r.calls| - 1 ==> RunTest(s, fn, history + r.calls[..j], r.calls[j])
  }

  /** A tally with fewer than `available` calls ended on a false continue signal. */
  ghost predicate StoppedIfShort<P>(r: Tally<P>, available: nat, s: Shape, fn: Callback<P>,
                                    history: seq<Params<P>>)
    requires r.count == |r.calls|
  {
    r.count < available ==>
      r.count > 0 && !RunTest(s, fn, history + r.calls[..r.count - 1], r.calls[r.count - 1])
  }

  /** Every call but the last returned the continue signal. */
  lemma {:induction false} DriveContinues<P>(order: seq<int>, cases: seq<Value<P>>, s: Shape,
                                             fn: Callback<P>, history: seq<Params<P>>)
    ensures ContinuedBeforeLast(Drive(order, cases, s, fn, history), s, fn, history)
    decreases |order|
  {
    var r := Drive(order, cases, s, fn, history);
    if |order| > 0 {
      DriveStep(order, cases, s, fn, history);
      var idx := order[0];
      if idx < 0 || idx >= |cases| {
        DriveContinues(order[1..], cases, s, fn, history);
      } else {
        var p := CallParams(s, idx, cases[idx]);
        if RunTest(s, fn, history, p) {
          var h' := history + [p];
          var rest := Drive(order[1..], cases, s, fn, h');
          DriveContinues(order[1..], cases, s, fn, h');
          forall j | 0 <= j < |r.calls| - 1
            ensures RunTest(s, fn, history + r.calls[..j], r.calls[j])
          {
            if j == 0 {
              assert history + r.calls[..j] == history;
            } else {
              assert history + r.calls[..j] == h' + rest.calls[..j - 1];
              assert r.calls[j] == rest.calls[j - 1];
            }
          }
        }
      }
    }
  }

  /** The loop ends early only on a false continue signal: when in-range indices
      are left over, at least one call was made and the last one returned false. */
  lemma {:induction false} DriveStops<P>(order: seq<int>, cases: seq<Value<P>>, s: Shape,
                                         fn: Callback<P>, history: seq<Params<P>>)
    ensures StoppedIfShort(Drive(order, cases, s, fn, history), |InRange(order, |cases|)|, s, fn, history)
    decreases |order|
  {
    var r := Drive(order, cases, s, fn, history);
    if |order| > 0 {
      DriveStep(order, cases, s, fn, history);
      var idx := order[0];
      if idx < 0 || idx >= |cases| {
        DriveStops(order[1..], cases, s, fn, history);
      } else {
        var p := CallParams(s, idx, cases[idx]);
        assert InRange(order, |cases|) == [idx] + InRange(order[1..], |cases|);
        if RunTest(s, fn, history, p) {
          var h' := history + [p];
          var rest := Drive(order[1..], cases, s, fn, h');
          DriveStops(order[1..], cases, s, fn, h');
          if r.count < |InRange(order, |cases|)| {
            assert rest.count > 0;
            assert history + r.calls[..r.count - 1] == h' + rest.calls[..rest.count - 1];
            assert r.calls[r.count - 1] == rest.calls[rest.count - 1];
          }
        } else {
          assert history + r.calls[..0] == history;
        }
      }
    }
  }

  /** If the k-th call returns false, the run made exactly k calls: nothing
      after it is called. */
  lemma StopsAtFirstFalse<P>(order: seq<int>, cases: seq<Value<P>>, s: Shape,
                             fn: Callback<P>, history: seq<Params<P>>, k: nat)
    requires var r := Drive(order, cases, s, fn, history);
      1 <= k <= r.count && !RunTest(s, fn, history + r.calls[..k - 1], r.calls[k - 1])
    ensures Drive(order, cases, s, fn, history).count == k
  {
    DriveContinues(order, cases, s, fn, history);
  }

  /** No call in `calls` returned false: the form has no result, or the
      function returned true on each of these calls, given the calls before it. */
  predicate NoFalseResult<P>(hasResult: bool, fn: Callback<P>, history: seq<Params<P>>,
                             calls: seq<Params<P>>) {
    !hasResult || forall j :: 0 <= j < |calls| ==> fn(history + calls[..j], calls[j])
  }

  /** A run in which no call returned false reaches every in-range index, in
      order, duplicates included. */
  lemma {:induction false} RunsToCompletion<P>(order: seq<int>, cases: seq<Value<P>>, s: Shape,
                            fn: Callback<P>, history: seq<Params<P>>)
    requires NoFalseResult(s.hasResult, fn, history, Drive(order, cases, s, fn, history).calls)
    ensures Drive(order, cases, s, fn, history).visited == InRange(order, |cases|)
  {
    var r := Drive(order, cases, s, fn, history);
    DriveStops(order, cases, s, fn, history);
    if r.count > 0 {
      assert RunTest(s, fn, history + r.calls[..r.count - 1], r.calls[r.count - 1]);
    }
  }

  /** Skipping is invisible: running over `order` is the same as running over its
      in-range entries only. */
  lemma {:induction false} SkipsOutOfRange<P>(order: seq<int>, cases: seq<Value<P>>, s: Shape,
                                              fn: Callback<P>, history: seq<Params<P>>)
    ensures Drive(order, cases, s, fn, history) == Drive(InRange(order, |cases|), cases, s, fn, history)
    decreases |order|
  {
    if |order| > 0 {
      var n := |cases|;
      if 0 <= order[0] < n {
        var eff := InRange(order, n);
        assert eff[0] == order[0] && eff[1..] == InRange(order[1..], n);
        var p := CallParams(s, order[0], cases[order[0]]);
        SkipsOutOfRange(order[1..], cases, s, fn, history + [p]);
      } else {
        SkipsOutOfRange(order[1..], cases, s, fn, history);
      }
    }
  }
}
