/** Where the windows of a run start and end: the partition of profile v1 (`build_geometry_windows`
    in geometry.py) and the rolling endpoints of profile v2 (geometry_profile_v2_runtime.py). */
module Schedules {

  /** Python's `range(start, stop, step)`. */
  function Range(start: nat, stop: nat, step: nat): seq<nat>
    requires step >= 1
    decreases stop - start
  {
    if start >= stop then [] else [start] + Range(start + step, stop, step)
  }

  function Min(a: nat, b: nat): nat {
    if b < a then b else a
  }

  /** `max(0, endpoint - width)` */
  function Back(endpoint: nat, width: nat): nat {
    if endpoint >= width then endpoint - width else 0
  }

  ghost predicate Steps(r: seq<nat>, step: nat) {
    forall i, j :: 0 <= i < |r| && j == i + 1 && j < |r| ==> r[j] == r[i] + step
  }

  lemma {:induction false} RangeSteps(start: nat, stop: nat, step: nat)
    requires step >= 1
    ensures var r := Range(start, stop, step);
      && Steps(r, step)
      && (forall i :: 0 <= i < |r| ==> start <= r[i] < stop)
      && (r == [] <==> start >= stop)
      && (r != [] ==> r[0] == start && r[|r| - 1] + step >= stop)
    decreases stop - start
  {
    if start < stop {
      RangeSteps(start + step, stop, step);
    }
  }

  /** Entry i of a range, and when there is one. */
  lemma {:induction false} RangeAt(start: nat, stop: nat, step: nat, i: nat)
    requires step >= 1
    ensures i < |Range(start, stop, step)| <==> start + i * step < stop
    ensures i < |Range(start, stop, step)| ==> Range(start, stop, step)[i] == start + i * step
    decreases i
  {
    if i > 0 {
      Distribute(i, step);
      if start < stop {
        RangeAt(start + step, stop, step, i - 1);
      } else {
        Positive(i, step);
      }
    }
  }

  lemma Distribute(i: nat, step: nat)
    requires i >= 1
    ensures (i - 1) * step + step == i * step
  {
  }

  lemma Positive(i: nat, step: nat)
    ensures i * step >= 0
  {
  }

  // ---------- profile v1 ----------

  function Starts(n: nat, width: nat): seq<nat>
    requires width >= 1
  {
    Range(0, n, width)
  }

  /** The windows start at the multiples of the width below the length. */
  lemma StartIs(n: nat, width: nat, i: nat)
    requires width >= 1
    ensures i < |Starts(n, width)| <==> i * width < n
    ensures i < |Starts(n, width)| ==> Starts(n, width)[i] == i * width
  {
    RangeAt(0, n, width, i);
  }

  /** Action k lies in the window that starts at s. */
  predicate Holds(n: nat, width: nat, s: nat, k: nat) {
    s <= k < Min(s + width, n)
  }

  lemma {:induction false} RangeFinds(start: nat, n: nat, width: nat, k: nat) returns (i: nat)
    requires width >= 1 && start <= k < n
    ensures i < |Range(start, n, width)| && Holds(n, width, Range(start, n, width)[i], k)
    decreases n - start
  {
    if k < start + width {
      i := 0;
    } else {
      var rest := RangeFinds(start + width, n, width, k);
      i := rest + 1;
    }
  }

  lemma {:induction false} StepsAscend(r: seq<nat>, step: nat, i: nat, j: nat)
    requires Steps(r, step) && step >= 1 && i < j < |r|
    ensures r[i] + step <= r[j]
    decreases j - i
  {
    if j > i + 1 {
      var m := j - 1;
      StepsAscend(r, step, i, m);
      assert r[j] == r[m] + step;
    }
  }

  /** The windows partition the stream: every action lies in exactly one of them, and none is empty. */
  lemma WindowsPartition(n: nat, width: nat, k: nat)
    requires width >= 1 && k < n
    ensures var starts := Starts(n, width);
      && (exists i :: 0 <= i < |starts| && Holds(n, width, starts[i], k))
      && (forall i, j | 0 <= i < |starts| && 0 <= j < |starts| :: Holds(n, width, starts[i], k) && Holds(n, width, starts[j], k) ==> i == j)
      && (forall i :: 0 <= i < |starts| ==> starts[i] < Min(starts[i] + width, n) <= starts[i] + width)
  {
    var starts := Starts(n, width);
    RangeSteps(0, n, width);
    var found := RangeFinds(0, n, width, k);
    forall i, j | 0 <= i < |starts| && 0 <= j < |starts|
      && Holds(n, width, starts[i], k) && Holds(n, width, starts[j], k)
      ensures i == j
    {
      if i < j {
        StepsAscend(starts, width, i, j);
      } else if j < i {
        StepsAscend(starts, width, j, i);
      }
    }
  }

  // ---------- profile v2 ----------

  function Endpoints(n: nat, stride: nat): seq<nat>
    requires stride >= 1
  {
    var regular := Range(stride, n + 1, stride);
    if regular == [] || regular[|regular| - 1] != n then regular + [n] else regular
  }

  /** Where the actions of a step begin: the previous endpoint. */
  function StepStart(endpoints: seq<nat>, i: nat): nat
    requires i < |endpoints|
  {
    if i == 0 then 0 else endpoints[i - 1]
  }

  /** The endpoints are the multiples of the stride up to the length, and the length itself. */
  lemma EndpointIs(n: nat, stride: nat, i: nat)
    requires stride >= 1 && n >= 1
    ensures i < |Endpoints(n, stride)| <==> i * stride < n
    ensures i < |Endpoints(n, stride)| ==> Endpoints(n, stride)[i] == if (i + 1) * stride <= n then (i + 1) * stride else n
  {
    var r := Range(stride, n + 1, stride);
    RangeAt(stride, n + 1, stride, i);
    Distribute(i + 1, stride);
    RangeSteps(stride, n + 1, stride);
    if r != [] {
      RangeAt(stride, n + 1, stride, |r| - 1);
      Distribute(|r|, stride);
      Distribute(|r| + 1, stride);
      RangeAt(stride, n + 1, stride, |r|);
    }
    hide Range, Steps;
    if i > 0 {
      RangeAt(stride, n + 1, stride, i - 1);
      Distribute(i, stride);
    }
  }

  /** Each endpoint exceeds the one before, by at most the stride. */
  ghost predicate Ascends(e: seq<nat>, stride: nat) {
    forall i {:trigger StepStart(e, i)} :: 0 <= i < |e| ==> StepStart(e, i) < e[i] <= StepStart(e, i) + stride
  }

  /** Endpoints strictly increase, by at most the stride, and the last one is the length. */
  lemma EndpointsAscend(n: nat, stride: nat)
    requires stride >= 1
    ensures var e := Endpoints(n, stride);
      && e != [] && e[|e| - 1] == n
      && (n >= 1 ==> Ascends(e, stride))
      && forall i :: 0 <= i < |e| ==> e[i] <= n
  {
    RangeSteps(stride, n + 1, stride);
    hide Range, Steps;
    if n >= 1 {
      var e := Endpoints(n, stride);
      forall i | 0 <= i < |e| ensures StepStart(e, i) < e[i] <= StepStart(e, i) + stride {
        EndpointAscends(n, stride, i);
      }
    }
  }

  lemma EndpointAscends(n: nat, stride: nat, i: nat)
    requires stride >= 1 && n >= 1 && i < |Endpoints(n, stride)|
    ensures var e := Endpoints(n, stride);
      StepStart(e, i) < e[i] <= StepStart(e, i) + stride
  {
    RangeSteps(stride, n + 1, stride);
    var r := Range(stride, n + 1, stride);
    hide Range;
    if 1 <= i < |r| {
      var h := i - 1;
      assert r[i] == r[h] + stride;
    }
  }

  /** The first endpoint beyond action k comes within one stride of it. */
  lemma FirstEndpointAfter(n: nat, stride: nat, k: nat) returns (i: nat)
    requires stride >= 1 && k < n
    ensures var e := Endpoints(n, stride);
      i < |e| && StepStart(e, i) <= k < e[i] <= k + stride
  {
    hide Endpoints;
    EndpointsAscend(n, stride);
    var e := Endpoints(n, stride);
    i := 0;
    while e[i] <= k
      invariant i < |e| && StepStart(e, i) <= k
      decreases |e| - i
    {
      i := i + 1;
      assert StepStart(e, i) == e[i - 1];
    }
    hide StepStart;
  }

  /** Endpoints increase strictly. */
  lemma {:induction false} EndpointsIncrease(n: nat, stride: nat, i: nat, j: nat)
    requires stride >= 1 && n >= 1 && i < j < |Endpoints(n, stride)|
    ensures Endpoints(n, stride)[i] < Endpoints(n, stride)[j]
    decreases j
  {
    EndpointAscends(n, stride, j);
    if i < j - 1 {
      EndpointsIncrease(n, stride, i, j - 1);
    }
  }

  /** Action k is new in window i. */
  predicate IsNewIn(endpoints: seq<nat>, i: nat, k: nat)
    requires i < |endpoints|
  {
    StepStart(endpoints, i) <= k < endpoints[i]
  }

  lemma NewOnce(n: nat, stride: nat, i: nat, j: nat, k: nat)
    requires stride >= 1 && k < n && i < j < |Endpoints(n, stride)| && IsNewIn(Endpoints(n, stride), i, k)
    ensures !IsNewIn(Endpoints(n, stride), j, k)
  {
    hide Endpoints;
    if i < j - 1 {
      EndpointsIncrease(n, stride, i, j - 1);
    }
  }

  /** Every action is new in exactly one window, and lies in both parts of it. */
  lemma EveryActionIsCovered(n: nat, stride: nat, short: nat, long: nat, k: nat)
    requires 1 <= stride <= short <= long && k < n
    ensures var e := Endpoints(n, stride);
      && (exists i :: 0 <= i < |e| && IsNewIn(e, i, k) && Back(e[i], short) <= k && Back(e[i], long) <= k)
      && forall i, j | 0 <= i < |e| && 0 <= j < |e| :: IsNewIn(e, i, k) && IsNewIn(e, j, k) ==> i == j
  {
    hide Endpoints;
    var found := FirstEndpointAfter(n, stride, k);
    var e := Endpoints(n, stride);
    assert IsNewIn(e, found, k) && Back(e[found], short) <= k && Back(e[found], long) <= k;
    forall i, j | 0 <= i < |e| && 0 <= j < |e| && IsNewIn(e, i, k) && IsNewIn(e, j, k) ensures i == j {
      if i < j {
        NewOnce(n, stride, i, j, k);
      } else if j < i {
        NewOnce(n, stride, j, i, k);
      }
    }
  }
}
