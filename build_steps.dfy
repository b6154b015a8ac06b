/**
 * The build steps of the code view and their status
 * (Frontend/src/pages/CodeView.tsx, lines 36-41 and 99-108).
 */
module BuildSteps {
  import opened Common

  datatype Status = Pending | InProgress | Completed

  /** One action as the artifact parser reports it; any attribute may be missing. */
  datatype Step = Step(title: Option<string>, code: Option<string>, path: Option<string>)

  datatype BuildStep = BuildStep(title: string, status: Status, code: string, path: string)

  const UnnamedStep: string := "Unnamed Step"

  /** JavaScript `x || fallback` for a string that may be undefined: empty counts as missing. */
  function OrElse(x: Option<string>, fallback: string): (r: string)
    ensures x.Some? && x.value != "" ==> r == x.value
    ensures x.None? || x.value == "" ==> r == fallback
  {
    if x.Some? && x.value != "" then x.value else fallback
  }

  /** The object literal of lines 37-40. */
  function Normalize(x: Step): (b: BuildStep)
    ensures b.status == Pending
    ensures b.title != ""
    ensures b.title == OrElse(x.title, UnnamedStep)
    ensures b.code == OrElse(x.code, "") && b.path == OrElse(x.path, "")
  {
    BuildStep(OrElse(x.title, UnnamedStep), Pending, OrElse(x.code, ""), OrElse(x.path, ""))
  }

  /** `parseXml(...).map(...)`: one build step per parsed step, in the same order. */
  function NormalizeAll(xs: seq<Step>): (bs: seq<BuildStep>)
    ensures |bs| == |xs|
    ensures forall i :: 0 <= i < |xs| ==> bs[i] == Normalize(xs[i])
    ensures AllPending(bs)
  {
    seq(|xs|, i requires 0 <= i < |xs| => Normalize(xs[i]))
  }

  predicate AllPending(steps: seq<BuildStep>)
  {
    forall i :: 0 <= i < |steps| ==> steps[i].status == Pending
  }

  predicate HasPending(steps: seq<BuildStep>)
  {
    exists i :: 0 <= i < |steps| && steps[i].status == Pending
  }

  /** `steps.findIndex(s => s.status === 'pending')`: the lowest pending index, or -1. */
  function FindPending(steps: seq<BuildStep>): (r: int)
    ensures -1 <= r < |steps|
    ensures r == -1 <==> !HasPending(steps)
    ensures r >= 0 ==> steps[r].status == Pending
    ensures r >= 0 ==> forall j :: 0 <= j < r ==> steps[j].status != Pending
  {
    if steps == [] then -1
    else if steps[0].status == Pending then 0
    else
      var k := FindPending(steps[1..]);
      if k == -1 then -1 else k + 1
  }

  /** The update of lines 101-108: the step at the pending index becomes completed. */
  function CompleteNext(steps: seq<BuildStep>): (r: seq<BuildStep>)
    ensures |r| == |steps|
    ensures !HasPending(steps) ==> r == steps
  {
    var p := FindPending(steps);
    seq(|steps|, i requires 0 <= i < |steps| => if i == p then steps[i].(status := Completed) else steps[i])
  }

  /**
   * Only the lowest-index pending step changes, and it becomes completed;
   * every other step is left as it was.
   */
  lemma CompleteNextLowestPending(steps: seq<BuildStep>, p: nat)
    requires p < |steps| && steps[p].status == Pending
    requires forall j :: 0 <= j < p ==> steps[j].status != Pending
    ensures CompleteNext(steps) == steps[p := steps[p].(status := Completed)]
  {
    assert FindPending(steps) == p;
  }

  /** Number of completed steps. */
  function CountCompleted(steps: seq<BuildStep>): nat
  {
    if steps == [] then 0
    else (if steps[0].status == Completed then 1 else 0) + CountCompleted(steps[1..])
  }

  /** Each text message completes one more step while one is pending, and never un-completes one. */
  lemma {:induction false} CompleteNextCounts(steps: seq<BuildStep>)
    ensures CountCompleted(CompleteNext(steps)) == CountCompleted(steps) + (if HasPending(steps) then 1 else 0)
  {
    if HasPending(steps) {
      var p := FindPending(steps);
      CompleteNextLowestPending(steps, p);
      CountAfterUpdate(steps, p, steps[p].(status := Completed));
    }
  }

  lemma {:induction false} CountAfterUpdate(steps: seq<BuildStep>, p: nat, b: BuildStep)
    requires p < |steps| && steps[p].status != Completed && b.status == Completed
    ensures CountCompleted(steps[p := b]) == CountCompleted(steps) + 1
  {
    if p > 0 {
      assert steps[p := b][1..] == steps[1..][p - 1 := b];
      CountAfterUpdate(steps[1..], p - 1, b);
    } else {
      assert steps[p := b][1..] == steps[1..];
    }
  }

  /** The state after `k` text messages. */
  function CompleteNextN(steps: seq<BuildStep>, k: nat): seq<BuildStep>
    decreases k
  {
    if k == 0 then steps else CompleteNextN(CompleteNext(steps), k - 1)
  }

  /** The same steps, position by position, up to their status. */
  ghost predicate SameSteps(a: seq<BuildStep>, b: seq<BuildStep>)
  {
    |a| == |b| &&
    forall i :: 0 <= i < |a| ==> a[i].title == b[i].title && a[i].code == b[i].code && a[i].path == b[i].path
  }

  /** Status updates never reorder, add, drop or edit a step. */
  lemma {:induction false} CompleteNextNSameSteps(steps: seq<BuildStep>, k: nat)
    ensures SameSteps(steps, CompleteNextN(steps, k))
    decreases k
  {
    if k > 0 {
      var next := CompleteNext(steps);
      CompleteNextSameSteps(steps);
      CompleteNextNSameSteps(next, k - 1);
      SameStepsTransitive(steps, next, CompleteNextN(next, k - 1));
    }
  }

  lemma CompleteNextSameSteps(steps: seq<BuildStep>)
    ensures SameSteps(steps, CompleteNext(steps))
  {
    if HasPending(steps) {
      var p := FindPending(steps);
      assert CompleteNext(steps) == steps[p := steps[p].(status := Completed)];
    }
  }

  lemma SameStepsTransitive(a: seq<BuildStep>, b: seq<BuildStep>, c: seq<BuildStep>)
    requires SameSteps(a, b) && SameSteps(b, c)
    ensures SameSteps(a, c)
  {
  }

  /** The prefix before `m` is completed and the rest still pending. */
  ghost predicate CompletedUpTo(steps: seq<BuildStep>, m: nat)
  {
    m <= |steps| &&
    (forall i :: 0 <= i < m ==> steps[i].status == Completed) &&
    (forall i :: m <= i < |steps| ==> steps[i].status == Pending)
  }

  /**
   * From all steps pending, `k` text messages complete exactly the first
   * `min(k, n)` steps, in document order, and leave the others pending.
   */
  lemma CompleteNextNFromPending(steps: seq<BuildStep>, k: nat)
    requires AllPending(steps)
    ensures SameSteps(steps, CompleteNextN(steps, k))
    ensures CompletedUpTo(CompleteNextN(steps, k), if k < |steps| then k else |steps|)
  {
    CompleteNextNSameSteps(steps, k);
    CompleteNextNGeneral(steps, 0, k);
  }

  lemma {:induction false} CompleteNextNGeneral(steps: seq<BuildStep>, m: nat, k: nat)
    requires CompletedUpTo(steps, m)
    ensures CompletedUpTo(CompleteNextN(steps, k), if m + k < |steps| then m + k else |steps|)
    decreases k
  {
    if k > 0 {
      var next := CompleteNext(steps);
      if m < |steps| {
        assert steps[m].status == Pending;
        CompleteNextLowestPending(steps, m);
        assert CompletedUpTo(next, m + 1);
        CompleteNextNGeneral(next, m + 1, k - 1);
      } else {
        assert !HasPending(steps);
        CompleteNextNGeneral(next, m, k - 1);
      }
    }
  }
}
