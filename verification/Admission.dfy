/** Admission to the ingestion queue: a check of the waiting count, and later an add
    (src/ingestion/shot-ingestion.queue.ts).  The two Redis calls of concurrent enqueues interleave freely. */
module Admission {
  import opened Domain

  datatype Phase = Fresh | Passed | Admitted | Rejected

  datatype Producer = Producer(jobId: nat, phase: Phase)

  /** known are the job ids that the queue still remembers: adding one of them again changes nothing. */
  datatype State = State(maxDepth: nat, waiting: set<nat>, known: set<nat>, producers: map<nat, Producer>)

  datatype Action = Arrive(p: nat, jobId: nat) | Check(p: nat) | Add(p: nat) | TakenByWorker(jobId: nat) | Forgotten(jobId: nat)

  predicate Enabled(s: State, a: Action) {
    match a
    case Arrive(p, _) => p !in s.producers
    case Check(p) => p in s.producers && s.producers[p].phase == Fresh
    case Add(p) => p in s.producers && s.producers[p].phase == Passed
    case TakenByWorker(jobId) => jobId in s.waiting
    case Forgotten(jobId) => jobId !in s.waiting
  }

  function Moved(s: State, p: nat, phase: Phase): State
    requires p in s.producers
  {
    s.(producers := s.producers[p := s.producers[p].(phase := phase)])
  }

  function Apply(s: State, a: Action): State
    requires Enabled(s, a)
  {
    match a
    case Arrive(p, jobId) => s.(producers := s.producers[p := Producer(jobId, Fresh)])
    case Check(p) => Moved(s, p, if |s.waiting| >= s.maxDepth then Rejected else Passed)
    case Add(p) =>
      var jobId := s.producers[p].jobId;
      var t := Moved(s, p, Admitted);
      if jobId in s.known then t else t.(waiting := s.waiting + {jobId}, known := s.known + {jobId})
    case TakenByWorker(jobId) => s.(waiting := s.waiting - {jobId})
    case Forgotten(jobId) => s.(known := s.known - {jobId})
  }

  function In(s: State, phase: Phase): set<nat> {
    set p | p in s.producers && s.producers[p].phase == phase
  }

  /** A run in which at most k enqueues are between their check and their add at any time. */
  ghost predicate RunsWithin(k: nat, s: State, actions: seq<Action>, t: State)
    decreases actions
  {
    && |In(s, Passed)| <= k
    && if actions == [] then s == t
       else Enabled(s, actions[0]) && RunsWithin(k, Apply(s, actions[0]), actions[1..], t)
  }

  lemma PhaseChange(s: State, p: nat, phase: Phase, of: Phase)
    requires p in s.producers
    ensures In(Moved(s, p, phase), of) == if phase == of then In(s, of) + {p} else In(s, of) - {p}
    ensures p in In(s, of) <==> s.producers[p].phase == of
  {
  }

  lemma PhaseCount(s: State, p: nat, phase: Phase, of: Phase)
    requires p in s.producers
    ensures |In(Moved(s, p, phase), of)|
         == |In(s, of)| - (if s.producers[p].phase == of then 1 else 0) + (if phase == of then 1 else 0)
  {
    hide In, Moved;
    PhaseChange(s, p, phase, of);
    var before := In(s, of);
    if p in before {
      assert before + {p} == before;
    } else {
      assert before - {p} == before;
    }
  }

  // ----- The overshoot of the per-shot check -----

  lemma StepKeepsBound(k: nat, s: State, a: Action)
    requires Enabled(s, a) && |In(s, Passed)| <= k && |In(Apply(s, a), Passed)| <= k
    requires |s.waiting| + |In(s, Passed)| < s.maxDepth + k
    ensures Apply(s, a).maxDepth == s.maxDepth
    ensures |Apply(s, a).waiting| + |In(Apply(s, a), Passed)| < s.maxDepth + k
  {
    match a
    case Arrive(p, jobId) => assert In(Apply(s, a), Passed) == In(s, Passed);
    case Check(p) => PhaseCount(s, p, Apply(s, a).producers[p].phase, Passed);
    case Add(p) =>
      PhaseCount(s, p, Admitted, Passed);
      assert In(Apply(s, a), Passed) == In(Moved(s, p, Admitted), Passed);
    case TakenByWorker(_) => assert In(Apply(s, a), Passed) == In(s, Passed);
    case Forgotten(_) => assert In(Apply(s, a), Passed) == In(s, Passed);
  }

  /** With at most k enqueues in flight the queue never exceeds its depth by k or more. */
  lemma {:induction false} WaitingIsBounded(k: nat, s: State, actions: seq<Action>, t: State)
    requires RunsWithin(k, s, actions, t) && |s.waiting| + |In(s, Passed)| < s.maxDepth + k
    ensures t.maxDepth == s.maxDepth && |t.waiting| < t.maxDepth + k
    decreases actions
  {
    hide Enabled, Apply, In;
    if actions != [] {
      StepKeepsBound(k, s, actions[0]);
      WaitingIsBounded(k, Apply(s, actions[0]), actions[1..], t);
    }
  }

  // ----- The bound is reached -----

  function Range(k: nat): (r: set<nat>)
    ensures |r| == k && forall p: nat :: p in r <==> p < k
  {
    if k == 0 then {} else Range(k - 1) + {k - 1}
  }

  function PhaseIn(p: nat, checked: nat, added: nat): Phase {
    if p < added then Admitted else if p < checked then Passed else Fresh
  }

  /** n producers have arrived, each with a new job; the first of them have checked, and of those the first have added. */
  function Scene(depth: nat, n: nat, checked: nat, added: nat): State {
    State(depth, Range(added), Range(added), map p | p in Range(n) :: Producer(p, PhaseIn(p, checked, added)))
  }

  lemma PassedInScene(depth: nat, n: nat, checked: nat, added: nat)
    requires added <= checked <= n
    ensures |In(Scene(depth, n, checked, added), Passed)| == checked - added
  {
    assert In(Scene(depth, n, checked, added), Passed) == Range(checked) - Range(added);
    assert Range(added) + (Range(checked) - Range(added)) == Range(checked);
  }

  lemma ArriveInScene(depth: nat, n: nat, checked: nat, added: nat)
    requires added <= checked <= n
    ensures Enabled(Scene(depth, n, checked, added), Arrive(n, n))
    ensures Apply(Scene(depth, n, checked, added), Arrive(n, n)) == Scene(depth, n + 1, checked, added)
  {
    hide Range;
    assert Scene(depth, n + 1, checked, added).producers == Scene(depth, n, checked, added).producers[n := Producer(n, Fresh)];
  }

  lemma CheckInScene(depth: nat, n: nat, checked: nat, added: nat)
    requires added <= checked < n && added < depth
    ensures Enabled(Scene(depth, n, checked, added), Check(checked))
    ensures Apply(Scene(depth, n, checked, added), Check(checked)) == Scene(depth, n, checked + 1, added)
  {
    hide Range;
    assert checked in Scene(depth, n, checked, added).producers;
    assert Scene(depth, n, checked + 1, added).producers
        == Scene(depth, n, checked, added).producers[checked := Producer(checked, Passed)];
  }

  lemma AddInScene(depth: nat, n: nat, checked: nat, added: nat)
    requires added < checked <= n
    ensures Enabled(Scene(depth, n, checked, added), Add(added))
    ensures Apply(Scene(depth, n, checked, added), Add(added)) == Scene(depth, n, checked, added + 1)
  {
    RangeGrows(added);
    hide Range;
    assert added in Scene(depth, n, checked, added).producers;
    assert Scene(depth, n, checked, added + 1).producers
        == Scene(depth, n, checked, added).producers[added := Producer(added, Admitted)];
  }

  lemma RangeGrows(k: nat)
    ensures Range(k + 1) == Range(k) + {k}
  {
  }

  ghost predicate ReachesWithin(k: nat, s: State, t: State) {
    exists actions :: RunsWithin(k, s, actions, t)
  }

  lemma {:induction false} OneMoreAction(k: nat, s: State, actions: seq<Action>, t: State, a: Action)
    requires RunsWithin(k, s, actions, t) && Enabled(t, a) && |In(Apply(t, a), Passed)| <= k
    ensures RunsWithin(k, s, actions + [a], Apply(t, a))
    decreases actions
  {
    hide Enabled, Apply, In;
    if actions == [] {
      assert RunsWithin(k, Apply(t, a), [], Apply(t, a));
      assert ([] + [a])[1..] == [];
    } else {
      OneMoreAction(k, Apply(s, actions[0]), actions[1..], t, a);
      assert (actions + [a])[1..] == actions[1..] + [a];
    }
  }

  /** The empty queue, before anybody has arrived. */
  function Empty(depth: nat): State {
    State(depth, {}, {}, map[])
  }

  lemma ReachedByAction(k: nat, depth: nat, t: State, a: Action)
    requires ReachesWithin(k, Empty(depth), t) && Enabled(t, a) && |In(Apply(t, a), Passed)| <= k
    ensures ReachesWithin(k, Empty(depth), Apply(t, a))
  {
    hide RunsWithin, Enabled, Apply, In, Empty;
    var actions :| RunsWithin(k, Empty(depth), actions, t);
    OneMoreAction(k, Empty(depth), actions, t, a);
  }

  lemma NothingYet(k: nat, depth: nat)
    ensures ReachesWithin(k, Empty(depth), Scene(depth, 0, 0, 0))
  {
    assert Scene(depth, 0, 0, 0) == Empty(depth);
    assert In(Empty(depth), Passed) == {};
    assert RunsWithin(k, Empty(depth), [], Empty(depth));
  }

  lemma Arrived(k: nat, depth: nat, n: nat, checked: nat, added: nat)
    requires added <= checked <= n && checked - added <= k
    requires ReachesWithin(k, Empty(depth), Scene(depth, n, checked, added))
    ensures ReachesWithin(k, Empty(depth), Scene(depth, n + 1, checked, added))
  {
    hide *;
    ArriveInScene(depth, n, checked, added);
    PassedInScene(depth, n + 1, checked, added);
    ReachedByAction(k, depth, Scene(depth, n, checked, added), Arrive(n, n));
  }

  lemma Checked(k: nat, depth: nat, n: nat, checked: nat, added: nat)
    requires added <= checked < n && added < depth && checked + 1 - added <= k
    requires ReachesWithin(k, Empty(depth), Scene(depth, n, checked, added))
    ensures ReachesWithin(k, Empty(depth), Scene(depth, n, checked + 1, added))
  {
    hide *;
    CheckInScene(depth, n, checked, added);
    PassedInScene(depth, n, checked + 1, added);
    ReachedByAction(k, depth, Scene(depth, n, checked, added), Check(checked));
  }

  lemma Added(k: nat, depth: nat, n: nat, checked: nat, added: nat)
    requires added < checked <= n && checked - added <= k
    requires ReachesWithin(k, Empty(depth), Scene(depth, n, checked, added))
    ensures ReachesWithin(k, Empty(depth), Scene(depth, n, checked, added + 1))
  {
    hide *;
    AddInScene(depth, n, checked, added);
    PassedInScene(depth, n, checked, added + 1);
    ReachedByAction(k, depth, Scene(depth, n, checked, added), Add(added));
  }

  /** Producers that come one after the other fill the queue. */
  lemma {:induction false} FilledOneByOne(k: nat, depth: nat, n: nat)
    requires k >= 1 && n <= depth
    ensures ReachesWithin(k, Empty(depth), Scene(depth, n, n, n))
  {
    hide *;
    if n == 0 {
      NothingYet(k, depth);
    } else {
      FilledOneByOne(k, depth, n - 1);
      Arrived(k, depth, n - 1, n - 1, n - 1);
      Checked(k, depth, n, n - 1, n - 1);
      Added(k, depth, n, n, n - 1);
    }
  }

  lemma {:induction false} AllArrived(k: nat, depth: nat, m: nat, x: nat)
    requires k >= 1 && m <= depth
    ensures ReachesWithin(k, Empty(depth), Scene(depth, m + x, m, m))
  {
    hide *;
    if x == 0 { FilledOneByOne(k, depth, m); } else { AllArrived(k, depth, m, x - 1); Arrived(k, depth, m + x - 1, m, m); }
  }

  lemma {:induction false} AllChecked(k: nat, depth: nat, m: nat, x: nat)
    requires 1 <= k && x <= k && m < depth
    ensures ReachesWithin(k, Empty(depth), Scene(depth, m + k, m + x, m))
  {
    hide *;
    if x == 0 { AllArrived(k, depth, m, k); } else { AllChecked(k, depth, m, x - 1); Checked(k, depth, m + k, m + x - 1, m); }
  }

  lemma {:induction false} AllAdded(k: nat, depth: nat, m: nat, x: nat)
    requires 1 <= k && x <= k && m < depth
    ensures ReachesWithin(k, Empty(depth), Scene(depth, m + k, m + k, m + x))
  {
    hide *;
    if x == 0 { AllChecked(k, depth, m, k); } else { AllAdded(k, depth, m, x - 1); Added(k, depth, m + k, m + k, m + x - 1); }
  }

  /** From the empty queue, for every depth and every k: when one place is left, k producers check, and then
      all of them add.  The depth is exceeded by k - 1, which is the most that WaitingIsBounded allows. */
  lemma TheBoundIsReached(k: nat, depth: nat)
    requires k >= 1 && depth >= 1
    ensures exists t :: ReachesWithin(k, Empty(depth), t) && t.maxDepth == depth && |t.waiting| == depth + k - 1
  {
    hide ReachesWithin, Empty, In;
    AllAdded(k, depth, depth - 1, k);
    var t := Scene(depth, depth - 1 + k, depth - 1 + k, depth - 1 + k);
    assert ReachesWithin(k, Empty(depth), t) && |t.waiting| == depth + k - 1;
  }

  // ----- A batch that was checked as a whole -----

  /** Enqueues that have not added their job yet. */
  function Outstanding(s: State): set<nat> {
    In(s, Fresh) + In(s, Passed)
  }

  ghost predicate RunsWithoutArrivals(s: State, actions: seq<Action>, t: State)
    decreases actions
  {
    if actions == [] then s == t
    else Enabled(s, actions[0]) && !actions[0].Arrive? && RunsWithoutArrivals(Apply(s, actions[0]), actions[1..], t)
  }

  lemma BatchCheck(s: State, p: nat)
    requires Enabled(s, Check(p)) && In(s, Rejected) == {}
    requires |s.waiting| + |Outstanding(s)| <= s.maxDepth
    ensures var t := Apply(s, Check(p)); In(t, Rejected) == {} && Outstanding(t) == Outstanding(s)
  {
    assert p in Outstanding(s);
    assert |Outstanding(s)| > 0;
    hide In;
    PhaseChange(s, p, Passed, Rejected);
    PhaseChange(s, p, Passed, Fresh);
    PhaseChange(s, p, Passed, Passed);
  }

  lemma BatchAdd(s: State, p: nat)
    requires Enabled(s, Add(p)) && In(s, Rejected) == {}
    ensures var t := Apply(s, Add(p));
            In(t, Rejected) == {} && Outstanding(t) == Outstanding(s) - {p} && p in Outstanding(s)
  {
    var t := Apply(s, Add(p));
    PhaseChange(s, p, Admitted, Rejected);
    PhaseChange(s, p, Admitted, Fresh);
    PhaseChange(s, p, Admitted, Passed);
    assert forall phase :: In(t, phase) == In(Moved(s, p, Admitted), phase);
    hide In;
  }

  lemma BatchStep(s: State, a: Action)
    requires Enabled(s, a) && !a.Arrive? && In(s, Rejected) == {}
    requires |s.waiting| + |Outstanding(s)| <= s.maxDepth
    ensures var t := Apply(s, a);
            && In(t, Rejected) == {} && t.maxDepth == s.maxDepth
            && |t.waiting| + |Outstanding(t)| <= t.maxDepth
  {
    hide In, Outstanding;
    if a.Check? {
      BatchCheck(s, a.p);
    } else if a.Add? {
      BatchAdd(s, a.p);
    } else {
      SameProducers(s, Apply(s, a));
    }
  }

  lemma SameProducers(s: State, t: State)
    requires t.producers == s.producers
    ensures In(t, Rejected) == In(s, Rejected) && Outstanding(t) == Outstanding(s)
  {
  }

  /** When the capacity check for the batch has passed and nobody else enqueues, no shot of the batch is
      rejected, in whatever order its checks and adds run, and the depth is respected. */
  lemma {:induction false} CheckedBatchesAreAdmitted(s: State, actions: seq<Action>, t: State)
    requires RunsWithoutArrivals(s, actions, t) && In(s, Rejected) == {}
    requires |s.waiting| + |Outstanding(s)| <= s.maxDepth
    ensures In(t, Rejected) == {} && |t.waiting| <= t.maxDepth
    decreases actions
  {
    hide Enabled, Apply, Outstanding, In;
    if actions != [] {
      BatchStep(s, actions[0]);
      CheckedBatchesAreAdmitted(Apply(s, actions[0]), actions[1..], t);
    }
  }

  // ----- A controller that is not interrupted -----

  datatype Unavailable = AtCapacity(retryAfter: nat)

  class Queue {
    const maxDepth: nat
    var waiting: set<nat>
    var known: set<nat>

    constructor (maxDepth: nat)
      ensures this.maxDepth == maxDepth && waiting == {} && known == {}
    {
      this.maxDepth := maxDepth;
      waiting, known := {}, {};
    }

    method Enqueue(jobId: nat) returns (r: Result<nat, Unavailable>)
      modifies this
      ensures r == if |old(waiting)| >= maxDepth then Err(AtCapacity(30)) else Ok(jobId)
      ensures known == old(known) + if r.Ok? then {jobId} else {}
      ensures waiting == old(waiting) + if r.Ok? && jobId !in old(known) then {jobId} else {}
    {
      if |waiting| >= maxDepth { return Err(AtCapacity(30)); }
      if jobId !in known {
        waiting, known := waiting + {jobId}, known + {jobId};
      }
      return Ok(jobId);
    }

    /** All shots of the batch are admitted or none is. */
    method EnqueueBatch(batch: seq<nat>) returns (r: Result<seq<nat>, Unavailable>)
      modifies this
      ensures r == if |old(waiting)| + |batch| > maxDepth then Err(AtCapacity(30)) else Ok(batch)
      ensures r.Err? ==> waiting == old(waiting) && known == old(known)
      ensures r.Ok? ==>
                && known == old(known) + Jobs(batch)
                && waiting == old(waiting) + (Jobs(batch) - old(known))
                && |waiting| <= maxDepth
    {
      if |waiting| + |batch| > maxDepth { return Err(AtCapacity(30)); }
      assert Jobs(batch[..0]) == {};
      hide Jobs;
      for i := 0 to |batch|
        invariant known == old(known) + Jobs(batch[..i])
        invariant waiting == old(waiting) + (Jobs(batch[..i]) - old(known))
        invariant |waiting| <= |old(waiting)| + i
      {
        NextJob(batch, i);
        OneMoreJob(old(waiting), old(known), Jobs(batch[..i]), batch[i]);
        var job := Enqueue(batch[i]);
      }
      assert batch[..|batch|] == batch;
      return Ok(batch);
    }
  }

  lemma OneMoreWaiting(waiting: set<nat>, known: set<nat>, done: set<nat>, id: nat)
    ensures waiting + (done - known) + (if id !in known + done then {id} else {}) == waiting + ((done + {id}) - known)
  {
  }

  lemma OneMoreJob(waiting: set<nat>, known: set<nat>, done: set<nat>, id: nat)
    ensures waiting + (done - known) + (if id !in known + done then {id} else {}) == waiting + ((done + {id}) - known)
    ensures |waiting + ((done + {id}) - known)| <= |waiting + (done - known)| + 1
    ensures known + done + {id} == known + (done + {id})
  {
    OneMoreWaiting(waiting, known, done, id);
    AtMostOneMore(waiting + (done - known), if id !in known + done then {id} else {});
  }

  lemma AtMostOneMore(before: set<nat>, more: set<nat>)
    requires |more| <= 1
    ensures |before + more| <= |before| + 1
  {
    assert before + more == before + (more - before);
    assert |more - before| <= |more| by { assert more == (more - before) + (more * before); }
  }

  function Jobs(batch: seq<nat>): set<nat> {
    set id: nat | id in batch
  }

  lemma NextJob(batch: seq<nat>, i: nat)
    requires i < |batch|
    ensures Jobs(batch[..i + 1]) == Jobs(batch[..i]) + {batch[i]}
  {
    assert batch[..i + 1] == batch[..i] + [batch[i]];
  }
}
