/** An in_parallel step (worker/service.go:799-999) over every schedule of its
    goroutines: semaphore, shared sub-step list, fail_fast and exported variables. */
module InParallel {
  import opened Collections
  import opened Wrappers

  type Vars = map<string, string>

  datatype SubStep = SubStep(name: string, status: string)

  /** What an inner step does when nobody cancels it: the step lists it shows
      while running, the one it ends with, its variables and whether it failed. */
  datatype Behaviour = Behaviour(updates: seq<seq<SubStep>>, final: seq<SubStep>, vars: Vars, failed: bool)

  datatype Block = Block(limit: int, failFast: bool, work: seq<Behaviour>, queued: seq<seq<SubStep>>)

  datatype Result = Result(vars: Vars, failed: bool)

  /** Where a goroutine stands: before the semaphore, past it, inside its step,
      done with it but not yet acting on a failure, about to leave, gone. */
  datatype Pc = Waiting | Entered | Working(shown: nat) | Reported | Leaving | Finished

  datatype State = State(
    pcs: seq<Pc>,
    tokens: nat,                   // slots taken in the semaphore channel
    cancelled: bool,
    slots: seq<seq<SubStep>>,
    results: seq<Result>,
    subSteps: seq<SubStep>)        // what the parent step shows

  datatype Event =
    | Enter(i: nat)
    | GiveUp(i: nat)
    | Begin(i: nat)
    | Update(i: nat, steps: seq<SubStep>)
    | Finish(i: nat, steps: seq<SubStep>, result: Result)
    | Report(i: nat)
    | Leave(i: nat)
    | OuterCancel

  function Flat(slots: seq<seq<SubStep>>): seq<SubStep> {
    if slots == [] then [] else slots[0] + Flat(slots[1..])
  }

  ghost predicate WellFormed(b: Block) { |b.work| == |b.queued| }

  ghost function Start(b: Block): State {
    State(seq(|b.work|, _ => Waiting), 0, false, b.queued, seq(|b.work|, _ => Result(map[], false)), Flat(b.queued))
  }

  predicate AtEnd(p: Pc) { p == Reported || p == Leaving || p == Finished }

  predicate Holds(p: Pc) { p == Entered || p.Working? || p == Reported || p == Leaving }

  ghost predicate Shaped(b: Block, s: State) {
    |s.pcs| == |s.slots| == |s.results| == |b.work| == |b.queued|
  }

  /** Which moves the code allows.  A step whose context was cancelled may end in
      any way; otherwise it behaves as its Behaviour says. */
  ghost predicate Enabled(b: Block, s: State, e: Event)
    requires Shaped(b, s)
  {
    match e
    case Enter(i) => i < |s.pcs| && s.pcs[i] == Waiting && (b.limit > 0 ==> s.tokens < b.limit)
    case GiveUp(i) => i < |s.pcs| && s.pcs[i] == Waiting && b.limit > 0 && s.cancelled
    case Begin(i) => i < |s.pcs| && s.pcs[i] == Entered
    case Update(i, steps) =>
      && i < |s.pcs| && s.pcs[i].Working?
      && (!s.cancelled ==> s.pcs[i].shown < |b.work[i].updates| && steps == b.work[i].updates[s.pcs[i].shown])
    case Finish(i, steps, result) =>
      && i < |s.pcs| && s.pcs[i].Working?
      && (!s.cancelled ==> s.pcs[i].shown == |b.work[i].updates| && steps == b.work[i].final
                           && result == Result(b.work[i].vars, b.work[i].failed))
    case Report(i) => i < |s.pcs| && s.pcs[i] == Reported
    case Leave(i) => i < |s.pcs| && s.pcs[i] == Leaving
    case OuterCancel => true
  }

  ghost function Sync(s: State, i: nat, steps: seq<SubStep>): State
    requires i < |s.slots|
  {
    var slots := s.slots[i := steps];
    s.(slots := slots, subSteps := Flat(slots))
  }

  ghost function Step(b: Block, s: State, e: Event): State
    requires Shaped(b, s) && Enabled(b, s, e)
  {
    match e
    case Enter(i) => s.(pcs := s.pcs[i := Entered], tokens := if b.limit > 0 then s.tokens + 1 else s.tokens)
    case GiveUp(i) => s.(pcs := s.pcs[i := Finished], results := s.results[i := Result(map[], true)])
    case Begin(i) =>
      if s.cancelled then s.(pcs := s.pcs[i := Leaving], results := s.results[i := Result(map[], true)])
      else s.(pcs := s.pcs[i := Working(0)])
    case Update(i, steps) => Sync(s, i, steps).(pcs := s.pcs[i := Working(s.pcs[i].shown + 1)])
    case Finish(i, steps, result) =>
      Sync(s, i, steps).(pcs := s.pcs[i := Reported], results := s.results[i := result])
    case Report(i) =>
      s.(pcs := s.pcs[i := Leaving], cancelled := s.cancelled || (b.failFast && s.results[i].failed))
    case Leave(i) =>
      s.(pcs := s.pcs[i := Finished], tokens := if b.limit > 0 && s.tokens > 0 then s.tokens - 1 else s.tokens)
    case OuterCancel => s.(cancelled := true)
  }

  ghost predicate StepAt(b: Block, states: seq<State>, events: seq<Event>, i: nat)
    requires i < |events| < |states|
  {
    Shaped(b, states[i]) && Enabled(b, states[i], events[i]) && states[i + 1] == Step(b, states[i], events[i])
  }

  ghost predicate Run(b: Block, states: seq<State>, events: seq<Event>) {
    && WellFormed(b) && |states| == |events| + 1 && states[0] == Start(b)
    && forall i :: 0 <= i < |events| ==> StepAt(b, states, events, i)
  }

  ghost predicate Complete(s: State) { forall i :: 0 <= i < |s.pcs| ==> s.pcs[i] == Finished }

  // ----- invariants

  ghost function Holders(s: State): set<nat> { set i: nat | i < |s.pcs| && Holds(s.pcs[i]) }

  /** The semaphore counts its holders and never exceeds its size, and the parent
      always shows the slots in order. */
  ghost predicate Sound(b: Block, s: State) {
    && Shaped(b, s)
    && (b.limit > 0 ==> s.tokens == |Holders(s)| && s.tokens <= b.limit)
    && s.subSteps == Flat(s.slots)
  }

  /** As long as nothing is cancelled, whoever is done left exactly what its
      behaviour says. */
  ghost predicate Undisturbed(b: Block, s: State)
    requires Shaped(b, s)
  {
    !s.cancelled ==> forall i :: 0 <= i < |s.pcs| ==>
      && (s.pcs[i].Working? ==> s.pcs[i].shown <= |b.work[i].updates|)
      && (AtEnd(s.pcs[i]) ==>
            s.slots[i] == b.work[i].final && s.results[i] == Result(b.work[i].vars, b.work[i].failed))
  }

  /** The first cancellation under fail_fast has a real failure behind it. */
  ghost predicate Blamed(b: Block, s: State)
    requires Shaped(b, s)
  {
    s.cancelled ==>
      && b.failFast
      && exists i :: 0 <= i < |s.pcs| && AtEnd(s.pcs[i]) && s.results[i].failed && b.work[i].failed
  }

  lemma HoldersAfter(s: State, t: State, i: nat)
    requires i < |s.pcs| == |t.pcs| && t.pcs == s.pcs[i := t.pcs[i]]
    ensures |Holders(t)| == |Holders(s)| + (if Holds(t.pcs[i]) then 1 else 0) - (if Holds(s.pcs[i]) then 1 else 0)
  {
    var others := Holders(s) - {i};
    assert Holds(s.pcs[i]) <==> i in Holders(s);
    assert Holders(s) == if Holds(s.pcs[i]) then others + {i} else others;
    assert Holders(t) == if Holds(t.pcs[i]) then others + {i} else others;
  }

  lemma StepIsSound(b: Block, s: State, e: Event)
    requires Sound(b, s) && Enabled(b, s, e)
    ensures Sound(b, Step(b, s, e))
  {
    if !e.OuterCancel? {
      hide Holders;
      HoldersAfter(s, Step(b, s, e), e.i);
    } else {
      assert Holders(Step(b, s, e)) == Holders(s);
    }
  }

  lemma StepStaysUndisturbed(b: Block, s: State, e: Event)
    requires Shaped(b, s) && Enabled(b, s, e) && Undisturbed(b, s)
    ensures Undisturbed(b, Step(b, s, e))
  {
  }

  lemma StepIsBlamed(b: Block, s: State, e: Event)
    requires Shaped(b, s) && Enabled(b, s, e) && Undisturbed(b, s) && Blamed(b, s) && e != OuterCancel
    ensures Blamed(b, Step(b, s, e))
  {
    var t := Step(b, s, e);
    if s.cancelled {
      var k :| 0 <= k < |s.pcs| && AtEnd(s.pcs[k]) && s.results[k].failed && b.work[k].failed;
      assert AtEnd(t.pcs[k]) && t.results[k].failed;
    } else if t.cancelled {
      assert AtEnd(t.pcs[e.i]) && t.results[e.i].failed && b.work[e.i].failed;
    }
  }

  lemma {:induction false} RunsAreSound(b: Block, states: seq<State>, events: seq<Event>, k: nat)
    requires Run(b, states, events) && k < |states|
    ensures Sound(b, states[k]) && Undisturbed(b, states[k])
    ensures (forall i :: 0 <= i < k ==> events[i] != OuterCancel) ==> Blamed(b, states[k])
    decreases k
  {
    if k == 0 {
      assert Holders(states[0]) == {};
    } else {
      RunsAreSound(b, states, events, k - 1);
      assert StepAt(b, states, events, k - 1);
      StepIsSound(b, states[k - 1], events[k - 1]);
      StepStaysUndisturbed(b, states[k - 1], events[k - 1]);
      if forall i :: 0 <= i < k ==> events[i] != OuterCancel {
        StepIsBlamed(b, states[k - 1], events[k - 1]);
      }
    }
  }

  /** At any moment of any schedule at most `limit` inner steps are under way. */
  lemma AtMostLimitRun(b: Block, states: seq<State>, events: seq<Event>, k: nat)
    requires Run(b, states, events) && k < |states| && b.limit > 0
    ensures |set i: nat | i < |states[k].pcs| && states[k].pcs[i].Working?| <= b.limit
  {
    RunsAreSound(b, states, events, k);
    SubsetSize((set i: nat | i < |states[k].pcs| && states[k].pcs[i].Working?), Holders(states[k]));
  }

  /** No schedule gets stuck: until every goroutine is gone, one of them can move. */
  lemma NeverStuck(b: Block, states: seq<State>, events: seq<Event>, k: nat) returns (e: Event)
    requires Run(b, states, events) && k < |states| && !Complete(states[k])
    ensures Shaped(b, states[k]) && Enabled(b, states[k], e) && e != OuterCancel
  {
    var s := states[k];
    RunsAreSound(b, states, events, k);
    if i: nat :| i < |s.pcs| && Holds(s.pcs[i]) {
      e := match s.pcs[i]
        case Entered => Begin(i)
        case Working(n) =>
          if n < |b.work[i].updates| then Update(i, b.work[i].updates[n])
          else Finish(i, b.work[i].final, Result(b.work[i].vars, b.work[i].failed))
        case Reported => Report(i)
        case _ => Leave(i);
    } else {
      assert Holders(s) == {};
      var i :| 0 <= i < |s.pcs| && s.pcs[i] != Finished;
      e := Enter(i);
    }
  }

  // ----- outcomes

  ghost predicate NoCancel(events: seq<Event>) { forall i :: 0 <= i < |events| ==> events[i] != OuterCancel }

  ghost predicate AnyFailed(results: seq<Result>) { exists i :: 0 <= i < |results| && results[i].failed }

  /** Without fail_fast and without cancellation every complete schedule ends with
      the sub-steps in declaration order and the same results. */
  lemma OutcomeIgnoresSchedule(b: Block, states: seq<State>, events: seq<Event>)
    requires Run(b, states, events) && !b.failFast && NoCancel(events) && Complete(states[|events|])
    ensures states[|events|].subSteps == Flat(seq(|b.work|, i requires 0 <= i < |b.work| => b.work[i].final))
    ensures states[|events|].results ==
      seq(|b.work|, i requires 0 <= i < |b.work| => Result(b.work[i].vars, b.work[i].failed))
  {
    var s := states[|events|];
    RunsAreSound(b, states, events, |events|);
    assert s.slots == seq(|b.work|, i requires 0 <= i < |b.work| => b.work[i].final);
  }

  /** Even with fail_fast the verdict does not depend on the schedule: the block
      fails exactly when some inner step fails on its own. */
  lemma VerdictIgnoresSchedule(b: Block, states: seq<State>, events: seq<Event>)
    requires Run(b, states, events) && NoCancel(events) && Complete(states[|events|])
    ensures AnyFailed(states[|events|].results) <==> exists i :: 0 <= i < |b.work| && b.work[i].failed
  {
    var s := states[|events|];
    RunsAreSound(b, states, events, |events|);
    if !s.cancelled {
      forall i | 0 <= i < |b.work| ensures s.results[i].failed == b.work[i].failed {}
    }
  }

  // ----- cancellation, and what it leaves behind

  /** The event cancels the block: from outside, or a failure reported under fail_fast. */
  ghost predicate Cancels(b: Block, s: State, e: Event) {
    e.OuterCancel? || (b.failFast && e.Report? && e.i < |s.results| && s.results[e.i].failed)
  }

  /** The block is cancelled exactly when some event so far cancelled it. */
  lemma {:induction false} CancelledExactlyWhen(b: Block, states: seq<State>, events: seq<Event>, k: nat)
    requires Run(b, states, events) && k < |states|
    ensures states[k].cancelled <==> exists i :: 0 <= i < k && Cancels(b, states[i], events[i])
    decreases k
  {
    if k > 0 {
      CancelledExactlyWhen(b, states, events, k - 1);
      assert StepAt(b, states, events, k - 1);
      assert states[k].cancelled <==> states[k - 1].cancelled || Cancels(b, states[k - 1], events[k - 1]);
    }
  }

  /** Once it is cancelled no further inner step starts. */
  lemma {:induction false} NothingStartsAfterwards(b: Block, states: seq<State>, events: seq<Event>, k: nat, m: nat,
                                                   i: nat)
    requires Run(b, states, events) && k <= m < |states| && states[k].cancelled
    requires i < |states[m].pcs| && states[m].pcs[i].Working?
    ensures states[m].cancelled && i < |states[k].pcs| && states[k].pcs[i].Working?
    decreases m
  {
    CancelledExactlyWhen(b, states, events, k);
    CancelledExactlyWhen(b, states, events, m);
    if k < m {
      CancelledExactlyWhen(b, states, events, m - 1);
      assert StepAt(b, states, events, m - 1);
      assert states[m - 1].cancelled && states[m - 1].pcs[i].Working?;
      NothingStartsAfterwards(b, states, events, k, m - 1, i);
    }
  }

  /** How inner step i ended, if it ran to its end. */
  ghost function Ended(events: seq<Event>, i: nat): Option<Result> {
    if events == [] then None
    else
      var n := |events| - 1;
      match events[n]
      case Finish(j, _, r) => if j == i then Some(r) else Ended(events[..n], i)
      case _ => Ended(events[..n], i)
  }

  /** What inner step i last showed. */
  ghost function Shown(events: seq<Event>, i: nat, queued: seq<SubStep>): seq<SubStep> {
    if events == [] then queued
    else
      var n := |events| - 1;
      match events[n]
      case Finish(j, steps, _) => if j == i then steps else Shown(events[..n], i, queued)
      case Update(j, steps) => if j == i then steps else Shown(events[..n], i, queued)
      case _ => Shown(events[..n], i, queued)
  }

  ghost predicate Gone(p: Pc) { p == Leaving || p == Finished }

  /** At every moment the result of an inner step is the one it ended with; one that
      left without having run counts as failed; and its slot shows its last list. */
  lemma {:induction false} ResultsAre(b: Block, states: seq<State>, events: seq<Event>, k: nat, i: nat)
    requires Run(b, states, events) && k < |states| && i < |b.work|
    ensures Shaped(b, states[k]) && states[k].slots[i] == Shown(events[..k], i, b.queued[i])
    ensures match Ended(events[..k], i)
      case Some(r) => states[k].results[i] == r && AtEnd(states[k].pcs[i])
      case None => states[k].results[i] == Result(map[], Gone(states[k].pcs[i])) && states[k].pcs[i] != Reported
    decreases k
  {
    if k > 0 {
      ResultsAre(b, states, events, k - 1, i);
      assert StepAt(b, states, events, k - 1);
      assert events[..k][..k - 1] == events[..k - 1];
      ResultStep(b, states[k - 1], events[k - 1], i);
    }
  }

  lemma ResultStep(b: Block, s: State, e: Event, i: nat)
    requires Shaped(b, s) && Enabled(b, s, e) && i < |b.work|
    ensures var t := Step(b, s, e);
      && Shaped(b, t)
      && t.slots[i] == (if (e.Update? || e.Finish?) && e.i == i then e.steps else s.slots[i])
      && (e.Finish? && e.i == i ==> t.results[i] == e.result && t.pcs[i] == Reported)
      && (!(e.Finish? && e.i == i) && AtEnd(s.pcs[i]) ==> t.results[i] == s.results[i] && AtEnd(t.pcs[i]))
      && (!(e.Finish? && e.i == i) && !AtEnd(s.pcs[i]) ==>
            && t.pcs[i] != Reported
            && t.results[i] == if Gone(t.pcs[i]) then Result(map[], true) else s.results[i])
      && (Gone(s.pcs[i]) ==> Gone(t.pcs[i]))
  {
  }

  /** A step that never ran to its end, because the block was cancelled before it
      began, counts as failed, and so does the block. */
  lemma SkippedCountsAsFailed(b: Block, states: seq<State>, events: seq<Event>, i: nat)
    requires Run(b, states, events) && Complete(states[|events|]) && i < |b.work| && Ended(events, i) == None
    ensures i < |states[|events|].results| && states[|events|].results[i] == Result(map[], true)
    ensures AnyFailed(states[|events|].results)
    ensures exists k :: 0 <= k < |events| && Cancels(b, states[k], events[k])
  {
    var n := |events|;
    assert events[..n] == events;
    ResultsAre(b, states, events, n, i);
    CancelledExactlyWhen(b, states, events, n);
    if !states[n].cancelled { UncancelledEnds(b, states, events, n, i); }
  }

  /** Whoever waits for the semaphore when the block is cancelled may leave at once, even
      if no slot is free, and then counts as failed. */
  lemma WaiterMayGiveUp(b: Block, states: seq<State>, events: seq<Event>, k: nat, i: nat)
    requires Run(b, states, events) && k < |states| && i < |states[k].pcs| && states[k].pcs[i] == Waiting
    requires states[k].cancelled && b.limit > 0
    ensures Shaped(b, states[k]) && Enabled(b, states[k], GiveUp(i))
    ensures var t := Step(b, states[k], GiveUp(i));
      t.pcs[i] == Finished && t.results[i] == Result(map[], true) && t.tokens == states[k].tokens
  {
    RunsAreSound(b, states, events, k);
  }

  /** As long as nothing is cancelled nobody leaves without having run. */
  lemma {:induction false} UncancelledEnds(b: Block, states: seq<State>, events: seq<Event>, k: nat, i: nat)
    requires Run(b, states, events) && k < |states| && i < |b.work| && !states[k].cancelled
    ensures Shaped(b, states[k]) && (AtEnd(states[k].pcs[i]) ==> Ended(events[..k], i).Some?)
    decreases k
  {
    if k > 0 {
      assert StepAt(b, states, events, k - 1);
      UncancelledEnds(b, states, events, k - 1, i);
      assert events[..k][..k - 1] == events[..k - 1];
    }
  }

  /** The lists are shown one after the other, in declaration order. */
  lemma {:induction false} ShownInOrder(a: seq<seq<SubStep>>, c: seq<seq<SubStep>>, x: seq<SubStep>)
    ensures Flat(a + c) == Flat(a) + Flat(c) && Flat([x]) == x
    decreases |a|
  {
    assert Flat([x]) == x + Flat([x][1..]);
    if a == [] {
      assert a + c == c;
    } else {
      assert (a + c)[1..] == a[1..] + c;
      ShownInOrder(a[1..], c, x);
      assert a[0] + (Flat(a[1..]) + Flat(c)) == (a[0] + Flat(a[1..])) + Flat(c);
    }
  }

  // ----- exported variables

  /** The variables after the block: old ones keep their value; a new one has the
      value of the last step that exported it. */
  ghost predicate Merged(before: Vars, results: seq<Result>, after: Vars) {
    && (forall k :: k in before ==> k in after && after[k] == before[k])
    && (forall k :: k in after && k !in before ==> LastExport(results, k, after[k]))
    && (forall k, i :: 0 <= i < |results| && k in results[i].vars ==> k in after)
  }

  ghost predicate LastExport(results: seq<Result>, k: string, v: string) {
    exists i :: IsLastExport(results, k, v, i)
  }

  ghost predicate IsLastExport(results: seq<Result>, k: string, v: string, i: int) {
    && 0 <= i < |results| && k in results[i].vars && results[i].vars[k] == v
    && forall j :: i < j < |results| ==> k !in results[j].vars
  }

  method AddNew(snapshot: Vars, exported: Vars, vars: Vars) returns (r: Vars)
    ensures forall k :: k in r <==> k in exported || (k in vars && k !in snapshot)
    ensures forall k :: k in r ==> r[k] == if k in vars && k !in snapshot then vars[k] else exported[k]
  {
    r := exported;
    var todo := vars.Keys;
    while todo != {}
      invariant todo <= vars.Keys
      invariant forall k :: k in r <==> k in exported || (k in vars && k !in todo && k !in snapshot)
      invariant forall k :: k in r ==> r[k] == if k in vars && k !in todo && k !in snapshot then vars[k]
        else exported[k]
    {
      var k :| k in todo;
      if k !in snapshot { r := r[k := vars[k]]; }
      todo := todo - {k};
    }
  }

  lemma LastExportGrows(results: seq<Result>, n: nat, k: string, v: string)
    requires n < |results|
    ensures k in results[n].vars && results[n].vars[k] == v ==> LastExport(results[..n + 1], k, v)
    ensures k !in results[n].vars && LastExport(results[..n], k, v) ==> LastExport(results[..n + 1], k, v)
  {
    var rs, qs := results[..n], results[..n + 1];
    assert qs[n] == results[n] && forall j :: 0 <= j < n ==> qs[j] == rs[j];
    if k in results[n].vars && results[n].vars[k] == v {
      assert IsLastExport(qs, k, v, n);
    } else if k !in results[n].vars && LastExport(rs, k, v) {
      var i :| IsLastExport(rs, k, v, i);
      assert IsLastExport(qs, k, v, i);
    }
  }

  lemma MergedStep(before: Vars, results: seq<Result>, n: nat, was: Vars, now: Vars)
    requires n < |results| && Merged(before, results[..n], was)
    requires forall k :: k in now <==> k in was || (k in results[n].vars && k !in before)
    requires forall k :: k in now ==> now[k] == if k in results[n].vars && k !in before then results[n].vars[k]
      else was[k]
    ensures Merged(before, results[..n + 1], now)
  {
    hide LastExport;
    var rs, qs := results[..n], results[..n + 1];
    assert qs == rs + [results[n]];
    forall k | k in now && k !in before ensures LastExport(qs, k, now[k]) {
      LastExportGrows(results, n, k, now[k]);
    }
  }

  /** The aggregation after wg.Wait. */
  method Aggregate(snapshot: Vars, results: seq<Result>) returns (anyFailed: bool, exported: Vars)
    ensures anyFailed == AnyFailed(results)
    ensures Merged(snapshot, results, exported)
  {
    anyFailed, exported := false, snapshot;
    for n := 0 to |results|
      invariant anyFailed == AnyFailed(results[..n])
      invariant Merged(snapshot, results[..n], exported)
    {
      var r := results[n];
      ghost var was := anyFailed;
      if r.failed { anyFailed := true; }
      assert results[..n + 1] == results[..n] + [r];
      assert anyFailed == AnyFailed(results[..n + 1]) by {
        if was {
          var i :| 0 <= i < n && results[..n][i].failed;
          assert results[..n + 1][i].failed;
        }
        if r.failed { assert results[..n + 1][n].failed; }
      }
      var next := AddNew(snapshot, exported, r.vars);
      MergedStep(snapshot, results, n, exported, next);
      exported := next;
    }
    assert results[..|results|] == results;
  }

  /** Merged leaves no choice: equal results give equal variables. */
  lemma MergedIsUnique(before: Vars, results: seq<Result>, a: Vars, b: Vars)
    requires Merged(before, results, a) && Merged(before, results, b)
    ensures a == b
  {
    forall k ensures k in a <==> k in b {
      if k in a && k !in before { assert LastExport(results, k, a[k]); }
      if k in b && k !in before { assert LastExport(results, k, b[k]); }
    }
    forall k | k in a ensures a[k] == b[k] {
      if k !in before {
        assert LastExport(results, k, a[k]) && LastExport(results, k, b[k]);
        var i :| IsLastExport(results, k, a[k], i);
        var j :| IsLastExport(results, k, b[k], j);
        assert i == j;
      }
    }
  }

  /** Two schedules of the same block leave the same sub-steps, the same verdict
      and the same exported variables. */
  lemma SchedulesAgree(b: Block, states: seq<State>, events: seq<Event>, states': seq<State>, events': seq<Event>,
                       before: Vars, after: Vars, after': Vars)
    requires Run(b, states, events) && NoCancel(events) && Complete(states[|events|])
    requires Run(b, states', events') && NoCancel(events') && Complete(states'[|events'|])
    requires !b.failFast
    requires Merged(before, states[|events|].results, after) && Merged(before, states'[|events'|].results, after')
    ensures states[|events|].subSteps == states'[|events'|].subSteps && after == after'
    ensures AnyFailed(states[|events|].results) == AnyFailed(states'[|events'|].results)
    ensures |events| == |events'|
  {
    hide Merged, Complete, NoCancel;
    OutcomeIgnoresSchedule(b, states, events);
    OutcomeIgnoresSchedule(b, states', events');
    MergedIsUnique(before, states[|events|].results, after, after');
    CompleteExactlyWhen(b, states, events);
    CompleteExactlyWhen(b, states', events');
  }

  // ----- length of a schedule

  /** Moves a goroutine has made to get where it is. */
  function Moves(w: Behaviour, p: Pc): nat {
    match p
    case Waiting => 0
    case Entered => 1
    case Working(n) => 2 + n
    case Reported => 3 + |w.updates|
    case Leaving => 4 + |w.updates|
    case Finished => 5 + |w.updates|
  }

  ghost function Progress(work: seq<Behaviour>, pcs: seq<Pc>): nat
    requires |work| == |pcs|
  {
    if pcs == [] then 0 else Moves(work[0], pcs[0]) + Progress(work[1..], pcs[1..])
  }

  /** All moves of all goroutines. */
  ghost function TotalMoves(work: seq<Behaviour>): nat {
    if work == [] then 0 else 5 + |work[0].updates| + TotalMoves(work[1..])
  }

  lemma {:induction false} ProgressAfter(work: seq<Behaviour>, pcs: seq<Pc>, i: nat, p: Pc)
    requires |work| == |pcs| && i < |pcs|
    ensures Progress(work, pcs[i := p]) == Progress(work, pcs) - Moves(work[i], pcs[i]) + Moves(work[i], p)
    decreases |pcs|
  {
    if i > 0 {
      assert pcs[i := p][1..] == pcs[1..][i - 1 := p];
      ProgressAfter(work[1..], pcs[1..], i - 1, p);
    } else {
      assert pcs[0 := p][1..] == pcs[1..];
    }
  }

  ghost predicate WithinWork(work: seq<Behaviour>, pcs: seq<Pc>)
    requires |work| == |pcs|
  {
    forall i :: 0 <= i < |pcs| && pcs[i].Working? ==> pcs[i].shown <= |work[i].updates|
  }

  lemma {:induction false} ProgressBounded(work: seq<Behaviour>, pcs: seq<Pc>)
    requires |work| == |pcs| && WithinWork(work, pcs)
    ensures Progress(work, pcs) <= TotalMoves(work)
    ensures Progress(work, pcs) == TotalMoves(work) <==> forall i :: 0 <= i < |pcs| ==> pcs[i] == Finished
    decreases |pcs|
  {
    if pcs != [] {
      ProgressBounded(work[1..], pcs[1..]);
      assert pcs == [pcs[0]] + pcs[1..];
    }
  }

  lemma StepIsOneMove(b: Block, s: State, e: Event)
    requires Shaped(b, s) && Enabled(b, s, e) && !s.cancelled && e != OuterCancel
    ensures Progress(b.work, Step(b, s, e).pcs) == Progress(b.work, s.pcs) + 1
  {
    ProgressAfter(b.work, s.pcs, e.i, Step(b, s, e).pcs[e.i]);
    assert Step(b, s, e).pcs == s.pcs[e.i := Step(b, s, e).pcs[e.i]];
  }

  lemma {:induction false} NoMoves(work: seq<Behaviour>, pcs: seq<Pc>)
    requires |work| == |pcs| && forall i :: 0 <= i < |pcs| ==> pcs[i] == Waiting
    ensures Progress(work, pcs) == 0
    decreases |pcs|
  {
    if pcs != [] { NoMoves(work[1..], pcs[1..]); }
  }

  lemma {:induction false} EveryEventMoves(b: Block, states: seq<State>, events: seq<Event>, k: nat)
    requires Run(b, states, events) && !b.failFast && NoCancel(events) && k < |states|
    ensures Shaped(b, states[k]) && !states[k].cancelled && Progress(b.work, states[k].pcs) == k
    decreases k
  {
    RunsAreSound(b, states, events, k);
    if k == 0 {
      NoMoves(b.work, states[0].pcs);
    } else {
      EveryEventMoves(b, states, events, k - 1);
      assert StepAt(b, states, events, k - 1);
      assert events[k - 1] != OuterCancel;
      StepIsOneMove(b, states[k - 1], events[k - 1]);
    }
  }

  /** Undisturbed schedules all end, and all after the same number of moves: none is
      longer, and one of that length is complete. */
  lemma CompleteExactlyWhen(b: Block, states: seq<State>, events: seq<Event>)
    requires Run(b, states, events) && !b.failFast && NoCancel(events)
    ensures |events| <= TotalMoves(b.work)
    ensures |events| == TotalMoves(b.work) <==> Complete(states[|events|])
  {
    EveryEventMoves(b, states, events, |events|);
    RunsAreSound(b, states, events, |events|);
    ProgressBounded(b.work, states[|events|].pcs);
  }
}
