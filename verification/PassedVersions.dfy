/** Choosing the versions a job may use (checkPassedConstraints,
    worker/service.go:584-659): the newest one that every upstream job has used
    successfully. */
module PassedVersions {
  import opened Reachability

  datatype StepRecord = StepRecord(kind: string, name: string, version: nat)
  datatype BuildStatus = Succeeded | Warning | Unsuccessful
  datatype BuildRecord = BuildRecord(status: BuildStatus, steps: seq<StepRecord>)

  type History = map<string, seq<BuildRecord>>   // a job that is not there cannot be listed

  datatype Constraint = Constraint(step: string, resource: string, passed: seq<string>)

  datatype Outcome = Run(versions: map<string, nat>) | Refused(at: nat) | ListFailed(at: nat)

  predicate Counts(r: StepRecord, step: string) {
    (r.kind == "get" || r.kind == "put") && r.name == step && r.version != 0
  }

  /** The versions a job's successful builds fetched or produced under a step name. */
  ghost predicate Used(builds: seq<BuildRecord>, step: string, v: nat) {
    v != 0 && exists b :: b in builds && Records(b, step, v)
  }

  /** A build that succeeded, be it with a warning, and has a get or put of the version. */
  ghost predicate Records(b: BuildRecord, step: string, v: nat) {
    && (b.status == Succeeded || b.status == Warning)
    && (StepRecord("get", step, v) in b.steps || StepRecord("put", step, v) in b.steps)
  }

  ghost predicate Listed(h: History, jobs: seq<Job>, c: Constraint) {
    forall n :: Means(jobs, c.passed, n) ==> n in h
  }

  /** Every upstream job has used version `v`. */
  ghost predicate Common(h: History, jobs: seq<Job>, c: Constraint, v: nat) {
    forall n :: Means(jobs, c.passed, n) ==> n in h && Used(h[n], c.step, v)
  }

  ghost predicate Newest(h: History, jobs: seq<Job>, c: Constraint, v: nat) {
    Common(h, jobs, c, v) && forall w: nat :: Common(h, jobs, c, w) ==> w <= v
  }

  ghost predicate Satisfiable(h: History, jobs: seq<Job>, c: Constraint) {
    c.passed != [] ==> Listed(h, jobs, c) && exists v :: Common(h, jobs, c, v)
  }

  lemma PassedMeansSomething(jobs: seq<Job>, passed: seq<string>)
    requires passed != []
    ensures exists n :: Means(jobs, passed, n)
  {
    var p := passed[0];
    if IsGroup(jobs, p) {
      var j :| j in jobs && j.group == p;
      assert InGroup(jobs, p, j.name);
      assert Means(jobs, passed, j.name);
    } else {
      assert Means(jobs, passed, p);
    }
  }

  method VersionsIn(steps: seq<StepRecord>, step: string) returns (vs: set<nat>)
    ensures forall v :: v in vs <==> exists r :: r in steps && Counts(r, step) && r.version == v
  {
    vs := {};
    for i := 0 to |steps|
      invariant forall v :: v in vs <==> exists r :: r in steps[..i] && Counts(r, step) && r.version == v
    {
      assert steps[..i + 1] == steps[..i] + [steps[i]];
      if Counts(steps[i], step) { vs := vs + {steps[i].version}; }
    }
    assert steps[..|steps|] == steps;
  }

  method VersionsOf(builds: seq<BuildRecord>, step: string) returns (vs: set<nat>)
    ensures forall v :: v in vs <==> Used(builds, step, v)
  {
    vs := {};
    for i := 0 to |builds|
      invariant forall v :: v in vs <==> Used(builds[..i], step, v)
    {
      var b := builds[i];
      assert builds[..i + 1] == builds[..i] + [b];
      if b.status != Unsuccessful {
        var more := VersionsIn(b.steps, step);
        UsedGrows(builds, i, step, more);
        vs := vs + more;
      } else {
        UsedGrows(builds, i, step, {});
      }
    }
    assert builds[..|builds|] == builds;
  }

  lemma UsedGrows(builds: seq<BuildRecord>, i: nat, step: string, more: set<nat>)
    requires i < |builds|
    requires forall v :: v in more <==>
      builds[i].status != Unsuccessful && exists r :: r in builds[i].steps && Counts(r, step) && r.version == v
    ensures forall v :: Used(builds[..i + 1], step, v) <==> Used(builds[..i], step, v) || v in more
  {
    assert builds[..i + 1] == builds[..i] + [builds[i]];
    forall v ensures Used(builds[..i + 1], step, v) <==> Used(builds[..i], step, v) || v in more {
      assert v in more <==> v != 0 && Records(builds[i], step, v) by { RecordsIs(builds[i], step, v); }
      hide Records;
    }
  }

  lemma RecordsIs(b: BuildRecord, step: string, v: nat)
    ensures v != 0 && Records(b, step, v) <==>
      b.status != Unsuccessful && exists r :: r in b.steps && Counts(r, step) && r.version == v
  {
    if v != 0 && StepRecord("get", step, v) in b.steps { assert Counts(StepRecord("get", step, v), step); }
    if v != 0 && StepRecord("put", step, v) in b.steps { assert Counts(StepRecord("put", step, v), step); }
  }

  method Best(vs: set<nat>) returns (best: nat)
    requires vs != {}
    ensures best in vs && forall v :: v in vs ==> v <= best
  {
    best :| best in vs;
    var rest := vs;
    while rest != {}
      invariant rest <= vs && best in vs && forall v :: v in vs && v !in rest ==> v <= best
    {
      var v :| v in rest;
      if v > best { best := v; }
      rest := rest - {v};
    }
  }

  /** The versions common to all upstream jobs of one get step. */
  method CommonVersions(h: History, jobs: seq<Job>, c: Constraint) returns (listed: bool, vs: set<nat>)
    requires c.passed != []
    ensures listed <==> Listed(h, jobs, c)
    ensures listed ==> forall v :: v in vs <==> Common(h, jobs, c, v)
  {
    hide Used, Means, Expansion;
    var expanded := ResolvePassedJobNames(c.passed, jobs);
    PassedMeansSomething(jobs, c.passed);
    vs := {};
    var first := true;
    for i := 0 to |expanded|
      invariant first <==> i == 0
      invariant forall k :: 0 <= k < i ==> expanded[k] in h
      invariant !first ==> forall v :: v in vs <==> forall k :: 0 <= k < i ==> Used(h[expanded[k]], c.step, v)
    {
      var p := expanded[i];
      if p !in h {
        assert p in expanded;
        return false, {};
      }
      var here := VersionsOf(h[p], c.step);
      if first { vs, first := here, false; } else { vs := vs * here; }
    }
    forall v ensures v in vs <==> Common(h, jobs, c, v) {
      if Common(h, jobs, c, v) {
        forall k | 0 <= k < |expanded| ensures Used(h[expanded[k]], c.step, v) { assert expanded[k] in expanded; }
      }
    }
    listed := true;
  }

  /** Among the first n get steps, step i is the last that constrains its resource. */
  ghost predicate LastFor(cs: seq<Constraint>, n: nat, i: int) {
    && 0 <= i < n <= |cs| && cs[i].passed != []
    && forall k :: i < k < n && cs[k].passed != [] ==> cs[k].resource != cs[i].resource
  }

  /** `m` holds, for each resource constrained so far, the newest common version of
      the last get step that constrains it. */
  ghost predicate Chosen(h: History, jobs: seq<Job>, cs: seq<Constraint>, n: nat, m: map<string, nat>) {
    && (forall r :: r in m ==> exists i :: LastFor(cs, n, i) && 0 <= i < |cs| && cs[i].resource == r)
    && (forall i :: LastFor(cs, n, i) && 0 <= i < |cs| ==>
          cs[i].resource in m && Newest(h, jobs, cs[i], m[cs[i].resource]))
  }

  lemma LastForGrows(cs: seq<Constraint>, n: nat, i: int)
    requires n < |cs|
    ensures LastFor(cs, n + 1, i) <==>
      if i == n then cs[n].passed != []
      else LastFor(cs, n, i) && 0 <= i < |cs| && (cs[n].passed == [] || cs[n].resource != cs[i].resource)
  {
  }

  lemma ChosenGrows(h: History, jobs: seq<Job>, cs: seq<Constraint>, n: nat, m: map<string, nat>, best: nat)
    requires n < |cs| && Chosen(h, jobs, cs, n, m) && cs[n].passed != [] && Newest(h, jobs, cs[n], best)
    ensures Chosen(h, jobs, cs, n + 1, m[cs[n].resource := best])
  {
    hide Newest, LastFor;
    var now := m[cs[n].resource := best];
    forall i { LastForGrows(cs, n, i); }
    forall r | r in now ensures exists i :: LastFor(cs, n + 1, i) && 0 <= i < |cs| && cs[i].resource == r {
      if r != cs[n].resource {
        var i :| LastFor(cs, n, i) && 0 <= i < |cs| && cs[i].resource == r;
        assert LastFor(cs, n + 1, i);
      } else {
        assert LastFor(cs, n + 1, n);
      }
    }
  }

  lemma ChosenSkips(h: History, jobs: seq<Job>, cs: seq<Constraint>, n: nat, m: map<string, nat>)
    requires n < |cs| && Chosen(h, jobs, cs, n, m) && cs[n].passed == []
    ensures Chosen(h, jobs, cs, n + 1, m)
  {
    hide Newest;
    forall i ensures LastFor(cs, n + 1, i) <==> LastFor(cs, n, i) { LastForGrows(cs, n, i); }
  }

  /** The job runs exactly when every constraint can be met, with the newest common
      version of each resource; otherwise the first constraint that fails decides. */
  method CheckPassedConstraints(h: History, jobs: seq<Job>, cs: seq<Constraint>) returns (r: Outcome)
    ensures r.Run? <==> forall i :: 0 <= i < |cs| ==> Satisfiable(h, jobs, cs[i])
    ensures r.Run? ==> Chosen(h, jobs, cs, |cs|, r.versions)
    ensures !r.Run? ==> r.at < |cs| && cs[r.at].passed != []
    ensures !r.Run? ==> forall k :: 0 <= k < r.at && k < |cs| ==> Satisfiable(h, jobs, cs[k])
    ensures r.ListFailed? ==> !Listed(h, jobs, cs[r.at])
    ensures r.Refused? ==> Listed(h, jobs, cs[r.at]) && forall v :: !Common(h, jobs, cs[r.at], v)
  {
    hide Chosen, Common, Listed;
    var m: map<string, nat> := map[];
    NothingChosen(h, jobs, cs);
    for i := 0 to |cs|
      invariant forall k :: 0 <= k < i ==> Satisfiable(h, jobs, cs[k])
      invariant Chosen(h, jobs, cs, i, m)
    {
      var c := cs[i];
      if c.passed == [] {
        ChosenSkips(h, jobs, cs, i, m);
      } else {
        var listed, vs := CommonVersions(h, jobs, c);
        if !listed { return ListFailed(i); }
        if vs == {} { return Refused(i); }
        var best := Best(vs);
        assert Common(h, jobs, c, best);
        ChosenGrows(h, jobs, cs, i, m, best);
        m := m[c.resource := best];
      }
    }
    return Run(m);
  }

  lemma NothingChosen(h: History, jobs: seq<Job>, cs: seq<Constraint>)
    ensures Chosen(h, jobs, cs, 0, map[])
  {
  }
}
