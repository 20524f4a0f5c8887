/** Jobs and the processes assigned to them. Jobs become children of one another as processes are
    moved into them; each keeps counts for the whole tree below it. */
module JobForest {
  import opened Common

  class Job {
    var parent: Job?
    var children: seq<Job>
    var processes: seq<Process>
    var numProcesses: nat
    var totalProcesses: nat
    var refs: nat

    ghost var above: set<Job>     // the job itself and every job its parent links lead to
    ghost var others: nat         // references held by anyone but processes and child jobs

    constructor ()
      ensures parent == null && children == [] && processes == [] && numProcesses == totalProcesses == 0
      ensures refs == others == 1 && above == {this}
    {
      parent, children, processes := null, [], [];
      numProcesses, totalProcesses, refs := 0, 0, 1;
      above, others := {this}, 1;
    }
  }

  class Process {
    const id: nat
    var job: Job?
    var endTime: nat              // 0 while it lives

    constructor (id: nat)
      ensures this.id == id && job == null && endTime == 0
    {
      this.id := id;
      job, endTime := null, 0;
    }
  }

  lemma OneMore<T>(a: set<T>, x: T, more: bool)
    ensures |a + (if more then {x} else {})| == |a| + (if more && x !in a then 1 else 0)
  {
    if more && x !in a {
      assert a * {x} == {};
    } else {
      assert a + (if more then {x} else {}) == a;
    }
  }

  lemma OneLess<T>(a: set<T>, x: T)
    ensures |a - {x}| == |a| - (if x in a then 1 else 0)
  {
    if x !in a { assert a - {x} == a; }
  }

  // ---- lists of processes ------------------------------------------------------------------

  /** The processes of a list that have not ended. */
  ghost function Unended(ps: seq<Process>): seq<Process>
    reads ps
  {
    if ps == [] then []
    else
      var last := ps[|ps| - 1];
      Unended(ps[..|ps| - 1]) + (if last.endTime == 0 then [last] else [])
  }

  lemma {:induction false} UnendedExact(ps: seq<Process>)
    requires Distinct(ps)
    ensures Enumerates(Unended(ps), set p | p in ps && p.endTime == 0)
  {
    if ps != [] {
      var init, last := ps[..|ps| - 1], ps[|ps| - 1];
      UnendedExact(init);
      var own, now := (set p | p in init && p.endTime == 0), if last.endTime == 0 then {last} else {};
      EnumeratesConcat(Unended(init), if last.endTime == 0 then [last] else [], own, now);
      assert own + now == set p | p in ps && p.endTime == 0;
    }
  }

  ghost function Ids(ps: seq<Process>): seq<nat> { seq(|ps|, i requires 0 <= i < |ps| => ps[i].id) }

  ghost function Upto(s: seq<nat>, end: nat): seq<nat> { if |s| <= end then s else s[..end] }

  /** Appends the ids of the living ones of some processes, as far as there is room. */
  method GetOwnPids(ps: seq<Process>, pids: seq<nat>, end: nat) returns (r: seq<nat>)
    requires |pids| <= end
    ensures |r| <= end && r == Upto(pids + Ids(Unended(ps)), end)
  {
    assert Ids(Unended(ps[..0])) == [];
    hide Unended, Ids, Upto;
    var i := 0;
    r := pids;
    while i < |ps| && |r| != end
      invariant i <= |ps| && |r| <= end && r == pids + Ids(Unended(ps[..i]))
    {
      IdsMore(ps, i);
      if ps[i].endTime == 0 { r := r + [ps[i].id]; }
      i := i + 1;
    }
    IdsUpto(ps, i, pids, end);
  }

  /** All ids are listed, or as many as there is room for. */
  lemma IdsUpto(ps: seq<Process>, i: nat, pids: seq<nat>, end: nat)
    requires i <= |ps| && (i == |ps| || |pids| + |Ids(Unended(ps[..i]))| == end)
    requires |pids| + |Ids(Unended(ps[..i]))| <= end
    ensures pids + Ids(Unended(ps[..i])) == Upto(pids + Ids(Unended(ps)), end)
  {
    UnendedPrefix(ps, i);
    assert ps[..|ps|] == ps;
    hide Unended;
  }

  lemma IdsMore(ps: seq<Process>, i: nat)
    requires i < |ps|
    ensures Ids(Unended(ps[..i + 1])) == Ids(Unended(ps[..i])) + (if ps[i].endTime == 0 then [ps[i].id] else [])
  {
    assert ps[..i + 1][..i] == ps[..i];
  }

  lemma {:induction false} UnendedPrefix(ps: seq<Process>, i: nat)
    requires i <= |ps|
    ensures Unended(ps[..i]) <= Unended(ps)
  {
    if i < |ps| {
      assert ps[..|ps| - 1][..i] == ps[..i];
      UnendedPrefix(ps[..|ps| - 1], i);
    } else {
      assert ps[..i] == ps;
    }
  }

  lemma UptoMore(a: seq<nat>, b: seq<nat>, c: seq<nat>, end: nat)
    ensures Upto(Upto(a + b, end) + c, end) == Upto(a + (b + c), end)
  {
  }

  class Server {
    ghost var jobs: set<Job>
    ghost var processes: set<Process>

    /** What every operation keeps. */
    ghost predicate Sound()
      reads this, jobs, processes
    {
      Forest() && Listed() && Busy() && Held() && Alive()
    }

    /** And the counts are right, as they are unless a process has gone uncounted or ended twice. */
    ghost predicate Valid()
      reads this, jobs, processes
    {
      Sound() && Counted()
    }

    /** Parent links never lead back. */
    ghost predicate Forest()
      reads this`jobs, jobs`parent, jobs`above
    {
      forall j :: j in jobs ==>
        && j in j.above && j.above <= jobs
        && if j.parent == null then j.above == {j}
           else j.parent in jobs && j !in j.parent.above && j.above == {j} + j.parent.above
    }

    /** The lists of a job hold exactly the jobs and processes whose links lead to it, each once. */
    ghost predicate Listed()
      reads this, jobs`parent, jobs`children, jobs`processes, processes`job
    {
      && (forall j :: j in jobs ==> Distinct(j.children) && Distinct(j.processes))
      && (forall j, c :: j in jobs && c in j.children ==> c in jobs && c.parent == j)
      && (forall j, p :: j in jobs && p in j.processes ==> p in processes && p.job == j)
      && (forall c :: c in jobs && c.parent != null ==> c.parent in jobs && c in c.parent.children)
      && (forall p :: p in processes && p.job != null ==> p.job in jobs && p in p.job.processes)
    }

    /** A job that has anything below it has counted a process. */
    ghost predicate Busy()
      reads this`jobs, jobs`children, jobs`processes, jobs`totalProcesses
    {
      forall j :: j in jobs && (j.children != [] || j.processes != []) ==> 0 < j.totalProcesses
    }

    /** The living processes of a job and of all jobs below it. */
    ghost function Under(j: Job): set<Process>
      reads this, processes`job, processes`endTime, jobs`above
    {
      set p | p in processes && p.job != null && p.job in jobs && j in p.job.above && p.endTime == 0
    }

    ghost predicate Counted()
      reads this, processes`job, processes`endTime, jobs`above, jobs`numProcesses
    {
      forall j :: j in jobs ==> j.numProcesses == |Under(j)|
    }

    /** By how much a count is too high. */
    ghost function Excess(j: Job): int
      reads this, processes`job, processes`endTime, jobs`above, j`numProcesses
    {
      j.numProcesses - |Under(j)|
    }

    lemma CountedIff()
      ensures Counted() <==> forall j :: j in jobs ==> Excess(j) == 0
    {
    }

    /** References: one for each listed process and child, on top of those held elsewhere. */
    ghost predicate Held()
      reads this`jobs, jobs`refs, jobs`others, jobs`children, jobs`processes
    {
      forall j :: j in jobs ==> j.refs == j.others + |j.children| + |j.processes|
    }

    ghost predicate Alive()
      reads this`jobs, jobs`refs
    {
      forall j :: j in jobs ==> 0 < j.refs
    }

    constructor ()
      ensures Valid() && jobs == {} && processes == {}
    {
      jobs, processes := {}, {};
    }

    // ---- the shape of the forest -------------------------------------------------------------

    /** Whatever lies below a job does so through one of its children. */
    lemma ChildOnPath(j: Job, k: Job) returns (c: Job)
      requires Forest() && Listed() && k in jobs && j in k.above && j != k
      ensures c in j.children && c in jobs && c in k.above && c.parent == j
      decreases k.above
    {
      if k.parent == j { c := k; } else { c := ChildOnPath(j, k.parent); }
    }

    /** The children of a job have nothing in common. */
    lemma {:induction false} ChildrenApart(c: Job, d: Job, k: Job)
      requires Forest() && k in jobs && c in k.above && d in k.above
      requires c.parent != null && c.parent == d.parent && c in jobs && d in jobs
      ensures c == d
      decreases k.above
    {
      if k != c && k != d { ChildrenApart(c, d, k.parent); }
    }

    /** Looks for a job among the ancestors of another. */
    method InChain(job: Job, wanted: Job) returns (found: bool)
      requires Forest() && job in jobs && job.parent != null && wanted in jobs
      ensures found == (wanted in job.parent.above)
    {
      var j := job.parent;
      while j != null && j != wanted
        invariant if j == null then wanted !in job.parent.above
                  else j in jobs && (wanted in j.above <==> wanted in job.parent.above)
        decreases if j == null then {} else j.above
      {
        j := j.parent;
      }
      found := j == wanted;
    }

    // ---- assigning a process -----------------------------------------------------------------

    /** Why a process may not be assigned to a job: it is in another one already, and that is not an
        ancestor of the job, nor can the job become its child because it has been used before. */
    ghost predicate Denied(job: Job, p: Process)
      requires Forest() && Listed() && job in jobs && p in processes
      reads this, jobs`parent, jobs`above, jobs`children, jobs`processes, jobs`totalProcesses, processes`job
    {
      p.job != null && p.job != job && if job.parent != null then p.job !in job.parent.above else 0 < job.totalProcesses
    }

    /** Makes an unused job a child. */
    method Attach(job: Job, parent: Job)
      requires Forest() && Listed() && job in jobs && parent in jobs && job != parent
      requires job.parent == null && job.children == []
      modifies job`parent, job`above, parent`children
      ensures Forest() && Listed()
      ensures job.parent == parent && job.above == {job} + parent.above
              && parent.children == old(parent.children) + [job]
    {
      hide Forest, Listed;
      NoneBelow(job);
      LinkChild(job, parent);
      job.above := {job} + parent.above;
      ForestMore(job);
    }

    method LinkChild(job: Job, parent: Job)
      requires Listed() && job in jobs && parent in jobs && job != parent && job.parent == null
      modifies job`parent, parent`children
      ensures Listed() && job.parent == parent && parent.children == old(parent.children) + [job]
    {
      hide Distinct;
      assert job !in parent.children;
      DistinctMore(parent.children, job);
      job.parent := parent;
      parent.children := parent.children + [job];
    }

    twostate lemma ForestMore(job: Job)
      requires old(Forest()) && jobs == old(jobs) && job in jobs && old(job.parent) == null
      requires job.parent != null && job.parent in jobs && job.parent != job && job.above == {job} + job.parent.above
      requires forall k :: k in jobs && k != job ==>
                job !in k.above && k.parent == old(k.parent) && k.above == old(k.above)
      ensures Forest()
    {
    }

    /** Takes a process off the list of its job. */
    method Unlist(p: Process)
      requires Listed() && p in processes && p.job != null
      modifies p`job, p.job`processes
      ensures Listed() && p.job == null && old(p.job).processes == Remove(old(p.job.processes), p)
      ensures |old(p.job).processes| == |old(p.job.processes)| - 1
    {
      var job := p.job;
      RemoveElements(job.processes, p);
      job.processes := Remove(job.processes, p);
      p.job := null;
    }

    method Enlist(job: Job, p: Process)
      requires Listed() && p in processes && p.job == null && job in jobs
      modifies p`job, job`processes
      ensures Listed() && p.job == job && job.processes == old(job.processes) + [p]
    {
      hide Distinct;
      assert p !in job.processes;
      DistinctMore(job.processes, p);
      p.job := job;
      job.processes := job.processes + [p];
    }

    /** Takes a process out of its job so that it can go to another, which for that may become a child
        of its job. */
    method LeaveJob(job: Job, p: Process) returns (denied: bool)
      requires Forest() && Listed() && Busy() && Held() && Alive()
      requires job in jobs && p in processes && p.job != null && p.job != job
      modifies job`parent, job`above, p`job, p.job`children, p.job`processes, p.job`refs
      ensures denied == old(Denied(job, p))
      ensures denied ==> unchanged(job, p, old(p.job))
      ensures !denied ==> Forest() && Listed() && Busy() && Held() && Alive() && p.job == null
      ensures !denied ==> old(p.job) in job.above && old(p.job).above == old(p.job.above)
      ensures !denied && old(job.parent) == null ==>
                job.parent == old(p.job) && job.processes == [] && forall k :: k in jobs && job in k.above ==> k == job
      ensures !denied && old(job.parent) != null ==> job.parent == old(job.parent) && job.above == old(job.above)
    {
      var common := p.job;
      if job.parent != null {
        var found := InChain(job, common);
        if !found { return true; }
        Descend(job, p);
      } else {
        if job.totalProcesses != 0 { return true; }
        forall k | k in jobs && job in k.above ensures k == job {
          if k != job { var c := ChildOnPath(job, k); }
        }
        Adopt(job, p);
      }
      return false;
    }

    /** The process goes from an ancestor of the job: the ancestor loses a reference, not its last. */
    method Descend(job: Job, p: Process)
      requires Forest() && Listed() && Busy() && Held() && Alive()
      requires job in jobs && p in processes && p.job != null && p.job != job && p.job in job.above
      modifies p`job, p.job`processes, p.job`refs
      ensures Listed() && Busy() && Held() && Alive() && p.job == null
    {
      hide Forest, Listed, Busy, Held, Alive, Distinct;
      var common := p.job;
      Lends(job, p);
      common.refs := common.refs - 1;
      Unlist(p);
      Lent(p);
    }

    lemma Lends(job: Job, p: Process)
      requires Forest() && Listed() && Busy() && Held()
      requires job in jobs && p in processes && p.job != null && p.job != job && p.job in job.above
      ensures p.job in jobs && 2 <= p.job.refs && 0 < p.job.totalProcesses
    {
      var c := ChildOnPath(p.job, job);
      assert p in p.job.processes;
    }

    /** The job of a process has lost the process and the reference for it. */
    twostate lemma Lent(p: Process)
      requires old(Busy() && Held() && Alive()) && jobs == old(jobs) && old(p.job) != null && old(p.job) in jobs
      requires old(2 <= p.job.refs && 0 < p.job.totalProcesses)
      requires old(p.job).refs == old(p.job.refs) - 1 && |old(p.job).processes| == |old(p.job.processes)| - 1
      requires forall j :: j in jobs ==>
                 && j.children == old(j.children) && j.others == old(j.others)
                 && j.totalProcesses == old(j.totalProcesses)
                 && (j != old(p.job) ==> j.processes == old(j.processes) && j.refs == old(j.refs))
      ensures Busy() && Held() && Alive()
    {
    }

    /** The job becomes a child of the process's job, and takes over the reference the process held. */
    method Adopt(job: Job, p: Process)
      requires Forest() && Listed() && Busy() && Held() && Alive()
      requires job in jobs && p in processes && p.job != null && p.job != job && job.parent == null
               && job.totalProcesses == 0
      modifies job`parent, job`above, p`job, p.job`children, p.job`processes
      ensures Forest() && Listed() && Busy() && Held() && Alive() && p.job == null
      ensures job.parent == old(p.job) && job.above == {job} + old(p.job).above
      ensures job.processes == []
    {
      hide Distinct;
      var common := p.job;
      assert p in common.processes;
      Attach(job, common);
      Unlist(p);
    }

    /** Counts one more process in a job and its ancestors up to, not including, one of them. */
    method CountUp(job: Job, stop: Job?)
      requires Forest() && job in jobs && (stop == null || (stop in job.above && job !in stop.above)) && BusyBut(job)
      modifies jobs`numProcesses, jobs`totalProcesses
      ensures forall j :: j in jobs ==>
                && j.numProcesses == old(j.numProcesses) + (if Between(job, stop, j) then 1 else 0)
                && j.totalProcesses == old(j.totalProcesses) + (if Between(job, stop, j) then 1 else 0)
      ensures Busy()
    {
      var j := job;
      ghost var rest := job.above;
      while j != stop
        invariant j == null || j in jobs
        invariant rest == (if j == null then {} else j.above) && rest <= job.above
        invariant stop != null ==> j != null && stop in j.above
        invariant forall k :: k in jobs ==>
                    && k.numProcesses == old(k.numProcesses) + (if k in job.above - rest then 1 else 0)
                    && k.totalProcesses == old(k.totalProcesses) + (if k in job.above - rest then 1 else 0)
        decreases rest
      {
        j.numProcesses := j.numProcesses + 1;
        j.totalProcesses := j.totalProcesses + 1;
        j := j.parent;
        rest := if j == null then {} else j.above;
      }
    }

    /** j lies on the way up from a job, below where to stop. */
    ghost predicate Between(job: Job, stop: Job?, j: Job)
      reads job`above, if stop == null then {} else {stop}
    {
      j in job.above && (stop == null || j !in stop.above)
    }

    lemma {:induction false} AboveAbove(c: Job, j: Job)
      requires Forest() && j in jobs && c in j.above
      ensures c in jobs && c.above <= j.above && (c != j ==> j !in c.above)
      decreases j.above
    {
      if c != j { AboveAbove(c, j.parent); }
    }

    ghost predicate BusyBut(job: Job)
      reads this`jobs, jobs`children, jobs`processes, jobs`totalProcesses
    {
      forall j :: j in jobs && j != job && (j.children != [] || j.processes != []) ==> 0 < j.totalProcesses
    }

    /** A process arrives in a job, which now has a reference for it. */
    method Arrive(job: Job, p: Process)
      requires Listed() && Held() && Alive() && Busy() && p in processes && p.job == null && job in jobs
      modifies p`job, job`processes, job`refs
      ensures Listed() && Held() && Alive() && BusyBut(job) && p.job == job && job.processes == old(job.processes) + [p]
    {
      hide Listed;
      job.refs := job.refs + 1;
      Enlist(job, p);
    }

    /** The process is where it should be, but not counted yet. */
    method Relocate(job: Job, p: Process) returns (denied: bool)
      requires Forest() && Listed() && Busy() && Held() && Alive()
      requires job in jobs && p in processes && job != p.job
      modifies jobs`parent, jobs`above, jobs`children, jobs`processes, jobs`refs, p`job
      ensures denied == old(Denied(job, p))
      ensures denied ==> (forall j :: j in jobs ==> unchanged(j)) && unchanged(p)
      ensures !denied ==> Forest() && Listed() && BusyBut(job) && Held() && Alive() && p.job == job
      ensures !denied && old(p.job) != null ==>
                old(p.job) in job.above && old(p.job) in jobs && old(p.job).above == old(p.job.above)
      ensures !denied ==> forall j :: j in jobs ==>
                Under(j) == old(Under(j)) + (if j in job.above && p.endTime == 0 then {p} else {})
                && j.parent == if j == job && old(Adopts(job, p)) then old(p.job) else old(j.parent)
    {
      hide Forest, Busy, BusyBut, Held, Alive, Distinct, Under;
      if p.job != null {
        denied := LeaveJob(job, p);
        if denied { return true; }
        AboveAbove(old(p.job), job);
      }
      Arrive(job, p);
      UnderMoved(p);
      denied := false;
    }

    twostate lemma UnderMoved(p: Process)
      requires Listed() && jobs == old(jobs) && processes == old(processes) && p in processes && p.job != null
               && p.job in jobs
      requires forall q :: q in processes ==> q.endTime == old(q.endTime) && (q != p ==> q.job == old(q.job))
      requires forall j :: j in jobs && j != p.job ==> j.above == old(j.above)
      requires var job := p.job; job.above == old(job.above) || job.processes == [p]
      requires old(p.job) != null ==> old(p.job) in jobs && old(p.job.above) <= p.job.above
      ensures forall j :: j in jobs ==>
                Under(j) == old(Under(j)) + (if j in p.job.above && p.endTime == 0 then {p} else {})
    {
      forall j, q | j in jobs && q in processes && q != p ensures q in Under(j) <==> q in old(Under(j)) {}
    }

    /** Assigns a process to a job. A living process is then counted there and in every ancestor, once: the
        counts of those it was counted in already stay. One that has ended before makes the counts it
        is new to one too high. */
    method AddJobProcess(job: Job, p: Process) returns (denied: bool)
      requires Sound() && job in jobs && p in processes
      modifies jobs`parent, jobs`above, jobs`children, jobs`processes, jobs`refs, jobs`numProcesses,
               jobs`totalProcesses, p`job
      ensures Sound()
      // in another job, and neither from an ancestor nor into a job that is free to become its child
      ensures denied <==> old(p.job != null && p.job != job
                              && if job.parent != null then p.job !in job.parent.above else job.totalProcesses != 0)
      ensures denied ==> (forall j :: j in jobs ==> unchanged(j)) && unchanged(p)
      ensures !denied ==> p.job == job
      ensures !denied ==> forall j :: j in jobs ==>
                && Under(j) == old(Under(j)) + (if j in job.above && p.endTime == 0 then {p} else {})
                && j.totalProcesses == old(j.totalProcesses)
                                       + (if j in job.above && !old(InLine(p.job, j)) then 1 else 0)
                && Excess(j) == old(Excess(j))
                                + (if j in job.above && !old(InLine(p.job, j)) && p.endTime != 0 then 1 else 0)
                && j.parent == if j == job && old(job.parent == null && p.job != null && p.job != job) then old(p.job)
                               else old(j.parent)
      ensures old(Counted()) && (denied || p.endTime == 0) ==> Counted()
    {
      hide Forest, Listed, Busy, Held, Alive, Under, Counted, Excess, InLine;
      WhereCounted(p);
      if job == p.job {
        AtHome(p);
        SameUnder(p);
        SameExcess();
        return false;
      }
      denied := Move(job, p);
      if denied {
        SameExcess();
      } else {
        Recounted(p);
        if p.endTime == 0 { StaysCounted(); }
      }
    }

    /** Assigns a process to a job it is not in, and counts it where it is new. */
    method Move(job: Job, p: Process) returns (denied: bool)
      requires Sound() && job in jobs && p in processes && job != p.job
      modifies jobs`parent, jobs`above, jobs`children, jobs`processes, jobs`refs, jobs`numProcesses,
               jobs`totalProcesses, p`job
      ensures Sound() && denied == old(Denied(job, p))
      ensures denied ==> (forall j :: j in jobs ==> unchanged(j)) && unchanged(p)
      ensures !denied ==> p.job == job
      ensures !denied ==> forall j :: j in jobs ==>
                && Under(j) == old(Under(j)) + (if j in job.above && p.endTime == 0 then {p} else {})
                && j.numProcesses == old(j.numProcesses) + (if j in job.above && !old(InLine(p.job, j)) then 1 else 0)
                && j.totalProcesses == old(j.totalProcesses)
                                       + (if j in job.above && !old(InLine(p.job, j)) then 1 else 0)
                && j.parent == if j == job && old(Adopts(job, p)) then old(p.job) else old(j.parent)
    {
      hide Forest, Listed, Busy, BusyBut, Held, Alive, Under, Adopts, Denied;
      var common := p.job;
      denied := Relocate(job, p);
      if denied { return true; }
      if common != null { AboveAbove(common, job); }
      CountUp(job, common);
      denied := false;
    }

    lemma AtHome(p: Process)
      requires Forest() && Listed() && p in processes && p.job != null
      ensures !Denied(p.job, p) && forall j :: j in jobs ==> (InLine(p.job, j) <==> j in p.job.above)
    {
    }

    lemma SameUnder(p: Process)
      requires forall j :: j in jobs ==> (p in Under(j) <==> p.endTime == 0 && InLine(p.job, j))
      ensures forall j :: j in jobs ==> Under(j) == Under(j) + (if InLine(p.job, j) && p.endTime == 0 then {p} else {})
    {
      hide Under;
    }

    twostate lemma SameExcess()
      requires jobs == old(jobs) && processes == old(processes)
      requires forall j :: j in jobs ==> unchanged(j)
      requires forall q :: q in processes ==> unchanged(q)
      ensures Counted() <==> old(Counted())
      ensures forall j :: j in jobs ==> Excess(j) == old(Excess(j))
    {
      forall j | j in jobs ensures Under(j) == old(Under(j)) {}
    }

    twostate lemma StaysCounted()
      requires jobs <= old(jobs) && forall j :: j in jobs ==> Excess(j) == old(Excess(j))
      ensures old(Counted()) ==> Counted()
    {
      hide Under;
      if old(Counted()) {
        forall j | j in jobs ensures Excess(j) == 0 { assert old(Excess(j)) == 0; }
      }
    }

    /** Counts that went up where the process was not counted before are as right as they were. */
    twostate lemma Recounted(p: Process)
      requires jobs == old(jobs) && p.job != null
      requires forall j :: j in jobs ==>
                && (p in old(Under(j)) <==> old(p.endTime == 0 && InLine(p.job, j)))
                && Under(j) == old(Under(j)) + (if j in p.job.above && p.endTime == 0 then {p} else {})
                && j.numProcesses == old(j.numProcesses)
                                     + (if j in p.job.above && !old(InLine(p.job, j)) then 1 else 0)
      requires p.endTime == old(p.endTime)
      ensures forall j :: j in jobs ==>
                Excess(j) == old(Excess(j))
                             + (if j in p.job.above && !old(InLine(p.job, j)) && p.endTime != 0 then 1 else 0)
    {
      hide Under, InLine;
      forall j | j in jobs
        ensures Excess(j) == old(Excess(j))
                             + (if j in p.job.above && !old(InLine(p.job, j)) && p.endTime != 0 then 1 else 0)
      {
        OneMore(old(Under(j)), p, j in p.job.above && p.endTime == 0);
      }
    }

    /** The job will become a child of the process's job. */
    ghost predicate Adopts(job: Job, p: Process)
      reads job`parent, p`job
    {
      job.parent == null && p.job != null && p.job != job
    }

    /** A living process is counted in its job and the ancestors of that. */
    lemma WhereCounted(p: Process)
      requires Forest() && Listed() && p in processes
      ensures p.job != null ==> p.job in jobs && p.job.above <= jobs
      ensures forall j :: j in jobs ==> (p in Under(j) <==> p.endTime == 0 && InLine(p.job, j))
    {
    }

    // ---- the end of a process ----------------------------------------------------------------

    /** A process ends: it is no longer counted in its job and the ancestors of that. A process that has
        ended before can get a new thread, and end again: then the counts go down all the same, and the
        assertion that they are not zero fails if one of them is. */
    method KillProcess(p: Process, now: nat) returns (abort: bool)
      requires Sound() && p in processes && 0 < now
      modifies p`endTime, jobs`numProcesses
      ensures abort <==> old(exists j :: j in jobs && p.job != null && j in p.job.above && j.numProcesses == 0)
      ensures p.endTime == now && Sound()
      ensures forall j :: j in jobs ==> Under(j) == old(Under(j)) - {p}
      ensures !abort ==> forall j :: j in jobs ==>
                Excess(j) == old(Excess(j)) - (if InLine(p.job, j) && old(p.endTime) != 0 then 1 else 0)
      ensures old(Counted()) && old(p.endTime) == 0 ==> !abort && Counted()
    {
      hide Forest, Listed, Busy, Held, Alive, Under, Counted, InLine, Excess, NoneLeft;
      WhereCounted(p);
      CountedInLine(p);
      NoneLeftIs(p.job);
      p.endTime := now;
      abort := ReleaseJobProcess(p.job);
      ShapeKept();
      Ended(p);
      if !abort {
        Lowered(p);
        if old(p.endTime) == 0 { StaysCounted(); }
      }
    }

    /** Some job along the line counts no process. */
    ghost predicate NoneLeft(job: Job?)
      reads this`jobs, jobs`numProcesses, (if job == null then {} else {job})`above
    {
      exists j :: j in jobs && InLine(job, j) && j.numProcesses == 0
    }

    lemma NoneLeftIs(job: Job?)
      ensures NoneLeft(job) <==> exists j :: j in jobs && job != null && j in job.above && j.numProcesses == 0
    {
      if j :| j in jobs && job != null && j in job.above && j.numProcesses == 0 { assert InLine(job, j); }
    }

    lemma CountedInLine(p: Process)
      requires forall j :: j in jobs ==> (p in Under(j) <==> p.endTime == 0 && InLine(p.job, j))
      ensures Counted() && p.endTime == 0 ==> !NoneLeft(p.job)
    {
      hide Under;
    }

    /** While the counts are right, a second end fails the assertion exactly when no living process is left
        in the job or below. */
    lemma SecondEnd(p: Process)
      requires Valid() && p in processes && p.endTime != 0
      ensures NoneLeft(p.job) <==> p.job != null && Under(p.job) == {}
    {
      WhereCounted(p);
      if p.job != null {
        forall j | j in jobs && InLine(p.job, j) ensures Under(p.job) <= Under(j) {
          forall q | q in Under(p.job) ensures q in Under(j) { AboveAbove(p.job, q.job); }
        }
        assert InLine(p.job, p.job);
      }
    }

    /** The forest and its lists do not depend on counts, nor on who has ended. */
    twostate lemma ShapeKept()
      requires old(Forest() && Listed() && Busy() && Held() && Alive()) && jobs == old(jobs)
      requires processes == old(processes) && forall q :: q in processes ==> q.job == old(q.job)
      requires forall j :: j in jobs ==>
                 && j.parent == old(j.parent) && j.above == old(j.above) && j.children == old(j.children)
                 && j.processes == old(j.processes) && j.totalProcesses == old(j.totalProcesses)
                 && j.refs == old(j.refs) && j.others == old(j.others)
      ensures Forest() && Listed() && Busy() && Held() && Alive()
    {
      hide Distinct;
    }

    twostate lemma Lowered(p: Process)
      requires jobs == old(jobs)
      requires forall j :: j in jobs ==>
                && (p in old(Under(j)) <==> old(p.endTime) == 0 && InLine(p.job, j))
                && Under(j) == old(Under(j)) - {p}
                && j.numProcesses == old(j.numProcesses) - (if InLine(p.job, j) then 1 else 0)
      ensures forall j :: j in jobs ==>
                Excess(j) == old(Excess(j)) - (if InLine(p.job, j) && old(p.endTime) != 0 then 1 else 0)
    {
      hide Under, InLine;
      forall j | j in jobs
        ensures Excess(j) == old(Excess(j)) - (if InLine(p.job, j) && old(p.endTime) != 0 then 1 else 0)
      {
        OneLess(old(Under(j)), p);
      }
    }

    /** Takes one off the counts of a job and its ancestors, asserting of each that it is not zero. */
    method ReleaseJobProcess(job: Job?) returns (abort: bool)
      requires Forest() && (job != null ==> job in jobs)
      modifies jobs`numProcesses
      ensures abort == old(NoneLeft(job))
      ensures !abort ==>
                forall j :: j in jobs ==> j.numProcesses == old(j.numProcesses) - (if InLine(job, j) then 1 else 0)
    {
      var j := job;
      ghost var rest := if j == null then {} else j.above;
      while j != null
        invariant (j != null ==> j in jobs) && rest == if j == null then {} else j.above
        invariant forall k :: k in rest ==> InLine(job, k)
        invariant forall k :: k in jobs && InLine(job, k) && k !in rest ==> old(k.numProcesses) != 0
        invariant forall k :: k in jobs ==>
                    k.numProcesses == old(k.numProcesses) - (if InLine(job, k) && k !in rest then 1 else 0)
        decreases rest
      {
        if j.numProcesses == 0 { return true; }
        j.numProcesses := j.numProcesses - 1;
        j := j.parent;
        rest := if j == null then {} else j.above;
      }
      abort := false;
    }

    /** j is the job, if there is one, or an ancestor of it. */
    ghost predicate InLine(job: Job?, j: Job)
      reads (if job == null then {} else {job})`above
    {
      job != null && j in job.above
    }

    lemma Placed(p: Process)
      requires Listed() && p in processes
      ensures p.job != null ==> p.job in jobs
    {
    }

    twostate lemma Ended(p: Process)
      requires jobs == old(jobs) && processes == old(processes) && p in processes && p.endTime != 0
      requires forall q :: q in processes ==> q.job == old(q.job) && (q != p ==> q.endTime == old(q.endTime))
      requires forall j :: j in jobs ==> j.above == old(j.above)
      ensures forall j :: j in jobs ==> Under(j) == old(Under(j)) - {p}
    {
      forall j | j in jobs ensures Under(j) == old(Under(j)) - {p} {}
    }

    // ---- looking at the forest ---------------------------------------------------------------

    /** Whether a process is in a job or below it, found by going down; it is when going up from the
        process's job leads to the job. */
    method ProcessInJob(job: Job, p: Process) returns (r: bool)
      requires Forest() && Listed() && job in jobs && p in processes
      ensures r == (p.job != null && job in p.job.above)
      decreases jobs - job.above
    {
      hide Forest, Listed;
      for i := 0 to |job.children|
        invariant forall k :: 0 <= k < i ==> p.job == null || job.children[k] !in p.job.above
      {
        var c := job.children[i];
        ChildKnown(job, i);
        ChildAbove(c);
        r := ProcessInJob(c, p);
        if r {
          Placed(p);
          UpOne(c, p.job);
          return;
        }
      }
      Searched(job, p);
      r := p.job == job;
    }

    lemma UpOne(c: Job, j: Job)
      requires Forest() && j in jobs && c in j.above && c.parent != null
      ensures c.parent in j.above
    {
      AboveAbove(c, j);
    }

    lemma Searched(job: Job, p: Process)
      requires Forest() && Listed() && job in jobs && p in processes
      requires forall k :: 0 <= k < |job.children| ==> p.job == null || job.children[k] !in p.job.above
      ensures p.job != null && job in p.job.above <==> p.job == job
    {
      Placed(p);
      if p.job != null && p.job != job && job in p.job.above {
        var c := ChildOnPath(job, p.job);
        assert false;
      }
    }

    /** The living processes of a job, those of its children first. */
    ghost function Living(job: Job): seq<Process>
      requires Forest() && Listed() && job in jobs
      reads this, jobs, processes
      decreases jobs - job.above, |job.children| + 1
    {
      assert forall p :: p in job.processes ==> p in processes;
      LivingBelow(job, |job.children|) + Unended(job.processes)
    }

    ghost function LivingBelow(job: Job, n: nat): seq<Process>
      requires Forest() && Listed() && job in jobs && n <= |job.children|
      reads this, jobs, processes
      decreases jobs - job.above, n
    {
      if n == 0 then []
      else
        assert job.children[n - 1] in job.children;
        LivingBelow(job, n - 1) + Living(job.children[n - 1])
    }

    /** The processes counted in the first n children of a job. */
    ghost function UnderChildren(job: Job, n: nat): set<Process>
      requires n <= |job.children|
      reads this, processes`job, processes`endTime, jobs`above, job`children
    {
      if n == 0 then {} else UnderChildren(job, n - 1) + Under(job.children[n - 1])
    }

    lemma {:induction false} UnderChildrenHas(job: Job, n: nat, p: Process) returns (i: nat)
      requires n <= |job.children| && p in UnderChildren(job, n)
      ensures i < n && p in Under(job.children[i])
    {
      if p in Under(job.children[n - 1]) { i := n - 1; } else { i := UnderChildrenHas(job, n - 1, p); }
    }

    lemma {:induction false} UnderChildrenHave(job: Job, n: nat, i: nat)
      requires i < n <= |job.children|
      ensures Under(job.children[i]) <= UnderChildren(job, n)
    {
      if i < n - 1 { UnderChildrenHave(job, n - 1, i); }
    }

    /** What a job counts is either its own or one of its children's, not both. */
    lemma UnderSplit(job: Job)
      requires Forest() && Listed() && job in jobs
      ensures var own, below := (set p | p in job.processes && p.endTime == 0), UnderChildren(job, |job.children|);
              Under(job) == below + own && below !! own
    {
      var n := |job.children|;
      forall p | p in UnderChildren(job, n) ensures p in Under(job) && p !in job.processes {
        var i := UnderChildrenHas(job, n, p);
        assert job.children[i] in job.children;
        AboveAbove(job.children[i], p.job);
        AboveAbove(job, job.children[i]);
      }
      forall p | p in Under(job) && p.job != job ensures p in UnderChildren(job, n) {
        var c := ChildOnPath(job, p.job);
        var i :| 0 <= i < n && job.children[i] == c;
        UnderChildrenHave(job, n, i);
      }
    }

    /** The children of a job count different processes. */
    lemma UnderApart(job: Job, n: nat)
      requires Forest() && Listed() && job in jobs && n < |job.children|
      ensures UnderChildren(job, n) !! Under(job.children[n])
    {
      forall p | p in UnderChildren(job, n) ensures p !in Under(job.children[n]) {
        var i := UnderChildrenHas(job, n, p);
        var c, d := job.children[i], job.children[n];
        assert c in job.children && d in job.children;
        if p in Under(d) { ChildrenApart(c, d, p.job); }
      }
    }

    /** The listing of a job holds exactly the processes counted in it, each once. */
    lemma {:induction false} LivingExact(job: Job)
      requires Forest() && Listed() && job in jobs
      ensures Enumerates(Living(job), Under(job))
      decreases jobs - job.above, |job.children| + 1
    {
      hide Forest, Under, UnderChildren, Unended, Enumerates;
      LivingBelowExact(job, |job.children|);
      UnendedExact(job.processes);
      UnderSplit(job);
      EnumeratesConcat(LivingBelow(job, |job.children|), Unended(job.processes),
                       UnderChildren(job, |job.children|), set p | p in job.processes && p.endTime == 0);
    }

    lemma {:induction false} LivingBelowExact(job: Job, n: nat)
      requires Forest() && Listed() && job in jobs && n <= |job.children|
      ensures Enumerates(LivingBelow(job, n), UnderChildren(job, n))
      decreases jobs - job.above, n
    {
      hide Forest, Under;
      if n != 0 {
        var c := job.children[n - 1];
        assert c in job.children;
        LivingBelowExact(job, n - 1);
        ChildAbove(c);
        LivingExact(c);
        UnderApart(job, n - 1);
        EnumeratesConcat(LivingBelow(job, n - 1), Living(c), UnderChildren(job, n - 1), Under(c));
      }
    }

    lemma ChildAbove(c: Job)
      requires Forest() && c in jobs && c.parent != null
      ensures jobs - c.above < jobs - c.parent.above
    {
    }

    // ---- listing the processes of a job ------------------------------------------------------

    /** Appends the ids of a job's living processes to an array, as far as there is room: those of its
        child jobs first. */
    method GetJobPids(job: Job, pids: seq<nat>, end: nat) returns (r: seq<nat>)
      requires Forest() && Listed() && job in jobs && |pids| <= end
      ensures |r| <= end && r == Upto(pids + Ids(Living(job)), end)
      decreases jobs - job.above, 1
    {
      hide Upto, Forest, Listed, Unended;
      r := GetChildPids(job, pids, end);
      r := GetOwnPids(job.processes, r, end);
      ghost var below, own := Ids(LivingBelow(job, |job.children|)), Ids(Unended(job.processes));
      UptoMore(pids, below, own, end);
      assert below + own == Ids(Living(job));
    }

    method GetChildPids(job: Job, pids: seq<nat>, end: nat) returns (r: seq<nat>)
      requires Forest() && Listed() && job in jobs && |pids| <= end
      ensures |r| <= end && r == Upto(pids + Ids(LivingBelow(job, |job.children|)), end)
      decreases jobs - job.above, 0
    {
      hide *;
      r := pids;
      ghost var below := [];
      NoIdsYet(job, pids, end);
      for i := 0 to |job.children|
        invariant |r| <= end && below == Ids(LivingBelow(job, i)) && r == Upto(pids + below, end)
      {
        var c := job.children[i];
        ChildKnown(job, i);
        ChildAbove(c);
        ghost var more := Ids(Living(c));
        r := GetJobPids(c, r, end);
        UptoMore(pids, below, more, end);
        IdsBelow(job, i);
        below := below + more;
      }
    }

    lemma NoIdsYet(job: Job, pids: seq<nat>, end: nat)
      requires Forest() && Listed() && job in jobs && |pids| <= end
      ensures Ids(LivingBelow(job, 0)) == [] && Upto(pids + [], end) == pids
    {
      assert pids + [] == pids;
    }

    lemma ChildKnown(job: Job, i: nat)
      requires Listed() && job in jobs && i < |job.children|
      ensures job.children[i] in jobs && job.children[i].parent == job
    {
    }

    lemma IdsBelow(job: Job, i: nat)
      requires Forest() && Listed() && job in jobs && i < |job.children| && job.children[i] in jobs
      ensures Ids(LivingBelow(job, i + 1)) == Ids(LivingBelow(job, i)) + Ids(Living(job.children[i]))
    {
      hide Forest, Listed, Living;
    }

    /** What the information request answers: counts, and the ids of living processes, as many as there is
        room for but no more than the active count. The reply is `size` ids long; when the count is too
        high it may be longer than the list. */
    method GetJobInfo(job: Job, room: nat) returns (total: nat, active: nat, size: nat, pids: seq<nat>)
      requires Sound() && job in jobs
      ensures total == job.totalProcesses && active == |Under(job)| + Excess(job)
      ensures Enumerates(Living(job), Under(job)) && |Living(job)| == |Under(job)|
      ensures size == (if room < active then room else active) && pids == Upto(Ids(Living(job)), size)
      ensures |pids| < size <==> |Under(job)| < room && 0 < Excess(job)
      ensures |pids| == (if |Under(job)| < size then |Under(job)| else size)
      ensures forall i :: 0 <= i < |pids| ==> pids[i] == Living(job)[i].id
      ensures Excess(job) == 0 && active <= room ==> pids == Ids(Living(job))
    {
      hide Forest, Listed, Enumerates, Under;
      total, active := job.totalProcesses, job.numProcesses;
      LivingExact(job);
      EnumeratesSize(Living(job), Under(job));
      size := if room < active then room else active;
      pids := [];
      if size != 0 { pids := GetJobPids(job, [], size); }
      assert [] + Ids(Living(job)) == Ids(Living(job));
    }

    // ---- references --------------------------------------------------------------------------

    method NewJob() returns (job: Job)
      requires Sound()
      modifies this`jobs
      ensures Sound() && fresh(job) && jobs == old(jobs) + {job} && job.parent == null && job.totalProcesses == 0
      ensures Excess(job) == 0 && forall j :: j in old(jobs) ==> Excess(j) == old(Excess(j))
    {
      hide Forest, Listed, Under, Excess;
      job := new Job();
      jobs := jobs + {job};
      JobAdded(job);
    }

    twostate lemma JobAdded(new job: Job)
      requires old(Forest() && Listed()) && job !in old(jobs) && jobs == old(jobs) + {job}
      requires processes == old(processes) && job.above == {job} && job.numProcesses == 0
      requires job.parent == null && job.children == [] && job.processes == []
      requires forall j :: j in old(jobs) ==>
                 && j.parent == old(j.parent) && j.children == old(j.children) && j.processes == old(j.processes)
                 && j.above == old(j.above) && j.numProcesses == old(j.numProcesses)
      requires forall p :: p in processes ==> p.job == old(p.job) && p.endTime == old(p.endTime)
      ensures Forest() && Listed()
      ensures Excess(job) == 0 && forall j :: j in old(jobs) ==> Excess(j) == old(Excess(j))
    {
      ForestAdded(job);
      forall p | p in processes ensures p.job != job {}
      assert Under(job) == {};
      hide Forest, Listed;
      forall j | j in old(jobs) ensures Under(j) == old(Under(j)) {}
    }

    twostate lemma ForestAdded(new job: Job)
      requires old(Forest() && Listed()) && job !in old(jobs) && jobs == old(jobs) + {job}
               && processes == old(processes)
      requires job.above == {job} && job.parent == null && job.children == [] && job.processes == []
      requires forall j :: j in old(jobs) ==>
                 && j.parent == old(j.parent) && j.children == old(j.children) && j.processes == old(j.processes)
                 && j.above == old(j.above)
      requires forall p :: p in processes ==> p.job == old(p.job)
      ensures Forest() && Listed() && forall j :: j in old(jobs) ==> job !in j.above
    {
      hide Distinct;
      assert Distinct(job.children) && Distinct(job.processes) by { NoneTwice(job); }
    }

    lemma NoneTwice(job: Job)
      requires job.children == [] && job.processes == []
      ensures Distinct(job.children) && Distinct(job.processes)
    {
    }

    method NewProcess(id: nat) returns (p: Process)
      requires Sound()
      modifies this`processes
      ensures Sound() && fresh(p) && processes == old(processes) + {p} && p.id == id && p.job == null && p.endTime == 0
      ensures forall j :: j in jobs ==> Excess(j) == old(Excess(j))
    {
      hide Forest, Listed, Busy, Held, Alive, Excess;
      p := new Process(id);
      processes := processes + {p};
      ProcessAdded(p);
    }

    twostate lemma ProcessAdded(new p: Process)
      requires old(Listed()) && p !in old(processes) && processes == old(processes) + {p} && p.job == null
      requires jobs == old(jobs)
      requires forall q :: q in old(processes) ==> q.job == old(q.job) && q.endTime == old(q.endTime)
      requires forall j :: j in jobs ==>
                 && j.parent == old(j.parent) && j.children == old(j.children) && j.processes == old(j.processes)
                 && j.above == old(j.above) && j.numProcesses == old(j.numProcesses)
      ensures Listed() && forall j :: j in jobs ==> Excess(j) == old(Excess(j))
    {
      hide Distinct;
      forall j | j in jobs ensures Under(j) == old(Under(j)) {}
    }

    ghost predicate AliveBut(job: Job?)
      reads this`jobs, jobs`refs
    {
      forall j :: j in jobs && j != job ==> 0 < j.refs
    }

    /** When a job is left with so many references, these are destroyed: the job itself if there are none,
        its parent if the job was the only thing that held it, and so on up. */
    ghost predicate Falls(job: Job, refs: int, j: Job)
      reads job`above, job.above`refs, job.above`above
    {
      refs == 0 && j in job.above && forall k :: k in job.above && k != job && j in k.above ==> k.refs == 1
    }

    /** One of the jobs that are destroyed still counts a process, which its destructor asserts it does not. */
    ghost predicate FallsCounting(job: Job, refs: int, count: nat)
      reads this`jobs, jobs`numProcesses, job`above, job.above`refs, job.above`above
    {
      exists j :: j in jobs && Falls(job, refs, j) && j.numProcesses != count
    }

    /** A handle to a job is closed. */
    method CloseJob(job: Job) returns (abort: bool)
      requires Sound() && job in jobs && 0 < job.others
      modifies this`jobs, jobs`children, jobs`refs, job`others
      ensures abort == old(FallsCounting(job, job.refs - 1, 0)) && (!abort ==> Sound())
      ensures jobs <= old(jobs) && forall j :: j in jobs ==> Under(j) == old(Under(j)) && Excess(j) == old(Excess(j))
      ensures old(Counted()) ==> !abort && Counted()
      ensures job.others == old(job.others) - 1
      ensures !abort ==> jobs == old(jobs) - set j | j in old(jobs) && old(Falls(job, job.refs - 1, j))
      ensures !abort ==> forall j :: j in jobs ==>
                j.refs == old(j.refs) - (if j == job then 1 else 0) - Lost(old(jobs) - jobs, j)
    {
      hide Forest, Listed, Busy, Held, AliveBut, Alive, Counted, Under, Excess, FallsCounting, Falls;
      DropHandle(job);
      abort := Reap(job);
      ExcessSame();
    }

    method DropHandle(job: Job)
      requires Forest() && Held() && Alive() && job in jobs && 0 < job.others
      modifies job`refs, job`others
      ensures Held() && AliveBut(job) && FallsCounting(job, job.refs, 0) == old(FallsCounting(job, job.refs - 1, 0))
      ensures forall j :: j in jobs ==> Falls(job, job.refs, j) == old(Falls(job, job.refs - 1, j))
      ensures job.refs == old(job.refs) - 1 && job.others == old(job.others) - 1
    {
      AboveJobs(job);
      hide Forest, Held, AliveBut, Alive, FallsCounting, Falls;
      job.refs := job.refs - 1;
      job.others := job.others - 1;
      OneHandleLess(job);
      SameFalls(job);
    }

    twostate lemma OneHandleLess(job: Job)
      requires old(Held() && Alive()) && jobs == old(jobs)
      requires job.refs == old(job.refs) - 1 && job.others == old(job.others) - 1
      requires forall j :: j in jobs ==> j.children == old(j.children) && j.processes == old(j.processes)
      requires forall j :: j in jobs && j != job ==> j.refs == old(j.refs) && j.others == old(j.others)
      ensures Held() && AliveBut(job)
    {
    }

    twostate lemma ExcessSame()
      requires jobs <= old(jobs)
      requires forall j :: j in jobs ==> Under(j) == old(Under(j)) && j.numProcesses == old(j.numProcesses)
      ensures forall j :: j in jobs ==> Excess(j) == old(Excess(j))
    {
      hide Under;
    }

    lemma AboveJobs(job: Job)
      requires Forest() && job in jobs
      ensures job.above <= jobs
    {
    }

    /** The counts are right for the processes other than this one. */
    ghost predicate CountedWithout(p: Process)
      reads this, processes`job, processes`endTime, jobs`above, jobs`numProcesses
    {
      forall j :: j in jobs ==> j.numProcesses == |Under(j) - {p}|
    }

    /** With right counts that is so for the processes that are in no job or have ended, and only for
        those. */
    lemma CountedWithoutIff(p: Process)
      requires Forest() && Listed() && Counted() && p in processes
      ensures CountedWithout(p) <==> p.job == null || p.endTime != 0
    {
      hide Listed;
      if p.job == null || p.endTime != 0 {
        forall j | j in jobs ensures Under(j) - {p} == Under(j) {}
      } else {
        Placed(p);
        assert p in Under(p.job);
      }
    }

    /** A process goes, and lets go of its job. If it is still counted, every count that has it is one
        further above the right one from then on; the assertion in a destructor fails if a job that goes
        with it counts a process. */
    method DestroyProcess(p: Process) returns (abort: bool)
      requires Sound() && p in processes
      modifies this`jobs, this`processes, jobs`children, jobs`processes, jobs`refs, p`job
      ensures processes == old(processes) - {p} && (!abort ==> Sound())
      ensures abort == old(p.job != null && FallsCounting(p.job, p.job.refs - 1, 0))
      ensures jobs <= old(jobs) && forall j :: j in jobs ==>
                && Under(j) == old(Under(j)) - {p}
                && Excess(j) == old(Excess(j)) + (if old(InLine(p.job, j)) && p.endTime == 0 then 1 else 0)
      ensures (Counted() <==> old(CountedWithout(p))) && (Counted() ==> !abort)
      ensures !abort ==>
                jobs == old(jobs) - set j | j in old(jobs) && old(p.job != null && Falls(p.job, p.job.refs - 1, j))
      ensures !abort ==> forall j :: j in jobs ==>
                j.refs == old(j.refs) - (if j == old(p.job) then 1 else 0) - Lost(old(jobs) - jobs, j)
    {
      hide Forest, Listed, Busy, Held, AliveBut, Alive, Counted, CountedWithout, Under, Excess, FallsCounting, InLine;
      hide Falls;
      var job := p.job;
      WhereCounted(p);
      Depart(p);
      abort := false;
      if job != null {
        SameFalls(job);
        abort := Reap(job);
      }
      Destroyed(p);
    }

    twostate lemma Destroyed(p: Process)
      requires jobs <= old(jobs) && p.endTime == old(p.endTime)
      requires forall j :: j in jobs ==>
                 && (p in old(Under(j)) <==> old(p.endTime == 0 && InLine(p.job, j)))
                 && Under(j) == old(Under(j)) - {p} && j.numProcesses == old(j.numProcesses)
      ensures forall j :: j in jobs ==>
                Excess(j) == old(Excess(j)) + (if old(InLine(p.job, j)) && p.endTime == 0 then 1 else 0)
    {
      hide Under, InLine;
      forall j | j in jobs
        ensures Excess(j) == old(Excess(j)) + (if old(InLine(p.job, j)) && p.endTime == 0 then 1 else 0)
      {
        OneLess(old(Under(j)), p);
      }
    }

    /** What a job loses by a reference it has just lost is the same before and after. */
    twostate lemma SameFalls(job: Job)
      requires jobs == old(jobs) && job.above == old(job.above) && job.refs == old(job.refs) - 1
      requires forall k :: k in jobs ==> k.numProcesses == old(k.numProcesses) && k.above == old(k.above)
      requires job.above <= jobs && forall k :: k in job.above && k != job ==> k.refs == old(k.refs)
      ensures forall count :: FallsCounting(job, job.refs, count) == old(FallsCounting(job, job.refs - 1, count))
      ensures forall j :: j in jobs ==> Falls(job, job.refs, j) == old(Falls(job, job.refs - 1, j))
    {
      forall j | j in jobs ensures Falls(job, job.refs, j) == old(Falls(job, job.refs - 1, j)) {}
      hide Falls;
    }

    /** A process leaves the list of its job, without counts or jobs being looked at. */
    method Depart(p: Process)
      requires Forest() && Listed() && Busy() && Held() && Alive() && p in processes
      requires p.job != null ==> p.job in jobs
      modifies this`processes, jobs`processes, jobs`refs, p`job
      ensures Forest() && Listed() && Busy() && Held() && AliveBut(old(p.job))
      ensures processes == old(processes) - {p} && (Counted() <==> old(CountedWithout(p)))
      ensures forall j :: j in jobs && j != old(p.job) ==> j.refs == old(j.refs)
      ensures if old(p.job) == null then Alive() else old(p.job).refs == old(p.job.refs) - 1
      ensures forall j :: j in jobs ==> Under(j) == old(Under(j)) - {p}
    {
      hide Forest, Listed, Busy, Held, AliveBut, Alive, Counted, CountedWithout, Under;
      AllAlive(p.job);
      if p.job != null { Withdraw(p); }
      Forget(p);
      Uncounted(p);
    }

    lemma AllAlive(job: Job?)
      requires Alive()
      ensures AliveBut(job)
    {
    }

    lemma AliveAgain(job: Job)
      requires AliveBut(job) && 0 < job.refs
      ensures Alive()
    {
    }

    /** No living process is in a job without references, or below it. */
    lemma NoneCounted(j: Job)
      requires Forest() && Listed() && Held() && j in jobs && j.refs == 0
      ensures j.processes == [] && j.children == [] && j.others == 0
      ensures Under(j) == {}
    {
      forall p | p in Under(j) ensures false {
        if p.job != j { var c := ChildOnPath(j, p.job); }
      }
    }

    /** The creation of a process fails after it was assigned to jobs: it is taken off the counts, and
        goes. */
    method AbandonProcess(p: Process) returns (abort: bool)
      requires Sound() && p in processes && p.endTime == 0
      modifies this`jobs, this`processes, jobs`children, jobs`processes, jobs`refs, jobs`numProcesses, p`job
      ensures abort == old(NoneLeft(p.job) || (p.job != null && FallsCounting(p.job, p.job.refs - 1, 1)))
      ensures !abort ==> Sound() && processes == old(processes) - {p} && jobs <= old(jobs)
      ensures !abort ==> forall j :: j in jobs ==> Under(j) == old(Under(j)) - {p} && Excess(j) == old(Excess(j))
      ensures old(Counted()) ==> !abort && Counted()
      ensures !abort ==>
                jobs == old(jobs) - set j | j in old(jobs) && old(p.job != null && Falls(p.job, p.job.refs - 1, j))
      ensures !abort ==> forall j :: j in jobs ==>
                j.refs == old(j.refs) - (if j == old(p.job) then 1 else 0) - Lost(old(jobs) - jobs, j)
    {
      hide Forest, Listed, Busy, Held, Alive, Counted, CountedWithout, Under, Excess, InLine, NoneLeft, FallsCounting;
      hide Falls;
      WhereCounted(p);
      CountedInLine(p);
      abort := ReleaseJobProcess(p.job);
      if abort { return; }
      ShapeKept();
      Released();
      Discounted(p);
      if p.job != null { FallsLower(p.job); }
      abort := DestroyProcess(p);
    }

    twostate lemma Released()
      requires jobs == old(jobs) && processes == old(processes)
      requires forall q :: q in processes ==> q.job == old(q.job) && q.endTime == old(q.endTime)
      requires forall j :: j in jobs ==> j.above == old(j.above)
      ensures forall j :: j in jobs ==> Under(j) == old(Under(j))
    {
      forall j | j in jobs ensures Under(j) == old(Under(j)) {}
    }

    /** The counts of a process have been lowered although it has not ended. */
    twostate lemma Discounted(p: Process)
      requires jobs == old(jobs)
      requires forall j :: j in jobs ==>
                 && Under(j) == old(Under(j)) && (p in Under(j) <==> InLine(p.job, j))
                 && j.numProcesses == old(j.numProcesses) - (if InLine(p.job, j) then 1 else 0)
      ensures old(Counted()) ==> CountedWithout(p)
      ensures forall j :: j in jobs ==> Excess(j) == old(Excess(j)) - (if InLine(p.job, j) then 1 else 0)
    {
      hide Under, InLine;
      if old(Counted()) {
        forall j | j in jobs ensures j.numProcesses == |Under(j) - {p}| { OneLess(Under(j), p); }
      }
    }

    /** Lowering all counts of a line lowers those of what falls with it. */
    twostate lemma FallsLower(job: Job)
      requires jobs == old(jobs) && job.above == old(job.above) <= jobs && job.refs == old(job.refs)
      requires forall j :: j in jobs ==>
                 && j.above == old(j.above) && j.refs == old(j.refs)
                 && j.numProcesses == old(j.numProcesses) - (if InLine(job, j) then 1 else 0)
      ensures FallsCounting(job, job.refs - 1, 0) == old(FallsCounting(job, job.refs - 1, 1))
      ensures forall j :: j in jobs ==> Falls(job, job.refs - 1, j) == old(Falls(job, job.refs - 1, j))
    {
      forall j | j in jobs ensures Falls(job, job.refs - 1, j) == old(Falls(job, job.refs - 1, j)) {}
    }

    method Forget(p: Process)
      requires Listed() && p.job == null
      modifies this`processes
      ensures Listed() && processes == old(processes) - {p}
    {
      hide Distinct;
      processes := processes - {p};
    }

    method Withdraw(p: Process)
      requires Listed() && Held() && Busy() && Alive() && p in processes && p.job != null
      modifies p`job, p.job`processes, p.job`refs
      ensures Listed() && Held() && Busy() && AliveBut(old(p.job)) && p.job == null && old(p.job) in jobs
      ensures old(p.job).refs == old(p.job.refs) - 1
    {
      hide Distinct;
      assert p in p.job.processes;
      p.job.refs := p.job.refs - 1;
      Unlist(p);
    }

    /** What the departure of a process does to the counts. */
    twostate lemma Uncounted(p: Process)
      requires jobs == old(jobs) && processes == old(processes) - {p}
      requires forall q :: q in processes ==> q.job == old(q.job) && q.endTime == old(q.endTime)
      requires forall j :: j in jobs ==> j.above == old(j.above) && j.numProcesses == old(j.numProcesses)
      ensures Counted() <==> old(CountedWithout(p))
      ensures forall j :: j in jobs ==> Under(j) == old(Under(j)) - {p}
    {
      forall j | j in jobs ensures Under(j) == old(Under(j)) - {p} {}
    }

    /** Destroys a job without references, then its parent if that has lost its last, and so on. The
        destructor asserts that the job counts no process; that its lists are empty is so. */
    method Reap(job: Job) returns (abort: bool)
      requires Forest() && Listed() && Busy() && Held() && AliveBut(job) && job in jobs
      modifies this`jobs, jobs`children, jobs`refs
      ensures abort == old(FallsCounting(job, job.refs, 0)) && (!abort ==> Sound())
      ensures jobs <= old(jobs) && forall j :: j in jobs ==> Under(j) == old(Under(j))
      ensures (Counted() <==> old(Counted())) && (Counted() ==> !abort)
      ensures !abort ==> forall j :: j in old(jobs) ==> (j in jobs <==> !old(Falls(job, job.refs, j)))
      ensures !abort ==> forall j :: j in jobs ==> j.refs == old(j.refs) - Lost(old(jobs) - jobs, j)
      ensures !abort && job in jobs ==> jobs == old(jobs)
      decreases job.above
    {
      hide Forest, Listed, Busy, Held, AliveBut, Alive, Counted, Under, Falls, FallsCounting;
      JobFalls(job);
      if job.refs != 0 {
        AliveAgain(job);
        return false;
      }
      NoneCounted(job);
      if job.numProcesses != 0 {
        NotCounted(job);
        return true;
      }
      assert job.processes == [] && job.children == [];
      var parent := job.parent;
      Destroy(job);
      FallsOn(job);
      abort := false;
      ghost var left := jobs;
      if parent != null {
        JobFalls(parent);
        abort := Reap(parent);
      } else {
        NoneLower();
      }
      if !abort {
        assert old(jobs) - jobs == left - jobs + {job};
        forall j | j in jobs ensures j.refs == old(j.refs) - Lost(old(jobs) - jobs, j) {
          LostMore(left - jobs, job, j);
        }
      }
    }

    lemma LostMore(gone: set<Job>, job: Job, j: Job)
      requires job.parent == j ==> gone == {}
      ensures Lost(gone + {job}, j) == Lost(gone, j) + (if job.parent == j then 1 else 0)
    {
      if job.parent == j { assert job in gone + {job}; }
    }

    /** The references a job loses with the jobs that go: one if a child of it is among them. */
    ghost function Lost(gone: set<Job>, j: Job): nat
      reads gone`parent
    {
      if exists c :: c in gone && c.parent == j then 1 else 0
    }

    lemma NoneLower()
      requires AliveBut(null)
      ensures Alive()
    {
    }

    lemma NotCounted(job: Job)
      requires job in jobs && Under(job) == {} && job.numProcesses != 0
      ensures !Counted()
    {
    }

    lemma JobFalls(job: Job)
      requires Forest() && job in jobs
      ensures Falls(job, job.refs, job) <==> job.refs == 0
      ensures job.refs != 0 ==> !FallsCounting(job, job.refs, 0) && forall j :: j in jobs ==> !Falls(job, job.refs, j)
      ensures job.refs == 0 && job.numProcesses != 0 ==> FallsCounting(job, job.refs, 0)
      ensures job.parent != null ==> job.parent in jobs && job.parent != job && job.parent.above < job.above
    {
      hide Listed;
      forall k | k in job.above && k != job ensures job !in k.above { AboveAbove(k, job); }
    }

    /** Once a job is gone that counted nothing, what else goes is what goes from its parent on. */
    twostate lemma FallsOn(job: Job)
      requires old(Forest()) && job in old(jobs) && jobs == old(jobs) - {job} && old(job.refs) == 0
      requires job.parent == old(job.parent) && job.above == old(job.above) && old(job.numProcesses) == 0
      requires forall k :: k in jobs ==>
                 && k.above == old(k.above) && k.numProcesses == old(k.numProcesses)
                 && k.refs == old(k.refs) - (if k == job.parent then 1 else 0)
      ensures old(FallsCounting(job, job.refs, 0)) <==>
              job.parent != null && FallsCounting(job.parent, job.parent.refs, 0)
      ensures forall j :: j in jobs ==>
                (old(Falls(job, job.refs, j)) <==> job.parent != null && Falls(job.parent, job.parent.refs, j))
    {
      if job.parent != null {
        forall j | j in jobs ensures old(Falls(job, job.refs, j)) <==> Falls(job.parent, job.parent.refs, j) {}
      }
    }

    /** Nothing else lies below a job without children. */
    lemma NoneBelow(j: Job)
      requires Forest() && Listed() && j in jobs && j.children == []
      ensures forall k :: k in jobs && k != j ==> j !in k.above
      ensures forall k :: k in jobs ==> k.parent != j
      ensures j.processes == [] ==> forall p :: p in processes ==> p.job != j
    {
      forall k | k in jobs && k != j ensures j !in k.above {
        if j in k.above { var c := ChildOnPath(j, k); }
      }
    }

    method Destroy(j: Job)
      requires Forest() && Listed() && Busy() && Held() && AliveBut(j)
      requires j in jobs && j.refs == 0 && j.processes == [] && j.children == [] && j.numProcesses == 0
      modifies this`jobs, jobs`children, jobs`refs
      ensures Forest() && Listed() && Busy() && Held() && AliveBut(j.parent)
      ensures jobs == old(jobs) - {j} && forall k :: k in jobs ==> Under(k) == old(Under(k))
      ensures forall k :: k in jobs ==> k.refs == old(k.refs) - (if k == j.parent then 1 else 0)
      ensures Counted() <==> old(Counted())
    {
      hide Under, Forest, Listed, Busy, Held, AliveBut, Counted, Distinct;
      NoneBelow(j);
      NoneCounted(j);
      Drop(j);
      JobGone(j);
    }

    /** Takes a job out of everyone's sight. */
    method Drop(j: Job)
      requires Listed() && Busy() && Held() && AliveBut(j) && j in jobs && j.parent != j
      requires forall k :: k in jobs ==> k.parent != j
      requires forall p :: p in processes ==> p.job != j
      modifies this`jobs, jobs`children, jobs`refs
      ensures Listed() && Busy() && Held() && AliveBut(j.parent) && jobs == old(jobs) - {j}
      ensures forall k :: k in jobs ==> k.refs == old(k.refs) - (if k == j.parent then 1 else 0)
    {
      hide Listed, Distinct;
      Linked(j);
      if j.parent != null { Unchild(j); }
      jobs := jobs - {j};
      ListedLess(j);
    }

    lemma Linked(j: Job)
      requires Listed() && j in jobs
      ensures j.parent != null ==> j.parent in jobs
      ensures forall k :: k in jobs && k != j.parent ==> j !in k.children
      ensures forall k :: k in jobs ==> Distinct(k.children)
    {
    }

    twostate lemma ListedLess(j: Job)
      requires old(Listed()) && jobs == old(jobs) - {j} && processes == old(processes)
      requires forall k :: k in jobs ==> k.parent == old(k.parent) != j && k.processes == old(k.processes)
      requires forall k :: k in jobs ==>
                 Distinct(k.children) && forall c :: c in k.children <==> c in old(k.children) && c != j
      requires forall p :: p in processes ==> p.job == old(p.job) != j
      ensures Listed()
    {
      hide Distinct;
    }

    /** Takes a job off its parent's list. */
    method Unchild(j: Job)
      requires Listed() && Busy() && Held() && AliveBut(j) && j in jobs && j.parent != null && j.parent != j
      modifies j.parent`children, j.parent`refs
      ensures Busy() && Held() && j.parent in jobs && forall k :: k in jobs && k != j && k != j.parent ==> 0 < k.refs
      ensures Distinct(j.parent.children) && j.parent.refs == old(j.parent.refs) - 1
      ensures forall c :: c in j.parent.children <==> c in old(j.parent.children) && c != j
    {
      RemoveElements(j.parent.children, j);
      j.parent.children := Remove(j.parent.children, j);
      j.parent.refs := j.parent.refs - 1;
    }

    twostate lemma JobGone(j: Job)
      requires old(Forest()) && j in old(jobs) && jobs == old(jobs) - {j} && processes == old(processes)
      requires old(Under(j)) == {} && old(j.numProcesses) == 0
      requires forall k :: k in jobs ==>
                 && k.parent == old(k.parent) && k.above == old(k.above) && k.numProcesses == old(k.numProcesses)
                 && j !in k.above
      requires forall p :: p in processes ==> p.job == old(p.job) && p.endTime == old(p.endTime) && p.job != j
      ensures Forest() && forall k :: k in jobs ==> Under(k) == old(Under(k))
      ensures Counted() <==> old(Counted())
    {
      forall k | k in jobs ensures Under(k) == old(Under(k)) {}
      hide Under;
    }
  }
}
