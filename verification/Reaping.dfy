/**
 Child processes, SIGCHLD and the job map, as a state machine: the steps of the shell's main
 thread interleave with exits, stops and continuations of its children and with signal deliveries.
 */
module Reaping {

  datatype Ending = Exited(code: int) | Killed(signal: int)

  datatype Phase = Running | Stopped | Dead(ending: Ending)

  /** `news`: a stop or continuation nobody has waited for. `serial` tells processes with a reused pid apart. */
  datatype Child = Child(phase: Phase, news: bool, serial: nat)

  datatype Job = Job(command: string, serial: nat)

  /** Where the main thread is. */
  datatype Control =
    | Idle
    | Recording(pid: nat, command: string, serial: nat)
    | Testing
    | Clearing
    | Draining
    | Waiting(pid: nat, fg: bool, untraced: bool)

  /**
   The last three fields are history: the serials of the background commands entered in the job
   map, of those a drain took out, and of those `fg` took out.
   */
  datatype State = State(
    children: map<nat, Child>, pending: bool, flag: bool, control: Control, jobs: map<nat, Job>,
    next: nat, started: set<nat>, reaped: set<nat>, taken: set<nat>)

  datatype Step =
    // the children and the kernel
    | Exit(pid: nat, ending: Ending) | Stop(pid: nat) | Continue(pid: nat) | Deliver
    // `reap_background_processes` and its drain
    | Reap | Test | Clear | DrainOne(pid: nat) | DrainNone
    // `background_process`
    | Refuse | ForkBackground(pid: nat, command: string) | Record
    // a foreground command, or one stage of a pipeline, and waiting for it
    | Spawn(pid: nat) | Await(pid: nat, untraced: bool)
    // `builtin_fg`
    | Fg(pid: nat)
    // how a blocking wait returns
    | WaitEnds | WaitStopped | Interrupted

  /** What `waitpid(-1, WNOHANG | WCONTINUED | WUNTRACED)` reports on. */
  predicate Ready(c: Child) {
    c.phase.Dead? || c.news
  }

  /** Steps of the children and deliveries; everything else is the main thread's. */
  predicate Asynchronous(step: Step) {
    step.Exit? || step.Stop? || step.Continue? || step.Deliver?
  }

  predicate Enabled(s: State, step: Step, max: int) {
    match step
    case Exit(pid, ending) => pid in s.children && !s.children[pid].phase.Dead?
    case Stop(pid) => pid in s.children && s.children[pid].phase.Running?
    case Continue(pid) => pid in s.children && s.children[pid].phase.Stopped?
    case Deliver => s.pending
    case Reap => s.control.Idle?
    case Test => s.control.Testing?
    case Clear => s.control.Clearing?
    case DrainOne(pid) => s.control.Draining? && pid in s.children && Ready(s.children[pid])
    case DrainNone => s.control.Draining? && forall pid :: pid in s.children ==> !Ready(s.children[pid])
    case Refuse => s.control.Idle? && |s.jobs| >= max
    case ForkBackground(pid, command) => s.control.Idle? && |s.jobs| < max && pid !in s.children
    case Record => s.control.Recording?
    case Spawn(pid) => s.control.Idle? && pid !in s.children
    case Await(pid, untraced) => s.control.Idle? && pid in s.children && pid !in s.jobs
    case Fg(pid) => s.control.Idle? && pid in s.jobs
    case WaitEnds =>
      s.control.Waiting? && s.control.pid in s.children && s.children[s.control.pid].phase.Dead?
    case WaitStopped =>
      s.control.Waiting? && s.control.untraced && s.control.pid in s.children
      && s.children[s.control.pid].phase.Stopped? && s.children[s.control.pid].news
    case Interrupted => s.control.Waiting?
  }

  /** A child changes state: the kernel raises SIGCHLD, which stays a single pending signal. */
  function Changed(s: State, pid: nat, phase: Phase): State
    requires pid in s.children
  {
    s.(children := s.children[pid := s.children[pid].(phase := phase, news := !phase.Dead?)], pending := true)
  }

  function Forked(s: State, pid: nat): State {
    s.(children := s.children[pid := Child(Running, false, s.next)], next := s.next + 1)
  }

  /** `builtin_fg` erases its job however the wait returned. */
  function WaitReturned(s: State): State
    requires s.control.Waiting?
  {
    if s.control.fg && s.control.pid in s.jobs then
      s.(control := Idle, jobs := s.jobs - {s.control.pid},
         taken := s.taken + {s.jobs[s.control.pid].serial})
    else s.(control := Idle)
  }

  function Apply(s: State, step: Step, max: int): State
    requires Enabled(s, step, max)
  {
    match step
    case Exit(pid, ending) => Changed(s, pid, Dead(ending))
    case Stop(pid) => Changed(s, pid, Stopped)
    case Continue(pid) => Changed(s, pid, Running)
    case Deliver => s.(pending := false, flag := true)
    case Reap => s.(control := Testing)
    case Test => s.(control := if s.flag then Clearing else Idle)
    case Clear => s.(flag := false, control := Draining)
    case DrainOne(pid) =>
      if s.children[pid].phase.Dead? then
        var t := s.(children := s.children - {pid}, jobs := s.jobs - {pid});
        if pid in s.jobs then t.(reaped := s.reaped + {s.jobs[pid].serial}) else t
      else s.(children := s.children[pid := s.children[pid].(news := false)])
    case DrainNone => s.(control := Testing)
    case Refuse => s
    case ForkBackground(pid, command) => Forked(s, pid).(control := Recording(pid, command, s.next))
    case Record =>
      s.(jobs := s.jobs[s.control.pid := Job(s.control.command, s.control.serial)],
         started := s.started + {s.control.serial}, control := Idle)
    case Spawn(pid) => Forked(s, pid)
    case Await(pid, untraced) => s.(control := Waiting(pid, false, untraced))
    case Fg(pid) =>
      var t := if pid in s.children && s.children[pid].phase.Stopped? then Changed(s, pid, Running) else s;
      t.(control := Waiting(pid, true, true))
    case WaitEnds => WaitReturned(s).(children := s.children - {s.control.pid})
    case WaitStopped =>
      var c := s.children[s.control.pid];
      WaitReturned(s).(children := s.children[s.control.pid := c.(news := false)])
    case Interrupted => WaitReturned(s)
  }

  const START := State(map[], false, false, Idle, map[], 0, {}, {}, {})

  /** A run: steps taken in order, each enabled. */
  predicate Runs(steps: seq<Step>, max: int)
    decreases |steps|, 0
  {
    steps == []
    || (Runs(steps[..|steps| - 1], max)
        && Enabled(After(steps[..|steps| - 1], max), steps[|steps| - 1], max))
  }

  function After(steps: seq<Step>, max: int): State
    requires Runs(steps, max)
    decreases |steps|, 1
  {
    if steps == [] then START
    else Apply(After(steps[..|steps| - 1], max), steps[|steps| - 1], max)
  }

  // The invariants.

  /** No lost wake-up: a zombie is announced by a pending signal or the flag, or a drain is under way. */
  predicate NoLostWakeup(s: State) {
    forall pid :: pid in s.children && s.children[pid].phase.Dead? ==> s.pending || s.flag || s.control.Draining?
  }

  /** Every job-map entry names an unreaped child, and the very process it was made for. */
  predicate JobsAreChildren(s: State) {
    forall pid :: pid in s.jobs ==> pid in s.children && s.children[pid].serial == s.jobs[pid].serial
  }

  predicate SerialsAreUnique(s: State) {
    && (forall pid :: pid in s.children ==> s.children[pid].serial < s.next)
    && (forall p, q :: p in s.children && q in s.children && s.children[p].serial == s.children[q].serial ==> p == q)
  }

  predicate Bounded(s: State, max: int) {
    && |s.jobs| <= (if max < 0 then 0 else max)
    && (s.control.Recording? ==> |s.jobs| < max)
  }

  predicate ControlFits(s: State) {
    && (s.control.Recording? ==>
          && s.control.pid in s.children && s.control.pid !in s.jobs
          && s.children[s.control.pid].serial == s.control.serial
          && s.control.serial !in s.started)
    && (s.control.Waiting? ==>
          s.control.pid in s.children && (s.control.fg <==> s.control.pid in s.jobs))
  }

  predicate Tracked(jobs: map<nat, Job>, serial: nat) {
    exists pid :: pid in jobs && jobs[pid].serial == serial
  }

  ghost predicate AllFound(s: State) {
    forall n: nat :: n in s.started <==> n in s.reaped || n in s.taken || Tracked(s.jobs, n)
  }

  /** Every background command is in the map, or a drain took it out, or `fg` did; and only one of these. */
  ghost predicate Accounted(s: State) {
    AllFound(s) && FoundOnce(s) && (forall n :: n in s.started ==> n < s.next)
  }

  ghost predicate FoundOnce(s: State) {
    && (forall pid :: pid in s.jobs ==> s.jobs[pid].serial !in s.reaped && s.jobs[pid].serial !in s.taken)
    && s.reaped !! s.taken
    && (forall pid :: pid in s.children ==> s.children[pid].serial !in s.reaped)
  }

  ghost predicate Invariant(s: State, max: int) {
    NoLostWakeup(s) && JobsAreChildren(s) && SerialsAreUnique(s) && Bounded(s, max) && ControlFits(s) && Accounted(s)
  }

  // What a step keeps.

  lemma WakeupKept(s: State, step: Step, max: int)
    requires Invariant(s, max) && Enabled(s, step, max)
    ensures NoLostWakeup(Apply(s, step, max))
  {
    hide Accounted, Bounded, SerialsAreUnique, ControlFits, JobsAreChildren;
  }

  lemma JobsKept(s: State, step: Step, max: int)
    requires JobsAreChildren(s) && ControlFits(s) && Enabled(s, step, max)
    ensures JobsAreChildren(Apply(s, step, max))
  {
    if Asynchronous(step) || step.Fg? {
      ChildrenStay(s, step, max);
      hide Apply, Enabled;
    } else if s.control.Waiting? {
      WaitKeepsJobs(s, step, max);
    }
  }

  lemma ChildrenStay(s: State, step: Step, max: int)
    requires Enabled(s, step, max) && (Asynchronous(step) || step.Fg?)
    ensures var t := Apply(s, step, max);
            && t.jobs == s.jobs && t.children.Keys == s.children.Keys
            && forall pid :: pid in s.children ==> t.children[pid].serial == s.children[pid].serial
  {
  }

  lemma WaitKeepsJobs(s: State, step: Step, max: int)
    requires JobsAreChildren(s) && ControlFits(s) && Enabled(s, step, max) && s.control.Waiting? && !Asynchronous(step)
    ensures JobsAreChildren(Apply(s, step, max))
  {
  }

  /** Every process of `t` was already in `s`, or is the one new process. */
  predicate SameProcesses(s: State, t: State) {
    && s.next <= t.next
    && (forall pid :: pid in t.children ==>
          || (pid in s.children && t.children[pid].serial == s.children[pid].serial)
          || (pid !in s.children && t.children[pid].serial == s.next < t.next))
    && (forall p, q :: p in t.children && q in t.children && p !in s.children && q !in s.children ==> p == q)
  }

  /** No process of `t` is new. */
  predicate NoNewProcess(s: State, t: State) {
    && t.next == s.next
    && forall pid :: pid in t.children ==> pid in s.children && t.children[pid].serial == s.children[pid].serial
  }

  lemma ChangeMakesNone(s: State, pid: nat, phase: Phase)
    requires pid in s.children
    ensures NoNewProcess(s, Changed(s, pid, phase))
  {
  }

  lemma AsynchronousMakesNone(s: State, step: Step, max: int)
    requires Enabled(s, step, max) && (Asynchronous(step) || step.Fg?)
    ensures NoNewProcess(s, Apply(s, step, max))
  {
    if !step.Deliver? && step.pid in s.children {
      var phase := if step.Exit? then Dead(step.ending) else if step.Stop? then Stopped else Running;
      ChangeMakesNone(s, step.pid, phase);
      hide Changed;
    }
  }

  lemma DrainMakesNone(s: State, pid: nat, max: int)
    requires Enabled(s, DrainOne(pid), max)
    ensures NoNewProcess(s, Apply(s, DrainOne(pid), max))
  {
  }

  lemma ReturnMakesNone(s: State, step: Step, max: int)
    requires Enabled(s, step, max) && (step.WaitEnds? || step.WaitStopped? || step.Interrupted?)
    ensures NoNewProcess(s, Apply(s, step, max))
  {
    assert WaitReturned(s).children == s.children && WaitReturned(s).next == s.next;
    hide WaitReturned;
  }

  lemma RestMakesNone(s: State, step: Step, max: int)
    requires Enabled(s, step, max)
    requires step.Reap? || step.Test? || step.Clear? || step.DrainNone? || step.Refuse? || step.Record? || step.Await?
    ensures NoNewProcess(s, Apply(s, step, max))
  {
  }

  /** Only a fork makes a process. */
  lemma OthersMakeNone(s: State, step: Step, max: int)
    requires Enabled(s, step, max) && !step.ForkBackground? && !step.Spawn?
    ensures NoNewProcess(s, Apply(s, step, max))
  {
    hide Apply, Enabled, NoNewProcess;
    if Asynchronous(step) || step.Fg? {
      AsynchronousMakesNone(s, step, max);
    } else if step.DrainOne? {
      DrainMakesNone(s, step.pid, max);
    } else if step.WaitEnds? || step.WaitStopped? || step.Interrupted? {
      ReturnMakesNone(s, step, max);
    } else {
      RestMakesNone(s, step, max);
    }
  }

  lemma ForkMakesOne(s: State, pid: nat)
    requires pid !in s.children
    ensures SameProcesses(s, Forked(s, pid))
  {
  }

  lemma ProcessesChange(s: State, step: Step, max: int)
    requires Enabled(s, step, max)
    ensures SameProcesses(s, Apply(s, step, max))
  {
    if step.ForkBackground? || step.Spawn? {
      ForkMakesOne(s, step.pid);
    } else {
      OthersMakeNone(s, step, max);
      hide Apply, Enabled;
    }
  }

  lemma SerialsKept(s: State, step: Step, max: int)
    requires SerialsAreUnique(s) && Enabled(s, step, max)
    ensures SerialsAreUnique(Apply(s, step, max))
  {
    ProcessesChange(s, step, max);
    hide Apply, Enabled;
  }

  lemma AsynchronousKeepsFit(s: State, step: Step, max: int)
    requires ControlFits(s) && Enabled(s, step, max) && Asynchronous(step)
    ensures ControlFits(Apply(s, step, max))
  {
  }

  lemma ForkKeepsFit(s: State, pid: nat, command: string, max: int)
    requires JobsAreChildren(s) && Enabled(s, ForkBackground(pid, command), max)
    requires forall n :: n in s.started ==> n < s.next
    ensures ControlFits(Apply(s, ForkBackground(pid, command), max))
  {
  }

  lemma FitKept(s: State, step: Step, max: int)
    requires Invariant(s, max) && Enabled(s, step, max)
    ensures ControlFits(Apply(s, step, max))
  {
    hide Bounded, NoLostWakeup, Tracked, SerialsAreUnique;
    if Asynchronous(step) {
      hide Accounted, JobsAreChildren;
      AsynchronousKeepsFit(s, step, max);
    } else if step.ForkBackground? {
      hide ControlFits;
      ForkKeepsFit(s, step.pid, step.command, max);
    } else {
      hide Accounted;
    }
  }

  lemma FewerJobs(jobs: map<nat, Job>, pid: nat)
    ensures |jobs - {pid}| <= |jobs|
  {
    assert (jobs - {pid}).Keys == jobs.Keys - {pid};
  }

  lemma OneMoreJob(jobs: map<nat, Job>, pid: nat, job: Job)
    ensures |jobs[pid := job]| <= |jobs| + 1
  {
    assert jobs[pid := job].Keys == jobs.Keys + {pid};
  }

  lemma TrackedAfterRemoval(jobs: map<nat, Job>, pid: nat, n: nat)
    requires pid in jobs
    ensures Tracked(jobs, n) <==> Tracked(jobs - {pid}, n) || n == jobs[pid].serial
  {
    var rest := jobs - {pid};
    if Tracked(jobs, n) {
      var p :| p in jobs && jobs[p].serial == n;
      assert p != pid ==> p in rest && rest[p].serial == n;
    }
    if Tracked(rest, n) {
      var p :| p in rest && rest[p].serial == n;
      assert p in jobs;
    }
  }

  lemma TrackedAfterEntry(jobs: map<nat, Job>, pid: nat, job: Job, n: nat)
    requires pid !in jobs
    ensures Tracked(jobs[pid := job], n) <==> Tracked(jobs, n) || n == job.serial
  {
    var more := jobs[pid := job];
    if Tracked(jobs, n) {
      var p :| p in jobs && jobs[p].serial == n;
      assert p in more && more[p].serial == n;
    }
    if n == job.serial { assert pid in more && more[pid].serial == n; }
  }

  /** The job map and the histories are as before. */
  predicate Quiet(s: State, t: State) {
    t.jobs == s.jobs && t.started == s.started && t.reaped == s.reaped && t.taken == s.taken
  }

  predicate Entered(s: State, t: State) {
    && s.control.Recording? && t.reaped == s.reaped && t.taken == s.taken
    && t.children == s.children && t.next == s.next
    && t.jobs == s.jobs[s.control.pid := Job(s.control.command, s.control.serial)]
    && t.started == s.started + {s.control.serial}
  }

  /** Job `pid` left the map: a drain reaped it, or `fg` took it. */
  predicate Removed(s: State, t: State, pid: nat) {
    && pid in s.jobs && t.jobs == s.jobs - {pid} && t.started == s.started && t.next == s.next
    && (|| (t.reaped == s.reaped + {s.jobs[pid].serial} && t.taken == s.taken && t.children == s.children - {pid})
        || (t.reaped == s.reaped && t.taken == s.taken + {s.jobs[pid].serial}))
    && (forall p :: p in t.children ==> p in s.children && t.children[p].serial == s.children[p].serial)
  }

  /** The steps that take job `pid` out of the map. */
  predicate Leaves(s: State, step: Step, pid: nat) {
    && pid in s.jobs
    && (|| (step == DrainOne(pid) && pid in s.children && s.children[pid].phase.Dead?)
        || ((step.WaitEnds? || step.WaitStopped? || step.Interrupted?)
            && s.control.Waiting? && s.control.fg && s.control.pid == pid))
  }

  lemma LeavingRemoves(s: State, step: Step, max: int, pid: nat)
    requires Enabled(s, step, max) && Leaves(s, step, pid)
    ensures Removed(s, Apply(s, step, max), pid)
  {
  }

  lemma RecordEnters(s: State, max: int)
    requires Enabled(s, Record, max)
    ensures Entered(s, Apply(s, Record, max))
  {
  }

  lemma DrainOfAnother(s: State, step: Step, max: int)
    requires Enabled(s, step, max) && step.DrainOne? && !Leaves(s, step, step.pid)
    ensures Quiet(s, Apply(s, step, max))
  {
    if step.pid !in s.jobs { assert s.jobs - {step.pid} == s.jobs; }
  }

  lemma NoJobTaken(s: State)
    requires s.control.Waiting? && !(s.control.fg && s.control.pid in s.jobs)
    ensures WaitReturned(s) == s.(control := Idle)
  {
  }

  lemma WaitForAnother(s: State, step: Step, max: int)
    requires Enabled(s, step, max) && (step.WaitEnds? || step.WaitStopped? || step.Interrupted?)
    requires !Leaves(s, step, s.control.pid)
    ensures Quiet(s, Apply(s, step, max))
  {
    assert !(s.control.fg && s.control.pid in s.jobs);
    NoJobTaken(s);
    hide WaitReturned, Leaves;
  }

  lemma OthersAreQuiet(s: State, step: Step, max: int)
    requires Enabled(s, step, max) && !step.Record? && forall pid :: !Leaves(s, step, pid)
    ensures Quiet(s, Apply(s, step, max))
  {
    if step.DrainOne? {
      assert !Leaves(s, step, step.pid);
      DrainOfAnother(s, step, max);
    } else if step.WaitEnds? || step.WaitStopped? || step.Interrupted? {
      assert !Leaves(s, step, s.control.pid);
      WaitForAnother(s, step, max);
    }
  }

  lemma RecordingAfter(s: State, step: Step, max: int)
    requires Enabled(s, step, max) && Apply(s, step, max).control.Recording?
    ensures |s.jobs| < max || s.control.Recording?
    ensures !step.Record? && forall pid :: !Leaves(s, step, pid)
  {
  }

  lemma BoundKept(s: State, step: Step, max: int)
    requires Bounded(s, max) && Enabled(s, step, max)
    ensures Bounded(Apply(s, step, max), max)
  {
    var t := Apply(s, step, max);
    if t.control.Recording? { RecordingAfter(s, step, max); }
    if step.Record? {
      RecordEnters(s, max);
      hide Apply, Enabled;
      OneMoreJob(s.jobs, s.control.pid, Job(s.control.command, s.control.serial));
    } else if pid :| Leaves(s, step, pid) {
      LeavingRemoves(s, step, max, pid);
      hide Apply, Enabled;
      FewerJobs(s.jobs, pid);
    } else {
      OthersAreQuiet(s, step, max);
      hide Apply, Enabled;
    }
  }

  /** A job leaves the map only when a drain reaps its process or `fg` has waited for it. */
  lemma JobLeavesOnlyBy(s: State, step: Step, max: int, pid: nat)
    requires Enabled(s, step, max) && pid in s.jobs
    ensures pid !in Apply(s, step, max).jobs <==> Leaves(s, step, pid)
  {
    if p :| Leaves(s, step, p) {
      LeavingRemoves(s, step, max, p);
      assert p != pid ==> !Leaves(s, step, pid);
    } else if step.Record? {
      RecordEnters(s, max);
    } else {
      OthersAreQuiet(s, step, max);
    }
    hide Apply, Enabled;
  }

  lemma EnteredAccounted(s: State, t: State, max: int)
    requires Invariant(s, max) && Entered(s, t)
    ensures Accounted(t)
  {
    assert s.control.serial < s.next && s.control.serial !in s.reaped;
    hide AllFound, Bounded, NoLostWakeup, SerialsAreUnique, JobsAreChildren;
    EnteredIsFound(s, t);
    EnteredIsFoundOnce(s, t);
    hide FoundOnce;
  }

  lemma EnteredIsFound(s: State, t: State)
    requires AllFound(s) && Entered(s, t) && s.control.pid !in s.jobs
    ensures AllFound(t)
  {
    var job := Job(s.control.command, s.control.serial);
    forall n: nat ensures Tracked(t.jobs, n) <==> Tracked(s.jobs, n) || n == job.serial {
      TrackedAfterEntry(s.jobs, s.control.pid, job, n);
    }
    hide Tracked;
  }

  lemma EnteredIsFoundOnce(s: State, t: State)
    requires FoundOnce(s) && Entered(s, t) && s.control.serial !in s.reaped && s.control.serial !in s.taken
    ensures FoundOnce(t)
  {
  }

  lemma RemovedIsUnique(s: State, t: State, pid: nat)
    requires JobsAreChildren(s) && SerialsAreUnique(s) && Removed(s, t, pid)
    ensures forall p :: p in t.jobs ==> p in s.jobs && t.jobs[p] == s.jobs[p] && s.jobs[p].serial != s.jobs[pid].serial
    ensures t.reaped != s.reaped ==> forall p :: p in t.children ==> t.children[p].serial != s.jobs[pid].serial
    ensures forall p :: p in t.children ==> p in s.children && t.children[p].serial == s.children[p].serial
  {
  }

  lemma RemovedAccounted(s: State, t: State, pid: nat)
    requires Accounted(s) && JobsAreChildren(s) && SerialsAreUnique(s) && Removed(s, t, pid)
    ensures Accounted(t)
  {
    RemovedIsFound(s, t, pid);
    RemovedIsFoundOnce(s, t, pid);
    hide JobsAreChildren, SerialsAreUnique, AllFound, FoundOnce;
  }

  lemma RemovedIsFoundOnce(s: State, t: State, pid: nat)
    requires FoundOnce(s) && JobsAreChildren(s) && SerialsAreUnique(s) && Removed(s, t, pid)
    ensures FoundOnce(t)
  {
    RemovedIsUnique(s, t, pid);
    hide JobsAreChildren, SerialsAreUnique;
    var n := s.jobs[pid].serial;
    if t.reaped == s.reaped {
      assert t.taken == s.taken + {n};
    } else {
      assert t.taken == s.taken && t.reaped == s.reaped + {n};
    }
  }

  lemma RemovedIsFound(s: State, t: State, pid: nat)
    requires AllFound(s) && JobsAreChildren(s) && SerialsAreUnique(s) && Removed(s, t, pid)
    ensures AllFound(t)
  {
    forall n: nat ensures Tracked(s.jobs, n) <==> Tracked(t.jobs, n) || n == s.jobs[pid].serial {
      TrackedAfterRemoval(s.jobs, pid, n);
    }
    hide JobsAreChildren, SerialsAreUnique, Tracked;
  }

  lemma QuietAccounted(s: State, t: State)
    requires Accounted(s) && Quiet(s, t) && SameProcesses(s, t)
    ensures Accounted(t)
  {
    hide Tracked;
  }

  lemma AccountKept(s: State, step: Step, max: int)
    requires Invariant(s, max) && Enabled(s, step, max)
    ensures Accounted(Apply(s, step, max))
  {
    var t := Apply(s, step, max);
    hide Accounted, Bounded, NoLostWakeup, SerialsAreUnique, JobsAreChildren, ControlFits,
         Quiet, Entered, Removed, SameProcesses;
    if step.Record? {
      RecordEnters(s, max);
      hide Apply, Enabled;
      EnteredAccounted(s, t, max);
    } else if pid :| Leaves(s, step, pid) {
      LeavingRemoves(s, step, max, pid);
      hide Apply, Enabled;
      RemovedAccounted(s, t, pid);
    } else {
      OthersAreQuiet(s, step, max);
      ProcessesChange(s, step, max);
      hide Apply, Enabled;
      QuietAccounted(s, t);
    }
  }

  lemma StepKeeps(s: State, step: Step, max: int)
    requires Invariant(s, max) && Enabled(s, step, max)
    ensures Invariant(Apply(s, step, max), max)
  {
    WakeupKept(s, step, max);
    JobsKept(s, step, max);
    SerialsKept(s, step, max);
    FitKept(s, step, max);
    BoundKept(s, step, max);
    AccountKept(s, step, max);
  }

  /** The invariants hold after every run, whatever the interleaving. */
  lemma {:induction false} InvariantAlways(steps: seq<Step>, max: int)
    requires Runs(steps, max)
    ensures Invariant(After(steps, max), max)
  {
    if steps != [] {
      InvariantAlways(steps[..|steps| - 1], max);
      StepKeeps(After(steps[..|steps| - 1], max), steps[|steps| - 1], max);
    }
  }

  // What the invariants give over whole runs.

  /** Back at the prompt with no signal pending and the flag clear, no zombie is left. */
  lemma QuietPromptHasNoZombies(steps: seq<Step>, max: int)
    requires Runs(steps, max)
    requires var s := After(steps, max); s.control.Idle? && !s.pending && !s.flag
    ensures var s := After(steps, max); forall pid :: pid in s.children ==> !s.children[pid].phase.Dead?
  {
    InvariantAlways(steps, max);
  }

  /** The cap holds after every run, and a job's pid always belongs to the process the job was made for. */
  lemma JobMapIsSound(steps: seq<Step>, max: int)
    requires Runs(steps, max)
    ensures var s := After(steps, max);
            && |s.jobs| <= (if max < 0 then 0 else max)
            && s.jobs.Keys <= s.children.Keys
            && forall pid :: pid in s.jobs ==> s.children[pid].serial == s.jobs[pid].serial
  {
    InvariantAlways(steps, max);
  }

  /** A background process still unreaped is in the map exactly when `fg` has not taken it. */
  lemma LiveJobIsTrackedIff(steps: seq<Step>, max: int, pid: nat)
    requires Runs(steps, max)
    requires pid in After(steps, max).children && After(steps, max).children[pid].serial in After(steps, max).started
    ensures var s := After(steps, max); pid in s.jobs <==> s.children[pid].serial !in s.taken
  {
    InvariantAlways(steps, max);
    var s := After(steps, max);
    var n := s.children[pid].serial;
    if Tracked(s.jobs, n) {
      var p :| p in s.jobs && s.jobs[p].serial == n;
      assert p == pid;
    }
  }

  /** `fg` continues a stopped job, which raises SIGCHLD, leaves any other as it is, and waits for it. */
  lemma FgResumes(s: State, pid: nat, max: int)
    requires JobsAreChildren(s) && Enabled(s, Fg(pid), max)
    ensures var t := Apply(s, Fg(pid), max);
            && t.control == Waiting(pid, true, true) && t.jobs == s.jobs
            && t.children.Keys == s.children.Keys && pid in t.children
            && (if s.children[pid].phase == Stopped then
                  t.children[pid] == Child(Running, true, s.children[pid].serial) && t.pending
                else t.children[pid] == s.children[pid] && t.pending == s.pending)
            && forall p :: p in s.children && p != pid ==> t.children[p] == s.children[p]
  {
  }

  /** While `fg` waits only the children and the kernel move, until the wait returns. */
  lemma WhileFgWaits(s: State, step: Step, max: int)
    requires Enabled(s, step, max) && s.control.Waiting?
    ensures Asynchronous(step) || step.WaitEnds? || step.WaitStopped? || step.Interrupted?
  {
  }

  predicate AllAsynchronous(steps: seq<Step>) {
    forall i :: 0 <= i < |steps| ==> Asynchronous(steps[i])
  }

  /** What is known of the process `fg` waits for, `since` being the steps taken since. */
  ghost predicate Awaited(before: State, pid: nat, since: seq<Step>, s: State) {
    && s.control == Waiting(pid, true, true) && pid in s.children && pid in before.children
    && (s.children[pid].phase.Stopped? ==> Stop(pid) in since)
    && (forall ending :: Exit(pid, ending) in since ==> s.children[pid].phase == Dead(ending))
    && (s.children[pid].phase.Dead? ==> s.children[pid].phase == before.children[pid].phase
                                        || Exit(pid, s.children[pid].phase.ending) in since)
  }

  lemma AwaitedAtFirst(s: State, pid: nat, max: int)
    requires JobsAreChildren(s) && Enabled(s, Fg(pid), max)
    ensures Awaited(s, pid, [], Apply(s, Fg(pid), max))
  {
    FgResumes(s, pid, max);
    hide Apply, Enabled;
  }

  /** What an asynchronous step does to one child. */
  lemma AsynchronousChild(s: State, step: Step, pid: nat, max: int)
    requires Enabled(s, step, max) && Asynchronous(step) && pid in s.children
    ensures var t := Apply(s, step, max);
            && t.control == s.control && pid in t.children
            && t.children[pid].phase == (if step.Exit? && step.pid == pid then Dead(step.ending)
                                         else if step == Stop(pid) then Stopped
                                         else if step == Continue(pid) then Running
                                         else s.children[pid].phase)
    ensures step.Exit? && step.pid == pid ==> !s.children[pid].phase.Dead?
    ensures step == Stop(pid) || step == Continue(pid) ==> !s.children[pid].phase.Dead?
  {
  }

  lemma AwaitedKept(before: State, pid: nat, since: seq<Step>, s: State, step: Step, max: int)
    requires Awaited(before, pid, since, s) && Enabled(s, step, max) && Asynchronous(step)
    ensures Awaited(before, pid, since + [step], Apply(s, step, max))
  {
    AsynchronousChild(s, step, pid, max);
    hide Apply, Enabled;
    forall ending | Exit(pid, ending) in since + [step]
      ensures Apply(s, step, max).children[pid].phase == Dead(ending)
    {
      assert Exit(pid, ending) in since || step == Exit(pid, ending);
    }
  }

  lemma LastStepOf(a: seq<Step>, step: Step, max: int)
    requires Runs(a + [step], max)
    ensures Runs(a, max) && Enabled(After(a, max), step, max)
    ensures After(a + [step], max) == Apply(After(a, max), step, max)
  {
    assert (a + [step])[..|a + [step]| - 1] == a;
  }

  /** After `fg` on `pid` and any steps of the children and the kernel. */
  lemma {:induction false} AwaitedSince(a: seq<Step>, pid: nat, b: seq<Step>, max: int)
    requires Runs(a + [Fg(pid)] + b, max) && AllAsynchronous(b)
    ensures Runs(a, max) && Awaited(After(a, max), pid, b, After(a + [Fg(pid)] + b, max))
    decreases |b|
  {
    hide Runs, After, Awaited, Apply, Enabled;
    var begun := a + [Fg(pid)];
    if b == [] {
      assert begun + b == begun;
      LastStepOf(a, Fg(pid), max);
      InvariantAlways(a, max);
      AwaitedAtFirst(After(a, max), pid, max);
    } else {
      var front, last := b[..|b| - 1], b[|b| - 1];
      assert front + [last] == b && begun + b == begun + front + [last];
      LastStepOf(begun + front, last, max);
      AwaitedSince(a, pid, front, max);
      AwaitedKept(After(a, max), pid, front, After(begun + front, max), last, max);
    }
  }

  /** `fg` comes back from a stop only when the job was stopped after `fg` had continued it. */
  lemma FgReturnsOnStop(a: seq<Step>, pid: nat, b: seq<Step>, max: int)
    requires Runs(a + [Fg(pid)] + b + [WaitStopped], max) && AllAsynchronous(b)
    ensures Stop(pid) in b
  {
    LastStepOf(a + [Fg(pid)] + b, WaitStopped, max);
    AwaitedSince(a, pid, b, max);
    hide Runs, After;
  }

  /** A job that exits under `fg` is waited for, by its own ending: no other return but an interruption is possible. */
  lemma FgSeesExit(a: seq<Step>, pid: nat, b: seq<Step>, ending: Ending, max: int)
    requires Runs(a + [Fg(pid)] + b, max) && AllAsynchronous(b) && Exit(pid, ending) in b
    ensures var s := After(a + [Fg(pid)] + b, max);
            && pid in s.children && s.children[pid].phase == Dead(ending)
            && Enabled(s, WaitEnds, max) && !Enabled(s, WaitStopped, max)
  {
    AwaitedSince(a, pid, b, max);
  }

  /** However `fg`'s wait returns, the process stays a child outside the map unless it was the wait for its end. */
  lemma FgForgetsJobIff(s: State, step: Step, max: int)
    requires Invariant(s, max) && Enabled(s, step, max) && s.control.Waiting? && s.control.fg
    requires step.WaitEnds? || step.WaitStopped? || step.Interrupted?
    ensures var t := Apply(s, step, max); var pid := s.control.pid;
            pid !in t.jobs && (pid in t.children <==> !step.WaitEnds?)
            && (step.WaitStopped? ==> t.children[pid].phase.Stopped?)
  {
    assert ControlFits(s);
    hide Accounted, NoLostWakeup, Bounded, SerialsAreUnique, JobsAreChildren;
  }

  /** A job that stops under `fg` goes on living outside the map: a run from the start that gets there. */
  lemma FgForgetsStoppedJob(command: string, max: int)
    requires max >= 1
    ensures var steps := [ForkBackground(0, command), Record, Fg(0), Stop(0), WaitStopped];
            && Runs(steps, max)
            && var s := After(steps, max);
               s.control.Idle? && 0 in s.children && s.children[0].phase.Stopped? && 0 !in s.jobs
               && s.children[0].serial in s.started
  {
    assert Runs([], max) && After([], max) == START;
    hide Runs, After, Enabled, Apply;
    var forked, recorded := StartingSteps(command, max);
    var waiting, stopped, left := ForgettingSteps(recorded, max);
    OneMore([], ForkBackground(0, command), START, forked, max);
    var one := [] + [ForkBackground(0, command)];
    OneMore(one, Record, forked, recorded, max);
    var two := one + [Record];
    OneMore(two, Fg(0), recorded, waiting, max);
    var three := two + [Fg(0)];
    OneMore(three, Stop(0), waiting, stopped, max);
    var four := three + [Stop(0)];
    OneMore(four, WaitStopped, stopped, left, max);
    assert four + [WaitStopped] == [ForkBackground(0, command), Record, Fg(0), Stop(0), WaitStopped];
  }

  /** Process 0 runs as a recorded job. */
  predicate RunningJob(s: State) {
    && s.control.Idle? && 0 in s.jobs && 0 in s.children
    && s.children[0].phase.Running? && s.children[0].serial in s.started
  }

  lemma StartingSteps(command: string, max: int) returns (forked: State, recorded: State)
    requires max >= 1
    ensures Enabled(START, ForkBackground(0, command), max) && Apply(START, ForkBackground(0, command), max) == forked
    ensures Enabled(forked, Record, max) && Apply(forked, Record, max) == recorded && RunningJob(recorded)
  {
    forked := Apply(START, ForkBackground(0, command), max);
    recorded := Apply(forked, Record, max);
  }

  lemma ForgettingSteps(s: State, max: int) returns (waiting: State, stopped: State, left: State)
    requires RunningJob(s)
    ensures Enabled(s, Fg(0), max) && Apply(s, Fg(0), max) == waiting
    ensures Enabled(waiting, Stop(0), max) && Apply(waiting, Stop(0), max) == stopped
    ensures Enabled(stopped, WaitStopped, max) && Apply(stopped, WaitStopped, max) == left
    ensures left.control.Idle? && 0 in left.children && left.children[0].phase.Stopped? && 0 !in left.jobs
    ensures left.children[0].serial in left.started
  {
    waiting := Apply(s, Fg(0), max);
    stopped := Apply(waiting, Stop(0), max);
    left := Apply(stopped, WaitStopped, max);
  }

  lemma OneMore(steps: seq<Step>, step: Step, s: State, t: State, max: int)
    requires Runs(steps, max) && After(steps, max) == s && Enabled(s, step, max) && Apply(s, step, max) == t
    ensures Runs(steps + [step], max) && After(steps + [step], max) == t
  {
    hide Enabled, Apply;
    var all := steps + [step];
    assert all[..|all| - 1] == steps && all[|all| - 1] == step;
  }

  function ReadySet(s: State): set<nat> {
    set pid | pid in s.children && Ready(s.children[pid])
  }

  /** A drain is over when no child is dead and no stop or continuation is unreported. */
  lemma DrainedMeans(s: State, max: int)
    requires s.control.Draining?
    ensures Enabled(s, DrainNone, max) <==>
            forall pid :: pid in s.children ==> !s.children[pid].phase.Dead? && !s.children[pid].news
  {
  }

  /** A delivery is taken once: it leaves the flag set and nothing pending, and disturbs nothing else. */
  lemma DeliveredOnce(s: State, max: int)
    requires s.pending
    ensures var t := Apply(s, Deliver, max);
            t.flag && !t.pending && !Enabled(t, Deliver, max) && t == s.(pending := false, flag := true)
  {
  }

  /** A stop is reported once: neither a wait nor a drain sees it again before the next one. */
  lemma StopIsReportedOnce(s: State, max: int)
    requires Enabled(s, WaitStopped, max)
    ensures var pid := s.control.pid; var t := Apply(s, WaitStopped, max);
            && pid in t.children && t.children[pid].phase.Stopped?
            && (forall fg, untraced :: !Enabled(t.(control := Waiting(pid, fg, untraced)), WaitStopped, max))
            && !Enabled(t.(control := Draining), DrainOne(pid), max)
  {
  }

  /** A fork adds one running child with a new serial, and disturbs no other. */
  lemma ForksAreRunning(s: State, step: Step, max: int)
    requires Enabled(s, step, max) && (step.Spawn? || step.ForkBackground?)
    ensures var t := Apply(s, step, max);
            && t.children == s.children[step.pid := Child(Running, false, s.next)] && t.next == s.next + 1
            && t.jobs == s.jobs && t.pending == s.pending && t.flag == s.flag
            && t.control == if step.Spawn? then Idle else Recording(step.pid, step.command, s.next)
  {
  }

  /** A foreground wait comes back for a stop exactly when it was asked to and the stop is unreported. */
  lemma AwaitSeesStops(s: State, pid: nat, untraced: bool, max: int)
    requires Enabled(s, Await(pid, untraced), max)
    ensures var t := Apply(s, Await(pid, untraced), max);
            && t == s.(control := t.control)
            && (Enabled(t, WaitStopped, max) <==> untraced && s.children[pid].phase.Stopped? && s.children[pid].news)
            && (Enabled(t, WaitEnds, max) <==> s.children[pid].phase.Dead?)
  {
  }

  /** A stop of a running child is news, and raises SIGCHLD; so is a continuation. */
  lemma ChangesAreNews(s: State, step: Step, max: int)
    requires Enabled(s, step, max) && (step.Stop? || step.Continue?)
    ensures var t := Apply(s, step, max);
            && t.pending
            && t.children[step.pid] ==
               Child(if step.Stop? then Stopped else Running, true, s.children[step.pid].serial)
  {
  }

  /** Left alone, a drain takes one report per turn and ends with none, so it ends. */
  lemma DrainProgresses(s: State, step: Step, max: int)
    requires Enabled(s, step, max) && s.control.Draining? && !Asynchronous(step)
    ensures var t := Apply(s, step, max);
            if ReadySet(s) == {} then step.DrainNone? && t.control.Testing?
            else step.DrainOne? && t.control.Draining?
                 && step.pid in ReadySet(s) && ReadySet(t) == ReadySet(s) - {step.pid}
  {
    hide ReadySet;
    if step.DrainNone? {
      NoneReady(s);
    } else {
      OneReported(s, step.pid, max);
    }
  }

  lemma NoneReady(s: State)
    requires forall pid :: pid in s.children ==> !Ready(s.children[pid])
    ensures ReadySet(s) == {}
  {
  }

  lemma OneReported(s: State, pid: nat, max: int)
    requires Enabled(s, DrainOne(pid), max)
    ensures var t := Apply(s, DrainOne(pid), max);
            t.control.Draining? && pid in ReadySet(s) && ReadySet(t) == ReadySet(s) - {pid}
  {
    var t := Apply(s, DrainOne(pid), max);
    assert forall p :: p in t.children ==> p in s.children && (p != pid ==> t.children[p] == s.children[p]);
    assert pid in t.children ==> !Ready(t.children[pid]);
    hide Apply, Enabled;
  }
}
