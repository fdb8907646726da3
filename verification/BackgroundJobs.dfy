/**
 The shell's own code for background jobs, running among the asynchronous steps of its children:
 every step it takes is a step of the state machine in `Reaping`.
 */
module BackgroundJobs {
  import Descriptors
  import opened Reaping

  /** Nothing but the children, the pending signal and the flag has changed. */
  predicate SameHistory(a: State, b: State) {
    b.jobs == a.jobs && b.started == a.started && b.reaped == a.reaped && b.taken == a.taken && b.next == a.next
  }

  /**
   What `fg` returns when its wait returned by `step`: the code of a process that exited, else 1.
   After an interrupted wait the code reads a status nobody wrote, so nothing is said.
   */
  predicate FgStatus(waiting: State, step: Step, status: int) {
    && (step.WaitEnds? || step.WaitStopped? || step.Interrupted?)
    && waiting.control.Waiting?
    && (step.WaitEnds? ==>
          var pid := waiting.control.pid;
          && pid in waiting.children && waiting.children[pid].phase.Dead?
          && var ending := waiting.children[pid].phase.ending;
             status == if ending.Exited? then ending.code else 1)
    && (step.WaitStopped? ==> status == 1)
  }

  /** The run went on by steps of the children and the kernel only. */
  ghost predicate OnlyChildrenMoved(before: seq<Step>, after: seq<Step>) {
    before <= after && AllAsynchronous(after[|before|..])
  }

  /** What `fg` on `pid` returns, from the steps of the run since then and the step by which the wait returned. */
  ghost predicate FgResult(pid: nat, since: seq<Step>, last: Step, status: int) {
    && AllAsynchronous(since)
    && (last.WaitStopped? ==> Stop(pid) in since && status == 1)
    && (forall code :: Exit(pid, Exited(code)) in since ==> last.WaitEnds? && status == code)
    && (forall signal :: Exit(pid, Killed(signal)) in since ==> last.WaitEnds? && status == 1)
  }

  class Shell {
    var s: State
    const max: int
    /** Batches of exits, stops, continuations and deliveries still to come, one per program point. */
    var schedule: seq<seq<Step>>
    ghost var trace: seq<Step>

    constructor (max: int, schedule: seq<seq<Step>>)
      ensures Valid() && s == START && this.max == max && this.schedule == schedule
    {
      this.s, this.max, this.schedule, trace := START, max, schedule, [];
    }

    ghost predicate Valid()
      reads this
    {
      Runs(trace, max) && After(trace, max) == s
    }

    method Do(step: Step)
      requires Valid() && Enabled(s, step, max)
      modifies `s, `trace
      ensures Valid() && s == Apply(old(s), step, max) && trace == old(trace) + [step]
    {
      hide Apply, Enabled;
      s := Apply(s, step, max);
      trace := trace + [step];
      assert trace[..|trace| - 1] == old(trace);
    }

    /** What happens to the children before the next step of the main thread. */
    method Interleave()
      requires Valid()
      modifies `s, `trace, `schedule
      ensures Valid() && s.control == old(s).control
      ensures |schedule| < |old(schedule)| || (old(schedule) == [] == schedule && s == old(s) && trace == old(trace))
      ensures SameHistory(old(s), s) && OnlyChildrenMoved(old(trace), trace)
    {
      if schedule == [] { return; }
      var batch := schedule[0];
      schedule := schedule[1..];
      var i := 0;
      while i < |batch|
        invariant 0 <= i <= |batch| && Valid() && schedule == old(schedule)[1..]
        invariant s.control == old(s).control && SameHistory(old(s), s) && OnlyChildrenMoved(old(trace), trace)
      {
        hide Runs, After;
        if Asynchronous(batch[i]) && Enabled(s, batch[i], max) {
          Do(batch[i]);
        }
        i := i + 1;
      }
    }

    /** `waitpid(-1, ..., WNOHANG | WCONTINUED | WUNTRACED)` until nothing is ready. */
    method CheckBackgroundProcessFinished()
      requires Valid() && s.control.Draining?
      modifies `s, `trace, `schedule
      ensures Valid() && s.control.Testing?
      ensures |schedule| <= |old(schedule)| && (|schedule| == |old(schedule)| ==> s.flag == old(s).flag)
    {
      while true
        invariant Valid() && s.control.Draining?
        invariant |schedule| <= |old(schedule)| && (|schedule| == |old(schedule)| ==> s.flag == old(s).flag)
        decreases |schedule|, |ReadySet(s)|
      {
        Interleave();
        var ready := ReadySet(s);
        if ready == {} {
          assert forall pid :: pid in s.children && Ready(s.children[pid]) ==> pid in ready;
          Do(DrainNone);
          return;
        }
        var pid :| pid in ready;
        DrainProgresses(s, DrainOne(pid), max);
        Do(DrainOne(pid));
      }
    }

    /** Ends at a test that read the flag clear. */
    method ReapBackgroundProcesses()
      requires Valid() && s.control.Idle?
      modifies `s, `trace, `schedule
      ensures Valid() && s.control.Idle? && !s.flag
      ensures forall pid :: pid in s.children && s.children[pid].phase.Dead? ==> s.pending
    {
      Do(Reap);
      while true
        invariant Valid() && s.control.Testing?
        decreases |schedule|, if s.flag then 1 else 0
      {
        Interleave();
        Do(Test);
        if s.control.Idle? {
          InvariantAlways(trace, max);
          return;
        }
        Interleave();
        Do(Clear);
        CheckBackgroundProcessFinished();
      }
    }

    method FreshPid() returns (pid: nat)
      ensures pid !in s.children
    {
      var bound := Descriptors.UpperBound(s.children.Keys);
      assert bound !in s.children;
      pid :| pid !in s.children;
    }

    static lemma NoChildIsNoJob(trace: seq<Step>, max: int, pid: nat)
      requires Runs(trace, max) && pid !in After(trace, max).children
      ensures pid !in After(trace, max).jobs
    {
      InvariantAlways(trace, max);
      hide Runs, After;
    }

    /** Refused at the cap; otherwise a new child is entered, even one that died before its entry was made. */
    method BackgroundProcess(command: string) returns (refused: bool)
      requires Valid() && s.control.Idle?
      modifies `s, `trace, `schedule
      ensures Valid() && s.control.Idle?
      ensures refused <==> |old(s).jobs| >= max
      ensures refused ==> s == old(s)
      ensures !refused ==> exists pid: nat :: pid !in old(s).jobs
                                         && s.jobs == old(s).jobs[pid := Job(command, old(s).next)]
                                         && s.started == old(s).started + {old(s).next}
    {
      if |s.jobs| >= max {
        Do(Refuse);
        return true;
      }
      var pid := FreshPid();
      NoChildIsNoJob(trace, max, pid);
      hide Runs, After;
      StartJob(pid, command);
      return false;
    }

    static lemma ForkEffect(s: State, pid: nat, command: string, max: int)
      requires s.control.Idle? && |s.jobs| < max && pid !in s.children
      ensures Enabled(s, ForkBackground(pid, command), max)
      ensures var t := Apply(s, ForkBackground(pid, command), max);
              t.control == Recording(pid, command, s.next) && t.jobs == s.jobs && t.started == s.started
    {
    }

    static lemma RecordEffect(s: State, max: int)
      requires s.control.Recording?
      ensures Enabled(s, Record, max) && Entered(s, Apply(s, Record, max)) && Apply(s, Record, max).control.Idle?
    {
    }

    /** Forks the child and enters it, whatever happens in between. */
    method StartJob(pid: nat, command: string)
      requires Valid() && s.control.Idle? && |s.jobs| < max && pid !in s.children
      modifies `s, `trace, `schedule
      ensures Valid() && s.control.Idle?
      ensures s.jobs == old(s).jobs[pid := Job(command, old(s).next)] && s.started == old(s).started + {old(s).next}
    {
      hide Runs, After, Apply, Enabled;
      ForkEffect(s, pid, command, max);
      Do(ForkBackground(pid, command));
      Interleave();
      RecordEffect(s, max);
      Do(Record);
    }

    /** `fg`'s wait returns, and the job leaves the map. */
    method Return(step: Step) returns (status: int)
      requires Valid() && Enabled(s, step, max) && s.control.Waiting? && s.control.fg && s.control.pid in s.jobs
      requires step.WaitEnds? || step.WaitStopped? || step.Interrupted?
      modifies `s, `trace
      ensures Valid() && s.control.Idle? && trace == old(trace) + [step]
      ensures s.jobs == old(s).jobs - {old(s).control.pid}
      ensures s.taken == old(s).taken + {old(s).jobs[old(s).control.pid].serial}
      ensures FgStatus(old(s), step, status)
    {
      hide Runs, After;
      status := 1;
      if step.WaitEnds? && s.children[s.control.pid].phase.ending.Exited? {
        status := s.children[s.control.pid].phase.ending.code;
      }
      Do(step);
    }

    /** Waits until the job ends or stops, or the wait is interrupted; the job leaves the map in each case. */
    method BuiltinFg(pid: nat) returns (status: int)
      requires Valid() && s.control.Idle? && pid in s.jobs
      modifies `s, `trace, `schedule
      ensures Valid() && s.control.Idle?
      ensures s.jobs == old(s).jobs - {pid} && s.taken == old(s).taken + {old(s).jobs[pid].serial}
      ensures trace != []
      ensures FgStatus(After(trace[..|trace| - 1], max), trace[|trace| - 1], status)
      ensures old(trace) + [Fg(pid)] <= trace[..|trace| - 1]
      ensures FgResult(pid, trace[|old(trace)| + 1..|trace| - 1], trace[|trace| - 1], status)
    {
      hide Runs, After, FgResult, OnlyChildrenMoved;
      ghost var begun := old(trace) + [Fg(pid)];
      Do(Fg(pid));
      NothingMoved(begun);
      while true
        invariant Valid() && s.control == Waiting(pid, true, true)
        invariant s.jobs == old(s).jobs && s.taken == old(s).taken
        invariant OnlyChildrenMoved(begun, trace)
        decreases |schedule|
      {
        hide Apply;
        ghost var before := trace;
        if Enabled(s, WaitEnds, max) || Enabled(s, WaitStopped, max) || schedule == [] {
          var last := if Enabled(s, WaitEnds, max) then WaitEnds
                      else if Enabled(s, WaitStopped, max) then WaitStopped else Interrupted;
          status := Return(last);
          ReturnedBy(old(trace), pid, before, last, status);
          return;
        }
        hide Enabled;
        Interleave();
        MovedOn(begun, before, trace);
      }
    }

    static lemma NothingMoved(run: seq<Step>)
      ensures OnlyChildrenMoved(run, run)
    {
    }

    static lemma MovedOn(a: seq<Step>, b: seq<Step>, c: seq<Step>)
      requires OnlyChildrenMoved(a, b) && OnlyChildrenMoved(b, c)
      ensures OnlyChildrenMoved(a, c)
    {
      assert c[|a|..] == b[|a|..] + c[|b|..];
    }

    /** The result in terms of the run. */
    lemma ReturnedBy(start: seq<Step>, pid: nat, before: seq<Step>, last: Step, status: int)
      requires Runs(before, max) && OnlyChildrenMoved(start + [Fg(pid)], before)
      requires Enabled(After(before, max), last, max) && FgStatus(After(before, max), last, status)
      requires last.Interrupted? ==> !Enabled(After(before, max), WaitEnds, max)
      ensures var all := before + [last];
              && all[..|all| - 1] == before && all[|all| - 1] == last && start + [Fg(pid)] <= before
              && FgResult(pid, all[|start| + 1..|all| - 1], last, status)
    {
      var since := before[|start| + 1..];
      assert before == start + [Fg(pid)] + since;
      hide FgResult, Runs, After, Enabled, FgStatus;
      AwaitedSince(start, pid, since, max);
      ResultOf(After(start, max), pid, since, After(before, max), last, status, max);
      hide Awaited;
      assert (before + [last])[|start| + 1..|before|] == since;
    }

    static lemma ResultOf(start: State, pid: nat, since: seq<Step>, s: State, last: Step, status: int, max: int)
      requires Awaited(start, pid, since, s) && AllAsynchronous(since)
      requires Enabled(s, last, max) && FgStatus(s, last, status)
      requires last.Interrupted? ==> !Enabled(s, WaitEnds, max)
      ensures FgResult(pid, since, last, status)
    {
      hide AllAsynchronous;
    }
  }
}
