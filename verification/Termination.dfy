/** What becomes of the vCPU threads once main has left its loop. */
module Termination {
  import opened DumpLoops
  import opened Lifecycle

  /** Steps a thread still takes when it reads SHUTDOWN and a clear pause flag. */
  function Rank(pc: VcpuPc): nat {
    match pc
    case Exited => 0
    case NotCreated => 0
    case Head => 1
    case ParkTest => 2
    case WriteShutdown(leave) => if leave then 1 else 2
    case Waiting => 3
    case Guest => 3
    case Enter => 4
    case Check => 5
  }

  ghost predicate Cleared(r: Run)
    requires Valid(r)
  {
    Last(r).vm == Shutdown && !Last(r).paused && !Last(r).main.Creating? &&
    (r.Then? ==> Cleared(r.before))
  }

  lemma RankOwnStep(s: State, step: Step, i: nat)
    requires Enabled(s, step) && i < |s.vcpus| && s.vm == Shutdown && !s.paused && OwnStep(step, i)
    ensures i < |Apply(s, step).vcpus|
    ensures Rank(Apply(s, step).vcpus[i]) < Rank(s.vcpus[i])
  {
    hide WritesShutdown;
  }

  lemma RankOtherStep(s: State, step: Step, i: nat)
    requires Enabled(s, step) && i < |s.vcpus| && !s.main.Creating? && !OwnStep(step, i)
    ensures i < |Apply(s, step).vcpus| && Apply(s, step).vcpus[i] == s.vcpus[i]
  {
    hide Apply, OwnStep, Confined;
    OthersStay(s, step, i);
  }

  /** While the state is SHUTDOWN and the flag clear, a thread takes at most its rank
      of steps, which is never more than five. */
  lemma {:induction false} ExitsWithin(r: Run, i: nat)
    requires Valid(r) && Cleared(r) && i < |First(r).vcpus|
    ensures i < |Last(r).vcpus|
    ensures OwnSteps(r, i) + Rank(Last(r).vcpus[i]) <= Rank(First(r).vcpus[i]) <= 5
  {
    hide Apply, Enabled;
    if r.Then? {
      ExitsWithin(r.before, i);
      if OwnStep(r.step, i) {
        RankOwnStep(Last(r.before), r.step, i);
      } else {
        RankOtherStep(Last(r.before), r.step, i);
      }
    }
  }

  /** A step of a PAUSE or RESUME handler that writes the state or sets the flag. */
  predicate PausesOrResumes(s: State, step: Step) {
    step.Main? && (s.main.PauseState? || s.main.PauseFlag? || s.main.ResumeState?)
  }

  ghost predicate NoPauseOrResume(r: Run)
    requires Valid(r)
  {
    r.Then? ==> NoPauseOrResume(r.before) && !PausesOrResumes(Last(r.before), r.step)
  }

  predicate ShutAndClear(s: State) {
    s.vm == Shutdown && !s.paused && !s.main.Creating? && !s.main.StartWrite?
  }

  lemma ClearStep(s: State, step: Step)
    requires Enabled(s, step) && ShutAndClear(s) && !PausesOrResumes(s, step)
    ensures ShutAndClear(Apply(s, step))
  {
    hide NextCommand, AfterReply, ServedText, Confined;
  }

  /** With no PAUSE or RESUME handled, a cleared shutdown lasts, so that every thread
      is done within five steps of its own from then on. */
  lemma {:induction false} ShutdownLasts(r: Run)
    requires Valid(r) && ShutAndClear(First(r)) && NoPauseOrResume(r)
    ensures Cleared(r) && ShutAndClear(Last(r))
  {
    hide Apply, Enabled, PausesOrResumes;
    if r.Then? {
      ShutdownLasts(r.before);
      ClearStep(Last(r.before), r.step);
    }
  }

  /** A created thread that has not exited is never stuck: it has a step of its own,
      unless it is in the condition wait. */
  lemma NeverStuck(s: State, i: nat)
    requires i < |s.vcpus| && Rank(s.vcpus[i]) > 0 && !s.vcpus[i].Waiting?
    ensures exists step :: OwnStep(step, i) && Enabled(s, step)
  {
    if s.vcpus[i].Guest? {
      assert OwnStep(Return(i, Hlt), i) && Enabled(s, Return(i, Hlt));
    } else {
      assert OwnStep(Vcpu(i), i) && Enabled(s, Vcpu(i));
    }
  }

  // ----- after main has left its loop -----

  lemma AfterDone(s: State, step: Step)
    requires Enabled(s, step) && s.main.Done? && s.vm == Shutdown
    ensures var s' := Apply(s, step);
            s'.main.Done? && s'.vm == Shutdown && s'.paused == s.paused && |s'.vcpus| == |s.vcpus|
  {
    hide NextCommand, AfterReply, Handler, ServedText, Confined;
  }

  /** Once main has left its loop on SHUTDOWN, state and flag never change again. */
  lemma {:induction false} DoneIsFinal(r: Run)
    requires Valid(r) && First(r).main.Done? && First(r).vm == Shutdown
    ensures Last(r).main.Done? && Last(r).vm == Shutdown && Last(r).paused == First(r).paused
    ensures |Last(r).vcpus| == |First(r).vcpus|
    ensures !First(r).paused ==> Cleared(r)
  {
    hide Apply, Enabled;
    if r.Then? {
      DoneIsFinal(r.before);
      AfterDone(Last(r.before), r.step);
    }
  }

  predicate Parked(pc: VcpuPc) {
    pc.ParkTest? || pc.Waiting?
  }

  lemma ParkedStep(s: State, step: Step, i: nat)
    requires Enabled(s, step) && i < |s.vcpus| && Parked(s.vcpus[i]) && s.paused && s.main.Done?
    ensures i < |Apply(s, step).vcpus| && Parked(Apply(s, step).vcpus[i])
  {
    hide NextCommand, AfterReply, Handler, ServedText, Confined;
  }

  /** If main leaves its loop while the pause flag is set, a parked thread stays parked
      in every continuation, however often it is woken: it never exits. */
  lemma {:induction false} ParkedForever(r: Run, i: nat)
    requires Valid(r) && First(r).main.Done? && First(r).vm == Shutdown
    requires First(r).paused && i < |First(r).vcpus| && Parked(First(r).vcpus[i])
    ensures i < |Last(r).vcpus| && Parked(Last(r).vcpus[i])
  {
    hide Apply, Enabled;
    if r.Then? {
      ParkedForever(r.before, i);
      DoneIsFinal(r.before);
      ParkedStep(Last(r.before), r.step, i);
    }
  }

  lemma DriveStep(s: State, i: nat) returns (step: Step)
    requires s.main.Done? && s.vm == Shutdown && i < |s.vcpus| && Rank(s.vcpus[i]) > 0
    requires !(Parked(s.vcpus[i]) && s.paused)
    ensures Enabled(s, step) && !step.Connect?
    ensures var s' := Apply(s, step);
            && s'.main.Done? && s'.vm == Shutdown && s'.paused == s.paused && i < |s'.vcpus|
            && Rank(s'.vcpus[i]) < Rank(s.vcpus[i]) && !s'.vcpus[i].NotCreated?
            && !(Parked(s'.vcpus[i]) && s'.paused)
  {
    step := if s.vcpus[i].Guest? then Return(i, Intr)
            else if s.vcpus[i].Waiting? then Wake(i)
            else Vcpu(i);
  }

  /** The thread's own steps lead to its exit. */
  lemma {:induction false} Drive(r: Run, i: nat) returns (r': Run)
    requires Valid(r) && Last(r).main.Done? && Last(r).vm == Shutdown
    requires i < |Last(r).vcpus| && !Last(r).vcpus[i].NotCreated?
    requires !(Parked(Last(r).vcpus[i]) && Last(r).paused)
    ensures Valid(r') && First(r') == First(r) && i < |Last(r').vcpus| && Last(r').vcpus[i].Exited?
    decreases Rank(Last(r).vcpus[i])
  {
    hide Apply, Enabled;
    if Last(r).vcpus[i].Exited? {
      r' := r;
    } else {
      var step := DriveStep(Last(r), i);
      Extend(r, step);
      r' := Drive(Then(r, step), i);
    }
  }

  /** Once main has left its loop on SHUTDOWN, a created thread can still exit exactly
      when it is not parked under a set pause flag. */
  lemma MayExit(s: State, i: nat)
    requires s.main.Done? && s.vm == Shutdown && i < |s.vcpus| && !s.vcpus[i].NotCreated?
    ensures (exists r :: Valid(r) && First(r) == s && i < |Last(r).vcpus| && Last(r).vcpus[i].Exited?)
            <==> !(Parked(s.vcpus[i]) && s.paused)
  {
    if Parked(s.vcpus[i]) && s.paused {
      forall r | Valid(r) && First(r) == s && i < |Last(r).vcpus| ensures !Last(r).vcpus[i].Exited? {
        ParkedForever(r, i);
      }
    } else {
      var r := Drive(Start(s), i);
    }
  }
}
