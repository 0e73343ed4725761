/** Over whole runs with the repository's clients, main locks and unlocks pause_lock
    in strict alternation, and no vCPU runs before the VM is started. */
module LockDiscipline {
  import opened DumpLoops
  import opened Lifecycle

  /** Lock, Unlock, Lock, and so on. */
  predicate Alternates(log: seq<LockOp>) {
    forall i :: 0 <= i < |log| ==> log[i] == if i % 2 == 0 then Lock else Unlock
  }

  predicate Held(log: seq<LockOp>) {
    |log| % 2 == 1
  }

  /** A vCPU thread that has seen neither RUNNING nor a set pause flag. */
  predicate Early(pc: VcpuPc) {
    pc.NotCreated? || pc.Head? || pc.Check? || pc.ParkTest?
  }

  predicate AllEarly(s: State) {
    forall i :: 0 <= i < |s.vcpus| ==> Early(s.vcpus[i])
  }

  /** Between commands: RUNNING means not paused, PAUSED means paused, and the flag
      tells whether main holds the lock. */
  predicate Boundary(s: State) {
    && (s.vm == Running ==> !s.paused)
    && (s.vm == Paused ==> s.paused)
    && s.paused == Held(s.lockLog)
  }

  predicate Fresh(c: Client) {
    c.PauseFresh? || c.ResumeFresh?
  }

  /** What a client was told still binds the state, up to a SHUTDOWN from a vCPU. */
  predicate Told(s: State, told: VmState) {
    && (told == Running ==> !s.paused && s.vm != Paused)
    && (told == Paused ==> s.paused && s.vm != Running)
  }

  predicate ClientOk(s: State) {
    && !s.client.Raw?
    && (s.client.Status? ==> forall i :: 0 <= i < |s.client.queue| ==> IsQuery(s.client.queue[i]))
  }

  predicate Starting(s: State) {
    s.main.Creating? || s.main.StartWrite?
  }

  /** What holds at each point of main. */
  predicate MainOk(s: State) {
    match s.main
    case Creating(_) => StartOk(s)
    case StartWrite(_) => StartOk(s)
    case Receiving =>
      Boundary(s)
      && (s.client.PauseSeen? ==> Told(s, s.client.state))
      && (s.client.ResumeSeen? ==> Told(s, s.client.state))
    case Replying => Boundary(s) && (Fresh(s.client) ==> Told(s, s.res))
    case PauseState => !s.paused && !Held(s.lockLog) && s.vm != Paused && s.client.PauseSeen?
    case PauseLock => !s.paused && !Held(s.lockLog) && s.vm != Running && s.client.PauseSeen?
    case PauseFlag => !s.paused && Held(s.lockLog) && s.vm != Running && s.client.PauseSeen?
    case ResumeState => s.paused && Held(s.lockLog) && s.vm != Running && s.client.ResumeSeen?
    case ResumeFlag => s.paused && Held(s.lockLog) && s.vm != Paused && !Fresh(s.client)
    case ResumeUnlock => !s.paused && Held(s.lockLog) && s.vm != Paused && !Fresh(s.client)
    case ShutState => Boundary(s) && !Fresh(s.client)
    case ShutTest => s.vm == Shutdown && s.paused == Held(s.lockLog) && !Fresh(s.client)
    case HandleState => Boundary(s)
    case HandleRegs => Boundary(s) && !Fresh(s.client)
    case HandleDump(_) => Boundary(s) && !Fresh(s.client)
    case Dumping(_, _) => Boundary(s) && !Fresh(s.client)
    case _ => Boundary(s)
  }

  /** Before RUNNING is written no vCPU has got past the parking test. */
  predicate StartOk(s: State) {
    s.vm == Paused && !s.paused && s.lockLog == [] && s.dumps == [] && AllEarly(s)
  }

  predicate Inv(s: State) {
    Alternates(s.lockLog) && ClientOk(s) && MainOk(s)
  }

  predicate OfVcpus(step: Step) {
    step.Vcpu? || step.Store? || step.Return? || step.Wake? || step.Signal?
  }

  /** A vCPU leaves main's variables alone, writes the state only to make it SHUTDOWN,
      and before the start does not even do that. */
  lemma VcpuEffect(s: State, step: Step)
    requires Enabled(s, step) && OfVcpus(step)
    ensures var s' := Apply(s, step);
            && s' == s.(vcpus := s'.vcpus, mem := s'.mem, vm := s'.vm, sig := s'.sig)
            && (s'.vm == s.vm || s'.vm == Shutdown)
            && (AllEarly(s) && s.vm == Paused && !s.paused ==> AllEarly(s') && s'.vm == Paused)
  {
    hide NextCommand, AfterReply, Handler, ServedText, Confined, WritesShutdown;
  }

  lemma VcpuKeeps(s: State, step: Step)
    requires Inv(s) && Enabled(s, step) && OfVcpus(step)
    ensures Inv(Apply(s, step))
  {
    VcpuEffect(s, step);
    hide Apply, Enabled, AllEarly, Alternates;
  }

  predicate InHandler(pc: MainPc) {
    pc.PauseState? || pc.PauseLock? || pc.PauseFlag? || pc.ResumeState? || pc.ResumeFlag? ||
    pc.ResumeUnlock? || pc.ShutState? || pc.ShutTest?
  }

  lemma HandlerKeeps(s: State)
    requires Inv(s) && InHandler(s.main)
    ensures Inv(MainNext(s))
  {
    hide Alternates, Held, AfterReply, ServedText, Confined, AllEarly;
    OneMoreLockOp(s.lockLog, Lock);
    OneMoreLockOp(s.lockLog, Unlock);
  }

  lemma ReplyKeeps(s: State)
    requires Inv(s) && s.main.Replying?
    ensures Inv(MainNext(s))
  {
    hide Alternates, Held, ServedText, Confined, AllEarly;
  }

  lemma LoopKeeps(s: State)
    requires Inv(s) && MainSteps(s) && !InHandler(s.main) && !s.main.Replying? && !Starting(s)
    ensures Inv(MainNext(s))
  {
    hide Alternates, Held, ServedText, Confined, AfterReply, StartOk;
  }

  lemma StartKeeps(s: State)
    requires Inv(s) && MainSteps(s) && Starting(s)
    ensures Inv(MainNext(s))
  {
    hide Alternates, Held, ServedText, Confined, AfterReply;
    NothingHeld();
  }

  lemma NothingHeld()
    ensures !Held([])
  {
  }

  lemma MainKeeps(s: State)
    requires Inv(s) && MainSteps(s)
    ensures Inv(MainNext(s))
  {
    hide Inv, MainSteps;
    if InHandler(s.main) {
      HandlerKeeps(s);
    } else if s.main.Replying? {
      ReplyKeeps(s);
    } else if Starting(s) {
      StartKeeps(s);
    } else {
      LoopKeeps(s);
    }
  }

  lemma ServerKeeps(s: State, step: Step)
    requires Inv(s) && Enabled(s, step)
    requires step.Create? || step.Connect? || step.NoConnection? || step.Receive? || step.HangUp? ||
             step.Reread? || step.StrayDump? || step.NoOutput?
    requires step.Connect? ==> Arrives(step.client)
    ensures Inv(Apply(s, step))
  {
    hide AfterReply, ServedText, Confined;
  }

  lemma MainIsApplied(s: State)
    requires Enabled(s, Main)
    ensures MainSteps(s) && Apply(s, Main) == MainNext(s)
  {
  }

  lemma InvStep(s: State, step: Step)
    requires Inv(s) && Enabled(s, step) && (step.Connect? ==> Arrives(step.client))
    ensures Inv(Apply(s, step))
  {
    hide Enabled, Inv, Apply, MainSteps;
    if step.Main? {
      MainIsApplied(s);
      MainKeeps(s);
    } else if OfVcpus(step) {
      VcpuKeeps(s, step);
    } else {
      ServerKeeps(s, step);
    }
  }

  lemma {:induction false} Reachable(r: Run)
    requires Valid(r) && Initial(First(r)) && OwnClients(r)
    ensures Inv(Last(r))
  {
    match r
    case Start(_) =>
    case Then(b, step) =>
      hide Apply, Enabled, Inv;
      Reachable(b);
      InvStep(Last(b), step);
  }

  /** Main's calls that lock and unlock pause_lock strictly alternate, starting with a
      lock: main never waits for a lock it holds and never releases one it does not
      hold. Whenever main waits for a connection or a command, RUNNING goes with a
      clear pause flag and PAUSED with a set one. */
  lemma LocksAlternate(r: Run)
    requires Valid(r) && Initial(First(r)) && OwnClients(r)
    ensures var s := Last(r);
            && Alternates(s.lockLog)
            && (s.main.PauseLock? ==> !Held(s.lockLog))
            && (s.main.ResumeUnlock? ==> Held(s.lockLog))
            && (s.main.LoopHead? || s.main.Accepting? || s.main.Receiving? ==> Boundary(s))
  {
    Reachable(r);
  }

  // ----- the start of the VM -----

  /** The step enters KVM_RUN, or parks a thread. */
  predicate Runs(s: State, step: Step)
    requires Enabled(s, step)
  {
    step.Vcpu? && (s.vcpus[step.i].Enter? || (s.vcpus[step.i].ParkTest? && s.paused))
  }

  lemma StartVcpuStep(s: State, step: Step)
    requires Enabled(s, step) && OfVcpus(step) && Starting(Apply(s, step))
    ensures Starting(s)
    ensures StartOk(s) ==> StartOk(Apply(s, step)) && !Runs(s, step)
  {
    VcpuEffect(s, step);
    hide Apply;
  }

  lemma StartMainStep(s: State, step: Step)
    requires Enabled(s, step) && !OfVcpus(step) && Starting(Apply(s, step))
    ensures Starting(s) && !Runs(s, step)
    ensures StartOk(s) ==> StartOk(Apply(s, step))
  {
    hide NextCommand, AfterReply, ServedText, Confined;
  }

  lemma StartInitial(s: State)
    requires Initial(s)
    ensures StartOk(s)
  {
  }

  /** Whatever the clients, until RUNNING is written no vCPU has entered the guest or
      parked, and the write replaces PAUSED, never a SHUTDOWN. */
  lemma {:induction false} StartBarrier(r: Run)
    requires Valid(r) && Initial(First(r)) && Starting(Last(r))
    ensures StartOk(Last(r)) && NoneRan(r)
  {
    hide Apply, Enabled, StartOk, Starting, Initial, Runs;
    match r
    case Start(s) =>
      StartInitial(s);
    case Then(b, step) =>
      if OfVcpus(step) {
        StartVcpuStep(Last(b), step);
      } else {
        StartMainStep(Last(b), step);
      }
      StartBarrier(b);
  }

  ghost predicate NoneRan(r: Run)
    requires Valid(r)
  {
    r.Then? ==> NoneRan(r.before) && !Runs(Last(r.before), r.step)
  }

  // ----- when the locks go wrong, whatever the clients -----

  /** PAUSE arrives with the flag set, or RESUME with the flag clear. */
  predicate Untimely(s: State, step: Step)
    requires Enabled(s, step)
  {
    step.Receive? && match NextCommand(s.client).value
                     case CmdPause => s.paused
                     case CmdResume => !s.paused
                     case _ => false
  }

  ghost predicate Timely(r: Run)
    requires Valid(r)
  {
    r.Then? ==> Timely(r.before) && !Untimely(Last(r.before), r.step)
  }

  /** Main will lock next, or will unlock next. */
  predicate WillLock(pc: MainPc) {
    pc.PauseState? || pc.PauseLock?
  }

  predicate WillUnlock(pc: MainPc) {
    pc.ResumeState? || pc.ResumeFlag? || pc.ResumeUnlock?
  }

  /** The flag says whether the lock is held, except inside the two handlers. */
  predicate LockOk(s: State) {
    && Alternates(s.lockLog)
    && (WillLock(s.main) ==> !s.paused && !Held(s.lockLog))
    && (s.main.PauseFlag? ==> !s.paused && Held(s.lockLog))
    && (WillUnlock(s.main) ==> Held(s.lockLog) && s.paused == !s.main.ResumeUnlock?)
    && (!WillLock(s.main) && !s.main.PauseFlag? && !WillUnlock(s.main) ==> s.paused == Held(s.lockLog))
  }

  /** The alternation is broken, or the next lock operation will break it. */
  predicate LockBad(s: State) {
    !Alternates(s.lockLog) || (WillLock(s.main) && Held(s.lockLog)) || (WillUnlock(s.main) && !Held(s.lockLog))
  }

  lemma OneMoreLockOp(log: seq<LockOp>, op: LockOp)
    ensures Alternates(log + [op]) <==> Alternates(log) && (op == Unlock <==> Held(log))
    ensures Held(log + [op]) <==> !Held(log)
  {
    var more := log + [op];
    assert more[|log|] == op;
    assert forall i :: 0 <= i < |log| ==> more[i] == log[i];
  }

  lemma LockStepOfMain(s: State)
    requires MainSteps(s)
    ensures LockOk(s) ==> LockOk(MainNext(s))
    ensures LockBad(s) ==> LockBad(MainNext(s))
  {
    hide Alternates, Held, AfterReply, ServedText, Confined;
    OneMoreLockOp(s.lockLog, Lock);
    OneMoreLockOp(s.lockLog, Unlock);
  }

  lemma LockStepOfVcpus(s: State, step: Step)
    requires Enabled(s, step) && OfVcpus(step)
    ensures LockOk(s) ==> LockOk(Apply(s, step))
    ensures LockBad(s) ==> LockBad(Apply(s, step))
  {
    hide Apply, Enabled, AllEarly, Alternates, Held;
    VcpuEffect(s, step);
  }

  lemma LockStepOfServer(s: State, step: Step)
    requires Enabled(s, step) && !OfVcpus(step) && !step.Main?
    ensures LockOk(s) && !Untimely(s, step) ==> LockOk(Apply(s, step))
    ensures LockBad(s) ==> LockBad(Apply(s, step))
    ensures LockOk(s) && Untimely(s, step) ==> LockBad(Apply(s, step))
  {
    hide Alternates, Held, AfterReply, ServedText, Confined, NextCommand;
  }

  /** As long as every PAUSE finds the flag clear and every RESUME finds it set, the lock
      is used in alternation; after the first that does not, it is not. */
  lemma {:induction false} LocksOverRun(r: Run)
    requires Valid(r) && Initial(First(r))
    ensures if Timely(r) then LockOk(Last(r)) else LockBad(Last(r))
  {
    match r
    case Start(_) =>
    case Then(b, step) =>
      hide Apply, Enabled, LockOk, LockBad, Untimely, OfVcpus, Initial;
      LocksOverRun(b);
      if step.Main? {
        MainIsApplied(Last(b));
        OnlyReceiveIsUntimely(Last(b), step);
        LockStepOfMain(Last(b));
      } else if OfVcpus(step) {
        OnlyReceiveIsUntimely(Last(b), step);
        LockStepOfVcpus(Last(b), step);
      } else {
        LockStepOfServer(Last(b), step);
      }
  }

  lemma OnlyReceiveIsUntimely(s: State, step: Step)
    requires Enabled(s, step) && (step.Main? || OfVcpus(step))
    ensures !Untimely(s, step)
  {
  }

  /** Whatever programs connect: outside the handlers that use the lock, its use has been
      alternating if and only if no PAUSE arrived with the flag set and no RESUME with
      the flag clear. */
  lemma AlternatesExactly(r: Run)
    requires Valid(r) && Initial(First(r))
    requires !WillLock(Last(r).main) && !WillUnlock(Last(r).main)
    ensures Alternates(Last(r).lockLog) <==> Timely(r)
  {
    hide Alternates, Held, Timely;
    LocksOverRun(r);
  }

  // ----- when SHUTDOWN is final -----

  /** A client has been told, or is about to be told, something that makes it send the
      command that overwrites SHUTDOWN, or main has already received that command. */
  predicate AnswerOutstanding(s: State) {
    match s.main
    case PauseState => true
    case ResumeState => true
    case Receiving => s.client == PauseSeen(Running) || s.client == ResumeSeen(Paused)
    case Replying => (s.client == PauseFresh && s.res == Running) || (s.client == ResumeFresh && s.res == Paused)
    case _ => false
  }

  predicate Final(s: State) {
    s.vm == Shutdown && !AnswerOutstanding(s)
  }

  lemma FinalMainStep(s: State)
    requires Inv(s) && Final(s) && MainSteps(s)
    ensures Final(MainNext(s))
  {
    hide Alternates, Held, ServedText, Confined, AllEarly;
  }

  lemma FinalVcpuStep(s: State, step: Step)
    requires Final(s) && Enabled(s, step) && OfVcpus(step)
    ensures Final(Apply(s, step))
  {
    hide Apply, Enabled, AllEarly;
    VcpuEffect(s, step);
  }

  lemma FinalServerStep(s: State, step: Step)
    requires Inv(s) && Final(s) && Enabled(s, step) && !OfVcpus(step) && !step.Main?
    requires step.Connect? ==> Arrives(step.client)
    ensures Final(Apply(s, step))
  {
    hide Alternates, Held, AfterReply, ServedText, Confined, AllEarly;
  }

  lemma FinalStep(s: State, step: Step)
    requires Inv(s) && Final(s) && Enabled(s, step)
    requires step.Connect? ==> Arrives(step.client)
    ensures Final(Apply(s, step)) && Inv(Apply(s, step))
  {
    hide Enabled, Inv, Final;
    InvStep(s, step);
    if step.Main? {
      MainIsApplied(s);
      FinalMainStep(s);
    } else if OfVcpus(step) {
      FinalVcpuStep(s, step);
    } else {
      FinalServerStep(s, step);
    }
  }

  /** Once SHUTDOWN is written and no answer is outstanding, it stays. */
  lemma {:induction false} FinalStays(c: Run)
    requires Valid(c) && OwnClients(c) && Inv(First(c)) && Final(First(c))
    ensures Final(Last(c)) && Inv(Last(c))
  {
    hide Apply, Enabled, Inv, Final;
    if c.Then? {
      FinalStays(c.before);
      FinalStep(Last(c.before), c.step);
    }
  }

  /** One step of the run that loses the SHUTDOWN. */
  function TowardsLoss(s: State): Step {
    if s.main.Receiving? then Receive else Main
  }

  lemma LossStep(s: State)
    requires AnswerOutstanding(s) && s.vm == Shutdown
    ensures Enabled(s, TowardsLoss(s)) && !TowardsLoss(s).Connect?
    ensures var s' := Apply(s, TowardsLoss(s));
            if s.main.PauseState? || s.main.ResumeState? then s'.vm != Shutdown
            else s'.vm == Shutdown && AnswerOutstanding(s') &&
                 (s.main.Receiving? ==> s'.main.PauseState? || s'.main.ResumeState?) &&
                 (s.main.Replying? ==> s'.main.Receiving?)
  {
  }

  lemma {:induction false} Loses(c: Run) returns (c': Run)
    requires Valid(c) && OwnClients(c) && Last(c).vm == Shutdown && AnswerOutstanding(Last(c))
    ensures Valid(c') && OwnClients(c') && First(c') == First(c) && Last(c').vm != Shutdown
    decreases if Last(c).main.Replying? then 2 else if Last(c).main.Receiving? then 1 else 0
  {
    hide Apply, Enabled, AnswerOutstanding, TowardsLoss;
    var s := Last(c);
    var step := TowardsLoss(s);
    OutstandingAt(s);
    LossStep(s);
    Extend(c, step);
    c' := Then(c, step);
    if Last(c').vm == Shutdown {
      OutstandingAt(Last(c'));
      c' := Loses(c');
    }
  }

  lemma OutstandingAt(s: State)
    requires AnswerOutstanding(s)
    ensures s.main.PauseState? || s.main.ResumeState? || s.main.Receiving? || s.main.Replying?
  {
  }

  ghost predicate LeavesShutdown(c: Run, s: State) {
    Valid(c) && OwnClients(c) && First(c) == s && Last(c).vm != Shutdown
  }

  /** With the repository's clients, a SHUTDOWN that has been written can still be lost
      if and only if an answer is outstanding. */
  lemma ShutdownIsFinal(p: Run)
    requires Valid(p) && Initial(First(p)) && OwnClients(p) && Last(p).vm == Shutdown
    ensures (exists c :: LeavesShutdown(c, Last(p))) <==> AnswerOutstanding(Last(p))
  {
    hide Inv, Apply, Enabled, AnswerOutstanding, Initial;
    var s := Last(p);
    Reachable(p);
    if AnswerOutstanding(s) {
      var c := Loses(Start(s));
      assert LeavesShutdown(c, s);
    } else {
      forall c | Valid(c) && OwnClients(c) && First(c) == s ensures !LeavesShutdown(c, s) {
        FinalStays(c);
      }
    }
  }
}
