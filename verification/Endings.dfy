/** What ends the VM, and what each client gets: which exits of the guest write SHUTDOWN,
    that a shutdown client or a signal ends the VM, and that nothing else does. */
module Endings {
  import opened DumpLoops
  import opened Lifecycle
  import opened LockDiscipline

  // ----- exits of the guest -----

  /** Exits after which the guest is entered again: a served I/O request, an interruption,
      and reasons that are not looked at. */
  predicate GoesOn(e: Exit) {
    e == Intr || e == Unknown || e == Unhandled || (e.Io? && (!e.out || e.port == 0x3f8))
  }

  predicate NobodyShuts(s: State) {
    forall i :: 0 <= i < |s.vcpus| ==> !s.vcpus[i].WriteShutdown?
  }

  predicate AllGoOn(r: Run) {
    r.Then? ==> AllGoOn(r.before) && (r.step.Return? ==> GoesOn(r.step.exit))
  }

  /** Every step that makes the state SHUTDOWN is main's. */
  ghost predicate OnlyMainShuts(r: Run)
    requires Valid(r)
  {
    r.Then? ==>
      OnlyMainShuts(r.before) && (Last(r.before).vm != Shutdown && Last(r).vm == Shutdown ==> r.step.Main?)
  }

  lemma MainLeavesNobody(s: State)
    requires MainSteps(s) && NobodyShuts(s)
    ensures NobodyShuts(MainNext(s))
  {
    hide MainNext;
    MainLeavesGuest(s);
  }

  lemma GoOnStep(s: State, step: Step)
    requires Enabled(s, step) && NobodyShuts(s) && (step.Return? ==> GoesOn(step.exit))
    ensures NobodyShuts(Apply(s, step))
    ensures s.vm != Shutdown && Apply(s, step).vm == Shutdown ==> step.Main?
  {
    hide MainNext, MainSteps, NextCommand, Handler, ServedText, Confined;
    if step.Main? {
      MainIsApplied(s);
      MainLeavesNobody(s);
    }
  }

  /** As long as the guest only does served I/O or is interrupted, its vCPUs do not end
      the VM. */
  lemma {:induction false} GuestGoesOn(r: Run)
    requires Valid(r) && AllGoOn(r) && NobodyShuts(First(r))
    ensures NobodyShuts(Last(r)) && OnlyMainShuts(r)
  {
    hide Apply, Enabled, NobodyShuts, GoesOn;
    if r.Then? {
      GuestGoesOn(r.before);
      GoOnStep(Last(r.before), r.step);
    }
  }

  lemma NotCreatingStays(s: State, step: Step)
    requires Enabled(s, step) && !s.main.Creating?
    ensures !Apply(s, step).main.Creating?
  {
    hide NextCommand, ServedText, Confined, WritesShutdown;
  }

  lemma {:induction false} ThreadWaits(c: Run, i: nat)
    requires Valid(c) && !First(c).main.Creating? && i < |First(c).vcpus| && OwnSteps(c, i) == 0
    ensures !Last(c).main.Creating? && i < |Last(c).vcpus| && Last(c).vcpus[i] == First(c).vcpus[i]
  {
    hide Apply, Enabled, OwnStep;
    if c.Then? {
      ThreadWaits(c.before, i);
      NotCreatingStays(Last(c.before), c.step);
      OthersStay(Last(c.before), c.step, i);
      CreateIsCreating(Last(c.before), c.step);
    }
  }

  lemma CreateIsCreating(s: State, step: Step)
    requires Enabled(s, step) && !s.main.Creating?
    ensures !step.Create?
  {
  }

  /** Where an exit takes the thread. */
  lemma ExitLeads(s: State, i: nat, e: Exit)
    requires Enabled(s, Return(i, e))
    ensures var s' := Apply(s, Return(i, e));
            && s'.vm == s.vm && s'.main == s.main && i < |s'.vcpus|
            && (GoesOn(e) ==> s'.vcpus[i] == Head)
            && (!GoesOn(e) ==> s'.vcpus[i] == WriteShutdown(e == IoctlFailed))
  {
  }

  lemma ShutsNext(s: State, i: nat, leave: bool)
    requires i < |s.vcpus| && s.vcpus[i] == WriteShutdown(leave)
    ensures Enabled(s, Vcpu(i)) && (forall step :: OwnStep(step, i) && Enabled(s, step) ==> step == Vcpu(i))
    ensures var s' := Apply(s, Vcpu(i));
            s'.vm == Shutdown && i < |s'.vcpus| && s'.vcpus[i] == if leave then Exited else Head
  {
  }

  /** After any other exit, whatever happens meanwhile, the thread's next own step writes
      SHUTDOWN; only after a failed ioctl does it exit without reading the state again. */
  lemma ExitShuts(s: State, i: nat, e: Exit, c: Run)
    requires Enabled(s, Return(i, e)) && !GoesOn(e) && !s.main.Creating?
    requires Valid(c) && First(c) == Apply(s, Return(i, e)) && OwnSteps(c, i) == 0
    ensures i < |Last(c).vcpus| && Enabled(Last(c), Vcpu(i))
    ensures forall step :: OwnStep(step, i) && Enabled(Last(c), step) ==> step == Vcpu(i)
    ensures var s' := Apply(Last(c), Vcpu(i));
            s'.vm == Shutdown && i < |s'.vcpus| && s'.vcpus[i] == if e == IoctlFailed then Exited else Head
  {
    hide Apply, Enabled, OwnStep, GoesOn;
    ExitLeads(s, i, e);
    ThreadWaits(c, i);
    ShutsNext(Last(c), i, e == IoctlFailed);
  }

  // ----- a thread that is let run, and one that is held -----

  /** A thread that is in its loop and not about to write SHUTDOWN. */
  predicate InLoop(pc: VcpuPc) {
    !pc.NotCreated? && !pc.Exited? && !pc.WriteShutdown?
  }

  /** Own steps to the guest when the VM is RUNNING. */
  function ToGuest(pc: VcpuPc): nat {
    match pc
    case Guest => 0
    case Enter => 1
    case Check => 2
    case Head => 3
    case ParkTest => 4
    case Waiting => 5
    case _ => 6
  }

  /** Own steps to the condition wait when it is PAUSED. */
  function ToWait(pc: VcpuPc): nat {
    match pc
    case Waiting => 0
    case ParkTest => 1
    case Check => 2
    case Head => 3
    case Guest => 4
    case Enter => 5
    case _ => 6
  }

  /** What the thread does next, when KVM_RUN is interrupted and the wait returns. */
  function OwnNext(pc: VcpuPc, i: nat): Step {
    if pc.Guest? then Return(i, Intr) else if pc.Waiting? then Wake(i) else Vcpu(i)
  }

  lemma OwnNextStep(s: State, i: nat)
    requires i < |s.vcpus| && InLoop(s.vcpus[i])
    ensures var step := OwnNext(s.vcpus[i], i);
            && Enabled(s, step) && OwnStep(step, i)
            && var s' := Apply(s, step);
               && s' == s.(vcpus := s'.vcpus) && i < |s'.vcpus|
               && (s.vm == Running && !s.paused && !s.vcpus[i].Guest? ==>
                     InLoop(s'.vcpus[i]) && ToGuest(s'.vcpus[i]) < ToGuest(s.vcpus[i]))
               && (s.vm == Paused && s.paused && !s.vcpus[i].Waiting? ==>
                     InLoop(s'.vcpus[i]) && ToWait(s'.vcpus[i]) < ToWait(s.vcpus[i]))
  {
  }

  /** Only thread i moves. */
  predicate OnlyThread(r: Run, i: nat) {
    r.Then? ==> OwnStep(r.step, i) && OnlyThread(r.before, i)
  }

  /** While the VM is RUNNING with a clear flag a thread's own steps lead into the guest. */
  lemma {:induction false} LetRun(r: Run, i: nat) returns (r': Run)
    requires Valid(r) && OnlyThread(r, i) && Last(r).vm == Running && !Last(r).paused
    requires i < |Last(r).vcpus| && InLoop(Last(r).vcpus[i])
    ensures Valid(r') && OnlyThread(r', i) && First(r') == First(r)
    ensures i < |Last(r').vcpus| && Last(r').vcpus[i] == Guest && Last(r').vm == Running
    decreases ToGuest(Last(r).vcpus[i])
  {
    hide Apply, Enabled, OwnStep, OwnNext, InLoop;
    r' := r;
    if Last(r).vcpus[i] != Guest {
      var step := OwnNext(Last(r).vcpus[i], i);
      OwnNextStep(Last(r), i);
      Extend(r, step);
      r' := LetRun(Then(r, step), i);
    }
  }

  /** While it is PAUSED with the flag set they lead to the condition wait. */
  lemma {:induction false} IsHeld(r: Run, i: nat) returns (r': Run)
    requires Valid(r) && OnlyThread(r, i) && Last(r).vm == Paused && Last(r).paused
    requires i < |Last(r).vcpus| && InLoop(Last(r).vcpus[i])
    ensures Valid(r') && OnlyThread(r', i) && First(r') == First(r)
    ensures i < |Last(r').vcpus| && Last(r').vcpus[i] == Waiting && Last(r').vm == Paused
    decreases ToWait(Last(r).vcpus[i])
  {
    hide Apply, Enabled, OwnStep, OwnNext, InLoop;
    r' := r;
    if Last(r).vcpus[i] != Waiting {
      var step := OwnNext(Last(r).vcpus[i], i);
      OwnNextStep(Last(r), i);
      Extend(r, step);
      r' := IsHeld(Then(r, step), i);
    }
  }

  /** A thread exits on SHUTDOWN only. */
  lemma ExitsOnShutdown(s: State, step: Step, i: nat)
    requires Enabled(s, step) && i < |s.vcpus| && s.vcpus[i] != Exited
    ensures i < |Apply(s, step).vcpus|
    ensures Apply(s, step).vcpus[i] == Exited ==> OwnStep(step, i) && Apply(s, step).vm == Shutdown
  {
    hide MainNext, Handler, NextCommand, ServedText, Confined, WritesShutdown;
    SameCount(s, step);
    if !OwnStep(step, i) {
      OthersStay(s, step, i);
    }
  }

  // ----- what a client gets -----

  /** What the VM is like when a client has its last reply, and on the way there. */
  predicate ServedOk(s: State) {
    match s.client
    case ShutdownFresh =>
      s.main.Receiving? || s.main.ShutState?
      || ((s.main.ShutTest? || s.main.ResumeFlag? || s.main.ResumeUnlock?) && s.vm == Shutdown)
      || (s.main.Replying? && s.vm == Shutdown && !s.paused)
    case ShutdownSent => s.main.Receiving? && s.vm == Shutdown && !s.paused
    case PauseSeen(_) => s.main.Replying? ==> s.paused && s.vm != Running
    case PauseSent => s.main.Receiving? && s.paused && s.vm != Running
    case ResumeSeen(_) => s.main.Replying? ==> !s.paused && s.vm != Paused
    case ResumeSent => s.main.Receiving? && !s.paused && s.vm != Paused
    case NoClient => !s.main.Receiving? && !s.main.Replying? && !InHandler(s.main) && !Asking(s.main)
    case _ => true
  }

  predicate Asking(pc: MainPc) {
    pc.HandleState? || pc.HandleRegs? || pc.HandleDump? || pc.Dumping?
  }

  /** A connection is being served, or there is no client. */
  predicate Connected(s: State) {
    s.client != NoClient <==> s.main.Receiving? || s.main.Replying? || InHandler(s.main) || Asking(s.main)
  }

  predicate Asked(s: State) {
    && (s.main.HandleState? || s.main.HandleRegs? || s.main.HandleDump? || s.main.Dumping? ==>
          s.client == PauseFresh || s.client == ResumeFresh || s.client.Status?)
    && (s.main.ResumeFlag? || s.main.ResumeUnlock? ==> s.client.ResumeSeen? || s.client == ShutdownFresh)
    && (s.main.ShutState? || s.main.ShutTest? ==> s.client == ShutdownFresh)
  }

  predicate ClientsOk(s: State) {
    ServedOk(s) && Connected(s) && Asked(s)
  }

  lemma ClientsMainStep(s: State)
    requires Inv(s) && ClientsOk(s) && MainSteps(s)
    ensures ClientsOk(MainNext(s))
  {
    hide Alternates, Held, ServedText, Confined, AllEarly;
  }

  lemma ClientsVcpuStep(s: State, step: Step)
    requires ClientsOk(s) && Enabled(s, step) && OfVcpus(step)
    ensures ClientsOk(Apply(s, step))
  {
    hide Apply, Enabled, AllEarly;
    VcpuEffect(s, step);
  }

  lemma ClientsServerStep(s: State, step: Step)
    requires Inv(s) && ClientsOk(s) && Enabled(s, step) && !OfVcpus(step) && !step.Main?
    requires step.Connect? ==> Arrives(step.client)
    ensures ClientsOk(Apply(s, step))
  {
    hide Alternates, Held, AfterReply, ServedText, Confined, AllEarly;
  }

  lemma {:induction false} ClientsReachable(r: Run)
    requires Valid(r) && Initial(First(r)) && OwnClients(r)
    ensures ClientsOk(Last(r))
  {
    match r
    case Start(_) =>
    case Then(b, step) =>
      hide Apply, Enabled, Inv, ClientsOk, OfVcpus, Initial;
      ClientsReachable(b);
      Reachable(b);
      if step.Main? {
        MainIsApplied(Last(b));
        ClientsMainStep(Last(b));
      } else if OfVcpus(step) {
        ClientsVcpuStep(Last(b), step);
      } else {
        ClientsServerStep(Last(b), step);
      }
  }

  /** Whenever a client of the repository has the reply to its command: after SHUTDOWN the
      state is SHUTDOWN, the flag clear and the lock free; after PAUSE the flag is set and
      the lock held, and the state not RUNNING; after RESUME the opposite, and not PAUSED. */
  lemma ClientsAreObeyed(r: Run)
    requires Valid(r) && Initial(First(r)) && OwnClients(r)
    ensures var s := Last(r);
            && (s.client == ShutdownSent ==> s.vm == Shutdown && !s.paused && !Held(s.lockLog))
            && (s.client == PauseSent ==> s.vm != Running && s.paused && Held(s.lockLog))
            && (s.client == ResumeSent ==> s.vm != Paused && !s.paused && !Held(s.lockLog))
  {
    ClientsReachable(r);
    Reachable(r);
    hide Alternates, Held, AllEarly;
  }

  /** One step of main while it serves a connection. */
  lemma Serve(r: Run, s: State) returns (r': Run)
    requires Valid(r) && MainSteps(Last(r)) && MainNext(Last(r)) == s
    ensures Valid(r') && First(r') == First(r) && Last(r') == s
  {
    r' := Then(r, Main);
  }

  lemma ServeNext(r: Run, c: Command) returns (r': Run)
    requires Valid(r) && Last(r).main == Receiving && NextCommand(Last(r).client) == Some(c)
    ensures Valid(r') && First(r') == First(r) && Last(r') == Last(r).(main := Handler(c))
  {
    r' := Then(r, Receive);
  }

  lemma Begins(s: State) returns (r: Run)
    ensures Valid(r) && First(r) == s && Last(r) == s
  {
    r := Start(s);
  }

  /** A shutdown client that connects to a VM in any state gets there. */
  lemma ShutdownIsServed(s: State) returns (c: Run)
    requires s.main == Receiving && s.client == ShutdownFresh
    ensures Valid(c) && First(c) == s
    ensures Last(c).client == ShutdownSent && Last(c).vm == Shutdown && !Last(c).paused
  {
    hide Valid, First, Last, Apply, Enabled, ServedText, Confined;
    c := Begins(s);
    var t := s.(main := ShutState);
    c := ServeNext(c, CmdShutdown);
    t := t.(vm := Shutdown, main := ShutTest);
    c := Serve(c, t);
    if t.paused {
      t := t.(main := ResumeFlag);
      c := Serve(c, t);
      t := t.(paused := false, main := ResumeUnlock);
      c := Serve(c, t);
      t := t.(lockLog := t.lockLog + [Unlock], main := Replying);
      c := Serve(c, t);
    } else {
      t := t.(main := Replying);
      c := Serve(c, t);
    }
    t := t.(client := ShutdownSent, main := Receiving);
    c := Serve(c, t);
  }

  /** The state of the VM, asked for and answered. */
  lemma StateIsServed(s: State, seen: Client) returns (c: Run)
    requires s.main == Receiving
    requires (s.client == PauseFresh && seen == PauseSeen(s.vm)) || (s.client == ResumeFresh && seen == ResumeSeen(s.vm))
    ensures Valid(c) && First(c) == s && Last(c) == s.(res := s.vm, client := seen)
  {
    hide Valid, First, Last, Apply, Enabled, ServedText, Confined;
    c := Begins(s);
    var t := s.(main := HandleState);
    c := ServeNext(c, CmdState);
    t := t.(res := s.vm, main := Replying);
    c := Serve(c, t);
    t := t.(client := seen, main := Receiving);
    c := Serve(c, t);
  }

  /** A pause client pauses a running VM, and sends nothing to any other. */
  lemma PauseIsServed(s: State) returns (c: Run)
    requires s.main == Receiving && s.client == PauseFresh
    ensures Valid(c) && First(c) == s
    ensures s.vm == Running ==>
              Last(c).client == PauseSent && Last(c).vm == Paused && Last(c).paused && Last(c).lockLog == s.lockLog + [Lock]
    ensures s.vm != Running ==> Last(c) == s.(res := s.vm, client := PauseSeen(s.vm)) && NextCommand(Last(c).client) == None
  {
    hide Valid, First, Last, Apply, Enabled, ServedText, Confined;
    c := StateIsServed(s, PauseSeen(s.vm));
    if s.vm == Running {
      var t := s.(res := Running, client := PauseSeen(Running), main := PauseState);
      c := ServeNext(c, CmdPause);
      t := t.(vm := Paused, main := PauseLock);
      c := Serve(c, t);
      t := t.(lockLog := t.lockLog + [Lock], main := PauseFlag);
      c := Serve(c, t);
      t := t.(paused := true, main := Replying);
      c := Serve(c, t);
      t := t.(client := PauseSent, main := Receiving);
      c := Serve(c, t);
    }
  }

  /** A resume client resumes a paused VM, and sends nothing to any other. */
  lemma ResumeIsServed(s: State) returns (c: Run)
    requires s.main == Receiving && s.client == ResumeFresh
    ensures Valid(c) && First(c) == s
    ensures s.vm == Paused ==>
              Last(c).client == ResumeSent && Last(c).vm == Running && !Last(c).paused && Last(c).lockLog == s.lockLog + [Unlock]
    ensures s.vm != Paused ==> Last(c) == s.(res := s.vm, client := ResumeSeen(s.vm)) && NextCommand(Last(c).client) == None
  {
    hide Valid, First, Last, Apply, Enabled, ServedText, Confined;
    c := StateIsServed(s, ResumeSeen(s.vm));
    if s.vm == Paused {
      var t := s.(res := Paused, client := ResumeSeen(Paused), main := ResumeState);
      c := ServeNext(c, CmdResume);
      t := t.(vm := Running, main := ResumeFlag);
      c := Serve(c, t);
      t := t.(paused := false, main := ResumeUnlock);
      c := Serve(c, t);
      t := t.(lockLog := t.lockLog + [Unlock], main := Replying);
      c := Serve(c, t);
      t := t.(client := ResumeSent, main := Receiving);
      c := Serve(c, t);
    }
  }

  // ----- signals -----

  /** Main has moved on from its loop head since the signal came; at the next it will
      find SHUTDOWN. */
  predicate Alerted(s: State) {
    s.sig && !Starting(s) && (s.main.LoopHead? ==> s.vm == Shutdown)
  }

  lemma AlertedVcpuStep(s: State, step: Step)
    requires Alerted(s) && Enabled(s, step) && OfVcpus(step)
    ensures Alerted(Apply(s, step))
  {
    hide AllEarly, MainNext, NextCommand, Handler, ServedText, Confined, WritesShutdown;
    VcpuEffect(s, step);
  }

  lemma AlertedStep(s: State, step: Step)
    requires Alerted(s) && Enabled(s, step)
    ensures Alerted(Apply(s, step))
  {
    hide NextCommand, AfterReply, ServedText, Confined, VcpuNext;
    if OfVcpus(step) {
      AlertedVcpuStep(s, step);
    }
  }

  predicate HasMain(r: Run) {
    r.Then? && (r.step.Main? || HasMain(r.before))
  }

  lemma HeadStep(s: State, step: Step)
    requires s.sig && s.main == LoopHead && Enabled(s, step)
    ensures if step.Main? then Alerted(Apply(s, step)) else Apply(s, step).sig && Apply(s, step).main == LoopHead
  {
    hide NextCommand, AfterReply, ServedText, Confined;
  }

  lemma {:induction false} SignalRun(r: Run)
    requires Valid(r) && First(r).main == LoopHead && First(r).sig
    ensures if HasMain(r) then Alerted(Last(r)) else Last(r).sig && Last(r).main == LoopHead
  {
    hide Apply, Enabled, Alerted;
    if r.Then? {
      SignalRun(r.before);
      if HasMain(r.before) {
        AlertedStep(Last(r.before), r.step);
      } else {
        HeadStep(Last(r.before), r.step);
      }
    }
  }

  /** A signal is obeyed within one turn of main's loop, whatever the clients do in it: if
      main comes back to the head of its loop the state there is SHUTDOWN. */
  lemma SignalIsObeyed(r: Run)
    requires Valid(r) && First(r).main == LoopHead && First(r).sig
    requires HasMain(r) && Last(r).main == LoopHead
    ensures Last(r).vm == Shutdown
  {
    SignalRun(r);
  }

  lemma Idle(s: State) returns (c: Run)
    requires s.main == Accepting
    ensures Valid(c) && First(c) == s && Last(c) == s.(main := SigTest)
  {
    c := Then(Start(s), NoConnection);
  }

  /** When no client connects, main comes back and leaves its loop. */
  lemma SignalIsServed(s: State) returns (c: Run)
    requires s.main == Accepting && s.sig
    ensures Valid(c) && First(c) == s && Last(c).main == Done && Last(c).vm == Shutdown
  {
    hide Valid, First, Last, Apply, Enabled, ServedText, Confined;
    c := Idle(s);
    var t := s.(main := SigTest);
    t := t.(main := SigWrite);
    c := Serve(c, t);
    t := t.(vm := Shutdown, main := LoopHead);
    c := Serve(c, t);
    t := t.(main := Done);
    c := Serve(c, t);
  }

  // ----- nothing else -----

  /** No signal comes, no SHUTDOWN is received, and the guest goes on. */
  ghost predicate Undisturbed(r: Run)
    requires Valid(r)
  {
    r.Then? ==>
      && Undisturbed(r.before)
      && !r.step.Signal?
      && (r.step.Return? ==> GoesOn(r.step.exit))
      && (r.step.Receive? ==> NextCommand(Last(r.before).client) != Some(CmdShutdown))
  }

  predicate Calm(s: State) {
    s.vm != Shutdown && !s.sig && NobodyShuts(s) && !s.main.ShutState? && !s.main.ShutTest? && !s.main.SigWrite?
  }

  lemma CalmMainStep(s: State)
    requires MainSteps(s) && Calm(s)
    ensures Calm(MainNext(s))
  {
    hide AfterReply, ServedText, Confined, NobodyShuts;
    MainLeavesNobody(s);
  }

  lemma CalmStep(s: State, step: Step)
    requires Enabled(s, step) && Calm(s) && !step.Signal? && (step.Return? ==> GoesOn(step.exit))
    requires step.Receive? ==> NextCommand(s.client) != Some(CmdShutdown)
    ensures Calm(Apply(s, step))
  {
    hide MainNext, NextCommand, ServedText, Confined;
    if step.Main? {
      CalmMainStep(s);
    } else {
      GoOnStep(s, step);
    }
  }

  /** Nothing but a signal, a SHUTDOWN command or an exit of the guest ends the VM. */
  lemma {:induction false} NothingElseEnds(r: Run)
    requires Valid(r) && Initial(First(r)) && Undisturbed(r)
    ensures Calm(Last(r))
  {
    match r
    case Start(_) =>
    case Then(b, step) =>
      hide Apply, Enabled, Calm, Initial, GoesOn;
      NothingElseEnds(b);
      CalmStep(Last(b), step);
  }

  // ----- the threads -----

  predicate AllCreated(r: Run) {
    r.Then? ==> AllCreated(r.before) && r.step != Create(false)
  }

  /** Threads are created in order, all of them before main serves, and main leaves its
      loop on SHUTDOWN only. */
  predicate ThreadsOk(s: State) {
    && (s.main.Creating? ==> s.main.next <= |s.vcpus|)
    && (forall i :: 0 <= i < |s.vcpus| ==> (s.vcpus[i] == NotCreated <==> s.main.Creating? && i >= s.main.next))
    && s.main != StartWrite(false)
    && (s.main.Done? ==> s.vm == Shutdown)
  }

  /** A thread could not be created: main does not serve. */
  predicate StartFailed(s: State) {
    s.main == StartWrite(false) || s.main == Done
  }

  lemma ThreadsMainStep(s: State)
    requires MainSteps(s)
    ensures ThreadsOk(s) ==> ThreadsOk(MainNext(s))
    ensures StartFailed(s) ==> StartFailed(MainNext(s))
  {
    hide AfterReply, ServedText, Confined;
    MainLeavesGuest(s);
  }

  lemma ThreadsVcpuStep(s: State, i: nat)
    requires i < |s.vcpus| && VcpuSteps(s.vcpus[i])
    ensures ThreadsOk(s) ==> ThreadsOk(VcpuNext(s, i))
    ensures VcpuNext(s, i).main == s.main
  {
  }

  lemma ThreadsCreateStep(s: State)
    requires Enabled(s, Create(true)) && ThreadsOk(s)
    ensures ThreadsOk(Apply(s, Create(true)))
  {
  }

  lemma ThreadsStep(s: State, step: Step)
    requires Enabled(s, step)
    ensures ThreadsOk(s) && step != Create(false) ==> ThreadsOk(Apply(s, step))
    ensures StartFailed(s) || step == Create(false) ==> StartFailed(Apply(s, step))
  {
    hide MainNext, VcpuNext, NextCommand, ServedText, Confined, WritesShutdown;
    if step.Main? {
      ThreadsMainStep(s);
    } else if step.Vcpu? {
      ThreadsVcpuStep(s, step.i);
    } else if step == Create(true) && ThreadsOk(s) {
      ThreadsCreateStep(s);
    }
  }

  /** If no creation fails all threads exist once main serves, and main is done only on
      SHUTDOWN; if one fails main serves nobody. */
  lemma {:induction false} ThreadsAreCreated(r: Run)
    requires Valid(r) && Initial(First(r))
    ensures if AllCreated(r) then ThreadsOk(Last(r)) else StartFailed(Last(r))
  {
    match r
    case Start(_) =>
    case Then(b, step) =>
      hide Apply, Enabled, ThreadsOk, StartFailed, Initial;
      ThreadsAreCreated(b);
      ThreadsStep(Last(b), step);
  }
}
