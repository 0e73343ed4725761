/** Concrete runs that show which bounds are reached and which hopes fail. */
module Witnesses {
  import opened Text
  import opened DumpLoops
  import opened DumpGuest
  import opened Lifecycle
  import opened LockDiscipline
  import opened Overshoot
  import opened Snapshot
  import opened Termination

  /** One step more, with the state it leads to. */
  lemma Take(r: Run, step: Step, s: State) returns (r': Run)
    requires Valid(r) && Enabled(Last(r), step) && Apply(Last(r), step) == s
    ensures Valid(r') && Last(r') == s && First(r') == First(r)
    ensures OwnClients(r') <==> OwnClients(r) && (step.Connect? ==> Arrives(step.client))
    ensures r' == Then(r, step)
  {
    r' := Then(r, step);
  }

  lemma Begin(s: State) returns (r: Run)
    ensures Valid(r) && Last(r) == s && First(r) == s && OwnClients(r) && Stays(r, s.vm)
    ensures s.vm != Running ==> NeverRunning(r)
    ensures Entries(r, 0) == 0 && PausesShutDown(r) == 0
  {
    r := Start(s);
  }

  /** One vCPU and some guest memory. */
  function OneVcpu(mem: seq<byte>): (s: State)
    ensures Initial(s)
  {
    State(Paused, false, false, mem, [NotCreated], Creating(0), NoClient, Paused, [], [])
  }

  /** The VM is started, its vCPU is about to enter the guest, main waits for a
      connection. */
  function Started(mem: seq<byte>): State {
    OneVcpu(mem).(vm := Running, vcpus := [Enter], main := Accepting)
  }

  lemma Boot(mem: seq<byte>) returns (r: Run)
    ensures Valid(r) && First(r) == OneVcpu(mem) && OwnClients(r) && Last(r) == Started(mem)
  {
    hide ServedText, Confined, Valid, Last, First, OwnClients;
    var s := OneVcpu(mem);
    r := Begin(s);
    s := s.(vcpus := [Head], main := Creating(1));
    r := Take(r, Create(true), s);
    s := s.(main := StartWrite(true));
    r := Take(r, Main, s);
    s := s.(vm := Running, main := LoopHead);
    r := Take(r, Main, s);
    s := s.(vcpus := [Check]);
    r := Take(r, Vcpu(0), s);
    s := s.(vcpus := [Enter]);
    r := Take(r, Vcpu(0), s);
    s := s.(main := Accepting);
    r := Take(r, Main, s);
  }

  /** The pause client connects, is told RUNNING and has just sent PAUSE. */
  function Pausing(mem: seq<byte>): State {
    Started(mem).(main := PauseState, client := PauseSeen(Running), res := Running)
  }

  lemma ClientPauses(mem: seq<byte>) returns (r: Run)
    ensures Valid(r) && First(r) == OneVcpu(mem) && OwnClients(r) && Last(r) == Pausing(mem)
  {
    hide ServedText, Confined, Valid, Last, First, OwnClients;
    r := Boot(mem);
    var s := Started(mem);
    s := s.(main := Receiving, client := PauseFresh);
    r := Take(r, Connect(PauseFresh), s);
    s := s.(main := HandleState);
    r := Take(r, Receive, s);
    s := s.(main := Replying, res := Running);
    r := Take(r, Main, s);
    s := s.(main := Receiving, client := PauseSeen(Running));
    r := Take(r, Main, s);
    s := s.(main := PauseState);
    r := Take(r, Receive, s);
  }

  /** The pause has just been written; the vCPU is past both of its reads. */
  function JustPaused(mem: seq<byte>): State {
    Pausing(mem).(vm := Paused, main := PauseLock)
  }

  lemma PauseWritten(mem: seq<byte>) returns (r: Run)
    ensures Valid(r) && First(r) == OneVcpu(mem) && OwnClients(r) && Last(r) == JustPaused(mem)
  {
    hide ServedText, Confined, Valid, Last, First, OwnClients;
    r := ClientPauses(mem);
    r := Take(r, Main, JustPaused(mem));
  }

  // ----- two entries after a pause -----

  /** A step that neither enters the guest nor changes the state. */
  lemma TakeAside(r: Run, step: Step, s: State) returns (r': Run)
    requires Valid(r) && Enabled(Last(r), step) && Apply(Last(r), step) == s
    requires NeverRunning(r) && s.vm == Last(r).vm && (step == Vcpu(0) ==> !Last(r).vcpus[0].Enter?)
    ensures Valid(r') && Last(r') == s && First(r') == First(r) && NeverRunning(r')
    ensures Entries(r', 0) == Entries(r, 0) && PausesShutDown(r') == PausesShutDown(r)
  {
    r' := Then(r, step);
  }

  lemma TakeEntry(r: Run, s: State) returns (r': Run)
    requires Valid(r) && Enabled(Last(r), Vcpu(0)) && Apply(Last(r), Vcpu(0)) == s
    requires NeverRunning(r) && Last(r).vcpus[0].Enter?
    ensures Valid(r') && Last(r') == s && First(r') == First(r) && NeverRunning(r')
    ensures Entries(r', 0) == Entries(r, 0) + 1 && PausesShutDown(r') == PausesShutDown(r)
  {
    r' := Then(r, Vcpu(0));
  }

  lemma TakeShutdown(r: Run, s: State) returns (r': Run)
    requires Valid(r) && Enabled(Last(r), Main) && Apply(Last(r), Main) == s
    requires NeverRunning(r) && Last(r).vm == Paused && s.vm == Shutdown
    ensures Valid(r') && Last(r') == s && First(r') == First(r) && NeverRunning(r')
    ensures Entries(r', 0) == Entries(r, 0) && PausesShutDown(r') == PausesShutDown(r) + 1
  {
    r' := Then(r, Main);
  }

  /** The thread is back between its two reads, and main about to serve the signal. */
  function Overshot(mem: seq<byte>): State {
    JustPaused(mem).(vcpus := [Check], paused := true, sig := true, lockLog := [Lock],
                     client := NoClient, main := SigWrite)
  }

  lemma FirstEntry(mem: seq<byte>) returns (r: Run)
    ensures Valid(r) && First(r) == JustPaused(mem) && Last(r) == Overshot(mem) && NeverRunning(r)
    ensures Entries(r, 0) == 1 && PausesShutDown(r) == 0
  {
    hide ServedText, Confined, Valid, Last, First, OwnClients, NeverRunning, Entries, PausesShutDown, Stays;
    var s := JustPaused(mem);
    r := Begin(s);
    s := s.(vcpus := [Guest]);
    r := TakeEntry(r, s);
    s := s.(vcpus := [Head]);
    r := TakeAside(r, Return(0, Intr), s);
    s := s.(vcpus := [Check]);
    r := TakeAside(r, Vcpu(0), s);
    s := s.(lockLog := [Lock], main := PauseFlag);
    r := TakeAside(r, Main, s);
    s := s.(paused := true, main := Replying);
    r := TakeAside(r, Main, s);
    s := s.(client := PauseSent, main := Receiving);
    r := TakeAside(r, Main, s);
    s := s.(client := NoClient, main := SigTest);
    r := TakeAside(r, HangUp, s);
    s := s.(sig := true);
    r := TakeAside(r, Signal, s);
    s := s.(main := SigWrite);
    r := TakeAside(r, Main, s);
  }

  /** The bound of two is reached: the thread enters the guest once after PAUSED is
      written, and once more because SHUTDOWN falls between its two reads. */
  lemma TwoEntries(mem: seq<byte>) returns (p: Run, r: Run)
    ensures Valid(p) && Initial(First(p)) && OwnClients(p)
    ensures Valid(r) && First(r) == Last(p) && NeverRunning(r)
    ensures PausesShutDown(r) == 1 && Entries(r, 0) == 2
  {
    hide ServedText, Confined, Valid, Last, First, OwnClients, NeverRunning, Entries, PausesShutDown, Stays;
    p := PauseWritten(mem);
    r := FirstEntry(mem);
    var s := Overshot(mem).(vm := Shutdown, main := LoopHead);
    r := TakeShutdown(r, s);
    s := s.(vcpus := [Enter]);
    r := TakeAside(r, Vcpu(0), s);
    s := s.(vcpus := [Guest]);
    r := TakeEntry(r, s);
  }

  // ----- a shutdown that is lost -----

  /** The guest halts after the pause client was told RUNNING; the PAUSE it then sends
      takes the VM from SHUTDOWN back to PAUSED. */
  lemma LostShutdown(mem: seq<byte>) returns (r: Run)
    ensures Valid(r) && Initial(First(r)) && OwnClients(r)
    ensures Last(r).vm == Shutdown && Enabled(Last(r), Main) && Apply(Last(r), Main).vm == Paused
  {
    hide ServedText, Confined, Valid, Last, First, OwnClients;
    r := ClientPauses(mem);
    var s := Pausing(mem);
    s := s.(vcpus := [Guest]);
    r := Take(r, Vcpu(0), s);
    s := s.(vcpus := [WriteShutdown(false)]);
    r := Take(r, Return(0, Hlt), s);
    s := s.(vcpus := [Head], vm := Shutdown);
    r := Take(r, Vcpu(0), s);
  }

  // ----- a signal during a pause -----

  /** The VM is paused and its vCPU parked; the pause client is still connected. */
  function ParkedVm(mem: seq<byte>): State {
    JustPaused(mem).(vcpus := [Waiting], paused := true, lockLog := [Lock], main := Replying)
  }

  lemma Parks(mem: seq<byte>) returns (r: Run)
    ensures Valid(r) && First(r) == OneVcpu(mem) && OwnClients(r) && Last(r) == ParkedVm(mem)
  {
    hide ServedText, Confined, Valid, Last, First, OwnClients;
    r := PauseWritten(mem);
    var s := JustPaused(mem);
    s := s.(lockLog := [Lock], main := PauseFlag);
    r := Take(r, Main, s);
    s := s.(paused := true, main := Replying);
    r := Take(r, Main, s);
    s := s.(vcpus := [Guest]);
    r := Take(r, Vcpu(0), s);
    s := s.(vcpus := [Head]);
    r := Take(r, Return(0, Intr), s);
    s := s.(vcpus := [Check]);
    r := Take(r, Vcpu(0), s);
    s := s.(vcpus := [ParkTest]);
    r := Take(r, Vcpu(0), s);
    s := s.(vcpus := [Waiting]);
    r := Take(r, Vcpu(0), s);
  }

  /** SIGINT while the VM is paused: main leaves its loop with the flag still set, and
      the parked vCPU thread can never exit. */
  lemma SignalWhilePaused(mem: seq<byte>) returns (r: Run)
    ensures Valid(r) && Initial(First(r)) && OwnClients(r)
    ensures Last(r).main.Done? && Last(r).vm == Shutdown && Last(r).paused
    ensures Last(r).vcpus == [Waiting]
    ensures !exists c :: Valid(c) && First(c) == Last(r) && 0 < |Last(c).vcpus| && Last(c).vcpus[0].Exited?
  {
    hide ServedText, Confined, Valid, Last, First, OwnClients;
    r := Parks(mem);
    var s := ParkedVm(mem);
    s := s.(client := PauseSent, main := Receiving);
    r := Take(r, Main, s);
    s := s.(client := NoClient, main := SigTest);
    r := Take(r, HangUp, s);
    s := s.(sig := true);
    r := Take(r, Signal, s);
    s := s.(main := SigWrite);
    r := Take(r, Main, s);
    s := s.(vm := Shutdown, main := LoopHead);
    r := Take(r, Main, s);
    s := s.(main := Done);
    r := Take(r, Main, s);
    MayExit(s, 0);
  }

  // ----- dumps of a pause that is not quiet -----

  /** The VM is paused, its vCPU is still inside the guest, and main waits for the next
      connection. */
  function PausedInGuest(mem: seq<byte>): State {
    JustPaused(mem).(vcpus := [Guest], paused := true, lockLog := [Lock], client := NoClient, main := Accepting)
  }

  lemma StillInside(mem: seq<byte>) returns (r: Run)
    ensures Valid(r) && First(r) == OneVcpu(mem) && OwnClients(r) && Last(r) == PausedInGuest(mem)
  {
    hide ServedText, Confined, Valid, Last, First, OwnClients;
    r := PauseWritten(mem);
    var s := JustPaused(mem);
    s := s.(vcpus := [Guest]);
    r := Take(r, Vcpu(0), s);
    s := s.(lockLog := [Lock], main := PauseFlag);
    r := Take(r, Main, s);
    s := s.(paused := true, main := Replying);
    r := Take(r, Main, s);
    s := s.(client := PauseSent, main := Receiving);
    r := Take(r, Main, s);
    s := s.(client := NoClient, main := SigTest);
    r := Take(r, HangUp, s);
    s := s.(main := LoopHead);
    r := Take(r, Main, s);
    s := s.(main := Accepting);
    r := Take(r, Main, s);
  }

  /** Such a pause is reached, with any memory: there is a run from the start after which
      two dumps of any range, made with the VM PAUSED throughout, may differ. */
  lemma UnstableDumps(m0: seq<byte>, q: Request) returns (p: Run, r: Run)
    requires Confined(q, |m0|) && ShowsSome(q, |m0|)
    ensures Valid(p) && Initial(First(p)) && OwnClients(p) && Last(p).mem == m0
    ensures PausedRun(r, Last(p)) && !DumpsAgree(r, q)
  {
    hide Confined, ShowsSome, DumpsAgree, PausedRun, Valid, Last, First, OwnClients;
    p := StillInside(m0);
    NotStillInside(m0);
    DumpsRepeatExactly(PausedInGuest(m0), q);
    r := Disagreement(PausedInGuest(m0), q);
  }

  lemma NotStillInside(mem: seq<byte>)
    ensures !Still(PausedInGuest(mem))
  {
    assert !StillPc(PausedInGuest(mem).vcpus[0]);
  }

  lemma Disagreement(s: State, q: Request) returns (r: Run)
    requires !(forall r :: PausedRun(r, s) ==> DumpsAgree(r, q))
    ensures PausedRun(r, s) && !DumpsAgree(r, q)
  {
    r :| PausedRun(r, s) && !DumpsAgree(r, q);
  }

  // ----- a client that does not ask first -----

  lemma UncheckedPause(mem: seq<byte>) returns (r: Run)
    ensures Valid(r) && First(r) == OneVcpu(mem) && !OwnClients(r)
    ensures Last(r) == Started(mem).(main := Replying, client := Raw([CmdPause, CmdPause]),
                                     vm := Paused, lockLog := [Lock], paused := true)
  {
    hide ServedText, Confined, Valid, Last, First, OwnClients;
    r := Boot(mem);
    var s := Started(mem);
    s := s.(main := Receiving, client := Raw([CmdPause, CmdPause]));
    r := Take(r, Connect(Raw([CmdPause, CmdPause])), s);
    s := s.(main := PauseState);
    r := Take(r, Receive, s);
    s := s.(vm := Paused, main := PauseLock);
    r := Take(r, Main, s);
    s := s.(lockLog := [Lock], main := PauseFlag);
    r := Take(r, Main, s);
    s := s.(paused := true, main := Replying);
    r := Take(r, Main, s);
  }

  /** A client that sends PAUSE twice makes main wait for the lock it holds. */
  lemma UncheckedPauses(mem: seq<byte>) returns (r: Run)
    ensures Valid(r) && Initial(First(r)) && !OwnClients(r)
    ensures Last(r).main.PauseLock? && Held(Last(r).lockLog)
  {
    hide ServedText, Confined, Valid, Last, First, OwnClients;
    r := UncheckedPause(mem);
    var s := Last(r);
    assert [CmdPause, CmdPause][1..] == [CmdPause];
    s := s.(client := Raw([CmdPause]), main := Receiving);
    r := Take(r, Main, s);
    s := s.(main := PauseState);
    r := Take(r, Receive, s);
    s := s.(main := PauseLock);
    r := Take(r, Main, s);
  }
}
