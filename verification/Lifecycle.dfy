/** The life of a VM as an interleaving of the main thread, any number of vCPU
    threads and the clients that main serves one at a time. Every read or write of
    the shared variables state and paused is one step, in one global order.

    Sources: src/kvm/kvm.c (vCPU thread, start, pause, resume), src/commands/status.c
    (handlers), src/commands/run.c (main loop), src/commands/{pause,resume,shutdown,
    status}.c (clients). */
module Lifecycle {
  import opened Text
  import opened DumpLoops

  datatype VmState = Paused | Running | Shutdown

  // ----- vCPU threads -----

  /** How KVM_RUN ends. */
  datatype Exit =
    | IoctlFailed | Hlt | Io(out: bool, port: nat) | GuestShutdown | InternalError
    | Intr | FailEntry | Unknown | Unhandled

  /** mini_kvm_handle_io: output goes to the serial port and nowhere else. */
  predicate IoServed(out: bool, port: nat) {
    out ==> port == 0x3f8
  }

  /** The switch over the exit reason. */
  predicate WritesShutdown(e: Exit) {
    match e
    case IoctlFailed => true
    case Hlt => true
    case Io(out, port) => !IoServed(out, port)
    case GuestShutdown => true
    case InternalError => true
    case Intr => false
    case FailEntry => true
    case Unknown => false
    case Unhandled => false
  }

  /** What a vCPU thread does next; the numbers are lines of src/kvm/kvm.c. */
  datatype VcpuPc =
    | NotCreated
    | Head                         // 350: read state, leave the loop on SHUTDOWN
    | Check                        // 352: read state, go to the parking loop on PAUSED
    | ParkTest                     // 353: read paused
    | Waiting                      // 354: in pthread_cond_wait
    | Enter                        // 359: about to issue KVM_RUN
    | Guest                        // 359: inside KVM_RUN
    | WriteShutdown(leave: bool)   // 362, 370, 374, 379, 383, 392: write SHUTDOWN
    | Exited                       // 403

  // ----- clients -----

  datatype Command =
    | CmdNone | CmdPause | CmdResume | CmdShutdown | CmdState | CmdRegs | CmdDump(range: Request)

  /** A client of the connection being served. Raw is any other program that talks
      to the socket; it is not part of the repository. */
  datatype Client =
    | NoClient
    | PauseFresh | PauseSeen(state: VmState) | PauseSent
    | ResumeFresh | ResumeSeen(state: VmState) | ResumeSent
    | ShutdownFresh | ShutdownSent
    | Status(queue: seq<Command>)
    | Raw(queue: seq<Command>)

  predicate IsQuery(c: Command) {
    c.CmdState? || c.CmdRegs? || c.CmdDump?
  }

  /** As a client of the repository connects. */
  predicate Arrives(c: Client) {
    c.PauseFresh? || c.ResumeFresh? || c.ShutdownFresh? ||
    (c.Status? && forall i :: 0 <= i < |c.queue| ==> IsQuery(c.queue[i]))
  }

  datatype Option<T> = None | Some(value: T)

  /** What the client sends next; None when it closes the connection. */
  function NextCommand(c: Client): Option<Command> {
    match c
    case PauseFresh => Some(CmdState)
    case PauseSeen(s) => if s == Running then Some(CmdPause) else None
    case ResumeFresh => Some(CmdState)
    case ResumeSeen(s) => if s == Paused then Some(CmdResume) else None
    case ShutdownFresh => Some(CmdShutdown)
    case Status(q) => if q == [] then None else Some(q[0])
    case Raw(q) => if q == [] then None else Some(q[0])
    case _ => None
  }

  /** The client once it has the reply, whose state field is res. */
  function AfterReply(c: Client, res: VmState): Client {
    match c
    case PauseFresh => PauseSeen(res)
    case PauseSeen(_) => PauseSent
    case ResumeFresh => ResumeSeen(res)
    case ResumeSeen(_) => ResumeSent
    case ShutdownFresh => ShutdownSent
    case Status(q) => if q == [] then c else Status(q[1..])
    case Raw(q) => if q == [] then c else Raw(q[1..])
    case _ => c
  }

  // ----- main thread -----

  datatype MainPc =
    | Creating(next: nat)                          // kvm.c:327, create thread next
    | StartWrite(ok: bool)                         // kvm.c:335, write RUNNING
    | LoopHead                                     // run.c:271, read state
    | Accepting                                    // run.c:272
    | Receiving                                    // run.c:275
    | HandleState                                  // status.c:237, read state
    | HandleRegs                                   // status.c:243, read state
    | HandleDump(range: Request)                   // status.c:271, read state
    | Dumping(range: Request, snap: seq<byte>)     // status.c:278, read memory
    | PauseState                                   // status.c:292, write PAUSED
    | PauseLock                                    // kvm.c:433, lock pause_lock
    | PauseFlag                                    // kvm.c:434, paused = 1
    | ResumeState                                  // status.c:302, write RUNNING
    | ResumeFlag                                   // kvm.c:438, paused = 0
    | ResumeUnlock                                 // kvm.c:440, unlock pause_lock
    | ShutState                                    // status.c:312, write SHUTDOWN
    | ShutTest                                     // status.c:314, read paused
    | Replying                                     // run.c:277
    | SigTest                                      // run.c:283, read sig_status
    | SigWrite                                     // run.c:284, write SHUTDOWN
    | Done                                         // run.c:292

  datatype LockOp = Lock | Unlock

  datatype DumpRecord = DumpRecord(range: Request, text: string)

  /** res is the state field of the reply structure, which main reuses; lockLog
      records main's operations on pause_lock and dumps the texts it has sent. */
  datatype State = State(
    vm: VmState,
    paused: bool,
    sig: bool,
    mem: seq<byte>,
    vcpus: seq<VcpuPc>,
    main: MainPc,
    client: Client,
    res: VmState,
    lockLog: seq<LockOp>,
    dumps: seq<DumpRecord>)

  /** After set-up: state PAUSED, paused 0, no thread created. */
  predicate Initial(s: State) {
    && s.vm == Paused && !s.paused && !s.sig
    && |s.vcpus| >= 1 && (forall i :: 0 <= i < |s.vcpus| ==> s.vcpus[i] == NotCreated)
    && s.main == Creating(0)
    && s.client == NoClient && s.res == Paused
    && s.lockLog == [] && s.dumps == []
  }

  // ----- steps -----

  datatype Step =
    | Create(ok: bool)               // pthread_create succeeds or fails
    | Main                           // the one step main can take at its pc
    | Connect(client: Client)        // accept returns a connection
    | NoConnection
    | Receive                        // the client's next command arrives
    | HangUp                         // the client closes, or dies
    | Reread(at: nat)                // the dump reads a byte of memory
    | StrayDump(text: string)        // a dump not confined to guest memory gives any text
    | NoOutput                       // the client's output cannot be opened for the dump
    | Vcpu(i: nat)                   // a read, write or KVM_RUN entry of thread i
    | Store(i: nat, mem: seq<byte>)  // the guest of vCPU i changes memory
    | Return(i: nat, exit: Exit)     // KVM_RUN returns
    | Wake(i: nat)                   // pthread_cond_wait returns, for whatever reason
    | Signal                         // SIGINT or SIGTERM arrives

  /** Main's steps with one outcome. */
  predicate MainSteps(s: State) {
    match s.main
    case Creating(k) => k >= |s.vcpus|
    case Accepting => false
    case Receiving => false
    case Done => false
    case HandleDump(range) => s.vm == Paused ==> Confined(range, |s.mem|)
    case Dumping(range, snap) => |snap| == |s.mem| && Confined(range, |s.mem|)
    case _ => true
  }

  predicate VcpuSteps(pc: VcpuPc) {
    pc.Head? || pc.Check? || pc.ParkTest? || pc.Enter? || pc.WriteShutdown?
  }

  predicate Enabled(s: State, step: Step) {
    match step
    case Create(_) => s.main.Creating? && s.main.next < |s.vcpus|
    case Main => MainSteps(s)
    case Connect(c) => s.main.Accepting?
    case NoConnection => s.main.Accepting?
    case Receive => s.main.Receiving? && NextCommand(s.client).Some?
    case HangUp => s.main.Receiving?
    case Reread(at) => s.main.Dumping? && at < |s.main.snap| == |s.mem|
    case StrayDump(_) => s.main.HandleDump? && s.vm == Paused && !Confined(s.main.range, |s.mem|)
    case NoOutput => s.main.HandleDump? && s.vm == Paused
    case Vcpu(i) => i < |s.vcpus| && VcpuSteps(s.vcpus[i])
    case Store(i, mem) => i < |s.vcpus| && s.vcpus[i].Guest? && |mem| == |s.mem|
    case Return(i, _) => i < |s.vcpus| && s.vcpus[i].Guest?
    case Wake(i) => i < |s.vcpus| && s.vcpus[i].Waiting?
    case Signal => true
  }

  function Handler(c: Command): MainPc {
    match c
    case CmdNone => Replying
    case CmdPause => PauseState
    case CmdResume => ResumeState
    case CmdShutdown => ShutState
    case CmdState => HandleState
    case CmdRegs => HandleRegs
    case CmdDump(r) => HandleDump(r)
  }

  function MainNext(s: State): State
    requires MainSteps(s)
  {
    match s.main
    case Creating(_) => s.(main := StartWrite(true))
    case StartWrite(ok) => s.(vm := Running, main := if ok then LoopHead else Done)
    case LoopHead => s.(main := if s.vm == Shutdown then Done else Accepting)
    case HandleState => s.(res := s.vm, main := Replying)
    case HandleRegs => s.(main := Replying)
    case HandleDump(r) => s.(main := if s.vm == Paused then Dumping(r, s.mem) else Replying)
    case Dumping(r, snap) => s.(dumps := s.dumps + [DumpRecord(r, ServedText(snap, r))], main := Replying)
    case PauseState => s.(vm := Paused, main := PauseLock)
    case PauseLock => s.(lockLog := s.lockLog + [Lock], main := PauseFlag)
    case PauseFlag => s.(paused := true, main := Replying)
    case ResumeState => s.(vm := Running, main := ResumeFlag)
    case ResumeFlag => s.(paused := false, main := ResumeUnlock)
    case ResumeUnlock => s.(lockLog := s.lockLog + [Unlock], main := Replying)
    case ShutState => s.(vm := Shutdown, main := ShutTest)
    case ShutTest => s.(main := if s.paused then ResumeFlag else Replying)
    case Replying => s.(client := AfterReply(s.client, s.res), main := Receiving)
    case SigTest => s.(main := if s.sig then SigWrite else LoopHead)
    case SigWrite => s.(vm := Shutdown, main := LoopHead)
  }

  function VcpuNext(s: State, i: nat): State
    requires i < |s.vcpus| && VcpuSteps(s.vcpus[i])
  {
    match s.vcpus[i]
    case Head => At(s, i, if s.vm == Shutdown then Exited else Check)
    case Check => At(s, i, if s.vm == Paused then ParkTest else Enter)
    case ParkTest => At(s, i, if s.paused then Waiting else Head)
    case Enter => At(s, i, Guest)
    case WriteShutdown(leave) => At(s, i, if leave then Exited else Head).(vm := Shutdown)
  }

  function At(s: State, i: nat, pc: VcpuPc): State
    requires i < |s.vcpus|
  {
    s.(vcpus := s.vcpus[i := pc])
  }

  function Apply(s: State, step: Step): State
    requires Enabled(s, step)
  {
    match step
    case Create(ok) =>
      if ok then At(s, s.main.next, Head).(main := Creating(s.main.next + 1))
      else s.(main := StartWrite(false))
    case Main => MainNext(s)
    case Connect(c) => s.(client := c, main := Receiving)
    case NoConnection => s.(main := SigTest)
    case Receive => s.(main := Handler(NextCommand(s.client).value))
    case HangUp => s.(client := NoClient, main := SigTest)
    case Reread(at) => s.(main := Dumping(s.main.range, s.main.snap[at := s.mem[at]]))
    case StrayDump(text) => s.(dumps := s.dumps + [DumpRecord(s.main.range, text)], main := Replying)
    case NoOutput => s.(main := Replying)
    case Vcpu(i) => VcpuNext(s, i)
    case Store(_, mem) => s.(mem := mem)
    case Return(i, e) => At(s, i, if WritesShutdown(e) then WriteShutdown(e.IoctlFailed?) else Head)
    case Wake(i) => At(s, i, ParkTest)
    case Signal => s.(sig := true)
  }

  // ----- what a step leaves alone -----

  predicate OwnStep(step: Step, i: nat) {
    step == Vcpu(i) || step == Wake(i) || (step.Return? && step.i == i)
  }

  lemma MainLeavesGuest(s: State)
    requires MainSteps(s)
    ensures MainNext(s).vcpus == s.vcpus && MainNext(s).mem == s.mem && MainNext(s).sig == s.sig
  {
    hide AfterReply, ServedText, Confined;
  }

  lemma SameCount(s: State, step: Step)
    requires Enabled(s, step)
    ensures |Apply(s, step).vcpus| == |s.vcpus|
  {
    hide MainNext, Handler, NextCommand, ServedText, Confined, WritesShutdown;
    if step.Main? {
      MainLeavesGuest(s);
    }
  }

  /** A thread moves by its own steps, or when it is created. */
  lemma OthersStay(s: State, step: Step, i: nat)
    requires Enabled(s, step) && i < |s.vcpus| && !OwnStep(step, i)
    ensures i < |Apply(s, step).vcpus|
    ensures Apply(s, step).vcpus[i] == s.vcpus[i] || (step.Create? && Apply(s, step).vcpus[i] == Head)
  {
    hide MainNext, Handler, NextCommand, ServedText, Confined, WritesShutdown;
    if step.Main? {
      MainLeavesGuest(s);
    }
  }

  // ----- runs -----

  /** A run from any state: a start and the steps taken, last one outermost. */
  datatype Run = Start(s: State) | Then(before: Run, step: Step)

  function First(r: Run): State {
    match r
    case Start(s) => s
    case Then(b, _) => First(b)
  }

  ghost predicate Valid(r: Run)
    decreases r, 0
  {
    match r
    case Start(_) => true
    case Then(b, step) => Valid(b) && Enabled(Last(b), step)
  }

  ghost function Last(r: Run): State
    requires Valid(r)
    decreases r, 1
  {
    match r
    case Start(s) => s
    case Then(b, step) => Apply(Last(b), step)
  }

  /** One step more. */
  lemma Extend(r: Run, step: Step)
    requires Valid(r) && Enabled(Last(r), step)
    ensures Valid(Then(r, step)) && Last(Then(r, step)) == Apply(Last(r), step)
    ensures First(Then(r, step)) == First(r)
    ensures OwnClients(r) && (step.Connect? ==> Arrives(step.client)) ==> OwnClients(Then(r, step))
  {
  }

  /** Only clients of the repository connect. */
  predicate OwnClients(r: Run) {
    r.Then? ==> OwnClients(r.before) && (r.step.Connect? ==> Arrives(r.step.client))
  }

  /** The state variable has a value throughout. */
  ghost predicate Stays(r: Run, v: VmState)
    requires Valid(r)
  {
    Last(r).vm == v && (r.Then? ==> Stays(r.before, v))
  }

  /** Steps that thread i takes itself; the guest's stores are not among them. */
  function OwnSteps(r: Run, i: nat): nat {
    match r
    case Start(_) => 0
    case Then(b, step) => OwnSteps(b, i) + if OwnStep(step, i) then 1 else 0
  }
}
