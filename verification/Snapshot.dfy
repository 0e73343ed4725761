/** Once every vCPU has seen the pause, the guest's memory stands still and dumps of
    it repeat. */
module Snapshot {
  import opened Text
  import opened DumpLoops
  import opened DumpGuest
  import opened Lifecycle

  /** Neither about to enter the guest nor in it. */
  predicate StillPc(pc: VcpuPc) {
    !pc.Enter? && !pc.Guest?
  }

  predicate Still(s: State) {
    forall i :: 0 <= i < |s.vcpus| ==> StillPc(s.vcpus[i])
  }

  /** Not between passing the PAUSED check and the next loop head. */
  predicate QuietPc(pc: VcpuPc) {
    StillPc(pc) && !pc.WriteShutdown?
  }

  predicate Quiet(s: State) {
    forall i :: 0 <= i < |s.vcpus| ==> QuietPc(s.vcpus[i])
  }

  predicate IsMains(step: Step) {
    !step.Vcpu? && !step.Store? && !step.Return? && !step.Wake? && !step.Signal?
  }

  /** The dump in progress, if any, has read only what is in memory. */
  predicate SnapOk(s: State, mem: seq<byte>) {
    s.main.Dumping? ==> s.main.snap == mem && Confined(s.main.range, |mem|)
  }

  /** Every dump from number n on that stays inside guest memory shows mem. */
  predicate DumpsShow(s: State, n: nat, mem: seq<byte>) {
    forall k :: n <= k < |s.dumps| && Confined(s.dumps[k].range, |mem|) ==>
      s.dumps[k].text == ServedText(mem, s.dumps[k].range)
  }

  lemma StillVcpuNext(s: State, i: nat)
    requires s.vm == Paused && Still(s) && i < |s.vcpus| && VcpuSteps(s.vcpus[i])
    ensures VcpuNext(s, i).mem == s.mem && Still(VcpuNext(s, i))
    ensures Quiet(s) ==> Quiet(VcpuNext(s, i)) && VcpuNext(s, i).vm == Paused
  {
  }

  lemma StillVcpuStep(s: State, step: Step)
    requires s.vm == Paused && Still(s) && Enabled(s, step) && !IsMains(step)
    ensures Apply(s, step).mem == s.mem && Still(Apply(s, step))
    ensures Quiet(s) ==> Quiet(Apply(s, step)) && Apply(s, step).vm == Paused
  {
    hide WritesShutdown, MainNext, MainSteps, VcpuNext, NextCommand, Handler, ServedText, Confined;
    if step.Vcpu? {
      StillVcpuNext(s, step.i);
    }
  }

  lemma StillMainStep(s: State, step: Step)
    requires Still(s) && Enabled(s, step) && IsMains(step)
    ensures Apply(s, step).mem == s.mem && Still(Apply(s, step))
    ensures Quiet(s) ==> Quiet(Apply(s, step))
  {
    hide NextCommand, Handler, ServedText, Confined, MainNext, VcpuNext;
    if step.Main? {
      MainLeavesGuest(s);
    }
  }

  lemma QuietIsStill(s: State)
    requires Quiet(s)
    ensures Still(s)
  {
  }

  /** In a still pause no step changes memory or starts the guest. */
  lemma StillStep(s: State, step: Step)
    requires s.vm == Paused && Still(s) && Enabled(s, step)
    ensures Apply(s, step).mem == s.mem && Still(Apply(s, step))
  {
    hide Apply, Enabled, Still, Quiet, IsMains;
    if IsMains(step) {
      StillMainStep(s, step);
    } else {
      StillVcpuStep(s, step);
    }
  }

  /** In a quiet pause, moreover, only a step of main can change the state. */
  lemma QuietStep(s: State, step: Step)
    requires s.vm == Paused && Quiet(s) && Enabled(s, step)
    ensures Apply(s, step).mem == s.mem && Quiet(Apply(s, step))
    ensures Apply(s, step).vm != Paused ==> IsMains(step)
  {
    hide Apply, Enabled, Quiet, Still, IsMains;
    QuietIsStill(s);
    if IsMains(step) {
      StillMainStep(s, step);
    } else {
      StillVcpuStep(s, step);
    }
  }

  lemma DumpStep(s: State, step: Step, n: nat, mem: seq<byte>)
    requires Enabled(s, step) && s.mem == mem && SnapOk(s, mem)
    requires n <= |s.dumps| && DumpsShow(s, n, mem) && Apply(s, step).mem == mem
    ensures |s.dumps| <= |Apply(s, step).dumps|
    ensures SnapOk(Apply(s, step), mem) && DumpsShow(Apply(s, step), n, mem)
  {
    hide NextCommand, ServedText, Confined, DumpsShow, MainNext, VcpuNext;
    if step.Main? {
      MainDumpStep(s, n, mem);
    } else if step.StrayDump? {
      OneStrayDump(s, step.text, n, mem);
    } else {
      if step.Vcpu? {
        VcpuLeavesMain(s, step.i);
      }
      SameDumps(s, Apply(s, step), n, mem);
    }
  }

  lemma VcpuLeavesMain(s: State, i: nat)
    requires i < |s.vcpus| && VcpuSteps(s.vcpus[i])
    ensures VcpuNext(s, i).main == s.main && VcpuNext(s, i).dumps == s.dumps
  {
  }

  lemma MainDumpStep(s: State, n: nat, mem: seq<byte>)
    requires MainSteps(s) && s.mem == mem && SnapOk(s, mem) && n <= |s.dumps| && DumpsShow(s, n, mem)
    ensures |s.dumps| <= |MainNext(s).dumps|
    ensures SnapOk(MainNext(s), mem) && DumpsShow(MainNext(s), n, mem)
  {
    hide AfterReply, ServedText, Confined, DumpsShow;
    if s.main.Dumping? {
      OneDumpMore(s, n, mem);
    } else {
      SameDumps(s, MainNext(s), n, mem);
    }
  }

  lemma OneStrayDump(s: State, text: string, n: nat, mem: seq<byte>)
    requires Enabled(s, StrayDump(text)) && s.mem == mem && DumpsShow(s, n, mem)
    ensures DumpsShow(Apply(s, StrayDump(text)), n, mem)
  {
    hide ServedText, Confined;
  }

  lemma OneDumpMore(s: State, n: nat, mem: seq<byte>)
    requires MainSteps(s) && s.main.Dumping? && s.main.snap == mem && |mem| == |s.mem|
    requires DumpsShow(s, n, mem)
    ensures DumpsShow(MainNext(s), n, mem)
  {
    hide ServedText, Confined;
  }

  lemma SameDumps(s: State, s': State, n: nat, mem: seq<byte>)
    requires DumpsShow(s, n, mem) && s'.dumps == s.dumps
    ensures DumpsShow(s', n, mem)
  {
  }

  ghost predicate PausedRun(r: Run, s: State) {
    Valid(r) && First(r) == s && Stays(r, Paused)
  }

  /** While a still pause lasts it stays still, and memory is constant. */
  lemma {:induction false} StillMemory(r: Run, s: State)
    requires PausedRun(r, s) && Still(s)
    ensures Last(r).mem == s.mem && Still(Last(r))
    decreases r
  {
    hide Apply, Enabled, Still;
    if r.Then? {
      StillMemory(r.before, s);
      StillStep(Last(r.before), r.step);
    }
  }

  /** Every dump that starts in it and stays inside memory is the text of that one
      memory. */
  lemma {:induction false} StillPause(r: Run)
    requires Valid(r) && Stays(r, Paused) && Still(First(r)) && !First(r).main.Dumping?
    ensures Last(r).mem == First(r).mem
    ensures SnapOk(Last(r), First(r).mem) && |First(r).dumps| <= |Last(r).dumps|
    ensures DumpsShow(Last(r), |First(r).dumps|, First(r).mem)
  {
    hide Apply, Enabled, Still, DumpsShow, Confined;
    StillMemory(r, First(r));
    match r
    case Start(s) =>
      NoDumpsYet(s);
    case Then(b, step) =>
      StillPause(b);
      DumpStep(Last(b), step, |First(b).dumps|, First(b).mem);
  }

  lemma NoDumpsYet(s: State)
    ensures DumpsShow(s, |s.dumps|, s.mem)
  {
  }

  /** A quiet pause stays quiet as long as it lasts, and is still. */
  lemma {:induction false} QuietPause(r: Run)
    requires Valid(r) && Stays(r, Paused) && Quiet(First(r))
    ensures Quiet(Last(r)) && Last(r).mem == First(r).mem
  {
    hide Apply, Enabled, Quiet, Still;
    QuietIsStill(First(r));
    StillMemory(r, First(r));
    if r.Then? {
      QuietPause(r.before);
      QuietStep(Last(r.before), r.step);
    }
  }

  /** Two dumps of one range inside memory, made in one still pause, are the same text. */
  lemma DumpsRepeat(r: Run, j: nat, k: nat)
    requires Valid(r) && Stays(r, Paused) && Still(First(r)) && !First(r).main.Dumping?
    requires SameRange(r, j, k)
    ensures Last(r).dumps[j].text == Last(r).dumps[k].text
  {
    hide Confined, ServedText, Still;
    StillPause(r);
  }

  /** Dumps number j and k were both made during the run, of one range inside memory. */
  ghost predicate SameRange(r: Run, j: nat, k: nat)
    requires Valid(r)
  {
    && |First(r).dumps| <= j < |Last(r).dumps| && |First(r).dumps| <= k < |Last(r).dumps|
    && Last(r).dumps[j].range == Last(r).dumps[k].range
    && Confined(Last(r).dumps[j].range, |First(r).mem|)
  }

  /** If the state has left PAUSED, the first step that changed it was main's, and
      memory was the same until then. */
  lemma {:induction false} FirstChange(r: Run) returns (p: Run, step: Step)
    requires Valid(r) && First(r).vm == Paused && Quiet(First(r)) && !Stays(r, Paused)
    ensures Valid(p) && First(p) == First(r) && Stays(p, Paused) && Prefix(Then(p, step), r)
    ensures Enabled(Last(p), step) && Apply(Last(p), step).vm != Paused && IsMains(step)
    ensures Last(p).mem == First(r).mem
  {
    hide Apply, Enabled, Quiet, IsMains;
    if Stays(r.before, Paused) {
      p, step := r.before, r.step;
      QuietPause(p);
      QuietStep(Last(p), step);
    } else {
      p, step := FirstChange(r.before);
    }
  }

  predicate Prefix(p: Run, r: Run) {
    p == r || (r.Then? && Prefix(p, r.before))
  }

  // ----- how a pause becomes quiet -----

  /** Own steps a thread may still take before it has seen the pause. */
  function Unsettled(pc: VcpuPc): nat {
    if pc.Enter? then 3 else if pc.Guest? then 2 else if pc.WriteShutdown? then 1 else 0
  }

  lemma SettleOwnStep(s: State, step: Step, i: nat)
    requires Enabled(s, step) && s.vm == Paused && Apply(s, step).vm == Paused
    requires i < |s.vcpus| && OwnStep(step, i)
    ensures i < |Apply(s, step).vcpus|
    ensures Unsettled(Apply(s, step).vcpus[i]) <= if Unsettled(s.vcpus[i]) == 0 then 0 else Unsettled(s.vcpus[i]) - 1
  {
    hide WritesShutdown;
  }

  lemma SettleOtherStep(s: State, step: Step, i: nat)
    requires Enabled(s, step) && i < |s.vcpus| && !OwnStep(step, i)
    ensures i < |Apply(s, step).vcpus| && Unsettled(Apply(s, step).vcpus[i]) <= Unsettled(s.vcpus[i])
  {
    hide Apply, Enabled, OwnStep;
    OthersStay(s, step, i);
  }

  /** While the VM stays PAUSED, each step a thread takes brings it closer to quiet. */
  lemma {:induction false} Settling(r: Run, i: nat)
    requires Valid(r) && Stays(r, Paused) && i < |First(r).vcpus|
    ensures i < |Last(r).vcpus|
    ensures Unsettled(Last(r).vcpus[i]) == 0 ||
            Unsettled(Last(r).vcpus[i]) + OwnSteps(r, i) <= Unsettled(First(r).vcpus[i])
  {
    hide Apply, Enabled, Unsettled;
    if r.Then? {
      Settling(r.before, i);
      if OwnStep(r.step, i) {
        SettleOwnStep(Last(r.before), r.step, i);
      } else {
        SettleOtherStep(Last(r.before), r.step, i);
      }
    }
  }

  lemma {:induction false} SameThreads(r: Run)
    requires Valid(r)
    ensures |Last(r).vcpus| == |First(r).vcpus|
  {
    hide Apply, Enabled;
    if r.Then? {
      SameThreads(r.before);
      SameCount(Last(r.before), r.step);
    }
  }

  /** Once every thread has taken three steps of its own since the pause, or fewer if
      it was nearer, the pause is quiet. */
  lemma PauseSettles(r: Run)
    requires Valid(r) && Stays(r, Paused)
    requires forall i :: 0 <= i < |First(r).vcpus| ==> OwnSteps(r, i) >= Unsettled(First(r).vcpus[i])
    ensures Quiet(Last(r))
  {
    hide Unsettled, OwnSteps;
    SameThreads(r);
    forall i | 0 <= i < |Last(r).vcpus| ensures QuietPc(Last(r).vcpus[i]) {
      Settling(r, i);
      SettledIsQuiet(Last(r).vcpus[i]);
    }
  }

  lemma SettledIsQuiet(pc: VcpuPc)
    ensures Unsettled(pc) == 0 <==> QuietPc(pc)
  {
  }

  // ----- a pause that is not still -----

  lemma OneMorePaused(r: Run, s: State, step: Step, next: State) returns (r': Run)
    requires PausedRun(r, s) && Enabled(Last(r), step) && Apply(Last(r), step) == next && next.vm == Paused
    ensures PausedRun(r', s) && Last(r') == next
  {
    r' := Then(r, step);
  }

  /** A vCPU at the door of the guest or inside it can still store to memory. */
  lemma CanStore(r: Run, s: State, i: nat, mem: seq<byte>) returns (r': Run)
    requires PausedRun(r, s) && i < |Last(r).vcpus| && !StillPc(Last(r).vcpus[i]) && |mem| == |Last(r).mem|
    ensures PausedRun(r', s) && Last(r') == Last(r).(mem := mem, vcpus := Last(r).vcpus[i := Guest])
  {
    hide PausedRun;
    EndsPaused(r, s);
    var now := Last(r);
    r' := r;
    if now.vcpus[i].Enter? {
      now := At(now, i, Guest);
      r' := OneMorePaused(r', s, Vcpu(i), now);
    } else {
      assert now.vcpus == now.vcpus[i := Guest];
    }
    r' := OneMorePaused(r', s, Store(i, mem), now.(mem := mem));
  }

  lemma EndsPaused(r: Run, s: State)
    requires PausedRun(r, s)
    ensures Valid(r) && Last(r).vm == Paused
  {
  }

  lemma StartPaused(s: State) returns (r: Run)
    requires s.vm == Paused
    ensures PausedRun(r, s) && Last(r) == s
  {
    r := Start(s);
  }

  /** Memory is constant as long as the VM stays PAUSED if and only if no vCPU is at the
      door of the guest or inside it. */
  lemma FrozenExactly(s: State)
    requires s.vm == Paused && |s.mem| > 0
    ensures (forall r :: PausedRun(r, s) ==> Last(r).mem == s.mem) <==> Still(s)
  {
    hide Still;
    if Still(s) {
      forall r | PausedRun(r, s) ensures Last(r).mem == s.mem {
        StillMemory(r, s);
      }
    } else {
      var i := NotStill(s);
      var r := StartPaused(s);
      r := CanStore(r, s, i, s.mem[0 := if s.mem[0] == 0 then 1 else 0]);
    }
  }

  lemma NotStill(s: State) returns (i: nat)
    requires !Still(s)
    ensures i < |s.vcpus| && !StillPc(s.vcpus[i])
  {
    i :| 0 <= i < |s.vcpus| && !StillPc(s.vcpus[i]);
  }

  /** A status client that asks for the same dump twice. */
  function Twice(q: Request): (c: Client)
    ensures Arrives(c)
  {
    Status([CmdDump(q), CmdDump(q)])
  }

  lemma TwiceTakes(q: Request, res: VmState)
    ensures AfterReply(Twice(q), res) == Status([CmdDump(q)])
    ensures NextCommand(Twice(q)) == Some(CmdDump(q)) && NextCommand(Status([CmdDump(q)])) == Some(CmdDump(q))
  {
    assert [CmdDump(q), CmdDump(q)][1..] == [CmdDump(q)];
  }

  function Dumped(s: State, q: Request): State
    requires Confined(q, |s.mem|)
  {
    s.(dumps := s.dumps + [DumpRecord(q, ServedText(s.mem, q))])
  }

  /** The client's next command is served undisturbed. */
  lemma ServeDump(r: Run, s: State, q: Request) returns (r': Run)
    requires PausedRun(r, s) && Last(r).main == Receiving && NextCommand(Last(r).client) == Some(CmdDump(q))
    requires Confined(q, |Last(r).mem|)
    ensures PausedRun(r', s)
    ensures Last(r') == Dumped(Last(r), q).(main := Replying)
  {
    hide PausedRun, Confined, ServedText, NextCommand, AfterReply;
    EndsPaused(r, s);
    var now := Last(r);
    r' := OneMorePaused(r, s, Receive, now.(main := HandleDump(q)));
    r' := OneMorePaused(r', s, Main, now.(main := Dumping(q, now.mem)));
    r' := OneMorePaused(r', s, Main, Dumped(now, q).(main := Replying));
  }

  /** From any pause that is not still, when main waits for a connection: two dumps of
      one range, between which memory has become m1. */
  lemma DumpsDiffer(s: State, m1: seq<byte>, q: Request) returns (r: Run)
    requires s.vm == Paused && s.main == Accepting && !Still(s)
    requires |m1| == |s.mem| && Confined(q, |s.mem|)
    ensures PausedRun(r, s)
    ensures Last(r).dumps == s.dumps + [DumpRecord(q, ServedText(s.mem, q)), DumpRecord(q, ServedText(m1, q))]
  {
    hide PausedRun, Confined, ServedText, NextCommand, AfterReply, Still, Twice;
    var i := NotStill(s);
    TwiceTakes(q, s.res);
    r := StartPaused(s);
    var now := s.(client := Twice(q), main := Receiving);
    r := OneMorePaused(r, s, Connect(Twice(q)), now);
    r := ServeDump(r, s, q);
    now := Dumped(now, q).(main := Receiving, client := AfterReply(Twice(q), s.res));
    r := OneMorePaused(r, s, Main, now);
    r := CanStore(r, s, i, m1);
    r := ServeDump(r, s, q);
  }

  /** What is recorded for some requests in turn. */
  function Records(m: seq<byte>, qs: seq<Request>): seq<DumpRecord>
    requires forall k :: 0 <= k < |qs| ==> Confined(qs[k], |m|)
  {
    if qs == [] then [] else [DumpRecord(qs[0], ServedText(m, qs[0]))] + Records(m, qs[1..])
  }

  function DumpCommands(qs: seq<Request>): (cs: seq<Command>)
    ensures |cs| == |qs| && forall k :: 0 <= k < |qs| ==> cs[k] == CmdDump(qs[k])
  {
    seq(|qs|, k requires 0 <= k < |qs| => CmdDump(qs[k]))
  }

  lemma NextOfStatus(qs: seq<Request>, res: VmState)
    requires qs != []
    ensures NextCommand(Status(DumpCommands(qs))) == Some(CmdDump(qs[0]))
    ensures AfterReply(Status(DumpCommands(qs)), res) == Status(DumpCommands(qs[1..]))
  {
    assert DumpCommands(qs)[1..] == DumpCommands(qs[1..]);
  }

  /** Left undisturbed, main serves the requests of a status client in the order in which
      they were asked. */
  lemma {:induction false} ServesInOrder(r: Run, s: State, qs: seq<Request>) returns (r': Run)
    requires PausedRun(r, s) && Last(r).main == Receiving && Last(r).client == Status(DumpCommands(qs))
    requires forall k :: 0 <= k < |qs| ==> Confined(qs[k], |Last(r).mem|)
    ensures PausedRun(r', s) && Last(r').dumps == Last(r).dumps + Records(Last(r).mem, qs)
    decreases |qs|
  {
    hide PausedRun, Confined, ServedText, NextCommand, AfterReply, DumpCommands;
    EndsPaused(r, s);
    r' := r;
    if qs != [] {
      var now := Last(r);
      NextOfStatus(qs, now.res);
      r' := ServeDump(r, s, qs[0]);
      now := Dumped(now, qs[0]).(main := Receiving, client := Status(DumpCommands(qs[1..])));
      r' := OneMorePaused(r', s, Main, now);
      r' := ServesInOrder(r', s, qs[1..]);
    }
  }

  /** A dump is not one read of memory: from a pause that is not still, one byte of it can
      be of one memory and the rest of another. */
  lemma DumpTears(s: State, m1: seq<byte>, q: Request, at: nat) returns (r: Run)
    requires s.vm == Paused && s.main == HandleDump(q) && !Still(s)
    requires |m1| == |s.mem| && at < |s.mem| && Confined(q, |s.mem|)
    ensures PausedRun(r, s)
    ensures Last(r).dumps == s.dumps + [DumpRecord(q, ServedText(s.mem[at := m1[at]], q))]
  {
    hide PausedRun, Confined, ServedText, NextCommand, AfterReply, Still;
    var i := NotStill(s);
    r := StartPaused(s);
    var now := s.(main := Dumping(q, s.mem));
    r := OneMorePaused(r, s, Main, now);
    r := CanStore(r, s, i, m1);
    now := now.(mem := m1, vcpus := now.vcpus[i := Guest], main := Dumping(q, s.mem[at := m1[at]]));
    r := OneMorePaused(r, s, Reread(at), now);
    now := now.(dumps := s.dumps + [DumpRecord(q, ServedText(s.mem[at := m1[at]], q))], main := Replying);
    r := OneMorePaused(r, s, Main, now);
  }

  /** All dumps of a range made during the run are the same text. */
  ghost predicate DumpsAgree(r: Run, q: Request)
    requires Valid(r)
  {
    forall j: nat, k: nat :: SameRange(r, j, k) && Last(r).dumps[j].range == q ==>
      Last(r).dumps[j].text == Last(r).dumps[k].text
  }

  lemma StillAgrees(r: Run, s: State, q: Request)
    requires PausedRun(r, s) && Still(s) && !s.main.Dumping?
    ensures DumpsAgree(r, q)
  {
    hide Confined, ServedText, Still, Stays;
    forall j: nat, k: nat | SameRange(r, j, k) ensures Last(r).dumps[j].text == Last(r).dumps[k].text {
      DumpsRepeat(r, j, k);
    }
  }

  lemma TwoDumpsDisagree(r: Run, s: State, q: Request, a: string, b: string)
    requires PausedRun(r, s) && Confined(q, |s.mem|) && a != b
    requires Last(r).dumps == s.dumps + [DumpRecord(q, a), DumpRecord(q, b)]
    ensures !DumpsAgree(r, q)
  {
    hide Confined, Stays;
    assert SameRange(r, |s.dumps|, |s.dumps| + 1);
  }

  /** Every dump of q from number n on is the text t. */
  predicate AllAre(s: State, n: nat, q: Request, t: string) {
    forall k :: n <= k < |s.dumps| && s.dumps[k].range == q ==> s.dumps[k].text == t
  }

  lemma SameMemSize(s: State, step: Step)
    requires Enabled(s, step)
    ensures |Apply(s, step).mem| == |s.mem|
  {
    hide MainNext, Handler, NextCommand, ServedText, Confined, WritesShutdown;
    if step.Main? {
      MainLeavesGuest(s);
    }
  }

  lemma BlankMainStep(s: State, m: seq<byte>, n: nat, q: Request)
    requires MainSteps(s) && |m| == |s.mem| && Confined(q, |m|) && !ShowsSome(q, |m|)
    requires AllAre(s, n, q, ServedText(m, q))
    ensures AllAre(MainNext(s), n, q, ServedText(m, q))
  {
    hide AfterReply, ServedText, Confined, ShowsSome;
    if s.main.Dumping? && s.main.range == q {
      BlankText(s.main.snap, m, q);
    }
  }

  /** A dump that prints no word is the same text whatever becomes of memory. */
  lemma BlankStep(s: State, step: Step, m: seq<byte>, n: nat, q: Request)
    requires Enabled(s, step) && |m| == |s.mem| && Confined(q, |m|) && !ShowsSome(q, |m|)
    requires AllAre(s, n, q, ServedText(m, q))
    ensures AllAre(Apply(s, step), n, q, ServedText(m, q))
  {
    hide NextCommand, ServedText, Confined, ShowsSome, MainNext, VcpuNext;
    if step.Main? {
      BlankMainStep(s, m, n, q);
    } else if step.Vcpu? {
      VcpuLeavesMain(s, step.i);
    }
  }

  lemma {:induction false} BlankRun(r: Run, s: State, q: Request)
    requires Valid(r) && First(r) == s && Confined(q, |s.mem|) && !ShowsSome(q, |s.mem|)
    ensures |Last(r).mem| == |s.mem| && AllAre(Last(r), |s.dumps|, q, ServedText(s.mem, q))
    decreases r
  {
    hide Apply, Enabled, Confined, ShowsSome, ServedText, AllAre;
    if r.Then? {
      BlankRun(r.before, s, q);
      BlankStep(Last(r.before), r.step, s.mem, |s.dumps|, q);
      SameMemSize(Last(r.before), r.step);
    } else {
      NoneYet(s, q, ServedText(s.mem, q));
    }
  }

  lemma NoneYet(s: State, q: Request, t: string)
    ensures AllAre(s, |s.dumps|, q, t)
  {
  }

  lemma BlankAgrees(r: Run, s: State, q: Request)
    requires PausedRun(r, s) && Confined(q, |s.mem|) && !ShowsSome(q, |s.mem|)
    ensures DumpsAgree(r, q)
  {
    hide Confined, ShowsSome, ServedText, Stays;
    BlankRun(r, s, q);
  }

  /** Dumps of a range confined to guest memory made while the VM stays PAUSED always
      agree if and only if no vCPU is at the door of the guest or inside it, or the range
      prints no word. */
  lemma DumpsRepeatExactly(s: State, q: Request)
    requires s.vm == Paused && s.main == Accepting && Confined(q, |s.mem|)
    ensures (forall r :: PausedRun(r, s) ==> DumpsAgree(r, q)) <==> Still(s) || !ShowsSome(q, |s.mem|)
  {
    hide Confined, ServedText, Still, ShowsSome, DumpsAgree;
    if Still(s) {
      forall r | PausedRun(r, s) ensures DumpsAgree(r, q) {
        StillAgrees(r, s, q);
      }
    } else if !ShowsSome(q, |s.mem|) {
      forall r | PausedRun(r, s) ensures DumpsAgree(r, q) {
        BlankAgrees(r, s, q);
      }
    } else {
      var m1 := FirstByteMatters(s.mem, q);
      var r := DumpsDiffer(s, m1, q);
      TwoDumpsDisagree(r, s, q, ServedText(s.mem, q), ServedText(m1, q));
    }
  }
}
