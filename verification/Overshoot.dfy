/** How often a vCPU can still enter the guest once the VM is no longer RUNNING. */
module Overshoot {
  import opened DumpLoops
  import opened Lifecycle

  /** Entries of thread i into KVM_RUN during the run. */
  ghost function Entries(r: Run, i: nat): nat
    requires Valid(r)
  {
    match r
    case Start(_) => 0
    case Then(b, step) =>
      Entries(b, i) + if step == Vcpu(i) && Last(b).vcpus[i].Enter? then 1 else 0
  }

  /** Times the state goes from PAUSED to SHUTDOWN during the run. */
  ghost function PausesShutDown(r: Run): nat
    requires Valid(r)
  {
    match r
    case Start(_) => 0
    case Then(b, _) =>
      PausesShutDown(b) + if Last(b).vm == Paused && Last(r).vm == Shutdown then 1 else 0
  }

  ghost predicate NeverRunning(r: Run)
    requires Valid(r)
  {
    Last(r).vm != Running && (r.Then? ==> NeverRunning(r.before))
  }

  /** Whether thread i can enter the guest without reading the state again. A thread
      between its two reads still can if the second will not see PAUSED. */
  function Credit(s: State, i: nat): nat {
    if i < |s.vcpus| && (s.vcpus[i].Enter? || (s.vcpus[i].Check? && s.vm == Shutdown)) then 1 else 0
  }

  ghost predicate CreditKept(s: State, step: Step, i: nat)
    requires Enabled(s, step)
  {
    var s' := Apply(s, step);
    (if step == Vcpu(i) && s.vcpus[i].Enter? then 1 else 0) + Credit(s', i) <=
    Credit(s, i) + if s.vm == Paused && s'.vm == Shutdown then 1 else 0
  }

  lemma CreditOfVcpus(s: State, step: Step, i: nat)
    requires Enabled(s, step) && s.vm != Running && Apply(s, step).vm != Running
    requires step.Vcpu? || step.Return? || step.Wake?
    ensures CreditKept(s, step, i)
  {
    hide WritesShutdown;
  }

  lemma CreditOfOthers(s: State, step: Step, i: nat)
    requires Enabled(s, step) && s.vm != Running && Apply(s, step).vm != Running
    requires !(step.Vcpu? || step.Return? || step.Wake?)
    ensures CreditKept(s, step, i)
  {
    hide NextCommand, AfterReply, Handler, ServedText, Confined;
  }

  /** While the VM is not RUNNING, a thread enters the guest at most once, and at most
      once more for each time a pause turns into a shutdown. */
  lemma {:induction false} Bound(r: Run, i: nat)
    requires Valid(r) && NeverRunning(r)
    ensures Entries(r, i) + Credit(Last(r), i) <= Credit(First(r), i) + PausesShutDown(r)
  {
    match r
    case Start(_) =>
    case Then(b, step) =>
      hide Apply, Enabled, Credit;
      Bound(b, i);
      if step.Vcpu? || step.Return? || step.Wake? {
        CreditOfVcpus(Last(b), step, i);
      } else {
        CreditOfOthers(Last(b), step, i);
      }
  }

  lemma {:induction false} StaysMeans(r: Run, v: VmState)
    requires Valid(r) && Stays(r, v) && v != Running
    ensures NeverRunning(r) && PausesShutDown(r) == 0
  {
    hide Apply, Enabled;
    if r.Then? {
      StaysMeans(r.before, v);
    }
  }

  /** At most one entry while the state stays PAUSED, and at most one while it stays
      SHUTDOWN, for every thread and every interleaving. */
  lemma OneMore(r: Run, i: nat, v: VmState)
    requires Valid(r) && v != Running && Stays(r, v)
    ensures Entries(r, i) <= 1
  {
    StaysMeans(r, v);
    Bound(r, i);
  }

  /** At most two across a pause that turns into a shutdown. */
  lemma TwoMore(r: Run, i: nat)
    requires Valid(r) && NeverRunning(r) && PausesShutDown(r) <= 1
    ensures Entries(r, i) <= 2
  {
    Bound(r, i);
  }

  ghost function TotalEntries(r: Run, n: nat): nat
    requires Valid(r)
  {
    if n == 0 then 0 else TotalEntries(r, n - 1) + Entries(r, n - 1)
  }

  /** So a pause lets at most one more entry per vCPU through, however long it lasts. */
  lemma {:induction false} OneMoreEach(r: Run, n: nat)
    requires Valid(r) && Stays(r, Paused)
    ensures TotalEntries(r, n) <= n
  {
    if n > 0 {
      OneMoreEach(r, n - 1);
      OneMore(r, n - 1, Paused);
    }
  }
}
