/** A storage step that stops anywhere can be taken up again. */
module Resume {
  import opened Text
  import opened Machine
  import opened Plans
  import opened Storage

  /** What is left when the run and everything it opened or mounted is gone. */
  function Restarted(s: State): State {
    s.(mounts := [], cryptroot := None, oldroot := None)
  }

  /** Whatever state the step reaches, a run that keeps what it finds converges from there. */
  lemma ResumableStays(p: Plan, s: State, t: State)
    requires Within(p, s, t) && Resumable(p, s)
    requires Keeps(p, s) ==> Grown(p, s, t)
    ensures CanConverge(Resumed(p), Restarted(t))
  {
  }

  /** Resuming changes the wipe method, and nothing the goal depends on. */
  lemma SameGoal(p: Plan, s: State, t: State)
    ensures Converged(Resumed(p), t) <==> Converged(p, t)
    ensures Unlocks(Resumed(p), t) <==> Unlocks(p, t)
    ensures Grown(Resumed(p), s, t) <==> Grown(p, s, t)
    ensures Usable(p, s) && s.cryptroot.None? ==> Keeps(Resumed(p), s)
    ensures Declares(Resumed(p)) <==> Declares(p)
  {
  }

  /** The second run, on a machine without faults. */
  method RunResumed(p: Plan, again: Machine) returns (r: Step)
    requires again.Valid() && again.faultless && again.st.mounts == [] && again.st.cryptroot.None?
    requires Declares(p) && CanConverge(Resumed(p), again.st)
    modifies again
    ensures r.Done? && Converged(p, again.st) && Unlocks(p, again.st)
    ensures old(Usable(p, again.st)) ==> Grown(p, old(again.st), again.st)
  {
    var second := new StorageStepExecutor(Resumed(p), again);
    SameGoal(p, again.st, again.st);
    r := second.Execute();
    SameGoal(p, old(again.st), again.st);
  }

  /** The first run may stop after any command or fail at any; the second reaches the goal,
      and keeps a header that opens, its subvolumes and their files, and a vfat EFI partition. */
  method StopAndResume(p: Plan, m: Machine, again: Machine) returns (r: Step)
    requires m.Valid() && again.Valid() && again.faultless && m != again
    requires Rooted(m.st) && Declares(p) && Resumable(p, m.st)
    modifies m, again
    ensures r.Done? && Converged(p, again.st) && Unlocks(p, again.st)
    ensures Usable(p, m.st) ==> Grown(p, Restarted(m.st), again.st)
    ensures old(Keeps(p, m.st)) ==> Grown(p, old(m.st), m.st)
  {
    var first := new StorageStepExecutor(p, m);
    var _ := first.Execute();
    ResumableStays(p, old(m.st), m.st);
    again.st := Restarted(m.st);
    r := RunResumed(p, again);
  }
}
