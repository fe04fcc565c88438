/** Safety of the registry over every run of every number of processes. */
module RegistryTheorems {
  import opened Sequences
  import opened InstanceRegistry

  function FileOf(w: World, id: ServerId): Option<Entry> {
    if id in w.files then Some(w.files[id]) else None
  }

  /** The release that set the flag is waiting for writes to drain. */
  predicate Waiting(l: Local) { l.released && !l.drained }

  /** The counter, the flag and the wake-up fit together. */
  ghost predicate LocalOk(o: Owner) {
    && o.local.inflightWrites == |o.writes|
    && (o.local.released ==> o.registered)
    && (o.local.draining ==> o.local.released)
    && (o.local.drained ==> o.local.released && o.writes == map[])
    && (Waiting(o.local) ==> o.local.draining && o.writes != map[])
    && (o.outcome != Open ==> o.local.drained)
  }

  /** Some write of this owner has reached the directory. */
  ghost predicate Landed(o: Owner) {
    o.registered || exists write :: write in o.writes && o.writes[write] == Renamed
  }

  ghost predicate FileOk(o: Owner, file: Option<Entry>, runs: bool) {
    && (file.Some? ==> file.value.pid == o.pid)
    && (o.outcome == Unlinked || o.outcome == Resolved ==> file.None?)
    && (runs && Landed(o) && (o.outcome == Open || o.outcome == Rejected) ==> file.Some?)
  }

  ghost predicate OwnersOk(w: World) {
    forall id | id in w.owners :: LocalOk(w.owners[id]) && FileOk(w.owners[id], FileOf(w, id), w.owners[id].proc in w.alive)
  }

  /** Processes keep their pid while they run; only owners have files. */
  ghost predicate ProcessesOk(w: World) {
    && w.files.Keys <= w.owners.Keys
    && w.alive.Keys <= w.born
    && (forall id | id in w.owners :: w.owners[id].proc in w.born)
    && (forall id | id in w.owners && w.owners[id].proc in w.alive :: w.alive[w.owners[id].proc] == w.owners[id].pid)
  }

  /** What a sweep has learnt stays true, however long it takes to act. */
  ghost predicate SweepsOk(w: World) {
    forall s | s in w.sweeps ::
      && w.sweeps[s].id in w.owners
      && (w.sweeps[s].Read? ==> w.owners[w.sweeps[s].id].pid == w.sweeps[s].pid)
      && (w.sweeps[s].FoundDead? ==> w.owners[w.sweeps[s].id].proc !in w.alive && w.owners[w.sweeps[s].id].proc in w.born)
  }

  ghost predicate Inv(w: World) { OwnersOk(w) && ProcessesOk(w) && SweepsOk(w) }

  // ----- each step keeps the invariant -----

  lemma OwnerStepKeepsLocal(o: Owner, step: Step)
    requires LocalOk(o) && IsOwnerStep(step)
    requires step.Heartbeat? || step.UpdatePort? ==> step.write !in o.writes
    requires step.Rename? || step.EndWrite? ==> step.write in o.writes
    requires step.Release? ==> o.registered
    requires step.Unlink? ==> o.local.drained
    requires step.Resolve? ==> o.outcome == Unlinked
    ensures step.EndWrite? ==> o.local.inflightWrites > 0
    ensures LocalOk(OwnerAfter(o, step))
  {
  }

  /** What a step of the owner does to its own file. */
  lemma OwnFile(w: World, step: Step)
    requires IsOwnerStep(step) && Enabled(w, step)
    ensures FileOf(Next(w, step), step.id) ==
            if step.Rename? then Some(Entry(w.owners[step.id].pid, w.owners[step.id].writes[step.write].port))
            else if step.Unlink? && step.ok then None
            else FileOf(w, step.id)
  {
    hide OwnerAfter;
  }

  lemma OwnerStepKeepsFile(w: World, step: Step)
    requires IsOwnerStep(step) && Enabled(w, step)
    requires LocalOk(w.owners[step.id]) && FileOk(w.owners[step.id], FileOf(w, step.id), true)
    ensures FileOk(OwnerAfter(w.owners[step.id], step), FileOf(Next(w, step), step.id), true)
  {
    OwnFile(w, step);
    hide WriteBegins, ReleaseCalled, PortUpdated, Next, FileOf;
  }

  lemma OwnerStepElsewhere(w: World, step: Step)
    requires Inv(w) && Enabled(w, step) && IsOwnerStep(step)
    ensures forall id | id != step.id :: FileOf(Next(w, step), id) == FileOf(w, id)
    ensures Next(w, step).files.Keys <= w.files.Keys + {step.id}
    ensures Next(w, step) == w.(files := Next(w, step).files, owners := w.owners[step.id := OwnerAfter(w.owners[step.id], step)])
  {
    hide LocalOk, FileOk, OwnerAfter, ProcessesOk, SweepsOk, OwnersOk;
  }

  /** `next` differs from `w` only in one owner, which keeps its identity, and in that owner's file. */
  ghost predicate OnlyOwner(w: World, next: World, id: ServerId, o: Owner) {
    && id in w.owners
    && next == w.(files := next.files, owners := w.owners[id := o])
    && o.proc == w.owners[id].proc && o.pid == w.owners[id].pid
    && next.files.Keys <= w.files.Keys + {id}
    && (forall other | other != id :: FileOf(next, other) == FileOf(w, other))
  }

  lemma OnlyOwnerKeepsOwners(w: World, next: World, id: ServerId, o: Owner)
    requires OwnersOk(w) && OnlyOwner(w, next, id, o)
    requires LocalOk(o) && FileOk(o, FileOf(next, id), o.proc in w.alive)
    ensures OwnersOk(next)
  {
    hide LocalOk, FileOk, FileOf;
  }

  lemma OnlyOwnerKeepsRest(w: World, next: World, id: ServerId, o: Owner)
    requires ProcessesOk(w) && SweepsOk(w) && OnlyOwner(w, next, id, o)
    ensures ProcessesOk(next) && SweepsOk(next)
  {
  }

  lemma OwnerStepKeepsInv(w: World, step: Step)
    requires Inv(w) && Enabled(w, step) && IsOwnerStep(step)
    ensures Inv(Next(w, step))
  {
    hide LocalOk, FileOk, Enabled, OwnerAfter, Next, FilesAfter, FileOf, OwnersOk, ProcessesOk, SweepsOk;
    EnabledOwner(w, step);
    OwnerStepKeepsFile(w, step);
    OwnerStepKeepsLocal(w.owners[step.id], step);
    SameIdentity(w.owners[step.id], step);
    OwnerStepElsewhere(w, step);
    var o := OwnerAfter(w.owners[step.id], step);
    OnlyOwnerKeepsOwners(w, Next(w, step), step.id, o);
    OnlyOwnerKeepsRest(w, Next(w, step), step.id, o);
  }

  lemma EnabledOwner(w: World, step: Step)
    requires Inv(w) && Enabled(w, step) && IsOwnerStep(step)
    ensures step.id in w.owners && w.owners[step.id].proc in w.alive
    ensures LocalOk(w.owners[step.id]) && FileOk(w.owners[step.id], FileOf(w, step.id), true)
    ensures step.Heartbeat? || step.UpdatePort? ==> step.write !in w.owners[step.id].writes
    ensures step.Rename? || step.EndWrite? ==> step.write in w.owners[step.id].writes
    ensures step.Release? ==> w.owners[step.id].registered
    ensures step.Unlink? ==> w.owners[step.id].local.drained
    ensures step.Resolve? ==> w.owners[step.id].outcome == Unlinked
  {
    hide LocalOk, FileOk, FileOf;
  }

  lemma SameIdentity(o: Owner, step: Step)
    requires step.EndWrite? ==> o.local.inflightWrites > 0 && step.write in o.writes
    requires step.Rename? ==> step.write in o.writes
    ensures OwnerAfter(o, step).proc == o.proc && OwnerAfter(o, step).pid == o.pid
  {
  }

  lemma ProcessStepKeepsInv(w: World, step: Step)
    requires Inv(w) && Enabled(w, step) && (step.ProcessStarts? || step.ProcessDies?)
    ensures Inv(Next(w, step))
  {
    hide LocalOk, FileOf;
    var next := Next(w, step);
    forall id | id in w.owners ensures FileOk(w.owners[id], FileOf(next, id), w.owners[id].proc in next.alive) {
      assert FileOf(next, id) == FileOf(w, id) by { SameFiles(w, next, id); }
      assert FileOk(w.owners[id], FileOf(w, id), w.owners[id].proc in w.alive);
    }
  }

  lemma SameFiles(w: World, next: World, id: ServerId)
    requires id in w.files <==> id in next.files
    requires id in w.files ==> w.files[id] == next.files[id]
    ensures FileOf(next, id) == FileOf(w, id)
  {
  }

  lemma NewOwnerOk(o: Owner, port: int, write: nat)
    requires o == Begin(Owner(o.proc, o.pid, Local(port, false, 0, false, false), false, map[], Open), write)
    ensures LocalOk(o) && FileOk(o, None, true)
  {
  }

  lemma RegisterKeepsInv(w: World, step: Step)
    requires Inv(w) && Enabled(w, step) && step.Register?
    ensures Inv(Next(w, step))
  {
    hide FileOf, FileOk, LocalOk, Begin;
    var next := Next(w, step);
    var o := next.owners[step.id];
    assert o.proc == step.proc && o.pid == w.alive[step.proc] by { BeginIdentity(step, w.alive[step.proc]); }
    NewOwnerOk(o, step.port, step.write);
    NoFile(w, step.id);
    forall id ensures FileOf(next, id) == FileOf(w, id) {
      SameFiles(w, next, id);
    }
  }

  lemma BeginIdentity(step: Step, pid: Pid)
    requires step.Register?
    ensures var o := Begin(Owner(step.proc, pid, Local(step.port, false, 0, false, false), false, map[], Open), step.write);
            o.proc == step.proc && o.pid == pid
  {
  }

  lemma NoFile(w: World, id: ServerId)
    requires ProcessesOk(w) && id !in w.owners
    ensures FileOf(w, id).None?
  {
  }

  /** A pid found dead belongs to no running process, so its owner is gone for good. */
  lemma ReadingKeepsSweeps(w: World, step: Step)
    requires Inv(w) && Enabled(w, step) && (step.SweepRead? || step.SweepProbe? || step.SweepAbandoned?)
    ensures SweepsOk(Next(w, step))
  {
    hide LocalOk;
    if step.SweepRead? {
      assert FileOk(w.owners[step.id], FileOf(w, step.id), w.owners[step.id].proc in w.alive);
    }
  }

  lemma ReadingKeepsInv(w: World, step: Step)
    requires Inv(w) && Enabled(w, step) && (step.SweepRead? || step.SweepProbe? || step.SweepAbandoned?)
    ensures Inv(Next(w, step))
  {
    hide LocalOk, FileOk, FileOf, SweepsOk;
    ReadingKeepsSweeps(w, step);
    var next := Next(w, step);
    assert next.files == w.files && next.owners == w.owners && next.alive == w.alive && next.born == w.born;
    forall id ensures FileOf(next, id) == FileOf(w, id) {
      SameFiles(w, next, id);
    }
  }

  lemma SweepUnlinkKeepsInv(w: World, step: Step)
    requires Inv(w) && Enabled(w, step) && step.SweepUnlink?
    ensures Inv(Next(w, step))
  {
    hide LocalOk;
    var next := Next(w, step);
    var swept := w.sweeps[step.sweep].id;
    forall id | id in w.owners ensures FileOk(w.owners[id], FileOf(next, id), w.owners[id].proc in next.alive) {
      assert FileOk(w.owners[id], FileOf(w, id), w.owners[id].proc in w.alive);
    }
  }

  lemma StepKeepsInv(w: World, step: Step)
    requires Inv(w)
    ensures Inv(Next(w, step))
  {
    hide Inv, Enabled;
    if Enabled(w, step) {
      if IsOwnerStep(step) {
        OwnerStepKeepsInv(w, step);
      } else if step.Register? {
        RegisterKeepsInv(w, step);
      } else if step.ProcessStarts? || step.ProcessDies? {
        ProcessStepKeepsInv(w, step);
      } else if step.SweepUnlink? {
        SweepUnlinkKeepsInv(w, step);
      } else {
        ReadingKeepsInv(w, step);
      }
    }
  }

  lemma {:induction false} InvAlways(steps: seq<Step>)
    ensures Inv(After(steps))
  {
    hide Next;
    if steps != [] {
      InvAlways(steps[..|steps| - 1]);
      StepKeepsInv(After(steps[..|steps| - 1]), steps[|steps| - 1]);
    }
  }

  // ----- what the protocol promises -----

  predicate IsResolved(w: World, id: ServerId) {
    id in w.owners && w.owners[id].outcome == Resolved
  }

  lemma StaysResolved(w: World, step: Step, id: ServerId)
    requires IsResolved(w, id)
    ensures IsResolved(Next(w, step), id)
  {
  }

  /** Once the releasing call has resolved, its file is gone and no later step brings it back. */
  lemma {:induction false} ReleasedStaysGone(steps: seq<Step>, more: seq<Step>, id: ServerId)
    requires IsResolved(After(steps), id)
    ensures IsResolved(After(steps + more), id) && id !in After(steps + more).files
    decreases |more|
  {
    hide Next;
    if more == [] {
      assert steps + more == steps;
    } else {
      var init, last := more[..|more| - 1], more[|more| - 1];
      assert (steps + more)[..|steps + more| - 1] == steps + init;
      ReleasedStaysGone(steps, init, id);
      StaysResolved(After(steps + init), last, id);
    }
    InvAlways(steps + more);
    var w := After(steps + more);
    assert FileOk(w.owners[id], FileOf(w, id), w.owners[id].proc in w.alive);
  }

  /** From the end of its first write until it unlinks its own file, a running instance is listed under its pid. */
  lemma LiveInstanceHasItsFile(steps: seq<Step>, id: ServerId)
    requires Runs(After(steps), id) && After(steps).owners[id].registered && After(steps).owners[id].outcome == Open
    ensures id in After(steps).files && After(steps).files[id].pid == After(steps).owners[id].pid
  {
    hide After, LocalOk;
    InvAlways(steps);
    var w := After(steps);
    assert FileOk(w.owners[id], FileOf(w, id), true);
  }

  /** Nothing but an owner's own steps touches the file of an owner that still runs. */
  lemma PeersSpareTheLiving(steps: seq<Step>, step: Step, id: ServerId)
    requires Runs(After(steps), id)
    requires !(IsOwnerStep(step) && step.id == id)
    ensures FileOf(Next(After(steps), step), id) == FileOf(After(steps), id)
  {
    hide After, LocalOk, FileOk;
    InvAlways(steps);
  }

  predicate IsReleased(w: World, id: ServerId) {
    id in w.owners && w.owners[id].local.released
  }

  /** After release no write begins. */
  lemma ReleasedShrinks(w: World, step: Step, id: ServerId)
    requires IsReleased(w, id)
    ensures IsReleased(Next(w, step), id) && Next(w, step).owners[id].writes.Keys <= w.owners[id].writes.Keys
  {
    hide FilesAfter, Enabled;
    if Enabled(w, step) && IsOwnerStep(step) && step.id == id {
      assert EnabledFor(w.owners[id], step) by { EnabledMeans(w, step); }
      OwnerShrinks(w.owners[id], step);
    } else if Enabled(w, step) && step.Register? {
      RegistersNew(w, step);
    }
  }

  predicate EnabledFor(o: Owner, step: Step) {
    && (step.EndWrite? ==> o.local.inflightWrites > 0 && step.write in o.writes)
    && (step.Rename? ==> step.write in o.writes)
  }

  lemma EnabledMeans(w: World, step: Step)
    requires Enabled(w, step) && IsOwnerStep(step)
    ensures step.id in w.owners && EnabledFor(w.owners[step.id], step)
  {
  }

  lemma RegistersNew(w: World, step: Step)
    requires Enabled(w, step) && step.Register?
    ensures step.id !in w.owners
  {
  }

  lemma OwnerShrinks(o: Owner, step: Step)
    requires o.local.released && EnabledFor(o, step)
    ensures OwnerAfter(o, step).local.released && OwnerAfter(o, step).writes.Keys <= o.writes.Keys
  {
  }

  /**
   * No lost wake-up: however a run goes on after a release, the release is still waiting exactly
   * while one of the writes it found in flight has not ended.
   */
  lemma {:induction false} NoLostWakeup(steps: seq<Step>, more: seq<Step>, id: ServerId)
    requires IsReleased(After(steps), id)
    ensures IsReleased(After(steps + more), id)
    ensures var o := After(steps + more).owners[id];
            o.writes.Keys <= After(steps).owners[id].writes.Keys && (Waiting(o.local) <==> o.writes != map[])
    decreases |more|
  {
    hide Next, After;
    if more == [] {
      assert steps + more == steps;
    } else {
      var init, last := more[..|more| - 1], more[|more| - 1];
      AfterSnoc(steps + init, last);
      assert steps + more == steps + init + [last];
      NoLostWakeup(steps, init, id);
      ReleasedShrinks(After(steps + init), last, id);
    }
    InvAlways(steps + more);
    WaitsForWrites(After(steps + more), id);
  }

  lemma AfterSnoc(steps: seq<Step>, step: Step)
    ensures After(steps + [step]) == Next(After(steps), step)
  {
    assert (steps + [step])[..|steps|] == steps;
  }

  lemma WaitsForWrites(w: World, id: ServerId)
    requires Inv(w) && IsReleased(w, id)
    ensures Waiting(w.owners[id].local) <==> w.owners[id].writes != map[]
  {
  }

  /** The end of the last write in flight lets the waiting release go on to its unlink. */
  lemma LastEndWakes(steps: seq<Step>, id: ServerId, write: nat, ok: bool)
    requires IsReleased(After(steps), id) && Runs(After(steps), id)
    requires After(steps).owners[id].writes.Keys == {write}
    ensures !Enabled(After(steps), Unlink(id, ok))
    ensures Enabled(After(steps + [EndWrite(id, write)]), Unlink(id, ok))
  {
    hide After, FileOk, FileOf;
    InvAlways(steps);
    AfterSnoc(steps, EndWrite(id, write));
    var w := After(steps);
    assert LocalOk(w.owners[id]);
    assert write in w.owners[id].writes;
    assert |w.owners[id].writes| == |w.owners[id].writes.Keys| == 1;
  }

  /**
   * A further release call returns at once and changes nothing; the file is gone by then exactly if
   * the first call has got past its unlink.
   */
  lemma SecondReleaseExactly(steps: seq<Step>, id: ServerId)
    requires IsReleased(After(steps), id) && Runs(After(steps), id)
    ensures Next(After(steps), Release(id)) == After(steps)
    ensures id !in After(steps).files <==> After(steps).owners[id].outcome == Unlinked || After(steps).owners[id].outcome == Resolved
  {
    hide After;
    InvAlways(steps);
    var w := After(steps);
    var o := w.owners[id];
    assert LocalOk(o) && FileOk(o, FileOf(w, id), true);
    assert OwnerAfter(o, Release(id)) == o;
    assert w.owners[id := o] == w.owners;
  }

  // ----- what a sweep removes -----

  /** None of the steps belongs to the sweep, and none starts a process with the pid. */
  predicate LeavesAlone(steps: seq<Step>, sweep: nat, pid: Pid) {
    forall i | 0 <= i < |steps| ::
      && !((steps[i].SweepRead? || steps[i].SweepProbe? || steps[i].SweepUnlink? || steps[i].SweepAbandoned?) && steps[i].sweep == sweep)
      && !(steps[i].ProcessStarts? && steps[i].pid == pid)
  }

  lemma StaysDead(w: World, step: Step, sweep: nat, pid: Pid)
    requires LeavesAlone([step], sweep, pid) && sweep in w.sweeps
    ensures var next := Next(w, step);
            && sweep in next.sweeps && next.sweeps[sweep] == w.sweeps[sweep]
            && (pid !in w.alive.Values ==> pid !in next.alive.Values)
  {
    hide OwnerAfter, FilesAfter, Begin;
    assert [step][0] == step;
  }

  lemma {:induction false} AllStayDead(steps: seq<Step>, more: seq<Step>, sweep: nat, pid: Pid)
    requires LeavesAlone(more, sweep, pid) && sweep in After(steps).sweeps
    ensures var before, now := After(steps), After(steps + more);
            && sweep in now.sweeps && now.sweeps[sweep] == before.sweeps[sweep]
            && (pid !in before.alive.Values ==> pid !in now.alive.Values)
    decreases |more|
  {
    hide Next, After;
    if more == [] {
      assert steps + more == steps;
    } else {
      var init, last := more[..|more| - 1], more[|more| - 1];
      AllStayDead(steps, init, sweep, pid);
      assert steps + more == steps + init + [last];
      AfterSnoc(steps + init, last);
      StaysDead(After(steps + init), last, sweep, pid);
    }
  }

  /** The unlink of a sweep removes the entry it found dead and nothing else. */
  lemma SweepRemoves(w: World, sweep: nat, id: ServerId)
    requires sweep in w.sweeps && w.sweeps[sweep] == FoundDead(id)
    ensures Enabled(w, SweepUnlink(sweep))
    ensures var next := Next(w, SweepUnlink(sweep));
            && id !in next.files
            && (forall other | other != id :: FileOf(next, other) == FileOf(w, other))
            && next.owners == w.owners && next.alive == w.alive
  {
  }

  /** Probing a pid that runs ends the sweep and keeps every file. */
  lemma ProbeSparesTheRunning(w: World, sweep: nat, id: ServerId, pid: Pid, proc: nat)
    requires sweep in w.sweeps && w.sweeps[sweep] == Read(id, pid) && proc in w.alive && w.alive[proc] == pid
    ensures var next := Next(w, SweepProbe(sweep)); sweep !in next.sweeps && next.files == w.files
  {
  }

  lemma ProbeFindsTheDead(w: World, sweep: nat, id: ServerId, pid: Pid)
    requires sweep in w.sweeps && w.sweeps[sweep] == Read(id, pid) && pid !in w.alive.Values
    ensures var next := Next(w, SweepProbe(sweep)); sweep in next.sweeps && next.sweeps[sweep] == FoundDead(id)
  {
  }

  lemma ReadNotesThePid(w: World, sweep: nat, id: ServerId)
    requires sweep !in w.sweeps && id in w.files
    ensures var next := Next(w, SweepRead(sweep, id));
            sweep in next.sweeps && next.sweeps[sweep] == Read(id, w.files[id].pid) && next.alive == w.alive
  {
  }

  /**
   * Entries of dead processes are removed: a sweep that reads an entry whose pid no process has,
   * probes it and unlinks, leaves no file for it, whatever others do in between, as long as that pid
   * is not started again before the probe.
   */
  lemma DeadEntriesAreSwept(steps: seq<Step>, sweep: nat, id: ServerId, between: seq<Step>, later: seq<Step>)
    requires sweep !in After(steps).sweeps && id in After(steps).files
    requires After(steps).files[id].pid !in After(steps).alive.Values
    requires LeavesAlone(between, sweep, After(steps).files[id].pid)
    requires forall i | 0 <= i < |later| :: !((later[i].SweepRead? || later[i].SweepProbe? || later[i].SweepUnlink?
                                              || later[i].SweepAbandoned?) && later[i].sweep == sweep)
    ensures var probed := steps + [SweepRead(sweep, id)] + between + [SweepProbe(sweep)] + later;
            Enabled(After(probed), SweepUnlink(sweep)) && id !in After(probed + [SweepUnlink(sweep)]).files
  {
    hide Next, After, Enabled;
    var pid := After(steps).files[id].pid;
    var read := steps + [SweepRead(sweep, id)];
    AfterSnoc(steps, SweepRead(sweep, id));
    ReadNotesThePid(After(steps), sweep, id);
    AllStayDead(read, between, sweep, pid);
    AfterSnoc(read + between, SweepProbe(sweep));
    ProbeFindsTheDead(After(read + between), sweep, id, pid);
    var probed := read + between + [SweepProbe(sweep)];
    StaysFound(probed, later, sweep);
    SweepRemoves(After(probed + later), sweep, id);
    AfterSnoc(probed + later, SweepUnlink(sweep));
  }

  lemma {:induction false} StaysFound(steps: seq<Step>, more: seq<Step>, sweep: nat)
    requires sweep in After(steps).sweeps
    requires forall i | 0 <= i < |more| :: !((more[i].SweepRead? || more[i].SweepProbe? || more[i].SweepUnlink?
                                             || more[i].SweepAbandoned?) && more[i].sweep == sweep)
    ensures sweep in After(steps + more).sweeps && After(steps + more).sweeps[sweep] == After(steps).sweeps[sweep]
    decreases |more|
  {
    hide Next, After;
    if more == [] {
      assert steps + more == steps;
    } else {
      var init, last := more[..|more| - 1], more[|more| - 1];
      StaysFound(steps, init, sweep);
      assert steps + more == steps + init + [last];
      AfterSnoc(steps + init, last);
      SweepStays(After(steps + init), last, sweep);
    }
  }

  lemma SweepStays(w: World, step: Step, sweep: nat)
    requires sweep in w.sweeps
    requires !((step.SweepRead? || step.SweepProbe? || step.SweepUnlink? || step.SweepAbandoned?) && step.sweep == sweep)
    ensures sweep in Next(w, step).sweeps && Next(w, step).sweeps[sweep] == w.sweeps[sweep]
  {
    hide OwnerAfter, FilesAfter, Begin;
  }

  /** Once writes have drained, nothing but its own unlink stands between a running instance and the end of its release. */
  lemma ReleaseCompletes(steps: seq<Step>, id: ServerId)
    requires Runs(After(steps), id)
    requires IsReleased(After(steps), id) && After(steps).owners[id].writes == map[] && After(steps).owners[id].outcome == Open
    ensures IsResolved(After(steps + [Unlink(id, true)] + [Resolve(id)]), id)
  {
    hide After, Inv;
    InvAlways(steps);
    WaitsForWrites(After(steps), id);
    AfterSnoc(steps, Unlink(id, true));
    AfterSnoc(steps + [Unlink(id, true)], Resolve(id));
  }
}
