/** Which port an instance file shows, over every run. */
module RegistryPorts {
  import opened Sequences
  import opened InstanceRegistry
  import opened RegistryTheorems

  // ----- what a step does to a write, a file and a port -----

  /** The step begins a write: what it writes is fixed from here on. */
  predicate StartsIn(w: World, step: Step, id: ServerId, write: nat) {
    && Enabled(w, step)
    && ((step.Register? && step.id == id && step.write == write)
        || ((step.Heartbeat? || step.UpdatePort?) && step.id == id && step.write == write && !w.owners[id].local.released))
  }

  predicate RenamesIn(w: World, step: Step, id: ServerId) {
    Enabled(w, step) && step.Rename? && step.id == id
  }

  /** An update that carries a port and is not refused. */
  predicate SetsIn(w: World, step: Step, id: ServerId) {
    Enabled(w, step) && step.UpdatePort? && step.id == id && step.newPort.Some? && !w.owners[id].local.released
  }

  predicate Carries(w: World, id: ServerId, write: nat, port: int) {
    id in w.owners && (write in w.owners[id].writes && w.owners[id].writes[write].Pending? ==> w.owners[id].writes[write].port == port)
  }

  lemma StartCarries(w: World, step: Step, id: ServerId, write: nat)
    requires StartsIn(w, step, id, write)
    ensures var next := Next(w, step);
            id in next.owners && Carries(next, id, write, next.owners[id].local.port)
  {
  }

  lemma StepCarries(w: World, step: Step, id: ServerId, write: nat, port: int)
    requires Carries(w, id, write, port) && !StartsIn(w, step, id, write)
    ensures Carries(Next(w, step), id, write, port)
  {
  }

  lemma NotStarted(w: World, step: Step, id: ServerId, write: nat)
    requires id in Next(w, step).owners && write in Next(w, step).owners[id].writes && !StartsIn(w, step, id, write)
    ensures id in w.owners && write in w.owners[id].writes
  {
  }

  lemma RenameLands(w: World, step: Step, id: ServerId, port: int)
    requires RenamesIn(w, step, id) && Carries(w, id, step.write, port)
    ensures id in Next(w, step).files && Next(w, step).files[id].port == port
  {
  }

  lemma FileStays(w: World, step: Step, id: ServerId)
    requires id in Next(w, step).files && !RenamesIn(w, step, id)
    ensures id in w.files && Next(w, step).files[id] == w.files[id]
  {
  }

  lemma PortStep(w: World, step: Step, id: ServerId)
    requires id in w.owners
    ensures id in Next(w, step).owners
    ensures Next(w, step).owners[id].local.port == if SetsIn(w, step, id) then step.newPort.value else w.owners[id].local.port
  {
  }

  // ----- along a run -----

  function At(steps: seq<Step>, n: nat): World
    requires n <= |steps|
  {
    After(steps[..n])
  }

  lemma AtNext(steps: seq<Step>, n: nat)
    requires n < |steps|
    ensures At(steps, n + 1) == Next(At(steps, n), steps[n])
  {
    assert steps[..n + 1] == steps[..n] + [steps[n]];
    AfterSnoc(steps[..n], steps[n]);
  }

  predicate Starts(steps: seq<Step>, j: nat, id: ServerId, write: nat) {
    j < |steps| && StartsIn(At(steps, j), steps[j], id, write)
  }

  predicate Renames(steps: seq<Step>, j: nat, id: ServerId) {
    j < |steps| && steps[j].Rename? && RenamesIn(At(steps, j), steps[j], id)
  }

  predicate Sets(steps: seq<Step>, j: nat, id: ServerId) {
    j < |steps| && SetsIn(At(steps, j), steps[j], id)
  }

  /** The write renamed last within the first `n` steps is renamed at `k` and began at `b`. */
  ghost predicate IsLanding(steps: seq<Step>, n: nat, id: ServerId, b: nat, k: nat) {
    && b < k < n <= |steps| && Renames(steps, k, id) && Starts(steps, b, id, steps[k].write)
    && (forall j: nat | b < j < k :: !Starts(steps, j, id, steps[k].write))
    && (forall j: nat | k < j < n :: !Renames(steps, j, id))
  }

  lemma {:induction false} CarriesUntil(steps: seq<Step>, b: nat, k: nat, id: ServerId, write: nat)
    requires b < k <= |steps| && Starts(steps, b, id, write)
    requires forall j: nat | b < j < k :: !Starts(steps, j, id, write)
    ensures id in At(steps, b + 1).owners && Carries(At(steps, k), id, write, At(steps, b + 1).owners[id].local.port)
    decreases k
  {
    hide StartsIn, Carries, Next, At;
    if k == b + 1 {
      AtNext(steps, b);
      StartCarries(At(steps, b), steps[b], id, write);
    } else {
      CarriesUntil(steps, b, k - 1, id, write);
      AtNext(steps, k - 1);
      assert !Starts(steps, k - 1, id, write);
      StepCarries(At(steps, k - 1), steps[k - 1], id, write, At(steps, b + 1).owners[id].local.port);
    }
  }

  /** The port on disk is the one that was current when the last renamed write began. */
  lemma {:induction false} DiskPort(steps: seq<Step>, n: nat, id: ServerId, b: nat, k: nat)
    requires IsLanding(steps, n, id, b, k) && id in At(steps, n).files
    ensures id in At(steps, b + 1).owners && At(steps, n).files[id].port == At(steps, b + 1).owners[id].local.port
    decreases n
  {
    hide StartsIn, Enabled, Carries, Next, At;
    if n == k + 1 {
      CarriesUntil(steps, b, k, id, steps[k].write);
      AtNext(steps, k);
      RenameLands(At(steps, k), steps[k], id, At(steps, b + 1).owners[id].local.port);
    } else {
      AtNext(steps, n - 1);
      assert !Renames(steps, n - 1, id);
      FileStays(At(steps, n - 1), steps[n - 1], id);
      DiskPort(steps, n - 1, id, b, k);
    }
  }

  lemma {:induction false} StartExists(steps: seq<Step>, n: nat, id: ServerId, write: nat) returns (b: nat)
    requires n <= |steps| && id in At(steps, n).owners && write in At(steps, n).owners[id].writes
    ensures b < n && Starts(steps, b, id, write) && forall j: nat | b < j < n :: !Starts(steps, j, id, write)
    decreases n
  {
    hide StartsIn, Next;
    assert n > 0 by { assert steps[..0] == []; }
    AtNext(steps, n - 1);
    if Starts(steps, n - 1, id, write) {
      b := n - 1;
    } else {
      NotStarted(At(steps, n - 1), steps[n - 1], id, write);
      b := StartExists(steps, n - 1, id, write);
    }
  }

  /** Every file on disk has such a last write. */
  lemma {:induction false} LandingExists(steps: seq<Step>, n: nat, id: ServerId) returns (b: nat, k: nat)
    requires n <= |steps| && id in At(steps, n).files
    ensures IsLanding(steps, n, id, b, k)
    decreases n
  {
    hide StartsIn, Enabled, Next;
    assert n > 0 by { assert steps[..0] == []; }
    AtNext(steps, n - 1);
    if Renames(steps, n - 1, id) {
      k := n - 1;
      RenamedIsWritten(At(steps, k), steps[k], id);
      b := StartExists(steps, k, id, steps[k].write);
    } else {
      FileStays(At(steps, n - 1), steps[n - 1], id);
      b, k := LandingExists(steps, n - 1, id);
    }
  }

  lemma RenamedIsWritten(w: World, step: Step, id: ServerId)
    requires RenamesIn(w, step, id)
    ensures id in w.owners && step.write in w.owners[id].writes
  {
  }

  /** The last update of the port from step `m` on. */
  ghost predicate IsLastSet(steps: seq<Step>, m: nat, n: nat, id: ServerId, j: nat) {
    m <= j < n && Sets(steps, j, id) && forall i: nat | j < i < n :: !Sets(steps, i, id)
  }

  /** A port is that of the last update, if there was one. */
  lemma {:induction false} PortSince(steps: seq<Step>, m: nat, n: nat, id: ServerId)
    requires m <= n <= |steps| && id in At(steps, m).owners
    ensures id in At(steps, n).owners
    ensures forall j: nat | IsLastSet(steps, m, n, id, j) :: At(steps, n).owners[id].local.port == steps[j].newPort.value
    ensures (exists j: nat :: IsLastSet(steps, m, n, id, j)) || At(steps, n).owners[id].local.port == At(steps, m).owners[id].local.port
    decreases n
  {
    hide SetsIn, Next, At;
    if m < n {
      PortSince(steps, m, n - 1, id);
      AtNext(steps, n - 1);
      PortStep(At(steps, n - 1), steps[n - 1], id);
      if Sets(steps, n - 1, id) {
        assert IsLastSet(steps, m, n, id, n - 1);
        forall j: nat | IsLastSet(steps, m, n, id, j) ensures j == n - 1 {
        }
      } else {
        var before := n - 1;
        assert forall j: nat | IsLastSet(steps, m, n, id, j) :: IsLastSet(steps, m, before, id, j);
        if j: nat :| IsLastSet(steps, m, before, id, j) {
          assert IsLastSet(steps, m, n, id, j);
        }
      }
    }
  }

  /**
   * The file shows the newest port exactly when the last update accepted since its last renamed
   * write began, if any, set the very port it shows.
   */
  lemma NewestPortExactly(steps: seq<Step>, n: nat, id: ServerId, b: nat, k: nat)
    requires IsLanding(steps, n, id, b, k) && id in At(steps, n).files
    ensures id in At(steps, n).owners
    ensures var shown := At(steps, n).files[id].port;
            shown == At(steps, n).owners[id].local.port
            <==> forall j: nat | IsLastSet(steps, b + 1, n, id, j) :: steps[j].newPort == Some(shown)
  {
    hide At, Sets, Starts, Renames;
    DiskPort(steps, n, id, b, k);
    PortSince(steps, b + 1, n, id);
    forall j: nat | IsLastSet(steps, b + 1, n, id, j) ensures steps[j].UpdatePort? && steps[j].newPort.Some? {
      SetCarriesPort(steps, j, id);
    }
  }

  lemma SetCarriesPort(steps: seq<Step>, j: nat, id: ServerId)
    requires Sets(steps, j, id)
    ensures id in At(steps, j).owners && steps[j].UpdatePort? && steps[j].newPort.Some?
  {
  }

  lemma {:induction false} StaysUnstarted(steps: seq<Step>, m: nat, n: nat, id: ServerId, write: nat)
    requires m <= n <= |steps| && id in At(steps, m).owners && write !in At(steps, m).owners[id].writes
    requires forall j: nat | m <= j < n :: !Starts(steps, j, id, write)
    ensures id in At(steps, n).owners && write !in At(steps, n).owners[id].writes
    decreases n
  {
    hide StartsIn, SetsIn, Next;
    if m < n {
      StaysUnstarted(steps, m, n - 1, id, write);
      AtNext(steps, n - 1);
      PortStep(At(steps, n - 1), steps[n - 1], id);
      assert !Starts(steps, n - 1, id, write);
      if write in At(steps, n).owners[id].writes {
        NotStarted(At(steps, n - 1), steps[n - 1], id, write);
      }
    }
  }

  /**
   * For callers: an update begun while no write is in flight is on disk as soon as any later write
   * is renamed, and stays there until the next accepted update.
   */
  lemma QuietUpdateShows(steps: seq<Step>, n: nat, id: ServerId, u: nat, r: nat)
    requires u < r < n <= |steps| && Sets(steps, u, id) && Renames(steps, r, id)
    requires forall j: nat | u < j < n :: !Sets(steps, j, id)
    requires id in At(steps, u).owners && At(steps, u).owners[id].writes == map[]
    requires id in At(steps, n).files
    ensures Some(At(steps, n).files[id].port) == steps[u].newPort
  {
    var b, k := LandingExists(steps, n, id);
    assert k >= r;
    RenamedIsWritten(At(steps, k), steps[k], id);
    hide Starts, Renames, Sets;
    assert b >= u by {
      if b < u {
        StaysUnstarted(steps, u, k, id, steps[k].write);
      }
    }
    SetCarriesPort(steps, u, id);
    NewestPortExactly(steps, n, id, b, k);
    PortSince(steps, u, n, id);
    assert IsLastSet(steps, u, n, id, u);
  }

  // ----- two runs -----

  /** Process 0 with pid 7 registers instance 0 on port 1, and its heartbeat begins a write. */
  const Beating: seq<Step> := [ProcessStarts(0, 7), Register(0, 0, 1, 0), Rename(0, 0), EndWrite(0, 0), Heartbeat(0, 1)]

  const LostPort: seq<Step> := Beating + [UpdatePort(0, Some(2), 2), Rename(0, 2), Rename(0, 1)]

  const ReleasedTwice: seq<Step> := Beating + [Release(0), Release(0)]

  lemma NothingYet()
    ensures After([]) == EmptyWorld
  {
  }

  /** Port 1 is on disk and about to be written again. */
  lemma BeatingWorld()
    ensures After(Beating) == World(
              map[0 := Entry(7, 1)],
              map[0 := Owner(0, 7, Local(1, false, 1, false, false), true, map[1 := Pending(1)], Open)], map[0 := 7], {0}, map[])
  {
    hide After;
    assert Beating[..0] == [];
    NothingYet();
    AtNext(Beating, 0);
    AtNext(Beating, 1);
    AtNext(Beating, 2);
    AtNext(Beating, 3);
    AtNext(Beating, 4);
    var begun := Owner(0, 7, Local(1, false, 1, false, false), false, map[0 := Pending(1)], Open);
    assert At(Beating, 1) == World(map[], map[], map[0 := 7], {0}, map[]);
    assert At(Beating, 2) == World(map[], map[0 := begun], map[0 := 7], {0}, map[]);
    assert At(Beating, 3).owners[0].writes == map[0 := Renamed];
    assert At(Beating, 4).owners[0].writes == map[];
    assert Beating[..5] == Beating;
  }

  /** A heartbeat begun before an update to port 2 is renamed after it: port 1 is back on disk. */
  lemma OlderHeartbeatWins()
    ensures var w := After(LostPort);
            && 0 in w.files && w.files[0] == Entry(7, 1)
            && 0 in w.owners && w.owners[0].local.port == 2
  {
    BeatingWorld();
    hide After;
    AfterSnoc(Beating, UpdatePort(0, Some(2), 2));
    AfterSnoc(Beating + [UpdatePort(0, Some(2), 2)], Rename(0, 2));
    AfterSnoc(Beating + [UpdatePort(0, Some(2), 2)] + [Rename(0, 2)], Rename(0, 1));
    assert LostPort == Beating + [UpdatePort(0, Some(2), 2)] + [Rename(0, 2)] + [Rename(0, 1)];
    assert After(Beating + [UpdatePort(0, Some(2), 2)]).owners[0].writes == map[1 := Pending(1), 2 := Pending(2)];
    assert After(Beating + [UpdatePort(0, Some(2), 2)] + [Rename(0, 2)]).owners[0].writes == map[1 := Pending(1), 2 := Renamed];
  }

  /** A second release returns while the first still waits for that heartbeat and the file is there. */
  lemma SecondReleaseIsEarly()
    ensures var w := After(ReleasedTwice);
            IsReleased(w, 0) && Waiting(w.owners[0].local) && 0 in w.files
  {
    BeatingWorld();
    hide After;
    AfterSnoc(Beating, Release(0));
    AfterSnoc(Beating + [Release(0)], Release(0));
    assert ReleasedTwice == Beating + [Release(0)] + [Release(0)];
  }
}
