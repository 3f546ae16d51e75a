/** The default process manager: a fixed table of process slots and a PID counter. */
module Procd {
  import opened Options
  import opened Proc

  /** The number of process slots, `u8::MAX`. */
  const MaxProcs: nat := 255

  /**
   * The PIDs of the occupied slots, in slot order (the `filter_map` of
   * `procs_running`): every PID listed belongs to an occupied slot, every
   * occupied slot's PID is listed, and nothing is listed iff every slot is empty.
   */
  function RunningPids(slots: seq<Option<ProcDetails>>): (r: seq<PID>)
    ensures |r| <= |slots|
    ensures forall k :: 0 <= k < |r| ==>
      exists i :: 0 <= i < |slots| && slots[i].Some? && slots[i].value.pid == r[k]
    ensures forall i :: 0 <= i < |slots| && slots[i].Some? ==> slots[i].value.pid in r
    ensures r == [] <==> forall i :: 0 <= i < |slots| ==> slots[i].None?
  {
    if slots == [] then []
    else
      var rest := RunningPids(slots[1..]);
      assert forall i :: 1 <= i < |slots| ==> slots[i] == slots[1..][i - 1];
      if slots[0].Some? then [slots[0].value.pid] + rest else rest
  }

  /** `RunningPids` keeps slot order: the PIDs of a split table are those of each part, in order. */
  lemma {:induction false} RunningPidsAppend(s: seq<Option<ProcDetails>>, t: seq<Option<ProcDetails>>)
    ensures RunningPids(s + t) == RunningPids(s) + RunningPids(t)
    decreases |s|
  {
    if s == [] {
      assert s + t == t;
    } else {
      assert (s + t)[0] == s[0];
      assert (s + t)[1..] == s[1..] + t;
      RunningPidsAppend(s[1..], t);
    }
  }

  /** One slot contributes its PID when occupied and nothing when empty. */
  lemma RunningPidsOne(slot: Option<ProcDetails>)
    ensures RunningPids([slot]) == if slot.Some? then [slot.value.pid] else []
  {
    assert [slot][1..] == [];
  }

  /** The PIDs handed out by `n` successive `spawn_proc` calls starting from counter `head`. */
  function Spawned(head: nat, n: nat): (pids: seq<PID>)
    ensures |pids| == n
    ensures forall i :: 0 <= i < n ==> pids[i] == head + i
    decreases n
  {
    if n == 0 then [] else [head] + Spawned(head + 1, n - 1)
  }

  /** From a fresh manager, `n` spawns return 0, 1, ..., n-1: strictly increasing, so pairwise distinct. */
  lemma SpawnedFromDefault(n: nat)
    ensures forall i :: 0 <= i < n ==> Spawned(0, n)[i] == i
    ensures forall i, j :: 0 <= i < j < n ==> Spawned(0, n)[i] < Spawned(0, n)[j]
  {
  }

  /** One more call extends the run by the PID the counter has reached. */
  lemma {:induction false} SpawnedSnoc(head: nat, n: nat)
    ensures Spawned(head, n + 1) == Spawned(head, n) + [head + n]
  {
  }

  /** The process manager. The table is built once and never reassigned. */
  class Manager {
    const procs: array<Option<ProcDetails>>
    var head: nat

    /** `Manager::default()`: `MaxProcs` slots, all empty, counter at 0. */
    constructor Default()
      ensures fresh(procs) && procs.Length == MaxProcs
      ensures head == 0
      ensures forall i :: 0 <= i < procs.Length ==> procs[i] == None
      ensures ProcsRunning() == []
    {
      procs := new Option<ProcDetails>[MaxProcs](_ => None);
      head := 0;
    }

    /**
     * `spawn_proc`: returns the current counter and advances it by one. The
     * table is not touched and `env` and `cmd` are not used.
     */
    method SpawnProc(env: string, cmd: string) returns (pid: PID)
      modifies this`head
      ensures pid == old(head) && head == old(head) + 1
      ensures unchanged(procs)
      ensures ProcsRunning() == old(ProcsRunning())
    {
      pid := head;
      head := head + 1;
    }

    /** `procs_running`: the PIDs of the occupied slots, in slot order. */
    function ProcsRunning(): (r: seq<PID>)
      reads this, procs
      ensures r == RunningPids(procs[..])
      ensures forall i :: 0 <= i < procs.Length && procs[i].Some? ==> procs[i].value.pid in r
    {
      RunningPids(procs[..])
    }

    /** `proc_details`: this manager finds no process, whatever the PID. */
    function ProcDetailsOf(p: PID): (r: Option<ProcDetails>)
      ensures r == None
    {
      None
    }

    /** The default `is_running`: true iff `proc_details` finds the process, so never on this manager. */
    function IsRunning(p: PID): (r: bool)
      ensures r <==> ProcDetailsOf(p).Some?
      ensures !r
    {
      ProcDetailsOf(p).Some?
    }
  }

  /**
   * A caller issuing `n` successive `spawn_proc` calls receives exactly the
   * PIDs `Spawned` describes, and the counter ends `n` further on.
   */
  method SpawnSuccessively(m: Manager, n: nat, env: string, cmd: string) returns (pids: seq<PID>)
    modifies m`head
    ensures pids == Spawned(old(m.head), n)
    ensures m.head == old(m.head) + n
    ensures unchanged(m.procs)
  {
    pids := [];
    var k := 0;
    while k < n
      invariant 0 <= k <= n
      invariant m.head == old(m.head) + k
      invariant pids == Spawned(old(m.head), k)
    {
      var pid := m.SpawnProc(env, cmd);
      SpawnedSnoc(old(m.head), k);
      pids := pids + [pid];
      k := k + 1;
    }
  }
}
