/**
 * The fleet service's machine pool (apps/worker-orchestrator/index.ts): an
 * in-place list of hosts, each idle or in use. Allocation hands out the first
 * idle host and asks the autoscaling group for a new desired capacity; a
 * periodic refresh releases hosts that are no longer running and appends one
 * idle entry per running instance.
 *
 * The cloud APIs are inputs: a refresh receives the public DNS names of the
 * running instances (`None` for an instance without one), and the capacity
 * request is returned rather than sent.
 */
module Orchestrator {
  import opened Wrappers

  datatype Machine = Machine(ip: string, isUsed: bool, assignedProject: Option<string>)

  const CapacityHeadroom: int := 5
  const NotFoundStatus: nat := 404
  const NoIdleMessage: string := "No idle machine found"

  datatype AllocationResponse =
    | NotFound(status: nat, message: string)
    | Assigned(ip: string, desiredCapacity: int)

  // ---------------------------------------------------------------------------
  // Specification functions
  // ---------------------------------------------------------------------------

  /** The index of the first idle machine at or after `k`. */
  function FirstIdleFrom(ms: seq<Machine>, k: nat): (r: Option<nat>)
    requires k <= |ms|
    ensures r.Some? ==> k <= r.value < |ms| && !ms[r.value].isUsed
    ensures r.Some? ==> forall j :: k <= j < r.value ==> ms[j].isUsed
    ensures r.None? ==> forall j :: k <= j < |ms| ==> ms[j].isUsed
    decreases |ms| - k
  {
    if k == |ms| then None
    else if !ms[k].isUsed then Some(k)
    else FirstIdleFrom(ms, k + 1)
  }

  function FirstIdle(ms: seq<Machine>): Option<nat> {
    FirstIdleFrom(ms, 0)
  }

  function IdleCount(ms: seq<Machine>): nat
    decreases |ms|
  {
    if ms == [] then 0
    else IdleCount(ms[..|ms| - 1]) + (if ms[|ms| - 1].isUsed then 0 else 1)
  }

  function UsedCount(ms: seq<Machine>): nat
    decreases |ms|
  {
    if ms == [] then 0
    else UsedCount(ms[..|ms| - 1]) + (if ms[|ms| - 1].isUsed then 1 else 0)
  }

  /** The pool after a successful allocation of machine `i`. */
  function Assign(ms: seq<Machine>, i: nat): seq<Machine>
    requires i < |ms|
  {
    ms[i := ms[i].(isUsed := true)]
  }

  /** The capacity requested after an allocation. */
  function DesiredCapacity(ms: seq<Machine>): int {
    |ms| + (CapacityHeadroom - IdleCount(ms))
  }

  /** The set of running instances' public DNS names. */
  function RunningIps(running: seq<Option<string>>): set<Option<string>> {
    set x | x in running
  }

  /** Every machine whose address is not among the running instances' becomes idle. */
  function ReleaseStale(ms: seq<Machine>, ips: set<Option<string>>): (r: seq<Machine>)
    ensures |r| == |ms|
  {
    seq(|ms|, i requires 0 <= i < |ms| => if Some(ms[i].ip) in ips then ms[i] else ms[i].(isUsed := false))
  }

  /** One idle entry per running instance, addressed by its DNS name or `""`. */
  function NewEntries(running: seq<Option<string>>): (r: seq<Machine>)
    ensures |r| == |running|
  {
    seq(|running|, i requires 0 <= i < |running| => Machine(running[i].GetOr([]), false, None))
  }

  /** The pool after a refresh. */
  function Refreshed(ms: seq<Machine>, running: seq<Option<string>>): seq<Machine> {
    ReleaseStale(ms, RunningIps(running)) + NewEntries(running)
  }

  // ---------------------------------------------------------------------------
  // The pool
  // ---------------------------------------------------------------------------

  class MachinePool {
    var machines: seq<Machine>

    constructor ()
      ensures machines == []
    {
      machines := [];
    }

    /** The first idle machine in list order. */
    method FindIdle() returns (idx: Option<nat>)
      ensures idx == FirstIdle(machines)
    {
      var i := 0;
      while i < |machines|
        invariant 0 <= i <= |machines|
        invariant FirstIdleFrom(machines, 0) == FirstIdleFrom(machines, i)
      {
        if !machines[i].isUsed {
          return Some(i);
        }
        i := i + 1;
      }
      return None;
    }

    /**
     * Hands out the first idle machine: it becomes in use, nothing else
     * changes, and the response carries its address and the new desired
     * capacity. With no idle machine the pool is unchanged and the answer is
     * a 404.
     */
    method Allocate(projectId: string) returns (resp: AllocationResponse)
      modifies this
      ensures FirstIdle(old(machines)).None? ==> resp == NotFound(NotFoundStatus, NoIdleMessage) && machines == old(machines)
      ensures FirstIdle(old(machines)).Some? ==>
        var i := FirstIdle(old(machines)).value;
        && machines == Assign(old(machines), i)
        && resp == Assigned(old(machines)[i].ip, DesiredCapacity(machines))
    {
      var idx := FindIdle();
      if idx.None? {
        return NotFound(NotFoundStatus, NoIdleMessage);
      }
      var i := idx.value;
      machines := machines[i := machines[i].(isUsed := true)];
      resp := Assigned(machines[i].ip, |machines| + (CapacityHeadroom - IdleCount(machines)));
    }

    /**
     * Releases every machine whose address is not a running instance's, then
     * appends an idle entry for every running instance.
     */
    method Refresh(running: seq<Option<string>>)
      modifies this
      ensures machines == Refreshed(old(machines), running)
    {
      var runningIps := RunningIps(running);
      var i := 0;
      while i < |machines|
        invariant 0 <= i <= |machines|
        invariant |machines| == |old(machines)|
        invariant forall j :: 0 <= j < i ==> machines[j] == ReleaseStale(old(machines), runningIps)[j]
        invariant forall j :: i <= j < |machines| ==> machines[j] == old(machines)[j]
      {
        if Some(machines[i].ip) !in runningIps {
          machines := machines[i := machines[i].(isUsed := false)];
        }
        i := i + 1;
      }
      assert machines == ReleaseStale(old(machines), runningIps);
      var j := 0;
      while j < |running|
        invariant 0 <= j <= |running|
        invariant machines == ReleaseStale(old(machines), runningIps) + NewEntries(running)[..j]
      {
        machines := machines + [Machine(running[j].GetOr([]), false, None)];
        j := j + 1;
      }
      assert NewEntries(running)[..j] == NewEntries(running);
    }
  }

  // ---------------------------------------------------------------------------
  // Properties
  // ---------------------------------------------------------------------------

  /** Every machine is either idle or in use. */
  lemma {:induction false} IdlePlusUsed(ms: seq<Machine>)
    ensures IdleCount(ms) + UsedCount(ms) == |ms|
    decreases |ms|
  {
    if ms != [] {
      IdlePlusUsed(ms[..|ms| - 1]);
    }
  }

  /** Allocating an idle machine leaves one idle machine fewer. */
  lemma {:induction false} AssignOneFewerIdle(ms: seq<Machine>, i: nat)
    requires i < |ms| && !ms[i].isUsed
    ensures IdleCount(Assign(ms, i)) == IdleCount(ms) - 1
    decreases |ms|
  {
    var n := |ms| - 1;
    var a := Assign(ms, i);
    assert a[..n] == if i < n then Assign(ms[..n], i) else ms[..n];
    if i < n {
      AssignOneFewerIdle(ms[..n], i);
    }
  }

  /** The requested capacity is always five more than the number of entries in use. */
  lemma CapacityKeepsHeadroom(ms: seq<Machine>)
    ensures DesiredCapacity(ms) == UsedCount(ms) + CapacityHeadroom
  {
    IdlePlusUsed(ms);
  }

  /** After a refresh that sees any running instance, an allocation succeeds. */
  lemma RefreshWithRunningAllocates(ms: seq<Machine>, running: seq<Option<string>>)
    requires running != []
    ensures FirstIdle(Refreshed(ms, running)).Some?
  {
    var r := Refreshed(ms, running);
    assert !r[|ms|].isUsed;
  }

  /** A refresh never removes an entry and never changes an address. */
  lemma RefreshKeepsEntries(ms: seq<Machine>, running: seq<Option<string>>, i: nat)
    requires i < |ms|
    ensures var r := Refreshed(ms, running);
      && |r| == |ms| + |running|
      && r[i].ip == ms[i].ip
      && (r[i].isUsed <==> ms[i].isUsed && Some(ms[i].ip) in running)
  {
  }

  /**
   * A host in use whose instance is still running is appended again as an
   * idle entry: duplicates accumulate, and the same address can be handed out
   * to a second project.
   */
  lemma BusyHostListedIdleAgain(ms: seq<Machine>, running: seq<Option<string>>, i: nat)
    requires i < |ms| && ms[i].isUsed && Some(ms[i].ip) in running
    ensures var r := Refreshed(ms, running);
      exists j :: |ms| <= j < |r| && r[j].ip == ms[i].ip && !r[j].isUsed && r[i].isUsed
  {
    var r := Refreshed(ms, running);
    var k :| 0 <= k < |running| && running[k] == Some(ms[i].ip);
    assert r[|ms| + k] == NewEntries(running)[k];
  }
}
