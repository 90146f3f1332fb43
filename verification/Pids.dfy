/** Process numbers: `get_pid` with its cache of a free interval, and the process list it scans. */
module Pids {
  import opened Layout

  const MAX_PROCESS: nat := 4096
  const MAX_PID: nat := 2 * MAX_PROCESS

  // The pids after p, going round through 1 .. MAX_PID-1.
  function Successor(p: nat): nat { if p + 1 >= MAX_PID then 1 else p + 1 }

  // Steps from p to f, going round.
  function Distance(p: nat, f: nat): nat
    requires 1 <= p < MAX_PID && 1 <= f < MAX_PID
  { if p <= f then f - p else MAX_PID - 1 - p + f }

  lemma StepCloser(p: nat, f: nat)
    requires 1 <= p < MAX_PID && 1 <= f < MAX_PID && p != f
    ensures 1 <= Successor(p) < MAX_PID && Distance(Successor(p), f) == Distance(p, f) - 1
  { }

  ghost predicate Distinct(s: seq<nat>) { forall i, j | 0 <= i < j < |s| :: s[i] != s[j] }

  // No listed pid strictly between `last` and `safe`.
  ghost predicate Gap(s: seq<nat>, last: nat, safe: nat) { forall p | p in s :: !(last < p < safe) }

  function Elements(s: seq<nat>): set<nat> { set p | p in s }

  lemma {:induction false} ManyPids(n: nat) returns (all: set<nat>)
    ensures |all| == n && forall p: nat :: p in all <==> 1 <= p <= n
  {
    if n == 0 {
      all := {};
    } else {
      var less := ManyPids(n - 1);
      all := less + {n};
    }
  }

  lemma {:induction false} FewElements(s: seq<nat>)
    ensures |Elements(s)| <= |s|
  {
    if s == [] {
      assert Elements(s) == {};
    } else {
      FewElements(s[1..]);
      assert Elements(s) == {s[0]} + Elements(s[1..]);
    }
  }

  lemma {:induction false} SubsetSize(a: set<nat>, b: set<nat>)
    requires a <= b
    ensures |a| <= |b|
  {
    if a != {} {
      var x :| x in a;
      SubsetSize(a - {x}, b - {x});
    }
  }

  /** With fewer processes than pids, some pid is free. */
  lemma FreePid(s: seq<nat>) returns (f: nat)
    requires |s| < MAX_PID - 1
    ensures 1 <= f < MAX_PID && f !in s
  {
    var all := ManyPids(MAX_PID - 1);
    FewElements(s);
    if all <= Elements(s) { SubsetSize(all, Elements(s)); }
    f :| f in all && f !in Elements(s);
  }

  // The pid `n` places after `start`, going round.
  function Round(start: nat, n: nat): nat
    requires start >= 1
  { (start - 1 + n) % (MAX_PID - 1) + 1 }

  lemma RoundNext(start: nat, n: nat)
    requires 1 <= start < MAX_PID
    ensures Round(start, n + 1) == Successor(Round(start, n))
  { }

  /** Going round from `start`, `pid` is the first one that no process holds. */
  ghost predicate FirstFree(s: seq<nat>, start: nat, pid: nat)
    requires start >= 1
  { pid !in s && exists n: nat :: UsedUpTo(s, start, n) && Round(start, n) == pid }

  ghost predicate UsedUpTo(s: seq<nat>, start: nat, n: nat)
    requires start >= 1
  { forall m: nat | m < n :: Round(start, m) in s }

  class PidAllocator {
    var pids: seq<nat>
    var lastPid: nat
    var nextSafe: nat

    ghost predicate Valid()
      reads this
    {
      && Distinct(pids) && |pids| <= MAX_PROCESS && (forall p | p in pids :: 1 <= p < MAX_PID)
      && 1 <= lastPid <= MAX_PID && nextSafe <= MAX_PID && Gap(pids, lastPid, nextSafe)
    }

    constructor ()
      ensures Valid() && pids == []
    { pids, lastPid, nextSafe := [], MAX_PID, MAX_PID; }

    /** get_pid: a pid no listed process holds, whenever there is one. */
    method GetPid() returns (pid: nat)
      requires Valid() && |pids| < MAX_PID - 1
      modifies this`lastPid, this`nextSafe
      ensures Valid() && pid == lastPid && 1 <= pid < MAX_PID && pid !in pids && lastPid < nextSafe
      ensures FirstFree(pids, Successor(old(lastPid)), pid)
    {
      lastPid := lastPid + 1;
      if lastPid >= MAX_PID {
        lastPid := 1;
        Scan();
      } else if lastPid >= nextSafe {
        Scan();
      } else {
        assert UsedUpTo(pids, lastPid, 0) && Round(lastPid, 0) == lastPid;
      }
      pid := lastPid;
    }

    // The scan, which starts over whenever the candidate runs into the next known pid.
    method Scan()
      requires 1 <= lastPid < MAX_PID && |pids| < MAX_PID - 1 && forall p | p in pids :: 1 <= p < MAX_PID
      modifies this`lastPid, this`nextSafe
      ensures 1 <= lastPid < nextSafe <= MAX_PID && lastPid !in pids && Gap(pids, lastPid, nextSafe)
      ensures FirstFree(pids, old(lastPid), lastPid)
    {
      ghost var f := FreePid(pids);
      nextSafe := MAX_PID;
      var k := 0;
      ghost var n := 0;
      while k < |pids|
        invariant 0 <= k <= |pids| && 1 <= lastPid < nextSafe <= MAX_PID
        invariant UsedUpTo(pids, old(lastPid), n) && lastPid == Round(old(lastPid), n)
        invariant forall j | 0 <= j < k :: !(lastPid <= pids[j] < nextSafe)
        decreases Distance(lastPid, f), |pids| - k
      {
        if pids[k] == lastPid {
          StepCloser(lastPid, f);
          RoundNext(old(lastPid), n);
          n := n + 1;
          lastPid := lastPid + 1;
          if lastPid >= nextSafe {
            if lastPid >= MAX_PID { lastPid := 1; }
            nextSafe := MAX_PID;
            k := 0;
            continue;
          }
        } else if pids[k] > lastPid && nextSafe > pids[k] {
          nextSafe := pids[k];
        }
        k := k + 1;
      }
    }

    /** do_fork's part under the lock: a fresh pid joins the list, unless there are too many processes. */
    method Fork() returns (r: Option<nat>)
      requires Valid()
      modifies this
      ensures Valid() && (r.None? <==> |old(pids)| >= MAX_PROCESS) && (r.None? ==> unchanged(this))
      ensures r.Some? ==> r.value !in old(pids) && pids == [r.value] + old(pids)
    {
      if |pids| >= MAX_PROCESS { return None; }
      var pid := GetPid();
      pids := [pid] + pids;
      r := Some(pid);
    }

    /** remove_links: a process leaves the list. */
    method Reap(k: nat)
      requires Valid() && k < |pids|
      modifies this`pids
      ensures Valid() && pids == old(pids)[..k] + old(pids)[k + 1..]
    {
      ghost var s := pids;
      pids := pids[..k] + pids[k + 1..];
      assert forall i | 0 <= i < |pids| :: pids[i] == s[if i < k then i else i + 1];
      assert forall p | p in pids :: p in s;
    }

    /** Any interleaving of forks and reaps keeps the pids in use distinct and the cached interval
        free. */
    method Churn(events: seq<Option<nat>>)
      requires Valid()
      modifies this
      ensures Valid()
    {
      var e := 0;
      while e < |events|
        invariant 0 <= e <= |events| && Valid()
      {
        match events[e] {
          case None => var pid := Fork();
          case Some(k) => if k < |pids| { Reap(k); }
        }
        e := e + 1;
      }
    }
  }
}
