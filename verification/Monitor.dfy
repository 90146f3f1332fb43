/** The Hoare monitor built from semaphores, as a system of interleaved steps.  Each step is one
    access to a shared counter or one semaphore operation by one process. */
module Monitor {
  import opened Layout

  // Where a process is: outside, running inside, in cond_signal, or in cond_wait.
  datatype Pc =
    | Outside | Inside
    | SigUp(cv: nat) | SigWait | SigBack
    | WaitUp(cv: nat) | WaitDown(cv: nat) | WaitBack(cv: nat)

  datatype Mon = Mon(mutex: nat, next: nat, nextCount: int, sems: seq<nat>, counts: seq<int>, pcs: seq<Pc>)

  // What a process does next; `Continue` goes on inside cond_signal or cond_wait.
  datatype Act = Enter | Leave | Signal(which: nat) | Wait(which: nat) | Continue

  function Initial(procs: nat, cvs: nat): Mon {
    Mon(1, 0, 0, seq(cvs, _ => 0), seq(cvs, _ => 0), seq(procs, _ => Outside))
  }

  // Giving the monitor up: to a suspended signaller if there is one.
  function HandOver(m: Mon): Mon {
    if m.nextCount > 0 then m.(next := m.next + 1) else m.(mutex := m.mutex + 1)
  }

  function At(m: Mon, p: nat, pc: Pc): Mon
    requires p < |m.pcs|
  { m.(pcs := m.pcs[p := pc]) }

  predicate KnownCv(m: Mon, cv: nat) { cv < |m.sems| && cv < |m.counts| }

  /** One step of process p; `None` when it cannot be taken (a semaphore is zero). */
  function Step(m: Mon, p: nat, act: Act): Option<Mon> {
    if p >= |m.pcs| then None
    else match (m.pcs[p], act)
      case (Outside, Enter) => if m.mutex > 0 then Some(At(m.(mutex := m.mutex - 1), p, Inside)) else None
      case (Inside, Leave) => Some(At(HandOver(m), p, Outside))
      case (Inside, Signal(cv)) =>
        if !KnownCv(m, cv) then None
        else if m.counts[cv] > 0 then Some(At(m.(nextCount := m.nextCount + 1), p, SigUp(cv)))
        else Some(m)
      case (SigUp(cv), Continue) =>
        if !KnownCv(m, cv) then None else Some(At(m.(sems := m.sems[cv := m.sems[cv] + 1]), p, SigWait))
      case (SigWait, Continue) => if m.next > 0 then Some(At(m.(next := m.next - 1), p, SigBack)) else None
      case (SigBack, Continue) => Some(At(m.(nextCount := m.nextCount - 1), p, Inside))
      case (Inside, Wait(cv)) =>
        if !KnownCv(m, cv) then None else Some(At(m.(counts := m.counts[cv := m.counts[cv] + 1]), p, WaitUp(cv)))
      case (WaitUp(cv), Continue) => Some(At(HandOver(m), p, WaitDown(cv)))
      case (WaitDown(cv), Continue) =>
        if KnownCv(m, cv) && m.sems[cv] > 0 then Some(At(m.(sems := m.sems[cv := m.sems[cv] - 1]), p, WaitBack(cv)))
          else None
      case (WaitBack(cv), Continue) =>
        if !KnownCv(m, cv) then None else Some(At(m.(counts := m.counts[cv := m.counts[cv] - 1]), p, Inside))
      case _ => None
  }

  // ---- counting ---------------------------------------------------------------------------------

  datatype Kind = Active | Signalling | Waiting(c: nat) | AtNext | AtSem(c: nat)

  // Whether a process counts; the active ones may touch the monitor's data.
  predicate Is(pc: Pc, k: Kind) {
    match k
    case Active => !(pc.Outside? || pc.SigWait? || pc.WaitDown?)
    case Signalling => pc.SigUp? || pc.SigWait? || pc.SigBack?
    case Waiting(cv) => (pc.WaitUp? || pc.WaitDown? || pc.WaitBack?) && pc.cv == cv
    case AtNext => pc.SigWait?
    case AtSem(cv) => pc.WaitDown? && pc.cv == cv
  }

  function One(b: bool): nat { if b then 1 else 0 }

  function Total(pcs: seq<Pc>, k: Kind): nat {
    if pcs == [] then 0 else One(Is(pcs[0], k)) + Total(pcs[1..], k)
  }

  lemma {:induction false} TotalUpdate(pcs: seq<Pc>, p: nat, pc: Pc, k: Kind)
    requires p < |pcs|
    ensures Total(pcs[p := pc], k) + One(Is(pcs[p], k)) == Total(pcs, k) + One(Is(pc, k))
    decreases p
  {
    if p == 0 {
      assert pcs[p := pc][1..] == pcs[1..];
    } else {
      assert pcs[p := pc][1..] == pcs[1..][p - 1 := pc];
      TotalUpdate(pcs[1..], p - 1, pc, k);
    }
  }

  lemma {:induction false} TotalSome(pcs: seq<Pc>, k: Kind) returns (p: nat)
    requires Total(pcs, k) > 0
    ensures p < |pcs| && Is(pcs[p], k)
  {
    p := 0;
    if !Is(pcs[0], k) {
      var q := TotalSome(pcs[1..], k);
      p := q + 1;
    }
  }

  lemma {:induction false} TotalAtLeast(pcs: seq<Pc>, k: Kind, p: nat)
    requires p < |pcs| && Is(pcs[p], k)
    ensures Total(pcs, k) >= 1
    decreases p
  {
    if p > 0 { TotalAtLeast(pcs[1..], k, p - 1); }
  }

  // Two different processes count for two.
  lemma {:induction false} TotalTwo(pcs: seq<Pc>, k: Kind, p: nat, q: nat)
    requires p < q < |pcs| && Is(pcs[p], k) && Is(pcs[q], k)
    ensures Total(pcs, k) >= 2
    decreases p
  {
    if p == 0 { TotalAtLeast(pcs[1..], k, q - 1); } else { TotalTwo(pcs[1..], k, p - 1, q - 1); }
  }

  function Sum(s: seq<nat>): nat { if s == [] then 0 else s[0] + Sum(s[1..]) }

  lemma {:induction false} SumUpdate(s: seq<nat>, i: nat, v: nat)
    requires i < |s|
    ensures Sum(s[i := v]) + s[i] == Sum(s) + v && s[i] <= Sum(s)
    decreases i
  {
    if i == 0 {
      assert s[i := v][1..] == s[1..];
    } else {
      assert s[i := v][1..] == s[1..][i - 1 := v];
      SumUpdate(s[1..], i - 1, v);
    }
  }

  // ---- the token --------------------------------------------------------------------------------

  /** The right to be in the monitor: on a semaphore or with the active process. */
  function Tokens(m: Mon): nat { m.mutex + m.next + Sum(m.sems) + Total(m.pcs, Active) }

  predicate CvOk(m: Mon, cv: nat)
    requires KnownCv(m, cv)
  {
    && m.counts[cv] == Total(m.pcs, Waiting(cv))
    && (m.sems[cv] > 0 ==> Total(m.pcs, AtSem(cv)) > 0)
  }

  predicate PcOk(m: Mon, p: nat)
    requires p < |m.pcs|
  {
    && (m.pcs[p].SigUp? ==> KnownCv(m, m.pcs[p].cv) && m.counts[m.pcs[p].cv] > 0)
    && (m.pcs[p].WaitUp? || m.pcs[p].WaitDown? || m.pcs[p].WaitBack? ==> KnownCv(m, m.pcs[p].cv))
  }

  ghost predicate Inv(m: Mon) {
    && Tokens(m) == 1 && |m.counts| == |m.sems|
    && m.nextCount == Total(m.pcs, Signalling) && (m.next > 0 ==> Total(m.pcs, AtNext) > 0)
        && (m.mutex > 0 ==> m.nextCount == 0)
    && (forall cv: nat {:trigger CvOk(m, cv)} | KnownCv(m, cv) :: CvOk(m, cv))
    && (forall p: nat {:trigger PcOk(m, p)} | p < |m.pcs| :: PcOk(m, p))
  }

  /** The active process is alone. */
  lemma OnlyActive(m: Mon, p: nat)
    requires Inv(m) && p < |m.pcs| && Is(m.pcs[p], Active)
    ensures m.mutex == 0 && m.next == 0 && Sum(m.sems) == 0
    ensures forall q: nat | q < |m.pcs| && q != p :: !Is(m.pcs[q], Active)
  {
    TotalAtLeast(m.pcs, Active, p);
    forall q: nat | q < |m.pcs| && q != p ensures !Is(m.pcs[q], Active) {
      if Is(m.pcs[q], Active) { TotalTwo(m.pcs, Active, if p < q then p else q, if p < q then q else p); }
    }
  }

  // One process moves: every total changes by what it counted for before and counts for now.
  lemma Moves(pcs: seq<Pc>, p: nat, pc: Pc)
    requires p < |pcs|
    ensures forall k {:trigger Total(pcs[p := pc], k)} ::
      Total(pcs[p := pc], k) + One(Is(pcs[p], k)) == Total(pcs, k) + One(Is(pc, k))
  {
    forall k ensures Total(pcs[p := pc], k) + One(Is(pcs[p], k)) == Total(pcs, k) + One(Is(pc, k)) {
      TotalUpdate(pcs, p, pc, k);
    }
  }

  /** A token given to `next` has a suspended signaller to take it. */
  lemma SignallerWaits(m: Mon, p: nat)
    requires Inv(m) && p < |m.pcs| && Is(m.pcs[p], Active) && !Is(m.pcs[p], Signalling) && m.nextCount > 0
    ensures Total(m.pcs, AtNext) > 0
  {
    OnlyActive(m, p);
    var q := TotalSome(m.pcs, Signalling);
    TotalAtLeast(m.pcs, AtNext, q);
  }

  /** A token given to a condition has a waiting process to take it. */
  lemma WaiterWaits(m: Mon, p: nat, cv: nat)
    requires Inv(m) && p < |m.pcs| && m.pcs[p] == SigUp(cv)
    ensures KnownCv(m, cv) && Total(m.pcs, AtSem(cv)) > 0
  {
    assert PcOk(m, p);
    assert CvOk(m, cv);
    OnlyActive(m, p);
    var q := TotalSome(m.pcs, Waiting(cv));
    TotalAtLeast(m.pcs, AtSem(cv), q);
  }

  // Steps that leave the conditions' counters and semaphores alone.
  lemma Plain(m: Mon, m': Mon, p: nat, pc: Pc)
    requires Inv(m) && p < |m.pcs| && m'.pcs == m.pcs[p := pc] && m'.sems == m.sems && m'.counts == m.counts
    requires !(m.pcs[p].WaitDown? || m.pcs[p].WaitBack?) && (m.pcs[p].WaitUp? <==> pc.WaitDown?)
    requires m.pcs[p].WaitUp? ==> pc == WaitDown(m.pcs[p].cv)
    requires pc.SigUp? ==> KnownCv(m, pc.cv) && m.counts[pc.cv] > 0
    requires !pc.WaitUp? && !pc.WaitBack?
    ensures forall cv: nat {:trigger CvOk(m', cv)} | KnownCv(m', cv) :: CvOk(m', cv)
    ensures forall q: nat {:trigger PcOk(m', q)} | q < |m'.pcs| :: PcOk(m', q)
  {
    Moves(m.pcs, p, pc);
    forall cv: nat | KnownCv(m', cv) ensures CvOk(m', cv) { assert CvOk(m, cv); }
    forall q: nat | q < |m'.pcs| ensures PcOk(m', q) { assert PcOk(m, q) && PcOk(m, p); }
  }

  // Steps that change the counter or the semaphore of one condition.
  lemma OneCv(m: Mon, m': Mon, p: nat, pc: Pc, cv: nat)
    requires Inv(m) && p < |m.pcs| && KnownCv(m, cv) && m'.pcs == m.pcs[p := pc]
    requires |m'.sems| == |m.sems| && |m'.counts| == |m.counts|
    requires forall d: nat | KnownCv(m, d) && d != cv :: m'.sems[d] == m.sems[d] && m'.counts[d] == m.counts[d]
    requires forall d: nat | d != cv ::
        Is(m.pcs[p], Waiting(d)) == Is(pc, Waiting(d)) && Is(m.pcs[p], AtSem(d)) == Is(pc, AtSem(d))
    requires CvOk(m', cv)
    requires Is(pc, Waiting(cv)) || !(pc.WaitUp? || pc.WaitDown? || pc.WaitBack?)
    requires !pc.SigUp? && (m'.counts[cv] >= m.counts[cv] || Is(m.pcs[p], Active))
    ensures forall d: nat {:trigger CvOk(m', d)} | KnownCv(m', d) :: CvOk(m', d)
    ensures forall q: nat {:trigger PcOk(m', q)} | q < |m'.pcs| :: PcOk(m', q)
  {
    Moves(m.pcs, p, pc);
    forall d: nat | KnownCv(m', d) ensures CvOk(m', d) {
      if d != cv { assert CvOk(m, d); }
    }
    forall q: nat | q < |m'.pcs| ensures PcOk(m', q) {
      assert PcOk(m, q);
      if q != p && Is(m.pcs[p], Active) { OnlyActive(m, p); }
    }
  }

  lemma EnterLeave(m: Mon, p: nat, act: Act)
    requires Inv(m) && act in {Enter, Leave} && Step(m, p, act).Some?
    ensures Inv(Step(m, p, act).value)
  {
    var m', pc := Step(m, p, act).value, if act == Enter then Inside else Outside;
    Moves(m.pcs, p, pc);
    Plain(m, m', p, pc);
    if act == Leave && m.nextCount > 0 { SignallerWaits(m, p); }
  }

  lemma SignalSteps(m: Mon, p: nat, act: Act)
    requires Inv(m) && p < |m.pcs| && Step(m, p, act).Some?
    requires (m.pcs[p].Inside? && act.Signal?) || m.pcs[p].SigWait? || m.pcs[p].SigBack?
    ensures Inv(Step(m, p, act).value)
  {
    var m' := Step(m, p, act).value;
    if m' != m {
      var pc := m'.pcs[p];
      Moves(m.pcs, p, pc);
      if act.Signal? { assert CvOk(m, act.which); }
      if Is(m.pcs[p], Active) { OnlyActive(m, p); }
      Plain(m, m', p, pc);
    }
  }

  lemma SignalUp(m: Mon, p: nat)
    requires Inv(m) && p < |m.pcs| && m.pcs[p].SigUp? && Step(m, p, Continue).Some?
    ensures Inv(Step(m, p, Continue).value)
  {
    var m', cv := Step(m, p, Continue).value, m.pcs[p].cv;
    Moves(m.pcs, p, SigWait);
    SumUpdate(m.sems, cv, m.sems[cv] + 1);
    WaiterWaits(m, p, cv);
    assert CvOk(m, cv);
    OneCv(m, m', p, SigWait, cv);
  }

  lemma WaitSteps(m: Mon, p: nat, act: Act)
    requires Inv(m) && p < |m.pcs| && Step(m, p, act).Some?
    requires (m.pcs[p].Inside? && act.Wait?) || m.pcs[p].WaitUp?
    ensures Inv(Step(m, p, act).value)
  {
    var m' := Step(m, p, act).value;
    var pc := m'.pcs[p];
    Moves(m.pcs, p, pc);
    if m.pcs[p].WaitUp? {
      if m.nextCount > 0 { SignallerWaits(m, p); }
      Plain(m, m', p, pc);
    } else {
      assert CvOk(m, act.which);
      OneCv(m, m', p, pc, act.which);
    }
  }

  lemma WaitDowns(m: Mon, p: nat)
    requires Inv(m) && p < |m.pcs| && (m.pcs[p].WaitDown? || m.pcs[p].WaitBack?) && Step(m, p, Continue).Some?
    ensures Inv(Step(m, p, Continue).value)
  {
    var m', cv := Step(m, p, Continue).value, m.pcs[p].cv;
    var pc := m'.pcs[p];
    Moves(m.pcs, p, pc);
    assert CvOk(m, cv);
    if m.pcs[p].WaitDown? {
      SumUpdate(m.sems, cv, m.sems[cv] - 1);
      } else { OnlyActive(m, p);
      SumUpdate(m.sems, cv, 0);
    }
    OneCv(m, m', p, pc, cv);
  }

  /** Every step keeps the token and its takers. */
  lemma StepKeeps(m: Mon, p: nat, act: Act)
    requires Inv(m) && Step(m, p, act).Some?
    ensures Inv(Step(m, p, act).value)
  {
    hide Inv;
    match m.pcs[p] {
      case Outside => EnterLeave(m, p, act);
      case Inside =>
        if act.Leave? {
          EnterLeave(m, p, act);
          } else if act.Signal? { SignalSteps(m, p, act);
          } else { WaitSteps(m, p, act);
        }
      case SigUp(_) => SignalUp(m, p);
      case SigWait => SignalSteps(m, p, act);
      case SigBack => SignalSteps(m, p, act);
      case WaitUp(_) => WaitSteps(m, p, act);
      case WaitDown(_) => WaitDowns(m, p);
      case WaitBack(_) => WaitDowns(m, p);
    }
  }

  lemma {:induction false} NoneInside(n: nat, k: Kind)
    ensures Total(seq(n, _ => Outside), k) == 0
  {
    if n > 0 {
      assert seq(n, _ => Outside)[1..] == seq(n - 1, _ => Outside);
      NoneInside(n - 1, k);
    }
  }

  lemma {:induction false} SumZero(n: nat)
    ensures Sum(seq(n, _ => 0)) == 0
  {
    if n > 0 {
      assert seq(n, _ => 0)[1..] == seq(n - 1, _ => 0);
      SumZero(n - 1);
    }
  }

  lemma InitialInv(procs: nat, cvs: nat)
    ensures Inv(Initial(procs, cvs))
  {
    var m := Initial(procs, cvs);
    SumZero(cvs);
    NoneInside(procs, Active);
    NoneInside(procs, Signalling);
    forall cv: nat | KnownCv(m, cv) ensures CvOk(m, cv) { NoneInside(procs, Waiting(cv)); }
  }

  /** All interleavings of any processes: who steps, and what it does. */
  function Run(m: Mon, steps: seq<(nat, Act)>): Option<Mon>
    decreases steps
  {
    if steps == [] then Some(m)
    else match Step(m, steps[0].0, steps[0].1)
      case None => None
      case Some(m') => Run(m', steps[1..])
  }

  lemma {:induction false} RunKeeps(m: Mon, steps: seq<(nat, Act)>)
    requires Inv(m) && Run(m, steps).Some?
    ensures Inv(Run(m, steps).value)
    decreases steps
  {
    if steps != [] {
      StepKeeps(m, steps[0].0, steps[0].1);
      RunKeeps(Step(m, steps[0].0, steps[0].1).value, steps[1..]);
    }
  }

  /** In every reachable state the token is in one place, at most one process is active, and a token
      on `next` or on a condition is about to be taken by a process blocked there. */
  lemma MonitorSafe(procs: nat, cvs: nat, steps: seq<(nat, Act)>)
    requires Run(Initial(procs, cvs), steps).Some?
    ensures var m := Run(Initial(procs, cvs), steps).value;
            && m.mutex + m.next + Sum(m.sems) + Total(m.pcs, Active) == 1
            && (forall p: nat, q: nat | p < q < |m.pcs| :: !(Is(m.pcs[p], Active) && Is(m.pcs[q], Active)))
            && (m.next > 0 ==> exists p: nat | p < |m.pcs| :: m.pcs[p] == SigWait && Step(m, p, Continue).Some?)
            && forall cv: nat | KnownCv(m, cv) && m.sems[cv] > 0 ::
                 exists p: nat | p < |m.pcs| :: m.pcs[p] == WaitDown(cv) && Step(m, p, Continue).Some?
  {
    InitialInv(procs, cvs);
    RunKeeps(Initial(procs, cvs), steps);
    var m := Run(Initial(procs, cvs), steps).value;
    hide Run, Initial;
    forall p: nat, q: nat | p < q < |m.pcs| ensures !(Is(m.pcs[p], Active) && Is(m.pcs[q], Active)) {
      if Is(m.pcs[p], Active) { OnlyActive(m, p); }
    }
    if m.next > 0 { var p := TotalSome(m.pcs, AtNext); assert m.pcs[p] == SigWait; }
    forall cv: nat | KnownCv(m, cv) && m.sems[cv] > 0
      ensures exists p: nat | p < |m.pcs| :: m.pcs[p] == WaitDown(cv) && Step(m, p, Continue).Some?
    {
      assert CvOk(m, cv);
      var p := TotalSome(m.pcs, AtSem(cv));
      assert m.pcs[p] == WaitDown(cv);
    }
  }
}
