/** Dining philosophers on the monitor: every interleaving of n philosophers, each step one monitor
    step, one test or one assignment. */
module Dining {
  import opened Layout
  import opened Monitor

  datatype Phil = THINKING | HUNGRY | EATING

  // The next thing a philosopher does when it runs.
  datatype Loc =
    | Thinking | Take0 | Take1 | TakeGo | TakeSig | TakeLoop
    | Eating | Put0 | Put1 | PutGoL | PutSigL | Put2 | PutGoR | PutSigR | PutEnd

  datatype Table = Table(m: Mon, st: seq<Phil>, loc: seq<Loc>)

  function Right(n: nat, i: nat): (r: nat)
    requires i < n
    ensures r < n
  { if i + 1 == n then 0 else i + 1 }

  function Left(n: nat, i: nat): (r: nat)
    requires i < n
    ensures r < n
  { if i == 0 then n - 1 else i - 1 }

  /** The neighbours as the source numbers them. */
  lemma NeighbourNumbers(n: nat, i: nat)
    requires i < n
    ensures Left(n, i) == (i + n - 1) % n && Right(n, i) == (i + 1) % n
  {
    if i > 0 { WrapOnce(i - 1, n); } else { WrapOnce(n - 1, n); }
    if i + 1 < n { WrapOnce(i + 1, n); } else { WrapOnce(0, n); }
  }

  lemma Neighbours(n: nat, i: nat)
    requires i < n
    ensures Left(n, Right(n, i)) == i == Right(n, Left(n, i)) && (n >= 2 ==> Left(n, i) != i && Right(n, i) != i)
  { }

  // Hungry, and both forks are free.
  predicate CanEat(st: seq<Phil>, j: nat)
    requires j < |st|
  { st[j] == HUNGRY && st[Left(|st|, j)] != EATING && st[Right(|st|, j)] != EATING }

  function Initial(n: nat): Table {
    Table(Monitor.Initial(n, n), seq(n, _ => THINKING), seq(n, _ => Thinking))
  }

  predicate Sized(d: Table) { |d.st| == |d.loc| == |d.m.pcs| == |d.m.sems| == |d.m.counts| && |d.st| >= 2 }

  // A monitor step of philosopher i, which then goes on at `l`.
  function Through(d: Table, i: nat, act: Act, l: Loc): Option<Table>
    requires i < |d.loc|
  {
    match Monitor.Step(d.m, i, act)
    case None => None
    case Some(m) => Some(Table(m, d.st, d.loc[i := l]))
  }

  function Go(d: Table, i: nat, l: Loc): Option<Table>
    requires i < |d.loc|
  { Some(d.(loc := d.loc[i := l])) }

  function Assign(d: Table, i: nat, j: nat, v: Phil, l: Loc): Option<Table>
    requires i < |d.loc| && j < |d.st|
  { Some(d.(st := d.st[j := v], loc := d.loc[i := l])) }

  /** The next step of philosopher i: take forks, eat, put forks, for ever. */
  function Step(d: Table, i: nat): Option<Table>
    requires Sized(d)
  {
    var n := |d.st|;
    if i >= n then None
    else if !(d.m.pcs[i].Inside? || d.m.pcs[i].Outside?) then Through(d, i, Continue, d.loc[i])
    else match d.loc[i]
      case Thinking => Through(d, i, Enter, Take0)
      case Take0 => Assign(d, i, i, HUNGRY, Take1)
      case Take1 => Go(d, i, if CanEat(d.st, i) then TakeGo else TakeLoop)
      case TakeGo => Assign(d, i, i, EATING, TakeSig)
      case TakeSig => Through(d, i, Signal(i), TakeLoop)
      case TakeLoop => if d.st[i] != EATING then Through(d, i, Wait(i), TakeLoop) else Through(d, i, Leave, Eating)
      case Eating => Through(d, i, Enter, Put0)
      case Put0 => Assign(d, i, i, THINKING, Put1)
      case Put1 => Go(d, i, if CanEat(d.st, Left(n, i)) then PutGoL else Put2)
      case PutGoL => Assign(d, i, Left(n, i), EATING, PutSigL)
      case PutSigL => Through(d, i, Signal(Left(n, i)), Put2)
      case Put2 => Go(d, i, if CanEat(d.st, Right(n, i)) then PutGoR else PutEnd)
      case PutGoR => Assign(d, i, Right(n, i), EATING, PutSigR)
      case PutSigR => Through(d, i, Signal(Right(n, i)), PutEnd)
      case PutEnd => Through(d, i, Leave, Thinking)
  }

  // ---- the invariant ------------------------------------------------------------------------------

  // Where a philosopher may be in the monitor, given what it does next.
  predicate Fits(l: Loc, pc: Pc) {
    match l
    case Thinking => pc.Outside?
    case Eating => pc.Outside?
    case TakeLoop => !pc.Outside?
    case Put2 => pc.Inside? || pc.SigUp? || pc.SigWait? || pc.SigBack?
    case PutEnd => pc.Inside? || pc.SigUp? || pc.SigWait? || pc.SigBack?
    case _ => pc.Inside?
  }

  // Its own state, given what it does next.
  predicate Agrees(l: Loc, s: Phil) {
    match l
    case Thinking => s == THINKING
    case Take0 => s == THINKING
    case Take1 => s == HUNGRY
    case TakeGo => s == HUNGRY
    case TakeSig => s == EATING
    case TakeLoop => s != THINKING
    case Eating => s == EATING
    case Put0 => s == EATING
    case _ => s == THINKING
  }

  // A test that has come out true and is not yet acted on.
  function Target(n: nat, l: Loc, i: nat): Option<nat>
    requires i < n
  {
    match l case TakeGo => Some(i) case PutGoL => Some(Left(n, i)) case PutGoR => Some(Right(n, i)) case _ => None
  }

  // Philosopher i will still test philosopher j.
  predicate Pending(n: nat, l: Loc, i: nat, j: nat)
    requires i < n
  {
    match l
    case Take1 => j == i
    case TakeGo => j == i
    case Put1 => j == Left(n, i) || j == Right(n, i)
    case PutGoL => j == Left(n, i) || j == Right(n, i)
    case PutSigL => j == Right(n, i)
    case Put2 => j == Right(n, i)
    case PutGoR => j == Right(n, i)
    case _ => false
  }

  predicate SeatOk(d: Table, i: nat)
    requires Sized(d) && i < |d.st|
  {
    && Fits(d.loc[i], d.m.pcs[i]) && Agrees(d.loc[i], d.st[i])
    && (Target(|d.st|, d.loc[i], i).Some? ==> CanEat(d.st, Target(|d.st|, d.loc[i], i).value))
    && !(d.st[i] == EATING && d.st[Right(|d.st|, i)] == EATING)
  }

  // Somebody will still test j.
  ghost predicate Owed(d: Table, j: nat)
    requires Sized(d)
  { exists i: nat {:trigger Pending(|d.st|, d.loc[i], i, j)} :: i < |d.st| && Pending(|d.st|, d.loc[i], i, j) }

  ghost predicate Inv(d: Table) {
    && Sized(d) && Monitor.Inv(d.m)
    && (forall i: nat {:trigger SeatOk(d, i)} | i < |d.st| :: SeatOk(d, i))
    && (forall j: nat {:trigger CanEat(d.st, j)} | j < |d.st| && CanEat(d.st, j) :: Owed(d, j))
  }

  // ---- steps --------------------------------------------------------------------------------------

  lemma MonitorFrame(m: Mon, p: nat, act: Act)
    requires Monitor.Step(m, p, act).Some?
    ensures var m' := Monitor.Step(m, p, act).value;
            && |m'.pcs| == |m.pcs| && |m'.sems| == |m.sems| && |m'.counts| == |m.counts|
            && forall q: nat | q < |m.pcs| && q != p :: m'.pcs[q] == m.pcs[q]
  { }

  // Philosopher i moves on to `l` without touching the states.
  lemma MoveKeeps(d: Table, d': Table, i: nat, l: Loc)
    requires Inv(d) && i < |d.st| && Sized(d') && d'.st == d.st && d'.loc == d.loc[i := l] && Monitor.Inv(d'.m)
    requires forall q: nat | q < |d.st| && q != i :: d'.m.pcs[q] == d.m.pcs[q]
    requires Fits(l, d'.m.pcs[i]) && Agrees(l, d.st[i])
    requires Target(|d.st|, l, i).Some? ==> CanEat(d.st, Target(|d.st|, l, i).value)
    requires forall j: nat | j < |d.st| && Pending(|d.st|, d.loc[i], i, j) && CanEat(d.st, j) ::
        Pending(|d.st|, l, i, j)
    ensures Inv(d')
  {
    var n := |d.st|;
    forall q: nat | q < n ensures SeatOk(d', q) { assert SeatOk(d, q); }
    forall j: nat | j < n && CanEat(d'.st, j) ensures Owed(d', j) {
      assert CanEat(d.st, j) && Owed(d, j);
      var w: nat :| w < n && Pending(n, d.loc[w], w, j);
      assert Pending(n, d'.loc[w], w, j);
    }
  }

  // While i runs inside, nobody else stands at an assignment or a test.
  lemma Alone(d: Table, i: nat, q: nat)
    requires Inv(d) && i < |d.st| && q < |d.st| && q != i && d.m.pcs[i].Inside?
    ensures !d.m.pcs[q].Inside? && Target(|d.st|, d.loc[q], q).None?
    ensures d.st[q] == HUNGRY ==> d.loc[q] == TakeLoop
  {
    assert SeatOk(d, q);
    OnlyActive(d.m, i);
    assert !Is(d.m.pcs[q], Active);
  }

  lemma BecomesHungry(d: Table, i: nat)
    requires Inv(d) && i < |d.st| && d.loc[i] == Take0
    ensures Inv(Assign(d, i, i, HUNGRY, Take1).value)
  {
    var n, d' := |d.st|, Assign(d, i, i, HUNGRY, Take1).value;
    assert SeatOk(d, i);
    forall q: nat | q < n ensures SeatOk(d', q) { assert SeatOk(d, q); if q != i { Alone(d, i, q); } }
    forall j: nat | j < n && CanEat(d'.st, j) ensures Owed(d', j) {
      if j == i {
        assert Pending(n, d'.loc[i], i, j);
      } else {
        assert CanEat(d.st, j) && Owed(d, j);
        var w: nat :| w < n && Pending(n, d.loc[w], w, j);
        assert Pending(n, d'.loc[w], w, j);
      }
    }
  }

  lemma BecomesThinking(d: Table, i: nat)
    requires Inv(d) && i < |d.st| && d.loc[i] == Put0
    ensures Inv(Assign(d, i, i, THINKING, Put1).value)
  {
    var n, d' := |d.st|, Assign(d, i, i, THINKING, Put1).value;
    assert SeatOk(d, i);
    forall q: nat | q < n ensures SeatOk(d', q) { assert SeatOk(d, q); if q != i { Alone(d, i, q); } }
    forall j: nat | j < n && CanEat(d'.st, j) ensures Owed(d', j) {
      Neighbours(n, j);
      if Left(n, j) == i || Right(n, j) == i {
        assert Pending(n, d'.loc[i], i, j);
      } else {
        assert CanEat(d.st, j) && Owed(d, j);
        var w: nat :| w < n && Pending(n, d.loc[w], w, j);
        assert Pending(n, d'.loc[w], w, j);
      }
    }
  }

  lemma StartsEating(d: Table, i: nat, j: nat, l: Loc)
    requires Inv(d) && i < |d.st| && Target(|d.st|, d.loc[i], i) == Some(j)
    requires l == match d.loc[i] case TakeGo => TakeSig case PutGoL => PutSigL case _ => PutSigR
    ensures j < |d.st| && Inv(Assign(d, i, j, EATING, l).value)
  {
    var n := |d.st|;
    assert SeatOk(d, i);
    var d' := Assign(d, i, j, EATING, l).value;
    Neighbours(n, i);
    Neighbours(n, j);
    forall q: nat | q < n ensures SeatOk(d', q) {
      assert SeatOk(d, q);
      Neighbours(n, q);
      if q != i { Alone(d, i, q); }
    }
    forall k: nat | k < n && CanEat(d'.st, k) ensures Owed(d', k) {
      assert CanEat(d.st, k) && Owed(d, k);
      var w: nat :| w < n && Pending(n, d.loc[w], w, k);
      assert Pending(n, d'.loc[w], w, k);
    }
  }

  lemma ThroughKeeps(d: Table, i: nat, act: Act, l: Loc)
    requires Inv(d) && i < |d.st| && Through(d, i, act, l).Some?
    requires Fits(l, Monitor.Step(d.m, i, act).value.pcs[i]) && Agrees(l, d.st[i])
    requires Target(|d.st|, l, i).None?
    requires forall j: nat | j < |d.st| && Pending(|d.st|, d.loc[i], i, j) && CanEat(d.st, j) ::
        Pending(|d.st|, l, i, j)
    ensures Inv(Through(d, i, act, l).value)
  {
    StepKeeps(d.m, i, act);
    MonitorFrame(d.m, i, act);
    MoveKeeps(d, Through(d, i, act, l).value, i, l);
  }

  // Steps of the monitor that a philosopher in cond_signal or cond_wait takes.
  lemma ContinueKeeps(d: Table, i: nat)
    requires Inv(d) && i < |d.st| && !(d.m.pcs[i].Inside? || d.m.pcs[i].Outside?) && Step(d, i).Some?
    ensures Inv(Step(d, i).value)
  {
    assert SeatOk(d, i);
    ThroughKeeps(d, i, Continue, d.loc[i]);
  }

  lemma TakeSteps(d: Table, i: nat)
    requires Inv(d) && i < |d.st| && (d.m.pcs[i].Inside? || d.m.pcs[i].Outside?) && Step(d, i).Some?
    requires d.loc[i] in {Thinking, Take1, TakeSig, TakeLoop, Eating}
    ensures Inv(Step(d, i).value)
  {
    assert SeatOk(d, i);
    match d.loc[i] {
      case Thinking => ThroughKeeps(d, i, Enter, Take0);
      case Take1 => MoveKeeps(d, Step(d, i).value, i, if CanEat(d.st, i) then TakeGo else TakeLoop);
      case TakeSig => ThroughKeeps(d, i, Signal(i), TakeLoop);
      case TakeLoop => if d.st[i] != EATING { ThroughKeeps(d, i, Wait(i), TakeLoop); }
        else { ThroughKeeps(d, i, Leave, Eating); }
      case Eating => ThroughKeeps(d, i, Enter, Put0);
    }
  }

  lemma PutSteps(d: Table, i: nat)
    requires Inv(d) && i < |d.st| && (d.m.pcs[i].Inside? || d.m.pcs[i].Outside?) && Step(d, i).Some?
    requires d.loc[i] in {Put1, PutSigL, Put2, PutSigR, PutEnd}
    ensures Inv(Step(d, i).value)
  {
    assert SeatOk(d, i);
    var n := |d.st|;
    match d.loc[i] {
      case Put1 => MoveKeeps(d, Step(d, i).value, i, if CanEat(d.st, Left(n, i)) then PutGoL else Put2);
      case PutSigL => ThroughKeeps(d, i, Signal(Left(n, i)), Put2);
      case Put2 => MoveKeeps(d, Step(d, i).value, i, if CanEat(d.st, Right(n, i)) then PutGoR else PutEnd);
      case PutSigR => ThroughKeeps(d, i, Signal(Right(n, i)), PutEnd);
      case PutEnd => ThroughKeeps(d, i, Leave, Thinking);
    }
  }

  lemma StepKeepsTable(d: Table, i: nat)
    requires Inv(d) && Step(d, i).Some?
    ensures Inv(Step(d, i).value)
  {
    if !(d.m.pcs[i].Inside? || d.m.pcs[i].Outside?) {
      ContinueKeeps(d, i);
    } else {
      assert SeatOk(d, i);
      match d.loc[i] {
        case Take0 => BecomesHungry(d, i);
        case TakeGo => StartsEating(d, i, i, TakeSig);
        case Put0 => BecomesThinking(d, i);
        case PutGoL => StartsEating(d, i, Left(|d.st|, i), PutSigL);
        case PutGoR => StartsEating(d, i, Right(|d.st|, i), PutSigR);
        case _ => if d.loc[i] in {Thinking, Take1, TakeSig, TakeLoop, Eating} { TakeSteps(d, i); }
          else { PutSteps(d, i); }
      }
    }
  }

  // ---- runs ---------------------------------------------------------------------------------------

  lemma InitialTable(n: nat)
    requires n >= 2
    ensures Inv(Initial(n))
  {
    var d := Initial(n);
    InitialInv(n, n);
    forall i: nat | i < n ensures SeatOk(d, i) { }
  }

  /** A run: the philosophers that take a step, one after the other. */
  function Run(d: Table, who: seq<nat>): Option<Table>
    requires Sized(d)
    decreases who
  {
    if who == [] then Some(d)
    else match Step(d, who[0])
      case None => None
      case Some(d') => if Sized(d') then Run(d', who[1..]) else None
  }

  lemma {:induction false} RunKeepsTable(d: Table, who: seq<nat>)
    requires Inv(d) && Run(d, who).Some?
    ensures Inv(Run(d, who).value)
    decreases who
  {
    hide Inv, Step;
    InvSized(d);
    if who != [] {
      StepKeepsTable(d, who[0]);
      RunKeepsTable(Step(d, who[0]).value, who[1..]);
    }
  }

  lemma InvSized(d: Table)
    requires Inv(d)
    ensures Sized(d)
  { }

  // Between the call that takes the forks and the assignment that ends the meal.
  predicate HasForks(l: Loc) { l == Eating || l == Put0 }

  /** In every run: neighbours never eat together, a philosopher that has taken its forks is eating,
      and when the monitor is free every hungry philosopher has an eating neighbour. */
  lemma DiningSafe(n: nat, who: seq<nat>, i: nat)
    requires n >= 2 && Run(Initial(n), who).Some? && i < n
    ensures var d := Run(Initial(n), who).value;
            && |d.st| == n == |d.loc|
            && !(d.st[i] == EATING && d.st[Right(n, i)] == EATING)
            && (HasForks(d.loc[i]) ==> d.st[i] == EATING)
            && (d.m.mutex > 0 && d.st[i] == HUNGRY ==> d.st[Left(n, i)] == EATING || d.st[Right(n, i)] == EATING)
  {
    InitialTable(n);
    RunKeepsTable(Initial(n), who);
    RunSize(Initial(n), who);
    var d := Run(Initial(n), who).value;
    hide Run, Initial, Step;
    assert SeatOk(d, i);
    if d.m.mutex > 0 && CanEat(d.st, i) {
      var w: nat :| w < n && Pending(n, d.loc[w], w, i);
      assert SeatOk(d, w);
      if Is(d.m.pcs[w], Active) { OnlyActive(d.m, w); } else { TotalAtLeast(d.m.pcs, Signalling, w); }
    }
  }

  lemma {:induction false} RunSize(d: Table, who: seq<nat>)
    requires Sized(d) && Run(d, who).Some?
    ensures Sized(Run(d, who).value) && |Run(d, who).value.st| == |d.st|
    decreases who
  {
    if who != [] { RunSize(Step(d, who[0]).value, who[1..]); }
  }

  // ---- progress -----------------------------------------------------------------------------------

  // The philosopher that i is about to signal.
  function SigTarget(n: nat, l: Loc, i: nat): Option<nat>
    requires i < n
  {
    match l case TakeSig => Some(i) case PutSigL => Some(Left(n, i)) case PutSigR => Some(Right(n, i)) case _ => None
  }

  // p is about to give the monitor to j, or to signal it.
  predicate Calls(d: Table, p: nat, j: nat)
    requires Sized(d) && p < |d.st|
  { d.m.pcs[p] == SigUp(j) || (d.m.pcs[p].Inside? && SigTarget(|d.st|, d.loc[p], p) == Some(j)) }

  // A philosopher waits on its own condition, and one that waits although it may eat is being called.
  ghost predicate Called(d: Table, j: nat)
    requires Sized(d) && j < |d.st|
  {
    d.m.pcs[j].WaitUp? || d.m.pcs[j].WaitDown? ==>
      && d.m.pcs[j].cv == j
      && (d.st[j] == EATING ==>
          d.m.sems[j] > 0 || exists p: nat {:trigger Calls(d, p, j)} :: p < |d.st| && Calls(d, p, j))
  }

  ghost predicate AllCalled(d: Table)
    requires Sized(d)
  { forall j: nat {:trigger Called(d, j)} | j < |d.st| :: Called(d, j) }

  // What a step of i must do for another philosopher.
  lemma CalledOther(d: Table, d': Table, i: nat, j: nat)
    requires Sized(d) && Sized(d') && |d'.st| == |d.st| && i < |d.st| && j < |d.st| && j != i && Called(d, j)
    requires forall q: nat | q < |d.st| && q != i :: d'.m.pcs[q] == d.m.pcs[q] && d'.loc[q] == d.loc[q]
    requires d'.m.sems[j] >= d.m.sems[j]
    requires d'.st[j] == EATING && (d.m.pcs[j].WaitUp? || d.m.pcs[j].WaitDown?) ==>
               || Calls(d', i, j)
               || (d.st[j] == EATING && (Calls(d, i, j) ==> d'.m.sems[j] > 0))
    ensures Called(d', j)
  {
    if p: nat :| p < |d.st| && Calls(d, p, j) {
      if p != i { assert Calls(d', p, j); }
    }
  }

  lemma ContinueOther(d: Table, i: nat, j: nat)
    requires Inv(d) && AllCalled(d) && i < |d.st| && j < |d.st| && j != i
    requires !(d.m.pcs[i].Inside? || d.m.pcs[i].Outside?) && Step(d, i).Some?
    ensures Called(Step(d, i).value, j)
  {
    var d' := Step(d, i).value;
    MonitorFrame(d.m, i, Continue);
    assert Called(d, i) && Called(d, j);
    assert d'.m.sems[j] == d.m.sems[j] + (if d.m.pcs[i] == SigUp(j) then 1 else 0);
    CalledOther(d, d', i, j);
  }

  // A philosopher that waits on its own condition is counted there.
  lemma Counted(d: Table, j: nat)
    requires Inv(d) && j < |d.st| && (d.m.pcs[j].WaitUp? || d.m.pcs[j].WaitDown?) && d.m.pcs[j].cv == j
    ensures d.m.counts[j] > 0
  {
    assert CvOk(d.m, j);
    TotalAtLeast(d.m.pcs, Waiting(j), j);
  }

  // A signal reaches a philosopher that waits.
  lemma SignalOther(d: Table, i: nat, j: nat)
    requires Inv(d) && AllCalled(d) && i < |d.st| && j < |d.st| && j != i && d.m.pcs[i].Inside? && Step(d, i).Some?
    requires d.loc[i] in {TakeSig, PutSigL, PutSigR}
    ensures Called(Step(d, i).value, j)
  {
    var n, d' := |d.st|, Step(d, i).value;
    var k := SigTarget(n, d.loc[i], i).value;
    assert Called(d, j);
    if d.m.pcs[j].WaitUp? || d.m.pcs[j].WaitDown? { Counted(d, j); }
    MonitorFrame(d.m, i, Signal(k));
    hide Inv;
    assert d'.m.sems == d.m.sems && d'.st == d.st;
    assert d'.m.pcs[i] == if d.m.counts[k] > 0 then SigUp(k) else Inside;
    CalledOther(d, d', i, j);
  }

  lemma AssignOther(d: Table, i: nat, j: nat)
    requires Inv(d) && AllCalled(d) && i < |d.st| && j < |d.st| && j != i && d.m.pcs[i].Inside? && Step(d, i).Some?
    requires d.loc[i] in {Take0, TakeGo, Put0, PutGoL, PutGoR}
    ensures Called(Step(d, i).value, j)
  {
    assert Called(d, j);
    hide Inv;
    CalledOther(d, Step(d, i).value, i, j);
  }

  lemma PlainOther(d: Table, i: nat, j: nat)
    requires Inv(d) && AllCalled(d) && i < |d.st| && j < |d.st| && j != i && Step(d, i).Some?
    requires d.m.pcs[i].Inside? || d.m.pcs[i].Outside?
    requires d.loc[i] in {Thinking, Take1, TakeLoop, Eating, Put1, Put2, PutEnd}
    ensures Called(Step(d, i).value, j)
  {
    var d' := Step(d, i).value;
    assert Called(d, j);
    hide Inv;
    assert d'.m.sems == d.m.sems && d'.st == d.st;
    CalledOther(d, d', i, j);
  }

  lemma StepSelf(d: Table, i: nat)
    requires Inv(d) && AllCalled(d) && i < |d.st| && Step(d, i).Some?
    requires Sized(Step(d, i).value) && |Step(d, i).value.st| == |d.st|
    ensures Called(Step(d, i).value, i)
  {
    assert Called(d, i);
    InvSized(d);
    hide Inv, Step, Called;
    if d.m.pcs[i].WaitUp? { NotCalled(d, i); }
    else if d.m.pcs[i].Inside? || d.m.pcs[i].Outside? { ActSelf(d, i); }
    else { ContinueSelf(d, i); }
  }

  lemma ContinueSelf(d: Table, i: nat)
    requires Sized(d) && i < |d.st| && Step(d, i).Some?
        && !(d.m.pcs[i].Inside? || d.m.pcs[i].Outside? || d.m.pcs[i].WaitUp?)
    ensures Called(Step(d, i).value, i)
  {
    var pc := Step(d, i).value.m.pcs[i];
    assert !pc.WaitUp? && !pc.WaitDown?;
  }

  // Only a philosopher that may not eat starts to wait.
  lemma ActSelf(d: Table, i: nat)
    requires Sized(d) && i < |d.st| && Step(d, i).Some? && (d.m.pcs[i].Inside? || d.m.pcs[i].Outside?)
    ensures Called(Step(d, i).value, i)
  {
    var pc := Step(d, i).value.m.pcs[i];
    assert pc.WaitUp? ==> d.loc[i] == TakeLoop && d.st[i] != EATING && Step(d, i).value.st == d.st && pc.cv == i;
    assert !pc.WaitDown?;
  }

  // Nobody calls a philosopher that still runs in cond_wait.
  lemma NotCalled(d: Table, i: nat)
    requires Inv(d) && i < |d.st| && d.m.pcs[i].WaitUp? && Called(d, i) && Step(d, i).Some?
    ensures d.st[i] != EATING && Called(Step(d, i).value, i)
  {
    OnlyActive(d.m, i);
    SumUpdate(d.m.sems, i, 0);
    forall p: nat | p < |d.st| ensures !Calls(d, p, i) { assert p != i ==> !Is(d.m.pcs[p], Active); }
  }

  /** Every step keeps: who may eat and still waits has a signal or a signaller about to give it. */
  lemma StepCalled(d: Table, i: nat)
    requires Inv(d) && AllCalled(d) && Step(d, i).Some?
    ensures var d' := Step(d, i).value; Sized(d') && AllCalled(d')
  {
    var d' := Step(d, i).value;
    StepKeepsTable(d, i);
    InvSized(d');
    StepCount(d, i);
    assert SeatOk(d, i);
    hide Inv, Step;
    forall j: nat | j < |d'.st| ensures Called(d', j) {
      if j == i { StepSelf(d, i); }
      else if !(d.m.pcs[i].Inside? || d.m.pcs[i].Outside?) { ContinueOther(d, i, j); }
      else if d.loc[i] in {Thinking, Take1, TakeLoop, Eating, Put1, Put2, PutEnd} { PlainOther(d, i, j); }
      else if d.loc[i] in {TakeSig, PutSigL, PutSigR} { SignalOther(d, i, j); }
      else { AssignOther(d, i, j); }
    }
  }

  // With the monitor free and nobody else about, somebody is outside.
  lemma SomebodyOutside(d: Table) returns (i: nat)
    requires Inv(d) && AllCalled(d) && d.m.mutex > 0
    ensures i < |d.st| && d.m.pcs[i].Outside?
  {
    var n := |d.st|;
    forall p: nat | p < n ensures !Is(d.m.pcs[p], Active) && !d.m.pcs[p].SigWait? {
      if Is(d.m.pcs[p], Active) { OnlyActive(d.m, p); }
      if d.m.pcs[p].SigWait? { TotalAtLeast(d.m.pcs, Signalling, p); }
    }
    forall p: nat | p < n ensures d.m.pcs[p].WaitDown? ==> d.st[p] == HUNGRY && d.loc[p] == TakeLoop {
      assert SeatOk(d, p) && Called(d, p);
      SumUpdate(d.m.sems, p, 0);
    }
    i := 0;
    if !d.m.pcs[0].Outside? {
      forall w: nat | w < n ensures !Pending(n, d.loc[w], w, 0) { assert SeatOk(d, w); }
      assert CanEat(d.st, 0) ==> Owed(d, 0);
      assert d.st[0] == HUNGRY;
      i := if d.st[Left(n, 0)] == EATING then Left(n, 0) else Right(n, 0);
    }
  }

  lemma StepCount(d: Table, i: nat)
    requires Sized(d) && Step(d, i).Some?
    ensures |Step(d, i).value.st| == |d.st|
  { }

  // A process that may touch the monitor's data is not blocked.
  lemma ActiveSteps(d: Table, p: nat)
    requires Inv(d) && p < |d.st| && Is(d.m.pcs[p], Active)
    ensures Step(d, p).Some?
  {
    assert SeatOk(d, p) && PcOk(d.m, p);
    hide Inv, Monitor.Inv;
  }

  lemma {:induction false} SumSome(s: seq<nat>) returns (i: nat)
    requires Sum(s) > 0
    ensures i < |s| && s[i] > 0
  {
    i := 0;
    if s[0] == 0 {
      var k := SumSome(s[1..]);
      i := k + 1;
    }
  }

  lemma SomeStep(d: Table) returns (i: nat)
    requires Inv(d) && AllCalled(d)
    ensures i < |d.st| && Step(d, i).Some?
  {
    if Total(d.m.pcs, Active) > 0 {
      i := TotalSome(d.m.pcs, Active);
      ActiveSteps(d, i);
    } else if d.m.next > 0 {
      i := TotalSome(d.m.pcs, AtNext);
    } else if Sum(d.m.sems) > 0 {
      var cv := SumSome(d.m.sems);
      assert CvOk(d.m, cv);
      i := TotalSome(d.m.pcs, AtSem(cv));
    } else {
      i := SomebodyOutside(d);
      assert SeatOk(d, i);
    }
  }

  lemma {:induction false} RunCalled(d: Table, who: seq<nat>)
    requires Inv(d) && AllCalled(d) && Run(d, who).Some?
    ensures var d' := Run(d, who).value; Inv(d') && Sized(d') && AllCalled(d')
    decreases who
  {
    hide Inv, Step, AllCalled;
    InvSized(d);
    if who != [] {
      StepKeepsTable(d, who[0]);
      StepCalled(d, who[0]);
      RunCalled(Step(d, who[0]).value, who[1..]);
    }
  }

  /** Nobody deadlocks: in every state that a run reaches some philosopher can take a step. */
  lemma DiningProgress(n: nat, who: seq<nat>) returns (i: nat)
    requires n >= 2 && Run(Initial(n), who).Some?
    ensures var d := Run(Initial(n), who).value; Sized(d) && i < n == |d.st| && Step(d, i).Some?
  {
    InitialTable(n);
    RunSize(Initial(n), who);
    RunCalled(Initial(n), who);
    i := SomeStep(Run(Initial(n), who).value);
  }
}
