/** Dining philosophers with one mutex and one semaphore each: every interleaving of n philosophers,
    each step one semaphore operation, one test or one assignment. */
module DiningSema {
  import opened Layout
  import opened Dining

  // The next thing a philosopher does.
  datatype Place =
    | PThinking | PTake0 | PTake1 | PTakeGo | PTakeUp | PTakeOut | PTakeDown
    | PEating | PPut0 | PPut1 | PPutGoL | PPutUpL | PPut2 | PPutGoR | PPutUpR | PPutOut

  datatype Room = Room(mutex: nat, sems: seq<nat>, st: seq<Phil>, at: seq<Place>)

  predicate Shaped(d: Room) { |d.st| == |d.at| == |d.sems| && |d.st| >= 2 }

  function Start(n: nat): Room { Room(1, seq(n, _ => 0), seq(n, _ => THINKING), seq(n, _ => PThinking)) }

  function Move(d: Room, i: nat, a: Place): Room
    requires i < |d.at|
  { d.(at := d.at[i := a]) }

  function Put(d: Room, i: nat, j: nat, v: Phil, a: Place): Room
    requires i < |d.at| && j < |d.st|
  { d.(st := d.st[j := v], at := d.at[i := a]) }

  function UpSem(d: Room, i: nat, j: nat, a: Place): Room
    requires i < |d.at| && j < |d.sems|
  { d.(sems := d.sems[j := d.sems[j] + 1], at := d.at[i := a]) }

  /** The next step of philosopher i, or `None` when it must wait at a semaphore. */
  function Step(d: Room, i: nat): Option<Room>
    requires Shaped(d)
  {
    var n := |d.st|;
    if i >= n then None
    else match d.at[i]
      case PThinking => if d.mutex > 0 then Some(Move(d.(mutex := d.mutex - 1), i, PTake0)) else None
      case PTake0 => Some(Put(d, i, i, HUNGRY, PTake1))
      case PTake1 => Some(Move(d, i, if CanEat(d.st, i) then PTakeGo else PTakeOut))
      case PTakeGo => Some(Put(d, i, i, EATING, PTakeUp))
      case PTakeUp => Some(UpSem(d, i, i, PTakeOut))
      case PTakeOut => Some(Move(d.(mutex := d.mutex + 1), i, PTakeDown))
      case PTakeDown => if d.sems[i] > 0 then Some(Move(d.(sems := d.sems[i := d.sems[i] - 1]), i, PEating)) else None
      case PEating => if d.mutex > 0 then Some(Move(d.(mutex := d.mutex - 1), i, PPut0)) else None
      case PPut0 => Some(Put(d, i, i, THINKING, PPut1))
      case PPut1 => Some(Move(d, i, if CanEat(d.st, Left(n, i)) then PPutGoL else PPut2))
      case PPutGoL => Some(Put(d, i, Left(n, i), EATING, PPutUpL))
      case PPutUpL => Some(UpSem(d, i, Left(n, i), PPut2))
      case PPut2 => Some(Move(d, i, if CanEat(d.st, Right(n, i)) then PPutGoR else PPutOut))
      case PPutGoR => Some(Put(d, i, Right(n, i), EATING, PPutUpR))
      case PPutUpR => Some(UpSem(d, i, Right(n, i), PPutOut))
      case PPutOut => Some(Move(d.(mutex := d.mutex + 1), i, PThinking))
  }

  // ---- the invariant ------------------------------------------------------------------------------

  // Between down(mutex) and up(mutex).
  predicate Critical(a: Place) { !(a.PThinking? || a.PTakeDown? || a.PEating?) }

  predicate Holds(a: Place) { a == PEating || a == PPut0 }

  predicate AgreesAt(a: Place, s: Phil) {
    match a
    case PThinking => s == THINKING
    case PTake0 => s == THINKING
    case PTake1 => s == HUNGRY
    case PTakeGo => s == HUNGRY
    case PTakeUp => s == EATING
    case PTakeOut => s != THINKING
    case PTakeDown => s != THINKING
    case PEating => s == EATING
    case PPut0 => s == EATING
    case _ => s == THINKING
  }

  // The philosopher whose test came out true, and the one about to be let through.
  function GoTarget(n: nat, a: Place, i: nat): Option<nat>
    requires i < n
  {
    match a case PTakeGo => Some(i) case PPutGoL => Some(Left(n, i)) case PPutGoR => Some(Right(n, i)) case _ => None
  }

  function UpTarget(n: nat, a: Place, i: nat): Option<nat>
    requires i < n
  {
    match a case PTakeUp => Some(i) case PPutUpL => Some(Left(n, i)) case PPutUpR => Some(Right(n, i)) case _ => None
  }

  predicate WillTest(n: nat, a: Place, i: nat, j: nat)
    requires i < n
  {
    match a
    case PTake1 => j == i
    case PTakeGo => j == i
    case PPut1 => j == Left(n, i) || j == Right(n, i)
    case PPutGoL => j == Left(n, i) || j == Right(n, i)
    case PPutUpL => j == Right(n, i)
    case PPut2 => j == Right(n, i)
    case PPutGoR => j == Right(n, i)
    case _ => false
  }

  ghost predicate WillBeTested(d: Room, j: nat)
    requires Shaped(d)
  { exists i: nat {:trigger WillTest(|d.st|, d.at[i], i, j)} :: i < |d.st| && WillTest(|d.st|, d.at[i], i, j) }

  ghost predicate WillBeUpped(d: Room, j: nat)
    requires Shaped(d)
  { exists i: nat {:trigger UpTarget(|d.st|, d.at[i], i)} :: i < |d.st| && UpTarget(|d.st|, d.at[i], i) == Some(j) }

  // Eating is announced once: by the semaphore, or already passed on, or by the one who will do it.
  ghost predicate Announced(d: Room, j: nat)
    requires Shaped(d) && j < |d.st|
  {
    && d.sems[j] <= 1
    && (Holds(d.at[j]) ==> d.sems[j] == 0 && !WillBeUpped(d, j))
    && (d.sems[j] == 1 ==> d.st[j] == EATING && !WillBeUpped(d, j))
    && (d.st[j] == EATING ==> d.sems[j] == 1 || Holds(d.at[j]) || WillBeUpped(d, j))
  }

  predicate PlaceOk(d: Room, i: nat)
    requires Shaped(d) && i < |d.st|
  {
    && AgreesAt(d.at[i], d.st[i]) && (Critical(d.at[i]) ==> d.mutex == 0)
    && (GoTarget(|d.st|, d.at[i], i).Some? ==> CanEat(d.st, GoTarget(|d.st|, d.at[i], i).value))
    && (UpTarget(|d.st|, d.at[i], i).Some? ==> d.st[UpTarget(|d.st|, d.at[i], i).value] == EATING)
    && !(d.st[i] == EATING && d.st[Right(|d.st|, i)] == EATING)
  }

  predicate NotBoth(d: Room, i: nat, k: nat)
    requires i < |d.at| && k < |d.at|
  { !(Critical(d.at[i]) && Critical(d.at[k])) }

  // Whoever took the mutex is inside.
  ghost predicate Occupied(d: Room) {
    d.mutex == 0 ==> exists i: nat {:trigger d.at[i]} :: i < |d.at| && Critical(d.at[i])
  }

  ghost predicate Inv(d: Room) {
    && Shaped(d) && d.mutex <= 1 && Occupied(d)
    && (forall i: nat, k: nat {:trigger NotBoth(d, i, k)} | i < k < |d.st| :: NotBoth(d, i, k))
    && (forall i: nat {:trigger PlaceOk(d, i)} | i < |d.st| :: PlaceOk(d, i))
    && (forall j: nat {:trigger Announced(d, j)} | j < |d.st| :: Announced(d, j))
    && (forall j: nat {:trigger CanEat(d.st, j)} | j < |d.st| && CanEat(d.st, j) :: WillBeTested(d, j))
  }

  // ---- steps --------------------------------------------------------------------------------------

  lemma AloneInside(d: Room, i: nat, q: nat)
    requires Inv(d) && i < |d.st| && q < |d.st| && q != i && Critical(d.at[i])
    ensures !Critical(d.at[q]) && d.mutex == 0
  {
    assert PlaceOk(d, i);
    assert NotBoth(d, if i < q then i else q, if i < q then q else i);
  }

  // The exclusion part of the invariant.
  lemma Exclusion(d: Room, d': Room, i: nat)
    requires Inv(d) && i < |d.st| && Shaped(d') && |d'.st| == |d.st|
    requires forall q: nat | q < |d.st| && q != i :: d'.at[q] == d.at[q]
    requires Critical(d.at[i]) || d.mutex > 0 || !Critical(d'.at[i])
    requires d'.mutex + (if Critical(d'.at[i]) then 1 else 0) == d.mutex + (if Critical(d.at[i]) then 1 else 0)
    ensures d'.mutex <= 1 && forall q: nat | q < |d.st| && Critical(d'.at[q]) :: d'.mutex == 0
    ensures forall q: nat, k: nat {:trigger NotBoth(d', q, k)} | q < k < |d.st| :: NotBoth(d', q, k)
    ensures Occupied(d')
  {
    assert PlaceOk(d, i);
    if d'.mutex == 0 && !Critical(d'.at[i]) {
      var w: nat :| w < |d.at| && Critical(d.at[w]);
      assert w != i && Critical(d'.at[w]);
    }
    forall q: nat | q < |d.st| && q != i ensures Critical(d'.at[q]) ==> !Critical(d'.at[i]) && d'.mutex == 0 {
      assert PlaceOk(d, q);
      if Critical(d.at[i]) { AloneInside(d, i, q); }
    }
    forall q: nat, k: nat | q < k < |d.st| ensures NotBoth(d', q, k) { assert NotBoth(d, q, k); }
  }

  // Nothing in the philosophers' states changes, and i still owes what it owed.
  lemma MoveKeeps(d: Room, d': Room, i: nat)
    requires Inv(d) && i < |d.st| && Shaped(d') && d'.st == d.st && d'.at == d.at[i := d'.at[i]]
    requires Critical(d.at[i]) || d.mutex > 0 || !Critical(d'.at[i])
    requires d'.mutex + (if Critical(d'.at[i]) then 1 else 0) == d.mutex + (if Critical(d.at[i]) then 1 else 0)
    requires AgreesAt(d'.at[i], d.st[i])
    requires GoTarget(|d.st|, d'.at[i], i).Some? ==> CanEat(d.st, GoTarget(|d.st|, d'.at[i], i).value)
    requires UpTarget(|d.st|, d'.at[i], i).None?
    requires forall j: nat | j < |d.st| && WillTest(|d.st|, d.at[i], i, j) && CanEat(d.st, j) ::
        WillTest(|d.st|, d'.at[i], i, j)
    requires forall j: nat {:trigger Announced(d', j)} | j < |d.st| :: Announced(d', j)
    ensures Inv(d')
  {
    var n := |d.st|;
    Exclusion(d, d', i);
    forall q: nat | q < n ensures PlaceOk(d', q) { assert PlaceOk(d, q); }
    forall j: nat | j < n && CanEat(d'.st, j) ensures WillBeTested(d', j) {
      assert CanEat(d.st, j) && WillBeTested(d, j);
      var w: nat :| w < n && WillTest(n, d.at[w], w, j);
      assert WillTest(n, d'.at[w], w, j);
    }
  }

  // A move that is neither an up nor a down of a philosopher's semaphore.
  lemma QuietKeeps(d: Room, d': Room, i: nat)
    requires Inv(d) && i < |d.st| && Shaped(d') && d'.st == d.st && d'.sems == d.sems && d'.at == d.at[i := d'.at[i]]
    requires UpTarget(|d.st|, d.at[i], i).None? && UpTarget(|d.st|, d'.at[i], i).None?
        && Holds(d.at[i]) == Holds(d'.at[i])
    ensures forall j: nat {:trigger Announced(d', j)} | j < |d.st| :: Announced(d', j)
  {
    var n := |d.st|;
    forall j: nat | j < n ensures Announced(d', j) {
      assert Announced(d, j);
      UppedSame(d, d', i, j);
    }
  }

  lemma UppedSame(d: Room, d': Room, i: nat, j: nat)
    requires Shaped(d) && Shaped(d') && |d'.st| == |d.st| && i < |d.st|
    requires forall q: nat | q < |d.st| && q != i :: d'.at[q] == d.at[q]
    requires UpTarget(|d.st|, d.at[i], i) != Some(j) && UpTarget(|d.st|, d'.at[i], i) != Some(j)
    ensures WillBeUpped(d', j) <==> WillBeUpped(d, j)
  {
    var n := |d.st|;
    if WillBeUpped(d, j) {
      var w: nat :| w < n && UpTarget(n, d.at[w], w) == Some(j);
      assert UpTarget(n, d'.at[w], w) == Some(j);
    }
    if WillBeUpped(d', j) {
      var w: nat :| w < n && UpTarget(n, d'.at[w], w) == Some(j);
      assert UpTarget(n, d.at[w], w) == Some(j);
    }
  }

  lemma QuietSteps(d: Room, i: nat)
    requires Inv(d) && i < |d.st| && Step(d, i).Some?
    requires d.at[i] in {PThinking, PTake1, PTakeOut, PEating, PPut1, PPut2, PPutOut}
    ensures Inv(Step(d, i).value)
  {
    assert PlaceOk(d, i);
    QuietKeeps(d, Step(d, i).value, i);
    MoveKeeps(d, Step(d, i).value, i);
  }

  lemma DownStep(d: Room, i: nat)
    requires Inv(d) && i < |d.st| && d.at[i] == PTakeDown && Step(d, i).Some?
    ensures Inv(Step(d, i).value)
  {
    var d' := Step(d, i).value;
    assert PlaceOk(d, i) && Announced(d, i);
    forall j: nat | j < |d.st| ensures Announced(d', j) { assert Announced(d, j); UppedSame(d, d', i, j); }
    MoveKeeps(d, d', i);
  }

  lemma UpStep(d: Room, i: nat, j: nat)
    requires Inv(d) && i < |d.st| && UpTarget(|d.st|, d.at[i], i) == Some(j) && Step(d, i).Some?
    ensures Inv(Step(d, i).value)
  {
    var n, d' := |d.st|, Step(d, i).value;
    assert PlaceOk(d, i) && WillBeUpped(d, j);
    forall k: nat | k < n ensures Announced(d', k) {
      assert Announced(d, k);
      if k == j { UppedOnce(d, d', i, j); } else { UppedSame(d, d', i, k); }
    }
    MoveKeeps(d, d', i);
  }

  // Only the philosopher inside can owe an up.
  lemma UppedOnce(d: Room, d': Room, i: nat, j: nat)
    requires Inv(d) && Shaped(d') && |d'.st| == |d.st| && i < |d.st| && Critical(d.at[i])
    requires forall q: nat | q < |d.st| && q != i :: d'.at[q] == d.at[q]
    requires UpTarget(|d.st|, d'.at[i], i) != Some(j)
    ensures !WillBeUpped(d', j)
  {
    var n := |d.st|;
    if WillBeUpped(d', j) {
      var w: nat :| w < n && UpTarget(n, d'.at[w], w) == Some(j);
      AloneInside(d, i, w);
    }
  }

  // An assignment: the parts of the invariant that the steps below share.
  lemma AssignKeeps(d: Room, d': Room, i: nat, j: nat)
    requires Inv(d) && i < |d.st| && j < |d.st| && Shaped(d') && |d'.st| == |d.st|
    requires Critical(d.at[i]) && Critical(d'.at[i])
    requires d'.st == d.st[j := d'.st[j]] && d'.at == d.at[i := d'.at[i]] && d'.mutex == d.mutex && d'.sems == d.sems
    requires AgreesAt(d'.at[i], d'.st[i]) && (j != i ==> AgreesAt(d.at[j], d'.st[j]))
    requires d'.st[j] == EATING ==> CanEat(d.st, j)
    requires GoTarget(|d.st|, d'.at[i], i).None? && (UpTarget(|d.st|, d'.at[i], i) in {None, Some(j)})
    requires UpTarget(|d.st|, d'.at[i], i) == Some(j) ==> d'.st[j] == EATING
    requires forall k: nat {:trigger Announced(d', k)} | k < |d.st| :: Announced(d', k)
    requires forall k: nat {:trigger CanEat(d'.st, k)} | k < |d.st| && CanEat(d'.st, k) :: WillBeTested(d', k)
    ensures Inv(d')
  {
    var n := |d.st|;
    Exclusion(d, d', i);
    Neighbours(n, j);
    forall q: nat | q < n ensures PlaceOk(d', q) {
      assert PlaceOk(d, q);
      Neighbours(n, q);
      if q != i { AloneInside(d, i, q); }
    }
  }

  lemma HungryStep(d: Room, i: nat)
    requires Inv(d) && i < |d.st| && d.at[i] == PTake0
    ensures Inv(Step(d, i).value)
  {
    var n, d' := |d.st|, Step(d, i).value;
    assert PlaceOk(d, i);
    forall k: nat | k < n ensures Announced(d', k) { assert Announced(d, k); UppedSame(d, d', i, k); }
    forall k: nat | k < n && CanEat(d'.st, k) ensures WillBeTested(d', k) {
      if k == i {
        assert WillTest(n, d'.at[i], i, k);
      } else {
        assert CanEat(d.st, k) && WillBeTested(d, k);
        var w: nat :| w < n && WillTest(n, d.at[w], w, k);
        assert WillTest(n, d'.at[w], w, k);
      }
    }
    AssignKeeps(d, d', i, i);
  }

  lemma ThinkingStep(d: Room, i: nat)
    requires Inv(d) && i < |d.st| && d.at[i] == PPut0
    ensures Inv(Step(d, i).value)
  {
    var n, d' := |d.st|, Step(d, i).value;
    assert PlaceOk(d, i);
    forall k: nat | k < n ensures Announced(d', k) { assert Announced(d, k); UppedSame(d, d', i, k); }
    forall k: nat | k < n && CanEat(d'.st, k) ensures WillBeTested(d', k) {
      Neighbours(n, k);
      if Left(n, k) == i || Right(n, k) == i {
        assert WillTest(n, d'.at[i], i, k);
      } else {
        assert CanEat(d.st, k) && WillBeTested(d, k);
        var w: nat :| w < n && WillTest(n, d.at[w], w, k);
        assert WillTest(n, d'.at[w], w, k);
      }
    }
    AssignKeeps(d, d', i, i);
  }

  lemma EatingStep(d: Room, i: nat, j: nat)
    requires Inv(d) && i < |d.st| && GoTarget(|d.st|, d.at[i], i) == Some(j)
    ensures Inv(Step(d, i).value)
  {
    var n, d' := |d.st|, Step(d, i).value;
    assert PlaceOk(d, i);
    Neighbours(n, i);
    assert UpTarget(n, d'.at[i], i) == Some(j);
    forall k: nat | k < n ensures Announced(d', k) {
      assert Announced(d, k) && PlaceOk(d, k);
      if k != j { UppedSame(d, d', i, k); }
    }
    forall k: nat | k < n && CanEat(d'.st, k) ensures WillBeTested(d', k) {
      assert CanEat(d.st, k) && WillBeTested(d, k);
      var w: nat :| w < n && WillTest(n, d.at[w], w, k);
      assert WillTest(n, d'.at[w], w, k);
    }
    if j != i { assert PlaceOk(d, j); AloneInside(d, i, j); }
    AssignKeeps(d, d', i, j);
  }

  lemma StepKeeps(d: Room, i: nat)
    requires Inv(d) && Step(d, i).Some?
    ensures Inv(Step(d, i).value)
  {
    var n := |d.st|;
    match d.at[i] {
      case PTake0 => HungryStep(d, i);
      case PTakeGo => EatingStep(d, i, i);
      case PTakeUp => UpStep(d, i, i);
      case PTakeDown => DownStep(d, i);
      case PPut0 => ThinkingStep(d, i);
      case PPutGoL => EatingStep(d, i, Left(n, i));
      case PPutUpL => UpStep(d, i, Left(n, i));
      case PPutGoR => EatingStep(d, i, Right(n, i));
      case PPutUpR => UpStep(d, i, Right(n, i));
      case _ => QuietSteps(d, i);
    }
  }

  // ---- runs ---------------------------------------------------------------------------------------

  function Run(d: Room, who: seq<nat>): Option<Room>
    requires Shaped(d)
    decreases who
  {
    if who == [] then Some(d)
    else match Step(d, who[0])
      case None => None
      case Some(d') => if Shaped(d') then Run(d', who[1..]) else None
  }

  lemma {:induction false} RunKeeps(d: Room, who: seq<nat>)
    requires Inv(d) && Run(d, who).Some?
    ensures Inv(Run(d, who).value) && |Run(d, who).value.st| == |d.st|
    decreases who
  {
    if who != [] {
      StepKeeps(d, who[0]);
      StepSize(d, who[0]);
      RunKeeps(Step(d, who[0]).value, who[1..]);
    }
  }

  lemma StepSize(d: Room, i: nat)
    requires Shaped(d) && Step(d, i).Some?
    ensures |Step(d, i).value.st| == |d.st|
  { }

  lemma StartInv(n: nat)
    requires n >= 2
    ensures Inv(Start(n))
  {
    var d := Start(n);
    forall i: nat, k: nat | i < k < n ensures NotBoth(d, i, k) { }
    forall i: nat | i < n ensures PlaceOk(d, i) && Announced(d, i) { }
  }

  /** In every run: neighbours never eat together, a philosopher that has taken its forks is eating,
      and whenever the mutex is free every hungry philosopher has an eating neighbour and every
      eating one has its forks or the semaphore that gives them. */
  lemma DiningSafe(n: nat, who: seq<nat>, i: nat)
    requires n >= 2 && Run(Start(n), who).Some? && i < n
    ensures var d := Run(Start(n), who).value;
            && |d.st| == |d.at| == |d.sems| == n
            && !(d.st[i] == EATING && d.st[Right(n, i)] == EATING)
            && (Holds(d.at[i]) ==> d.st[i] == EATING)
            && (d.mutex > 0 && d.st[i] == HUNGRY ==> d.st[Left(n, i)] == EATING || d.st[Right(n, i)] == EATING)
            && (d.mutex > 0 ==> (d.st[i] == EATING <==> d.sems[i] == 1 || Holds(d.at[i])))
  {
    StartInv(n);
    RunKeeps(Start(n), who);
    var d := Run(Start(n), who).value;
    hide Run, Start, Step;
    assert PlaceOk(d, i) && Announced(d, i);
    assert CanEat(d.st, i) ==> WillBeTested(d, i);
    if d.mutex > 0 {
      forall w: nat | w < n ensures !Critical(d.at[w]) { assert PlaceOk(d, w); }
    }
  }

  /** Nobody deadlocks: in every state that a run reaches some philosopher can take a step. */
  lemma DiningProgress(n: nat, who: seq<nat>) returns (i: nat)
    requires n >= 2 && Run(Start(n), who).Some?
    ensures var d := Run(Start(n), who).value; Shaped(d) && i < n == |d.st| && Step(d, i).Some?
  {
    StartInv(n);
    RunKeeps(Start(n), who);
    i := SomeStep(Run(Start(n), who).value);
  }

  lemma SomeStep(d: Room) returns (i: nat)
    requires Inv(d)
    ensures i < |d.st| && Step(d, i).Some?
  {
    if j: nat :| j < |d.st| && Critical(d.at[j]) {
      i := j;
    } else if j: nat :| j < |d.st| && !d.at[j].PTakeDown? {
      i := j;
    } else {
      assert PlaceOk(d, 0);
      if d.st[0] == EATING { i := 0; }
      else {
        assert CanEat(d.st, 0) ==> WillBeTested(d, 0);
        i := if d.st[Left(|d.st|, 0)] == EATING then Left(|d.st|, 0) else Right(|d.st|, 0);
      }
      assert Announced(d, i);
    }
  }
}
