/** Any number of threads sharing one resource.

    A thread inside a call takes one step per access to shared memory: the
    spin lock's read, its atomic exchange and its releasing store are separate
    steps, as are the wait on the event and the deletion; the statements of a
    critical section form one step, taken while the lock is held.  A schedule
    is a sequence of labels; ResourceTheorems says what holds after every one. */
module ResourceSystem {
  import opened L = ResourceLock

  /** The calls a client makes; `Resume` is what a thread does after its wait.
      `Unlock` carries the accessor whose hold the client gives up. `Hand` is not a
      call: a thread makes another answer for one of its holds, as the thread that
      issues a draw does with those that complete it. */
  datatype Op =
    | Lock(claimer: Accessor)
    | Exchange(relinquisher: Accessor, claimer: Accessor)
    | Unlock(held: Accessor)
    | UnlockAll(relinquisher: Accessor)
    | Destruct
    | Resume(claimer: Accessor)
    | Hand(to: nat, held: Accessor)

  datatype Thread =
    | Idle
    | Testing(op: Op)          // about to read the lock word
    | Swapping(op: Op)         // read zero, about to exchange
    | Inside(op: Op)           // holds the lock, section not yet run
    | Leaving(next: Outcome)   // section run, about to store zero
    | Waiting(claimer: Accessor)
    | Deleting

  /** The clients' own account of who may use the buffer: the outstanding
      holds of each accessor.  The code keeps no such ledger. */
  datatype Ledger = Ledger(publics: nat, privates: nat, manageds: nat, destructs: nat) {
    function Of(a: Accessor): nat {
      match a
      case PUBLIC => publics
      case PRIVATE => privates
      case MANAGED => manageds
      case DESTRUCT => destructs
    }

    function With(a: Accessor, n: nat): Ledger {
      match a
      case PUBLIC => this.(publics := n)
      case PRIVATE => this.(privates := n)
      case MANAGED => this.(manageds := n)
      case DESTRUCT => this.(destructs := n)
    }

    function Plus(a: Accessor): Ledger { With(a, Of(a) + 1) }

    function Total(): nat { publics + privates + manageds + destructs }
  }

  function NoHolds(): Ledger { Ledger(0, 0, 0, 0) }

  /** The last five fields are the ledger, the part of it each thread answers for,
      and a record of what has happened. */
  datatype System = System(
    mutex: int, shared: Shared, threads: seq<Thread>,
    holds: Ledger, owned: seq<Ledger>, destructCalled: bool, destructed: bool, deletions: nat)

  datatype Label = Label(thread: nat, op: Op)

  datatype Option<T> = None | Some(value: T)

  function Start(n: nat): System {
    System(0, Initial(), seq(n, i => Idle), NoHolds(), seq(n, i => NoHolds()), false, false, 0)
  }

  // ---------------------------------------------------------------- steps

  function Section(s: Shared, op: Op): Effect {
    match op
    case Lock(c) => L.Claim(s, c)
    case Exchange(r, c) => L.Exchange(s, r, c)
    case Unlock(_) => L.Unlock(s)
    case UnlockAll(r) => L.Relinquish(s, r)
    case Destruct => L.Destruct(s)
    case Resume(c) => L.Reclaim(s, c)
    case Hand(_, _) => Effect(s, Return)
  }

  /** What a call means to the clients: relinquishing gives up every hold of
      one accessor, and a claim that returns is one more hold.  `own` is what the
      caller answers for. */
  function Settle(holds: Ledger, own: Ledger, op: Op, next: Outcome): Ledger {
    match op
    case Lock(c) => if next.Return? then holds.Plus(c) else holds
    case Resume(c) => if next.Return? then holds.Plus(c) else holds
    case Exchange(r, c) => if next.Return? then holds.With(r, 0).Plus(c) else holds.With(r, 0)
    case Unlock(a) => if own.Of(a) > 0 && holds.Of(a) > 0 then holds.With(a, holds.Of(a) - 1) else holds
    case UnlockAll(r) => holds.With(r, 0)
    case Destruct => holds
    case Hand(_, _) => holds
  }

  /** The holds of one accessor are dropped whoever answers for them. */
  predicate Drops(op: Op, a: Accessor) {
    (op.UnlockAll? || op.Exchange?) && op.relinquisher == a
  }

  function SettleOwned(owned: seq<Ledger>, t: nat, op: Op, next: Outcome): (r: seq<Ledger>)
    requires t < |owned|
    ensures |r| == |owned|
  {
    seq(|owned|, j requires 0 <= j < |owned| =>
      if j == t then Settle(owned[t], owned[t], op, next)
      else if op.UnlockAll? || op.Exchange? then owned[j].With(op.relinquisher, 0)
      else owned[j])
  }

  function Handed(owned: seq<Ledger>, t: nat, to: nat, a: Accessor): (r: seq<Ledger>)
    requires t < |owned| && to < |owned|
    ensures |r| == |owned|
  {
    if t == to || owned[t].Of(a) == 0 then owned
    else owned[t := owned[t].With(a, owned[t].Of(a) - 1)][to := owned[to].Plus(a)]
  }

  /** What the machine allows: anything, except that a wait ends with a signal. */
  predicate Possible(s: System, l: Label) {
    && l.thread < |s.threads| == |s.owned|
    && match s.threads[l.thread]
       case Idle => !l.op.Resume? && (l.op.Hand? ==> l.op.to < |s.threads|)
       case Waiting(_) => s.shared.signaled
       case _ => true
  }

  function Step(s: System, l: Label): System
    requires Possible(s, l)
  {
    var t := l.thread;
    match s.threads[t]
    case Idle =>
      if l.op.Hand? then s.(owned := Handed(s.owned, t, l.op.to, l.op.held))
      else s.(threads := s.threads[t := Testing(l.op)], destructCalled := s.destructCalled || l.op.Destruct?)
    case Testing(op) =>
      s.(threads := s.threads[t := if s.mutex == 0 then Swapping(op) else Testing(op)])
    case Swapping(op) =>
      s.(threads := s.threads[t := if s.mutex == 0 then Inside(op) else Testing(op)], mutex := 1)
    case Inside(op) =>
      var effect := Section(s.shared, op);
      s.(threads := s.threads[t := Leaving(effect.outcome)],
         shared := effect.shared,
         holds := Settle(s.holds, s.owned[t], op, effect.outcome),
         owned := SettleOwned(s.owned, t, op, effect.outcome),
         destructed := s.destructed || op.Destruct?)
    case Leaving(next) =>
      var then' := match next case Return => Idle case Wait(c) => Waiting(c) case Delete => Deleting;
      s.(threads := s.threads[t := then'], mutex := 0)
    case Waiting(c) =>
      s.(threads := s.threads[t := Testing(Resume(c))], shared := s.shared.(signaled := false))
    case Deleting =>
      s.(threads := s.threads[t := Idle], deletions := s.deletions + 1)
  }

  // ---------------------------------------------------------- obligations

  /** In a call whose section is still to come, other than back from a wait. */
  predicate Calling(t: Thread) {
    (t.Testing? || t.Swapping? || t.Inside?) && !t.op.Resume?
  }

  /** Calls that need a hold: `unlock` always, and once `destruct` is called every
      other call. */
  predicate Relies(s: System, j: nat)
    requires j < |s.threads|
  {
    Calling(s.threads[j]) && (s.threads[j].op.Unlock? || (s.destructCalled && !s.threads[j].op.Destruct?))
  }

  predicate Backed(s: System, j: nat)
    requires j < |s.threads| == |s.owned|
  {
    Relies(s, j) ==>
      s.owned[j].Total() > 0 && (s.threads[j].op.Unlock? ==> s.owned[j].Of(s.threads[j].op.held) > 0)
  }

  /** The call of thread `i` does not take away what the call of `j` needs. */
  predicate Undisturbed(s: System, i: nat, j: nat)
    requires i < |s.threads| == |s.owned| && j < |s.threads|
  {
    i != j && Calling(s.threads[i]) && Relies(s, j) ==>
      forall a: Accessor :: Drops(s.threads[i].op, a) ==> s.owned[j].Of(a) == 0
  }

  predicate Respected(s: System) {
    && |s.owned| == |s.threads|
    && (forall j: nat :: j < |s.threads| ==> Backed(s, j))
    && (forall i: nat, j: nat :: i < |s.threads| && j < |s.threads| ==> Undisturbed(s, i, j))
  }

  /** What the clients promise, and only when a thread enters a call: `destruct` is
      called once, and the calls then in flight have the holds they need, with none
      among them that drops such a hold of another thread. */
  predicate Obliged(s: System, l: Label)
    requires Possible(s, l)
  {
    s.threads[l.thread].Idle? ==>
      && (l.op.Destruct? ==> !s.destructCalled)
      && (l.op.Hand? ==> s.owned[l.thread].Of(l.op.held) > 0)
      && Respected(Step(s, l))
  }

  predicate Enabled(s: System, l: Label) {
    Possible(s, l) && Obliged(s, l)
  }

  /** The system after a schedule, if every step of it was possible. */
  function Anyhow(n: nat, schedule: seq<Label>): Option<System> {
    if schedule == [] then Some(Start(n))
    else
      var before := Anyhow(n, schedule[..|schedule| - 1]);
      var last := schedule[|schedule| - 1];
      if before.Some? && Possible(before.value, last) then Some(Step(before.value, last)) else None
  }

  /** The same, if the clients kept their promises as well. */
  function After(n: nat, schedule: seq<Label>): Option<System> {
    if schedule == [] then Some(Start(n))
    else
      var before := After(n, schedule[..|schedule| - 1]);
      var last := schedule[|schedule| - 1];
      if before.Some? && Enabled(before.value, last) then Some(Step(before.value, last)) else None
  }

  // ------------------------------------------------------ counting threads

  predicate InSection(t: Thread) { t.Inside? || t.Leaving? }

  /** Threads that `blocked` counts: from the increment to the decrement. */
  predicate Counted(t: Thread) {
    || t.Waiting?
    || (t.Leaving? && t.next.Wait?)
    || Woken(t)
  }

  /** Returned from the wait and not yet re-entered. */
  predicate Woken(t: Thread) {
    (t.Testing? || t.Swapping? || t.Inside?) && t.op.Resume?
  }

  predicate Doomed(t: Thread) { t.Deleting? || (t.Leaving? && t.next.Delete?) }

  predicate Destructing(t: Thread) {
    (t.Testing? || t.Swapping? || t.Inside?) && t.op.Destruct?
  }

  function Tally(threads: seq<Thread>, p: Thread -> bool): nat {
    if threads == [] then 0 else (if p(threads[0]) then 1 else 0) + Tally(threads[1..], p)
  }

  lemma {:induction false} TallyUpdate(threads: seq<Thread>, p: Thread -> bool, i: nat, t: Thread)
    requires i < |threads|
    ensures Tally(threads[i := t], p) ==
            Tally(threads, p) - (if p(threads[i]) then 1 else 0) + (if p(t) then 1 else 0)
  {
    if i == 0 {
      assert threads[i := t][1..] == threads[1..];
    } else {
      assert threads[i := t][1..] == threads[1..][i - 1 := t];
      TallyUpdate(threads[1..], p, i - 1, t);
    }
  }

  lemma {:induction false} TallyNone(threads: seq<Thread>, p: Thread -> bool)
    ensures Tally(threads, p) == 0 <==> forall i | 0 <= i < |threads| :: !p(threads[i])
  {
    if threads != [] {
      TallyNone(threads[1..], p);
      assert forall i | 0 < i < |threads| :: threads[i] == threads[1..][i - 1];
      assert forall i | 0 <= i < |threads| - 1 :: threads[1..][i] == threads[i + 1];
    }
  }

  lemma {:induction false} TallyUnique(threads: seq<Thread>, p: Thread -> bool, i: nat, j: nat)
    requires i < |threads| && j < |threads| && p(threads[i]) && p(threads[j])
    requires Tally(threads, p) <= 1 && !p(Idle)
    ensures i == j
  {
    TallyUpdate(threads, p, i, Idle);
    TallyUpdate(threads[i := Idle], p, j, Idle);
  }

  // -------------------------------------------------------- counting holds

  /** The holds of one accessor, over all threads. */
  function Sum(owned: seq<Ledger>, a: Accessor): nat {
    if owned == [] then 0 else owned[0].Of(a) + Sum(owned[1..], a)
  }

  lemma {:induction false} SumUpdate(owned: seq<Ledger>, j: nat, own: Ledger, a: Accessor)
    requires j < |owned|
    ensures Sum(owned[j := own], a) == Sum(owned, a) - owned[j].Of(a) + own.Of(a)
  {
    if j == 0 {
      assert owned[j := own][1..] == owned[1..];
    } else {
      assert owned[j := own][1..] == owned[1..][j - 1 := own];
      SumUpdate(owned[1..], j - 1, own, a);
    }
  }

  lemma {:induction false} SumBound(owned: seq<Ledger>, j: nat, a: Accessor)
    requires j < |owned|
    ensures owned[j].Of(a) <= Sum(owned, a)
  {
    if j > 0 {
      SumBound(owned[1..], j - 1, a);
    }
  }

  lemma {:induction false} SumNone(owned: seq<Ledger>, a: Accessor)
    requires forall j :: 0 <= j < |owned| ==> owned[j].Of(a) == 0
    ensures Sum(owned, a) == 0
  {
    if owned != [] {
      SumNone(owned[1..], a);
    }
  }

  function Cleared(owned: seq<Ledger>, r: Accessor): seq<Ledger> {
    seq(|owned|, j requires 0 <= j < |owned| => owned[j].With(r, 0))
  }

  lemma {:induction false} SumCleared(owned: seq<Ledger>, r: Accessor, a: Accessor)
    ensures Sum(Cleared(owned, r), a) == if a == r then 0 else Sum(owned, a)
  {
    if owned != [] {
      assert Cleared(owned, r)[1..] == Cleared(owned[1..], r);
      SumCleared(owned[1..], r, a);
    }
  }

  lemma SettledIs(owned: seq<Ledger>, t: nat, op: Op, next: Outcome)
    requires t < |owned|
    ensures SettleOwned(owned, t, op, next) ==
            (if op.UnlockAll? || op.Exchange? then Cleared(owned, op.relinquisher) else owned)
              [t := Settle(owned[t], owned[t], op, next)]
  {
  }

  /** The shares follow the ledger through every section ... */
  lemma SettleSums(owned: seq<Ledger>, holds: Ledger, t: nat, op: Op, next: Outcome, a: Accessor)
    requires t < |owned| && forall b: Accessor :: Sum(owned, b) == holds.Of(b)
    ensures Sum(SettleOwned(owned, t, op, next), a) == Settle(holds, owned[t], op, next).Of(a)
  {
    SettledIs(owned, t, op, next);
    if op.UnlockAll? || op.Exchange? {
      SumOfDrop(owned, t, op.relinquisher, Settle(owned[t], owned[t], op, next), a);
      DropSettles(owned[t], holds, op, next, a);
    } else {
      SumUpdate(owned, t, Settle(owned[t], owned[t], op, next), a);
      if op.Unlock? {
        SumBound(owned, t, op.held);
      }
      ChangeSettles(owned[t], holds, op, next, a);
    }
  }

  lemma SumOfDrop(owned: seq<Ledger>, t: nat, r: Accessor, own: Ledger, a: Accessor)
    requires t < |owned|
    ensures Sum(Cleared(owned, r)[t := own], a) ==
            (if a == r then 0 else Sum(owned, a) - owned[t].Of(a)) + own.Of(a)
  {
    SumCleared(owned, r, a);
    SumUpdate(Cleared(owned, r), t, own, a);
  }

  lemma DropSettles(own: Ledger, holds: Ledger, op: Op, next: Outcome, a: Accessor)
    requires op.UnlockAll? || op.Exchange?
    ensures Settle(holds, own, op, next).Of(a) - (if a == op.relinquisher then 0 else holds.Of(a))
         == Settle(own, own, op, next).Of(a) - (if a == op.relinquisher then 0 else own.Of(a))
  {
  }

  lemma ChangeSettles(own: Ledger, holds: Ledger, op: Op, next: Outcome, a: Accessor)
    requires !op.UnlockAll? && !op.Exchange? && (op.Unlock? ==> own.Of(op.held) <= holds.Of(op.held))
    ensures Settle(holds, own, op, next).Of(a) - holds.Of(a) == Settle(own, own, op, next).Of(a) - own.Of(a)
  {
  }

  /** ... and a handover moves a share without changing the sums. */
  lemma HandedSums(owned: seq<Ledger>, t: nat, to: nat, held: Accessor, a: Accessor)
    requires t < |owned| && to < |owned|
    ensures Sum(Handed(owned, t, to, held), a) == Sum(owned, a)
  {
    if t != to && owned[t].Of(held) > 0 {
      var given := owned[t].With(held, owned[t].Of(held) - 1);
      SumUpdate(owned, t, given, a);
      SumUpdate(owned[t := given], to, owned[to].Plus(held), a);
    }
  }
}
