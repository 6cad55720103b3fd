/** The shared fields of a lockable resource and what each of its critical
    sections does to them.

    A section runs between taking and dropping the spin lock.  Its effect is
    first given as a function on the shared fields; the class `Resource` then
    runs the statements of the section, loops included, and is proved against
    that function.  The interleaving of sections by many threads is the
    subject of module `ResourceSystem`. */
module ResourceLock {

  datatype Accessor = PUBLIC | PRIVATE | MANAGED | DESTRUCT

  /** `signaled` belongs to the auto-reset event that blocked threads wait on. */
  datatype Shared = Shared(
    accessor: Accessor, count: int, blocked: int, orphaned: bool, signaled: bool)

  /** How a thread leaves a section: its call returns, it goes to wait and will
      claim again, or it deletes the resource. */
  datatype Outcome = Return | Wait(claimer: Accessor) | Delete

  datatype Effect = Effect(shared: Shared, outcome: Outcome)

  function Initial(): Shared { Shared(PUBLIC, 0, 0, false, false) }

  /** One evaluation of the acquire loop's condition. */
  function Claim(s: Shared, claimer: Accessor): Effect {
    if s.count != 0 && s.accessor != claimer
    then Effect(s.(blocked := s.blocked + 1), Wait(claimer))
    else Effect(s.(accessor := claimer, count := s.count + 1), Return)
  }

  /** What follows the hold count reaching zero. */
  function Vacate(s: Shared): Effect {
    if s.blocked != 0 then Effect(s.(signaled := true), Return)
    else Effect(s, if s.orphaned then Delete else Return)
  }

  /** A thread that was woken re-enters and claims again. */
  function Reclaim(s: Shared, claimer: Accessor): Effect {
    Claim(s.(blocked := s.blocked - 1), claimer)
  }

  /** All holds of one accessor are dropped together. */
  function Relinquish(s: Shared, relinquisher: Accessor): Effect {
    if s.count > 0 && s.accessor == relinquisher
    then Vacate(s.(count := 0))
    else Effect(s, Return)
  }

  function Exchange(s: Shared, relinquisher: Accessor, claimer: Accessor): Effect {
    var released := Relinquish(s, relinquisher);
    if released.outcome == Delete then released else Claim(released.shared, claimer)
  }

  function Unlock(s: Shared): Effect {
    var dropped := s.(count := s.count - 1);
    if dropped.count == 0 then Vacate(dropped) else Effect(dropped, Return)
  }

  function Destruct(s: Shared): Effect {
    if s.count == 0 && s.blocked == 0 then Effect(s, Delete)
    else Effect(s.(orphaned := true), Return)
  }

  class Resource {
    var accessor: Accessor
    var count: int
    var blocked: int
    var orphaned: bool
    var signaled: bool

    ghost function State(): Shared
      reads this
    {
      Shared(accessor, count, blocked, orphaned, signaled)
    }

    constructor ()
      ensures State() == Initial()
    {
      accessor, count, blocked, orphaned, signaled := PUBLIC, 0, 0, false, false;
    }

    /** The acquire loop from its test to either the grant or the wait. */
    method ClaimSection(claimer: Accessor) returns (outcome: Outcome)
      modifies this
      ensures Effect(State(), outcome) == Claim(old(State()), claimer)
    {
      if count != 0 && accessor != claimer {
        blocked := blocked + 1;
        return Wait(claimer);
      }
      accessor := claimer;
      count := count + 1;
      return Return;
    }

    method ReclaimSection(claimer: Accessor) returns (outcome: Outcome)
      modifies this
      ensures Effect(State(), outcome) == Reclaim(old(State()), claimer)
    {
      blocked := blocked - 1;
      outcome := ClaimSection(claimer);
    }

    /** The release loop shared by the two relinquishing calls: it counts down
        one hold at a time and acts once, when the count reaches zero. */
    method RelinquishSection(relinquisher: Accessor) returns (outcome: Outcome)
      modifies this
      ensures Effect(State(), outcome) == Relinquish(old(State()), relinquisher)
    {
      while count > 0 && accessor == relinquisher
        invariant count <= old(count)
        invariant count < old(count) ==> old(accessor) == relinquisher && 0 <= count
        invariant count == old(count) || count > 0 ==> State() == old(State()).(count := count)
        invariant count == 0 < old(count) ==> Effect(State(), Return) == Vacate(old(State()).(count := 0))
        decreases count
      {
        count := count - 1;
        if count == 0 {
          if blocked != 0 {
            signaled := true;
          } else if orphaned {
            return Delete;
          }
        }
      }
      return Return;
    }

    method ExchangeSection(relinquisher: Accessor, claimer: Accessor) returns (outcome: Outcome)
      modifies this
      ensures Effect(State(), outcome) == Exchange(old(State()), relinquisher, claimer)
    {
      outcome := RelinquishSection(relinquisher);
      if outcome != Delete {
        outcome := ClaimSection(claimer);
      }
    }

    method UnlockSection() returns (outcome: Outcome)
      modifies this
      ensures Effect(State(), outcome) == Unlock(old(State()))
    {
      count := count - 1;
      if count == 0 {
        if blocked != 0 {
          signaled := true;
        } else if orphaned {
          return Delete;
        }
      }
      return Return;
    }

    method DestructSection() returns (outcome: Outcome)
      modifies this
      ensures Effect(State(), outcome) == Destruct(old(State()))
    {
      if count == 0 && blocked == 0 {
        return Delete;
      }
      orphaned := true;
      return Return;
    }
  }
}
