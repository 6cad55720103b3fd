/** What every step of the system keeps: the lock's word, the ledger and the count, the
    wakeup that is never lost, the promises of the clients, and the one deletion. */
module ResourceInvariant {
  import opened L = ResourceLock
  import opened ResourceSystem

  /** In a call, other than waiting or on the way to a deletion. */
  predicate Active(t: Thread) {
    t.Testing? || t.Swapping? || t.Inside? || (t.Leaving? && !t.next.Delete?)
  }

  /** One if the deletion is under way or done. */
  function Deletions(s: System): nat { Tally(s.threads, Doomed) + s.deletions }

  /** `mutex` is one exactly while a thread is in its section. */
  predicate Exclusive(s: System) {
    s.mutex == Tally(s.threads, InSection) <= 1
  }

  /** Every hold is of the current accessor, and `count` is their number. */
  predicate Agrees(shared: Shared, holds: Ledger) {
    holds.Of(shared.accessor) == holds.Total() == shared.count
  }

  predicate BlockedCounted(s: System) {
    s.shared.blocked == Tally(s.threads, Counted)
  }

  /** The threads' shares make up the ledger. */
  predicate Apportioned(s: System) {
    |s.owned| == |s.threads| && forall a: Accessor :: Sum(s.owned, a) == s.holds.Of(a)
  }

  predicate Accounted(s: System) {
    BlockedCounted(s) && Agrees(s.shared, s.holds) && Apportioned(s)
  }

  predicate WakeupPending(s: System) {
    s.shared.count == 0 && s.shared.blocked > 0 ==> s.shared.signaled || Tally(s.threads, Woken) > 0
  }

  predicate DestructOnce(s: System) {
    && Tally(s.threads, Destructing) + (if s.destructed then 1 else 0) == (if s.destructCalled then 1 else 0)
    && (s.shared.orphaned ==> s.destructed)
  }

  predicate DeleteOnce(s: System) {
    && Deletions(s) <= 1
    && (Deletions(s) == 1 ==>
          s.destructed && s.shared.count == 0 && s.shared.blocked == 0 && Tally(s.threads, Active) == 0)
    && (s.destructed ==> s.shared.orphaned || Deletions(s) == 1)
    && (s.destructed && s.shared.count == 0 && s.shared.blocked == 0 ==> Deletions(s) == 1)
  }

  predicate Inv(s: System) {
    && Exclusive(s) && Accounted(s) && WakeupPending(s) && DestructOnce(s) && DeleteOnce(s)
    && Respected(s)
  }

  lemma StartInv(n: nat)
    ensures Inv(Start(n))
  {
    var threads := Start(n).threads;
    TallyNone(threads, InSection);
    TallyNone(threads, Counted);
    TallyNone(threads, Destructing);
    TallyNone(threads, Doomed);
    StartApportioned(n);
    StartRespected(n);
  }

  lemma StartApportioned(n: nat)
    ensures Apportioned(Start(n))
  {
    forall a: Accessor ensures Sum(Start(n).owned, a) == 0 {
      SumNone(Start(n).owned, a);
    }
  }

  lemma StartRespected(n: nat)
    ensures Respected(Start(n))
  {
    forall j: nat | j < n ensures !Relies(Start(n), j) {
      assert Start(n).threads[j] == Idle;
    }
  }

  lemma Present(threads: seq<Thread>, p: Thread -> bool, i: nat)
    requires i < |threads| && p(threads[i])
    ensures Tally(threads, p) >= 1
  {
    TallyNone(threads, p);
  }

  lemma ClaimAgrees(shared: Shared, holds: Ledger, claimer: Accessor)
    requires Agrees(shared, holds)
    ensures var effect := L.Claim(shared, claimer);
            Agrees(effect.shared, if effect.outcome.Return? then holds.Plus(claimer) else holds)
  {
  }

  /** When all holds are one accessor's, dropping an accessor's holds drops
      all of them or none. */
  lemma DroppingAll(holds: Ledger, accessor: Accessor, relinquisher: Accessor)
    requires holds.Of(accessor) == holds.Total()
    ensures holds.With(relinquisher, 0) == if accessor == relinquisher then NoHolds() else holds
  {
  }

  lemma RelinquishEffect(shared: Shared, relinquisher: Accessor)
    ensures var after := L.Relinquish(shared, relinquisher).shared;
            && after.accessor == shared.accessor
            && after.count == if shared.accessor == relinquisher && shared.count > 0 then 0 else shared.count
  {
  }

  lemma RelinquishAgrees(shared: Shared, holds: Ledger, relinquisher: Accessor)
    requires Agrees(shared, holds)
    ensures Agrees(L.Relinquish(shared, relinquisher).shared, holds.With(relinquisher, 0))
  {
    RelinquishEffect(shared, relinquisher);
    DroppingAll(holds, shared.accessor, relinquisher);
  }

  lemma UnlockAgrees(shared: Shared, holds: Ledger, held: Accessor)
    requires Agrees(shared, holds) && holds.Of(held) > 0
    ensures Agrees(L.Unlock(shared).shared, holds.With(held, holds.Of(held) - 1))
  {
  }

  lemma ExchangeAgrees(shared: Shared, holds: Ledger, own: Ledger, relinquisher: Accessor, claimer: Accessor)
    requires Agrees(shared, holds)
    ensures var effect := L.Exchange(shared, relinquisher, claimer);
            Agrees(effect.shared, Settle(holds, own, Exchange(relinquisher, claimer), effect.outcome))
  {
    var released := L.Relinquish(shared, relinquisher);
    RelinquishAgrees(shared, holds, relinquisher);
    if !released.outcome.Delete? {
      ClaimAgrees(released.shared, holds.With(relinquisher, 0), claimer);
    }
  }

  lemma SectionAgrees(shared: Shared, holds: Ledger, own: Ledger, op: Op)
    requires Agrees(shared, holds)
    requires op.Unlock? ==> own.Of(op.held) > 0 && holds.Of(op.held) > 0
    ensures var effect := Section(shared, op); Agrees(effect.shared, Settle(holds, own, op, effect.outcome))
  {
    match op
    case Lock(c) => ClaimAgrees(shared, holds, c);
    case Resume(c) => ClaimAgrees(shared.(blocked := shared.blocked - 1), holds, c);
    case Exchange(r, c) => ExchangeAgrees(shared, holds, own, r, c);
    case UnlockAll(r) => RelinquishAgrees(shared, holds, r);
    case Unlock(a) => UnlockAgrees(shared, holds, a);
    case Destruct =>
    case Hand(_, _) =>
  }

  /** What one section does to the two numbers and the event. */
  predicate SectionDoes(shared: Shared, op: Op) {
    var effect := Section(shared, op);
    var after := effect.shared;
    && after.blocked == shared.blocked - (if op.Resume? then 1 else 0) + (if effect.outcome.Wait? then 1 else 0)
    && (after.count == 0 && after.blocked > 0 ==> after.signaled || shared.count == 0)
    && (op.Resume? ==> after.count > 0)
    && after.orphaned == (shared.orphaned || (op.Destruct? && !effect.outcome.Delete?))
    && (effect.outcome.Delete? ==>
          after.count == 0 && after.blocked == 0 && (shared.orphaned || op.Destruct?))
    && (shared.signaled ==> after.signaled)
    && (after.count == 0 && after.blocked == 0 && after.orphaned ==>
          effect.outcome.Delete? || (shared.count == 0 && shared.blocked == 0))
  }

  lemma SectionEffect(shared: Shared, op: Op)
    requires shared.count >= 0 && shared.blocked >= 0
    requires op.Unlock? ==> shared.count > 0
    requires op.Resume? ==> shared.blocked > 0
    ensures SectionDoes(shared, op)
  {
  }

  // ------------------------------------------ what the machine alone keeps

  lemma StepKeepsExclusive(s: System, l: Label)
    requires Exclusive(s) && Possible(s, l)
    ensures Exclusive(Step(s, l))
  {
    TallyUpdate(s.threads, InSection, l.thread, Step(s, l).threads[l.thread]);
    if s.threads[l.thread].Swapping? || s.threads[l.thread].Testing? {
      assert Step(s, l).threads[l.thread].Inside? ==> s.mutex == 0;
    }
  }

  /** `blocked` counts, whatever the clients do. */
  lemma StepKeepsBlocked(s: System, l: Label)
    requires BlockedCounted(s) && Possible(s, l)
    ensures BlockedCounted(Step(s, l))
  {
    TallyUpdate(s.threads, Counted, l.thread, Step(s, l).threads[l.thread]);
    if s.threads[l.thread].Inside? {
      SectionBlocked(s.shared, s.threads[l.thread].op);
    }
  }

  lemma SectionBlocked(shared: Shared, op: Op)
    ensures var effect := Section(shared, op);
            effect.shared.blocked == shared.blocked - (if op.Resume? then 1 else 0)
                                     + (if effect.outcome.Wait? then 1 else 0)
  {
  }

  lemma StepKeepsApportioned(s: System, l: Label)
    requires Apportioned(s) && Possible(s, l)
    ensures Apportioned(Step(s, l))
  {
    var s' := Step(s, l);
    var t := s.threads[l.thread];
    forall a: Accessor ensures Sum(s'.owned, a) == s'.holds.Of(a) {
      if t.Inside? {
        SettleSums(s.owned, s.holds, l.thread, t.op, Section(s.shared, t.op).outcome, a);
      } else if t.Idle? && l.op.Hand? {
        HandedSums(s.owned, l.thread, l.op.to, l.op.held, a);
      }
    }
  }

  // ------------------------------------------- what the obligations give

  /** The share of a thread that needs it is left alone by everybody else's step. */
  lemma ReliedShareKept(s: System, l: Label, j: nat)
    requires Respected(s) && Possible(s, l) && !s.threads[l.thread].Idle?
    requires j < |s.threads| && Relies(Step(s, l), j)
    ensures Relies(s, j) && Step(s, l).owned[j] == s.owned[j]
    ensures Calling(Step(s, l).threads[j]) && Step(s, l).threads[j].op == s.threads[j].op
  {
    var t := l.thread;
    assert Undisturbed(s, t, j);
    if s.threads[t].Inside? && (s.threads[t].op.UnlockAll? || s.threads[t].op.Exchange?) {
      ShareKept(s.owned[j], s.threads[t].op);
    }
  }

  /** The obligations are stated when a call is entered; no later step spoils them. */
  lemma StepKeepsRespected(s: System, l: Label)
    requires Respected(s) && Enabled(s, l)
    ensures Respected(Step(s, l))
  {
    var s' := Step(s, l);
    if !s.threads[l.thread].Idle? {
      forall j: nat | j < |s.threads| ensures Backed(s', j) {
        assert Backed(s, j);
        if Relies(s', j) {
          ReliedShareKept(s, l, j);
        }
      }
      forall i: nat, j: nat | i < |s.threads| && j < |s.threads| ensures Undisturbed(s', i, j) {
        assert Undisturbed(s, i, j);
        if Relies(s', j) {
          ReliedShareKept(s, l, j);
        }
      }
    }
  }

  lemma ShareKept(own: Ledger, op: Op)
    requires op.UnlockAll? || op.Exchange?
    requires forall a: Accessor :: Drops(op, a) ==> own.Of(a) == 0
    ensures own.With(op.relinquisher, 0) == own
  {
    assert Drops(op, op.relinquisher);
  }

  /** A thread that needs a hold has one, so the ledger is not empty. */
  lemma ReliedIsHeld(s: System, j: nat)
    requires Accounted(s) && Respected(s) && j < |s.threads| && Relies(s, j)
    ensures s.shared.count > 0
    ensures s.threads[j].op.Unlock? ==> s.holds.Of(s.threads[j].op.held) > 0
  {
    assert Backed(s, j);
    OwnedIsHeld(s, j);
  }

  lemma OwnedIsHeld(s: System, j: nat)
    requires Accounted(s) && j < |s.owned|
    ensures forall a: Accessor :: s.owned[j].Of(a) <= s.holds.Of(a)
    ensures s.owned[j].Total() <= s.shared.count
  {
    forall a: Accessor ensures s.owned[j].Of(a) <= s.holds.Of(a) {
      SumBound(s.owned, j, a);
    }
    assert s.owned[j].Of(PUBLIC) <= s.holds.Of(PUBLIC) && s.owned[j].Of(PRIVATE) <= s.holds.Of(PRIVATE);
    assert s.owned[j].Of(MANAGED) <= s.holds.Of(MANAGED) && s.owned[j].Of(DESTRUCT) <= s.holds.Of(DESTRUCT);
  }

  lemma StepKeepsAccount(s: System, l: Label)
    requires Accounted(s) && Respected(s) && Enabled(s, l)
    ensures Accounted(Step(s, l))
  {
    StepKeepsBlocked(s, l);
    StepKeepsApportioned(s, l);
    if s.threads[l.thread].Inside? {
      if s.threads[l.thread].op.Unlock? {
        ReliedIsHeld(s, l.thread);
        assert Backed(s, l.thread);
      }
      SectionAgrees(s.shared, s.holds, s.owned[l.thread], s.threads[l.thread].op);
    }
  }

  lemma StepKeepsWakeup(s: System, l: Label)
    requires WakeupPending(s) && Accounted(s) && Respected(s) && Enabled(s, l)
    ensures WakeupPending(Step(s, l))
  {
    TallyUpdate(s.threads, Woken, l.thread, Step(s, l).threads[l.thread]);
    if s.threads[l.thread].Inside? {
      SectionFacts(s, l.thread);
    }
  }

  /** What makes the effect of a section known: its call has what it needs. */
  lemma SectionFacts(s: System, t: nat)
    requires Accounted(s) && Respected(s) && t < |s.threads| && s.threads[t].Inside?
    ensures var op := s.threads[t].op;
            && (op.Unlock? ==> s.shared.count > 0)
            && (op.Resume? ==> s.shared.blocked > 0)
    ensures SectionDoes(s.shared, s.threads[t].op)
  {
    if s.threads[t].op.Resume? {
      Present(s.threads, Counted, t);
    }
    if s.threads[t].op.Unlock? {
      ReliedIsHeld(s, t);
    }
    SectionEffect(s.shared, s.threads[t].op);
  }

  /** A section that ends in a deletion leaves nobody else in a call: a thread
      still to run its section would have a hold. */
  lemma DoomedAlone(s: System, l: Label)
    requires Exclusive(s) && Accounted(s) && DestructOnce(s) && Respected(s) && Enabled(s, l)
    requires s.threads[l.thread].Inside? && Section(s.shared, s.threads[l.thread].op).outcome.Delete?
    ensures Tally(Step(s, l).threads, Active) == 0
  {
    var (s', threads) := (Step(s, l), Step(s, l).threads);
    StepKeepsExclusive(s, l);
    StepKeepsAccount(s, l);
    StepKeepsRespected(s, l);
    SectionFacts(s, l.thread);
    TallyNone(threads, Counted);
    DestructKnown(s, l.thread);
    forall j | 0 <= j < |threads| ensures !Active(threads[j]) {
      assert !Counted(threads[j]);
      if InSection(threads[j]) {
        TallyUnique(threads, InSection, j, l.thread);
      } else if Active(threads[j]) {
        assert Relies(s', j);
        ReliedIsHeld(s', j);
      }
    }
    TallyNone(threads, Active);
  }

  /** At the section that deletes, `destruct` has been called and no other thread is
      on its way to it. */
  lemma DestructKnown(s: System, t: nat)
    requires DestructOnce(s) && t < |s.threads| && s.threads[t].Inside?
    requires s.shared.orphaned || s.threads[t].op.Destruct?
    ensures s.destructCalled
    ensures forall j :: 0 <= j < |s.threads| && j != t ==> !Destructing(s.threads[j])
  {
    if s.threads[t].op.Destruct? {
      Present(s.threads, Destructing, t);
    }
    forall j | 0 <= j < |s.threads| && j != t ensures !Destructing(s.threads[j]) {
      if Destructing(s.threads[j]) {
        Present(s.threads, Destructing, j);
        TallyUnique(s.threads, Destructing, j, t);
      }
    }
  }

  lemma SectionKeepsDeletion(s: System, l: Label)
    requires Exclusive(s) && Accounted(s) && DestructOnce(s) && DeleteOnce(s) && Respected(s)
    requires Enabled(s, l) && s.threads[l.thread].Inside?
    ensures DestructOnce(Step(s, l)) && DeleteOnce(Step(s, l))
  {
    var s' := Step(s, l);
    var op := s.threads[l.thread].op;
    TallyUpdate(s.threads, Doomed, l.thread, s'.threads[l.thread]);
    TallyUpdate(s.threads, Destructing, l.thread, s'.threads[l.thread]);
    Present(s.threads, Active, l.thread);
    assert Deletions(s) == 0;
    SectionFacts(s, l.thread);
    if s'.threads[l.thread].next.Delete? {
      DoomedAlone(s, l);
    }
    if op.Destruct? {
      Present(s.threads, Destructing, l.thread);
    }
  }

  /** After the deletion is decided no entry meets the obligations. */
  lemma NoEntryWhenDeleted(s: System, l: Label)
    requires Accounted(s) && DestructOnce(s) && DeleteOnce(s) && Respected(s) && Deletions(s) == 1
    requires Possible(s, l) && s.threads[l.thread].Idle?
    ensures !Obliged(s, l)
  {
    OwnedIsHeld(s, l.thread);
    assert s.destructCalled && s.owned[l.thread].Total() == 0;
    if !l.op.Hand? && !l.op.Destruct? {
      assert Relies(Step(s, l), l.thread);
      assert Respected(Step(s, l)) ==> Backed(Step(s, l), l.thread);
    }
  }

  lemma EntryKeepsDeletion(s: System, l: Label)
    requires Accounted(s) && DestructOnce(s) && DeleteOnce(s) && Respected(s)
    requires Enabled(s, l) && s.threads[l.thread].Idle?
    ensures DestructOnce(Step(s, l)) && DeleteOnce(Step(s, l))
  {
    if Deletions(s) == 1 {
      NoEntryWhenDeleted(s, l);
    }
    if !l.op.Hand? {
      TallyUpdate(s.threads, Doomed, l.thread, Testing(l.op));
      TallyUpdate(s.threads, Destructing, l.thread, Testing(l.op));
    }
  }

  lemma OtherStepKeepsDestruct(s: System, l: Label)
    requires DestructOnce(s)
    requires Possible(s, l) && !s.threads[l.thread].Inside? && !s.threads[l.thread].Idle?
    ensures DestructOnce(Step(s, l))
  {
    TallyUpdate(s.threads, Destructing, l.thread, Step(s, l).threads[l.thread]);
  }

  lemma OtherStepKeepsDeletion(s: System, l: Label)
    requires BlockedCounted(s) && DeleteOnce(s)
    requires Possible(s, l) && !s.threads[l.thread].Inside? && !s.threads[l.thread].Idle?
    ensures DeleteOnce(Step(s, l))
  {
    var t' := Step(s, l).threads[l.thread];
    TallyUpdate(s.threads, Doomed, l.thread, t');
    TallyUpdate(s.threads, Active, l.thread, t');
    if Counted(s.threads[l.thread]) {
      Present(s.threads, Counted, l.thread);
    }
  }

  lemma StepKeepsInv(s: System, l: Label)
    requires Inv(s) && Enabled(s, l)
    ensures Inv(Step(s, l))
  {
    StepKeepsExclusive(s, l);
    StepKeepsAccount(s, l);
    StepKeepsWakeup(s, l);
    StepKeepsRespected(s, l);
    if s.threads[l.thread].Inside? {
      SectionKeepsDeletion(s, l);
    } else if s.threads[l.thread].Idle? {
      EntryKeepsDeletion(s, l);
    } else {
      OtherStepKeepsDestruct(s, l);
      OtherStepKeepsDeletion(s, l);
    }
  }
}
