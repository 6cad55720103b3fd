/** What holds after every schedule: exclusion, progress and deletion. */
module ResourceTheorems {
  import opened L = ResourceLock
  import opened ResourceSystem
  import opened ResourceInvariant

  lemma {:induction false} ReachableInv(n: nat, schedule: seq<Label>)
    requires After(n, schedule).Some?
    ensures Inv(After(n, schedule).value)
  {
    if schedule == [] {
      StartInv(n);
    } else {
      var before := schedule[..|schedule| - 1];
      ReachableInv(n, before);
      StepKeepsInv(After(n, before).value, schedule[|schedule| - 1]);
    }
  }

  lemma {:induction false} AnyhowInv(n: nat, schedule: seq<Label>)
    requires Anyhow(n, schedule).Some?
    ensures var s := Anyhow(n, schedule).value;
            Exclusive(s) && BlockedCounted(s) && |s.owned| == |s.threads|
  {
    if schedule == [] {
      StartInv(n);
    } else {
      var (before, last) := (schedule[..|schedule| - 1], schedule[|schedule| - 1]);
      AnyhowInv(n, before);
      StepKeepsExclusive(Anyhow(n, before).value, last);
      StepKeepsBlocked(Anyhow(n, before).value, last);
    }
  }

  lemma {:induction false} AfterIsPossible(n: nat, schedule: seq<Label>)
    requires After(n, schedule).Some?
    ensures Anyhow(n, schedule) == After(n, schedule)
  {
    if schedule != [] {
      AfterIsPossible(n, schedule[..|schedule| - 1]);
    }
  }

  /** The spin lock admits one thread at a time, however its separate read,
      exchange and store steps interleave, and whatever the clients do. */
  lemma MutualExclusion(n: nat, schedule: seq<Label>, i: nat, j: nat)
    requires Anyhow(n, schedule).Some?
    requires i < |Anyhow(n, schedule).value.threads| && j < |Anyhow(n, schedule).value.threads|
    requires InSection(Anyhow(n, schedule).value.threads[i]) && InSection(Anyhow(n, schedule).value.threads[j])
    ensures i == j
  {
    AnyhowInv(n, schedule);
    TallyUnique(Anyhow(n, schedule).value.threads, InSection, i, j);
  }

  /** `count` is the number of outstanding holds and two holds never differ in
      accessor, so PUBLIC and PRIVATE users never share the buffer. */
  lemma AccessorExclusion(n: nat, schedule: seq<Label>, a: Accessor, b: Accessor)
    requires After(n, schedule).Some?
    ensures var s := After(n, schedule).value;
            && s.shared.count == s.holds.Total()
            && (s.holds.Of(a) > 0 && s.holds.Of(b) > 0 ==> a == b == s.shared.accessor)
  {
    ReachableInv(n, schedule);
  }

  lemma NoLostWakeup(n: nat, schedule: seq<Label>)
    requires After(n, schedule).Some?
    requires After(n, schedule).value.shared.count == 0 && After(n, schedule).value.shared.blocked > 0
    ensures var s := After(n, schedule).value;
            s.shared.signaled || exists t | 0 <= t < |s.threads| :: Woken(s.threads[t])
  {
    ReachableInv(n, schedule);
    TallyNone(After(n, schedule).value.threads, Woken);
  }

  /** The resource is deleted at most once.  From the section that decides it, all
      other threads are outside every call, and no entry meets the obligations; the
      obligations say nothing of threads already in a call. */
  lemma DeletionIsLast(n: nat, schedule: seq<Label>, l: Label)
    requires After(n, schedule).Some?
    ensures var s := After(n, schedule).value;
            && s.deletions <= 1
            && (Deletions(s) == 1 ==>
                  && s.holds == NoHolds() && s.shared.blocked == 0
                  && (forall t :: 0 <= t < |s.threads| ==> s.threads[t].Idle? || Doomed(s.threads[t]))
                  && (l.thread < |s.threads| && s.threads[l.thread].Idle? ==> !Enabled(s, l)))
            && (s.deletions == 1 ==> forall t :: 0 <= t < |s.threads| ==> s.threads[t].Idle?)
  {
    ReachableInv(n, schedule);
    var s := After(n, schedule).value;
    if Deletions(s) == 1 {
      NobodyActive(s);
      if Possible(s, l) && s.threads[l.thread].Idle? {
        NoEntryWhenDeleted(s, l);
      }
    }
  }

  lemma NobodyActive(s: System)
    requires Inv(s) && Deletions(s) == 1
    ensures forall t :: 0 <= t < |s.threads| ==> s.threads[t].Idle? || Doomed(s.threads[t])
    ensures s.deletions == 1 ==> forall t :: 0 <= t < |s.threads| ==> s.threads[t].Idle?
    ensures s.holds == NoHolds()
  {
    TallyNone(s.threads, Active);
    TallyNone(s.threads, Counted);
    TallyNone(s.threads, Doomed);
    forall t | 0 <= t < |s.threads| ensures s.threads[t].Idle? || Doomed(s.threads[t]) {
      assert !Active(s.threads[t]) && !Counted(s.threads[t]);
    }
  }

  /** An orphan nobody holds and nobody is blocked on is not left behind: the
      thread that deletes it is on its way or has already done so. */
  lemma OrphanIsDeleted(n: nat, schedule: seq<Label>)
    requires After(n, schedule).Some?
    requires var s := After(n, schedule).value;
             s.shared.orphaned && s.holds == NoHolds() && s.shared.blocked == 0
    ensures var s := After(n, schedule).value;
            s.deletions == 1 || exists t | 0 <= t < |s.threads| :: Doomed(s.threads[t])
  {
    ReachableInv(n, schedule);
    TallyNone(After(n, schedule).value.threads, Doomed);
  }

  // ------------------------- the answer of a section, by what the clients hold

  /** Somebody holds with another accessor. */
  ghost predicate Foreign(holds: Ledger, c: Accessor) { exists a: Accessor :: a != c && holds.Of(a) > 0 }

  /** The section gives up the last hold there is. */
  predicate GivesLast(holds: Ledger, op: Op) {
    match op
    case Unlock(_) => holds.Total() == 1
    case UnlockAll(r) => holds.Of(r) > 0
    case Exchange(r, _) => holds.Of(r) > 0
    case _ => false
  }

  /** What a client may expect of its call: to wait while another accessor is in use, to
      delete an orphan that nobody waits for any more, and otherwise to be served. */
  ghost function Answer(s: System, op: Op): Outcome {
    if s.shared.blocked == 0 &&
       ((GivesLast(s.holds, op) && s.shared.orphaned) || (op.Destruct? && s.holds == NoHolds()))
    then Delete
    else
      match op
      case Lock(c) => if Foreign(s.holds, c) then Wait(c) else Return
      case Resume(c) => if Foreign(s.holds, c) then Wait(c) else Return
      case Exchange(r, c) => if Foreign(s.holds.With(r, 0), c) then Wait(c) else Return
      case _ => Return
  }

  lemma ForeignIff(shared: Shared, holds: Ledger, c: Accessor)
    requires Agrees(shared, holds)
    ensures Foreign(holds, c) <==> shared.count > 0 && shared.accessor != c
  {
    if shared.count > 0 && shared.accessor != c {
      assert holds.Of(shared.accessor) > 0;
    }
  }

  /** The section of every call ends as the ledger says, signals exactly when the last
      hold goes while threads are blocked, and counts exactly the threads it sends to
      wait. */
  lemma AnswerByLedger(n: nat, schedule: seq<Label>, l: Label)
    requires After(n, schedule).Some? && Possible(After(n, schedule).value, l)
    requires After(n, schedule).value.threads[l.thread].Inside?
    ensures var (s, s', op) := (After(n, schedule).value, Step(After(n, schedule).value, l),
                                After(n, schedule).value.threads[l.thread].op);
            && s'.threads[l.thread] == Leaving(Answer(s, op))
            && (s'.shared.signaled <==> s.shared.signaled || (GivesLast(s.holds, op) && s.shared.blocked > 0))
            && s'.shared.blocked == s.shared.blocked - (if op.Resume? then 1 else 0)
                                    + (if Answer(s, op).Wait? then 1 else 0)
            && (s'.shared.orphaned <==> s.shared.orphaned || (op.Destruct? && Answer(s, op) != Delete))
  {
    ReachableInv(n, schedule);
    var s := After(n, schedule).value;
    AnswerOf(s, l);
  }

  lemma AnswerOf(s: System, l: Label)
    requires Inv(s) && Possible(s, l) && s.threads[l.thread].Inside?
    ensures var (s', op) := (Step(s, l), s.threads[l.thread].op);
            && s'.threads[l.thread] == Leaving(Answer(s, op))
            && (s'.shared.signaled <==> s.shared.signaled || (GivesLast(s.holds, op) && s.shared.blocked > 0))
            && s'.shared.blocked == s.shared.blocked - (if op.Resume? then 1 else 0)
                                    + (if Answer(s, op).Wait? then 1 else 0)
            && (s'.shared.orphaned <==> s.shared.orphaned || (op.Destruct? && Answer(s, op) != Delete))
  {
    var op := s.threads[l.thread].op;
    SectionAnswer(s, op);
  }

  /** The same of the section alone. */
  lemma SectionAnswer(s: System, op: Op)
    requires Agrees(s.shared, s.holds) && s.shared.blocked >= 0
    ensures var effect := Section(s.shared, op);
            && effect.outcome == Answer(s, op)
            && (effect.shared.signaled <==> s.shared.signaled || (GivesLast(s.holds, op) && s.shared.blocked > 0))
            && effect.shared.blocked == s.shared.blocked - (if op.Resume? then 1 else 0)
                                        + (if Answer(s, op).Wait? then 1 else 0)
            && (effect.shared.orphaned <==> s.shared.orphaned || (op.Destruct? && Answer(s, op) != Delete))
  {
    match op
    case Lock(c) => ForeignIff(s.shared, s.holds, c);
    case Resume(c) => ForeignIff(s.shared, s.holds, c);
    case Exchange(r, c) =>
      RelinquishAgrees(s.shared, s.holds, r);
      ForeignIff(L.Relinquish(s.shared, r).shared, s.holds.With(r, 0), c);
    case _ =>
  }

  // ------------------------------------------------- a wakeup leads to a hold

  /** The system after `k` more steps, all of them thread `t`'s. */
  function Alone(s: System, t: nat, k: nat): Option<System>
    decreases k
  {
    if k == 0 then Some(s)
    else if Enabled(s, Label(t, Destruct)) then Alone(Step(s, Label(t, Destruct)), t, k - 1)
    else None
  }

  function Repeat(t: nat, k: nat): seq<Label> { seq(k, i => Label(t, Destruct)) }

  lemma OneStepMore(n: nat, schedule: seq<Label>, l: Label)
    requires After(n, schedule).Some? && Enabled(After(n, schedule).value, l)
    ensures After(n, schedule + [l]) == Some(Step(After(n, schedule).value, l))
  {
    assert (schedule + [l])[..|schedule + [l]| - 1] == schedule;
  }

  lemma RepeatOnce(schedule: seq<Label>, t: nat, k: nat)
    requires k > 0
    ensures schedule + [Label(t, Destruct)] + Repeat(t, k - 1) == schedule + Repeat(t, k)
  {
  }

  lemma {:induction false} AloneIsSchedule(n: nat, schedule: seq<Label>, t: nat, k: nat)
    requires After(n, schedule).Some? && Alone(After(n, schedule).value, t, k).Some?
    ensures After(n, schedule + Repeat(t, k)) == Alone(After(n, schedule).value, t, k)
    decreases k
  {
    if k == 0 {
      assert schedule + Repeat(t, k) == schedule;
    } else {
      OneStepMore(n, schedule, Label(t, Destruct));
      AloneIsSchedule(n, schedule + [Label(t, Destruct)], t, k - 1);
      RepeatOnce(schedule, t, k);
    }
  }

  /** `s'` is `s` with one blocked thread turned into the only holder. */
  predicate Granted(s: System, s': Option<System>, claimer: Accessor) {
    s'.Some? && s'.value.holds == NoHolds().Plus(claimer) && s'.value.shared.blocked == s.shared.blocked - 1
  }

  /** A woken thread has at most its read, its exchange and its section left. */
  lemma WokenIsGranted(s: System, t: nat) returns (k: nat)
    requires s.mutex == 0 && s.shared.count == 0 && s.holds == NoHolds() && |s.owned| == |s.threads|
    requires t < |s.threads| && Woken(s.threads[t]) && !s.threads[t].Inside?
    ensures k <= 3 && Granted(s, Alone(s, t, k), s.threads[t].op.claimer)
  {
    var l := Label(t, Destruct);
    var c := s.threads[t].op.claimer;
    var swapping := if s.threads[t].Testing? then Step(s, l) else s;
    assert swapping.threads[t] == Swapping(Resume(c));
    var inside := Step(swapping, l);
    assert inside.threads[t] == Inside(Resume(c));
    var done := Step(inside, l);
    assert Alone(inside, t, 1) == Some(done) by { assert Alone(done, t, 0) == Some(done); }
    assert Alone(swapping, t, 2) == Some(done);
    assert done.holds == NoHolds().Plus(c);
    k := if s.threads[t].Testing? then 3 else 2;
  }

  lemma BlockedIsGranted(s: System) returns (t: nat, k: nat, claimer: Accessor)
    requires Inv(s) && s.mutex == 0 && s.shared.count == 0 && s.shared.blocked > 0
    ensures t < |s.threads| && Counted(s.threads[t])
    ensures k <= 4 && Granted(s, Alone(s, t, k), claimer)
  {
    TallyNone(s.threads, InSection);
    TallyNone(s.threads, Counted);
    TallyNone(s.threads, Woken);
    assert s.holds == NoHolds();
    if i :| 0 <= i < |s.threads| && Woken(s.threads[i]) {
      t, claimer := i, s.threads[i].op.claimer;
      assert !InSection(s.threads[i]);
      k := WokenIsGranted(s, t);
    } else {
      t :| t < |s.threads| && Counted(s.threads[t]);
      assert !InSection(s.threads[t]);
      claimer := s.threads[t].claimer;
      var woken := Step(s, Label(t, Destruct));
      var j := WokenIsGranted(woken, t);
      k := j + 1;
      assert Alone(s, t, k) == Alone(woken, t, j);
    }
  }

  /** From every reachable state in which the lock is free, no hold is left and
      a thread is blocked, some blocked thread gets its hold with at most four
      steps of its own and none of anybody else. */
  lemma BlockedCanProceed(n: nat, schedule: seq<Label>) returns (t: nat, k: nat, claimer: Accessor)
    requires After(n, schedule).Some?
    requires var s := After(n, schedule).value;
             s.mutex == 0 && s.shared.count == 0 && s.shared.blocked > 0
    ensures var s := After(n, schedule).value;
            && t < |s.threads| && Counted(s.threads[t])
            && k <= 4
            && Granted(s, After(n, schedule + Repeat(t, k)), claimer)
  {
    ReachableInv(n, schedule);
    t, k, claimer := BlockedIsGranted(After(n, schedule).value);
    AloneIsSchedule(n, schedule, t, k);
  }

  /** Calls that may drop the last hold. */
  predicate Releases(op: Op) { op.Unlock? || op.UnlockAll? || op.Exchange? }

  predicate InCall(t: Thread) { t.Testing? || t.Swapping? || t.Inside? }

  /** A wait does not end before somebody enters a call that may drop the last hold. */
  lemma {:induction false} NoneWokenWithoutRelease(n: nat, schedule: seq<Label>)
    requires Anyhow(n, schedule).Some? && forall k :: 0 <= k < |schedule| ==> !Releases(schedule[k].op)
    ensures var s := Anyhow(n, schedule).value;
            && !s.shared.signaled && (forall t <- s.threads :: !Woken(t))
            && (forall t <- s.threads :: InCall(t) ==> !Releases(t.op))
    decreases |schedule|
  {
    if schedule != [] {
      var (init, last) := (schedule[..|schedule| - 1], schedule[|schedule| - 1]);
      NoneWokenWithoutRelease(n, init);
      QuietStep(Anyhow(n, init).value, last);
    }
  }

  lemma QuietStep(s: System, l: Label)
    requires Possible(s, l) && !Releases(l.op) && !s.shared.signaled
    requires forall t <- s.threads :: !Woken(t) && (InCall(t) ==> !Releases(t.op))
    ensures !Step(s, l).shared.signaled
    ensures forall t <- Step(s, l).threads :: !Woken(t) && (InCall(t) ==> !Releases(t.op))
  {
    var t := s.threads[l.thread];
    assert !Woken(t) && (InCall(t) ==> !Releases(t.op));
  }

  /** A signal ends one wait: a thread that still waits must be signalled again. */
  lemma SignalWakesOne(s: System, l: Label, other: Label)
    requires Possible(s, l) && Possible(s, other) && l.thread != other.thread
    requires s.threads[l.thread].Waiting? && s.threads[other.thread].Waiting?
    ensures !Possible(Step(s, l), other) && Step(s, l).threads[other.thread].Waiting?
  {
  }

  /** Before destruct is called, anybody may enter lock at any time. */
  lemma LockIsFree(s: System, t: nat, c: Accessor)
    requires Respected(s) && t < |s.threads| && s.threads[t].Idle? && !s.destructCalled
    ensures Enabled(s, Label(t, Lock(c)))
  {
    var s' := Step(s, Label(t, Lock(c)));
    forall j: nat | j < |s'.threads| ensures Backed(s', j) {
      assert Backed(s, j);
    }
    forall i: nat, j: nat | i < |s'.threads| && j < |s'.threads| ensures Undisturbed(s', i, j) {
      assert Undisturbed(s, i, j);
    }
  }

  /** Destruct needs no hold. */
  lemma MayDestruct(s: System, t: nat)
    requires Respected(s) && t < |s.threads| && s.threads[t].Idle? && !s.destructCalled
    requires forall j :: 0 <= j < |s.threads| ==> !Calling(s.threads[j])
    ensures Enabled(s, Label(t, Destruct))
  {
  }

  /** Before destruct is called, an accessor may be relinquished while others unlock, as
      long as they hold nothing for it. */
  lemma MayRelinquish(s: System, t: nat, a: Accessor)
    requires Respected(s) && t < |s.threads| && s.threads[t].Idle? && !s.destructCalled
    requires forall j: nat :: j < |s.threads| && Calling(s.threads[j]) ==> s.owned[j].Of(a) == 0
    ensures Enabled(s, Label(t, UnlockAll(a)))
  {
    var s' := Step(s, Label(t, UnlockAll(a)));
    forall j: nat | j < |s'.threads| ensures Backed(s', j) {
      assert Backed(s, j);
    }
    forall i: nat, j: nat | i < |s'.threads| && j < |s'.threads| ensures Undisturbed(s', i, j) {
      assert Undisturbed(s, i, j);
    }
  }

  /** Whoever answers for a hold may hand it on when no call is in flight. */
  lemma HolderMayHand(s: System, t: nat, to: nat, a: Accessor)
    requires Respected(s) && t < |s.threads| && to < |s.threads| && s.threads[t].Idle? && s.owned[t].Of(a) > 0
    requires forall j :: 0 <= j < |s.threads| ==> !Calling(s.threads[j])
    ensures Enabled(s, Label(t, Hand(to, a)))
  {
  }

  /** The obligations leave room for work: whoever answers for a hold may lock again or give
      the hold up, also after `destruct`, when no other call is in flight. */
  lemma HolderMayEnter(s: System, t: nat, op: Op)
    requires Respected(s) && t < |s.threads| && s.threads[t].Idle? && s.owned[t].Total() > 0
    requires op.Lock? || (op.Unlock? && s.owned[t].Of(op.held) > 0)
    requires forall j :: 0 <= j < |s.threads| ==> !Calling(s.threads[j])
    ensures Enabled(s, Label(t, op))
  {
    var s' := Step(s, Label(t, op));
    forall j: nat | j < |s'.threads| ensures Backed(s', j) {
      assert j != t ==> !Calling(s'.threads[j]);
    }
    forall i: nat, j: nat | i < |s'.threads| && j < |s'.threads| ensures Undisturbed(s', i, j) {
      assert i != t ==> !Calling(s'.threads[i]);
    }
  }
}
