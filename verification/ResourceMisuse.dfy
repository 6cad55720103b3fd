/** What happens without the clients' obligations: exactly when a call in flight goes on
    to use the resource after its deletion. */
module ResourceMisuse {
  import opened L = ResourceLock
  import opened ResourceSystem
  import opened ResourceInvariant
  import opened ResourceTheorems

  /** A step of a thread that is in a call on the resource after its deletion. */
  predicate Touches(s: System, l: Label) {
    Possible(s, l) && s.deletions > 0 && !s.threads[l.thread].Idle?
  }

  /** The system after more steps of the calls in flight, with no new ones. */
  function Carry(s: System, steps: seq<Label>): Option<System>
    decreases |steps|
  {
    if steps == [] then Some(s)
    else if Possible(s, steps[0]) && !s.threads[steps[0].thread].Idle? then Carry(Step(s, steps[0]), steps[1..])
    else None
  }

  /** The first section that decides a deletion. */
  predicate Decides(s: System, l: Label) {
    && Possible(s, l) && s.threads[l.thread].Inside?
    && Section(s.shared, s.threads[l.thread].op).outcome.Delete?
    && s.deletions == 0 && Tally(s.threads, Doomed) == 0
  }

  /** Of the threads, only `t` is in a call, and it is on its way to the deletion,
      or has done it. */
  predicate OnlyDeleting(s: System, t: nat) {
    && t < |s.threads|
    && (forall j :: 0 <= j < |s.threads| && j != t ==> s.threads[j].Idle?)
    && (s.threads[t].Idle? || (s.deletions == 0 && Doomed(s.threads[t])))
  }

  /** Where a deletion is decided the others are outside every call or about to run
      a section that is not a return from a wait. */
  lemma OthersAtDecision(s: System, l: Label, j: nat)
    requires Exclusive(s) && BlockedCounted(s) && Decides(s, l)
    requires j < |s.threads| && j != l.thread
    ensures var t := Step(s, l).threads[j]; t.Idle? || (Calling(t) && !t.Inside?)
  {
    var s' := Step(s, l);
    StepKeepsExclusive(s, l);
    StepKeepsBlocked(s, l);
    SectionDeletes(s.shared, s.threads[l.thread].op);
    TallyNone(s'.threads, Counted);
    TallyNone(s.threads, Doomed);
    assert !Counted(s'.threads[j]) && !Doomed(s.threads[j]);
    if InSection(s'.threads[j]) {
      TallyUnique(s'.threads, InSection, j, l.thread);
    }
  }

  lemma SectionDeletes(shared: Shared, op: Op)
    requires Section(shared, op).outcome.Delete?
    ensures Section(shared, op).shared.blocked == 0
  {
  }

  lemma CallerTouches(s: System, l: Label, j: nat) returns (steps: seq<Label>, last: Label)
    requires Exclusive(s) && BlockedCounted(s) && Decides(s, l)
    requires j < |s.threads| && Calling(Step(s, l).threads[j])
    ensures Carry(Step(s, l), steps).Some? && Touches(Carry(Step(s, l), steps).value, last)
  {
    var s1 := Step(s, l);
    assert j != l.thread;
    var (k, s2) := (Label(l.thread, Destruct), Step(s1, Label(l.thread, Destruct)));
    var s3 := Step(s2, k);
    steps, last := [k, k], Label(j, Destruct);
    assert [k, k][1..] == [k] && [k][1..] == [];
    assert Carry(s3, []) == Some(s3);
    assert Carry(s2, [k]) == Carry(s3, []);
    assert Carry(s1, steps) == Carry(s2, [k]);
  }

  lemma {:induction false} NobodyTouches(s: System, t: nat, steps: seq<Label>, last: Label)
    requires OnlyDeleting(s, t) && Carry(s, steps).Some?
    ensures !Touches(Carry(s, steps).value, last)
    decreases |steps|
  {
    if steps != [] {
      NobodyTouches(Step(s, steps[0]), t, steps[1..], last);
    }
  }

  /** The exact condition, whatever the clients do: a call in flight goes on to use
      the deleted resource if and only if, at the section that decides the deletion,
      some other thread is in a call and is not on its way back from a wait. */
  lemma TouchedIffCalling(n: nat, schedule: seq<Label>, l: Label)
    requires Anyhow(n, schedule).Some? && Decides(Anyhow(n, schedule).value, l)
    ensures var s := Step(Anyhow(n, schedule).value, l);
            (exists steps, last :: Carry(s, steps).Some? && Touches(Carry(s, steps).value, last))
            <==> (exists j: nat :: j < |s.threads| && Calling(s.threads[j]))
  {
    AnyhowInv(n, schedule);
    var before := Anyhow(n, schedule).value;
    var s := Step(before, l);
    if j: nat :| j < |s.threads| && Calling(s.threads[j]) {
      var steps, last := CallerTouches(before, l, j);
    } else {
      forall j | 0 <= j < |s.threads| && j != l.thread ensures s.threads[j].Idle? {
        OthersAtDecision(before, l, j);
      }
      forall steps, last | Carry(s, steps).Some? ensures !Touches(Carry(s, steps).value, last) {
        NobodyTouches(s, l.thread, steps, last);
      }
    }
  }

  /** Under the obligations the condition never arises. */
  lemma ObligedNeverTouch(n: nat, schedule: seq<Label>, l: Label)
    requires After(n, schedule).Some? && Decides(After(n, schedule).value, l)
    ensures forall j: nat :: j < |Step(After(n, schedule).value, l).threads| ==>
              !Calling(Step(After(n, schedule).value, l).threads[j])
  {
    ReachableInv(n, schedule);
    var s := After(n, schedule).value;
    DoomedAlone(s, l);
    TallyNone(Step(s, l).threads, Active);
    forall j: nat | j < |s.threads| ensures !Calling(Step(s, l).threads[j]) {
      assert !Active(Step(s, l).threads[j]);
    }
  }

  /** A schedule that breaks them: one thread enters `lock` without a hold, then
      another runs `destruct` to its end. */
  function LateLock(k: nat): seq<Label> {
    if k == 0 then [Label(0, Lock(PUBLIC))] else LateLock(k - 1) + [Label(1, Destruct)]
  }

  lemma LateStep(k: nat, before: System, s: System)
    requires Anyhow(2, LateLock(k)) == Some(before)
    requires Possible(before, Label(1, Destruct)) && s == Step(before, Label(1, Destruct))
    ensures Anyhow(2, LateLock(k + 1)) == Some(s)
  {
    assert LateLock(k + 1)[..|LateLock(k + 1)| - 1] == LateLock(k);
  }

  /** The other thread after `k` of its steps. */
  function LateThread(k: nat): Thread {
    match k
    case 0 => Idle
    case 1 => Testing(Destruct)
    case 2 => Swapping(Destruct)
    case 3 => Inside(Destruct)
    case 4 => Leaving(Delete)
    case 5 => Deleting
    case _ => Idle
  }

  ghost predicate LateState(s: System, k: nat) {
    && s.threads == [Testing(Lock(PUBLIC)), LateThread(k)] && |s.owned| == 2
    && (k <= 3 ==> s.shared == Initial()) && (k <= 2 ==> s.mutex == 0)
    && s.deletions == if k < 6 then 0 else 1
  }

  lemma LateNext(s: System, k: nat)
    requires LateState(s, k) && k < 6
    ensures Possible(s, Label(1, Destruct)) && LateState(Step(s, Label(1, Destruct)), k + 1)
  {
  }

  lemma {:induction false} LateRun(k: nat)
    requires k <= 6
    ensures Anyhow(2, LateLock(k)).Some? && LateState(Anyhow(2, LateLock(k)).value, k)
  {
    if k == 0 {
      assert LateLock(0)[..0] == [];
      assert Anyhow(2, []) == Some(Start(2));
      assert Anyhow(2, LateLock(0)) == Some(Step(Start(2), Label(0, Lock(PUBLIC))));
    } else {
      LateRun(k - 1);
      var s := Anyhow(2, LateLock(k - 1)).value;
      LateNext(s, k - 1);
      LateStep(k - 1, s, Step(s, Label(1, Destruct)));
    }
  }

  /** The thread is still at its first access when the resource is gone. */
  lemma LateLockTouches()
    ensures Anyhow(2, LateLock(6)).Some?
    ensures Anyhow(2, LateLock(6)).value.deletions == 1
    ensures Anyhow(2, LateLock(6)).value.threads[0] == Testing(Lock(PUBLIC))
    ensures Touches(Anyhow(2, LateLock(6)).value, Label(0, Destruct))
  {
    LateRun(6);
  }

  /** The obligations refuse it where `destruct` is called: the caller of `lock` has
      no hold. */
  lemma LateLockRefused(k: nat)
    requires k > 0
    ensures After(2, LateLock(k)).None?
    decreases k
  {
    assert LateLock(k)[..|LateLock(k)| - 1] == LateLock(k - 1);
    if k > 1 {
      LateLockRefused(k - 1);
    } else if After(2, LateLock(0)).Some? {
      AfterIsPossible(2, LateLock(0));
      assert LateLock(0)[..0] == [] && Anyhow(2, []) == Some(Start(2));
      var s := After(2, LateLock(0)).value;
      assert s.threads[0] == Testing(Lock(PUBLIC)) && s.owned[0] == NoHolds() && s.threads[1].Idle?;
      var s' := Step(s, Label(1, Destruct));
      assert Relies(s', 0) && !Backed(s', 0);
    }
  }
}
