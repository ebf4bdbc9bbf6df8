/**
  The deletion that a failed backend reset makes without the lock
  (core/chain_indexer.go), overlapping one that a reorganisation makes under it.
  Every access to the section counter and to the database is a step of its own.
 */
module IndexerRaces {
  import opened Prelude

  /** Where a thread is in setValidSections; Guard is the test before the call.
      Store holds the counter it has read, Delete the section it will remove. */
  datatype Pc = Guard | Put | Test | Load | Store(read: nat) | Index | Delete(section: nat) | Write | Done

  datatype Race = Race(stored: nat, count: nat, heads: set<nat>, reset: Pc, reorg: Pc)

  /** 64-bit decrement. */
  function Dec(n: nat): nat {
    if n == 0 then WORD - 1 else n - 1
  }

  /** One step of a thread that cuts the sections to `target`. */
  function Turn(r: Race, pc: Pc, target: nat): (Race, Pc) {
    match pc
    case Guard => (r, if target < r.stored then Put else Done)
    case Put => (r.(count := target), Test)
    case Test => (r, if r.stored > target then Load else Write)
    case Load => (r, Store(r.stored))
    case Store(read) => (r.(stored := Dec(read)), Index)
    case Index => (r, Delete(r.stored))
    case Delete(section) => (r.(heads := r.heads - {section}), Test)
    case Write => (r.(stored := target), Done)
    case Done => (r, Done)
  }

  function ResetStep(r: Race): Race {
    var (r', pc) := Turn(r, r.reset, 0);
    r'.(reset := pc)
  }

  function ReorgStep(r: Race, changed: nat): Race {
    var (r', pc) := Turn(r, r.reorg, changed);
    r'.(reorg := pc)
  }

  /** The state after a schedule; `true` lets the reset move. */
  function After(r: Race, changed: nat, schedule: seq<bool>): Race
    decreases |schedule|
  {
    if schedule == [] then r
    else
      var last := After(r, changed, schedule[..|schedule| - 1]);
      if schedule[|schedule| - 1] then ResetStep(last) else ReorgStep(last, changed)
  }

  function Below(n: nat): (below: set<nat>)
    ensures forall s: nat :: s in below <==> s < n
  {
    if n == 0 then {} else Below(n - 1) + {n - 1}
  }

  /** Both threads are about to start on an index of `stored` sections. */
  function Overlap(stored: nat): Race {
    Race(stored, stored, Below(stored), Put, Guard)
  }

  /** Heads for exactly the counted sections, and the count in the database. */
  predicate Exact(r: Race) {
    r.heads == Below(r.stored) && r.count == r.stored
  }

  predicate Finished(r: Race) {
    r.reset == Done && r.reorg == Done
  }

  /** Each thread has had as many turns as the longer one needs when it runs alone. */
  predicate Served(stored: nat, schedule: seq<bool>) {
    multiset(schedule)[true] >= 5 * stored + 4 && multiset(schedule)[false] >= 5 * stored + 4
  }

  /** Whenever both threads are done the index is exact. */
  ghost predicate EndsExact(stored: nat, changed: nat) {
    forall schedule {:trigger After(Overlap(stored), changed, schedule)} ::
      Finished(After(Overlap(stored), changed, schedule)) ==> Exact(After(Overlap(stored), changed, schedule))
  }

  /** Neither thread holds up the other: both are done after the turns they need alone. */
  ghost predicate Ends(stored: nat, changed: nat) {
    forall schedule {:trigger After(Overlap(stored), changed, schedule)} ::
      Served(stored, schedule) ==> Finished(After(Overlap(stored), changed, schedule))
  }

  /** Under every schedule both threads end in time and leave the index exact, if
      and only if the reorganisation removes no section. */
  lemma OverlapIff(stored: nat, changed: nat)
    ensures Ends(stored, changed) && EndsExact(stored, changed) <==> changed >= stored
  {
    ExactIff(stored, changed);
    if changed >= stored {
      AloneEnds(stored, changed);
    } else if stored == 1 {
      WrappedLate(9);
    }
  }

  /** Schedules that end, end exact if and only if the reorganisation removes no
      section or there is at most one. */
  lemma ExactIff(stored: nat, changed: nat)
    ensures EndsExact(stored, changed) <==> stored <= 1 || changed >= stored
  {
    if stored <= 1 || changed >= stored {
      forall schedule
        ensures Finished(After(Overlap(stored), changed, schedule)) ==> Exact(After(Overlap(stored), changed, schedule))
      {
        if changed >= stored {
          StaysAlone(stored, changed, schedule);
        } else {
          StaysPaired(schedule);
        }
      }
    } else if changed == 0 {
      var schedule := LostHead(stored);
    } else {
      var schedule := LostCount(stored, changed);
    }
  }

  // ---------- a reorganisation that removes nothing ----------

  ghost predicate Alone(r: Race, changed: nat) {
    && (r.reorg == Guard || r.reorg == Done) && r.stored <= changed && (r.reset != Put ==> r.count == 0)
    && match r.reset
       case Put => r.heads == Below(r.stored)
       case Test => r.heads == Below(r.stored)
       case Load => r.stored > 0 && r.heads == Below(r.stored)
       case Store(read) => read == r.stored > 0 && r.heads == Below(r.stored)
       case Index => r.heads == Below(r.stored + 1)
       case Delete(section) => section == r.stored && r.heads == Below(r.stored + 1)
       case Write => r.stored == 0 && r.heads == {}
       case Done => r.stored == 0 && r.heads == {}
       case Guard => false
  }

  lemma AloneStep(r: Race, changed: nat)
    requires Alone(r, changed)
    ensures Alone(ResetStep(r), changed) && Alone(ReorgStep(r, changed), changed)
  {
    assert Below(r.stored + 1) - {r.stored} == Below(r.stored);
  }

  lemma {:induction false} StaysAlone(stored: nat, changed: nat, schedule: seq<bool>)
    requires changed >= stored
    ensures Alone(After(Overlap(stored), changed, schedule), changed)
    decreases |schedule|
  {
    if schedule != [] {
      var init := schedule[..|schedule| - 1];
      StaysAlone(stored, changed, init);
      AloneStep(After(Overlap(stored), changed, init), changed);
    }
  }

  /** How many steps the undisturbed reset still has to make. */
  function Left(r: Race): nat {
    match r.reset
    case Guard => 5 * r.stored + 4
    case Put => 5 * r.stored + 3
    case Test => 5 * r.stored + 2
    case Load => 5 * r.stored + 1
    case Store(_) => 5 * r.stored
    case Index => 5 * r.stored + 4
    case Delete(_) => 5 * r.stored + 3
    case Write => 1
    case Done => 0
  }

  lemma LeftStep(r: Race, changed: nat)
    requires Alone(r, changed)
    ensures Left(ResetStep(r)) == if Left(r) == 0 then 0 else Left(r) - 1
    ensures Left(ReorgStep(r, changed)) == Left(r) && ReorgStep(r, changed).reorg == Done
  {
  }

  lemma Counts(schedule: seq<bool>, who: bool)
    requires schedule != []
    ensures var init, last := schedule[..|schedule| - 1], schedule[|schedule| - 1];
      multiset(schedule)[who] == multiset(init)[who] + if last == who then 1 else 0
  {
    assert schedule == schedule[..|schedule| - 1] + [schedule[|schedule| - 1]];
  }

  lemma {:induction false} RunsDown(stored: nat, changed: nat, schedule: seq<bool>)
    requires changed >= stored
    ensures var r, turns := After(Overlap(stored), changed, schedule), multiset(schedule)[true];
      Left(r) == if turns > 5 * stored + 3 then 0 else 5 * stored + 3 - turns
    ensures multiset(schedule)[false] > 0 ==> After(Overlap(stored), changed, schedule).reorg == Done
    decreases |schedule|
  {
    if schedule != [] {
      var init := schedule[..|schedule| - 1];
      Counts(schedule, true);
      Counts(schedule, false);
      StaysAlone(stored, changed, init);
      RunsDown(stored, changed, init);
      LeftStep(After(Overlap(stored), changed, init), changed);
    }
  }

  lemma AloneEnds(stored: nat, changed: nat)
    requires changed >= stored
    ensures Ends(stored, changed)
  {
    forall schedule | Served(stored, schedule) ensures Finished(After(Overlap(stored), changed, schedule)) {
      StaysAlone(stored, changed, schedule);
      RunsDown(stored, changed, schedule);
    }
  }

  // ---------- one section, and a reorganisation that removes it ----------

  /** The thread is certain to remove section zero, unless the counter moves first. */
  predicate Removing(pc: Pc, stored: nat) {
    (pc == Index && stored == 0) || pc == Delete(0)
  }

  ghost predicate Settled(pc: Pc, other: Pc, r: Race) {
    (pc == Write || pc == Done) && 0 in r.heads ==> r.stored == 0 && Removing(other, r.stored)
  }

  /** The counter may have wrapped, but once it is zero the head is gone or about to go. */
  ghost predicate Paired(r: Race) {
    && r.heads <= {0} && r.reset != Guard && (r.reset != Put ==> r.count == 0)
    && Settled(r.reset, r.reorg, r) && Settled(r.reorg, r.reset, r)
    && (r.stored == 0 && 0 in r.heads ==> Removing(r.reset, 0) || Removing(r.reorg, 0))
    && (Finished(r) ==> r.stored == 0)
  }

  lemma {:induction false} StaysPaired(schedule: seq<bool>)
    ensures Paired(After(Overlap(1), 0, schedule))
    decreases |schedule|
  {
    if schedule != [] {
      StaysPaired(schedule[..|schedule| - 1]);
    } else {
      assert Below(1) == {0};
    }
  }

  // ---------- what goes wrong otherwise ----------

  lemma ThenReset(r: Race, changed: nat, schedule: seq<bool>)
    ensures After(r, changed, schedule + [true]) == ResetStep(After(r, changed, schedule))
  {
    assert (schedule + [true])[..|schedule|] == schedule;
  }

  lemma ThenReorg(r: Race, changed: nat, schedule: seq<bool>)
    ensures After(r, changed, schedule + [false]) == ReorgStep(After(r, changed, schedule), changed)
  {
    assert (schedule + [false])[..|schedule|] == schedule;
  }

  /** One turn of the reset's loop, undisturbed. */
  lemma ResetTurn(r: Race, changed: nat, schedule: seq<bool>) returns (schedule': seq<bool>)
    requires var s := After(r, changed, schedule); s.reset == Test && s.stored > 0
    ensures var s := After(r, changed, schedule);
      After(r, changed, schedule') == s.(stored := s.stored - 1, heads := s.heads - {s.stored - 1})
  {
    schedule' := schedule;
    ThenReset(r, changed, schedule');
    schedule' := schedule' + [true];
    ThenReset(r, changed, schedule');
    schedule' := schedule' + [true];
    ThenReset(r, changed, schedule');
    schedule' := schedule' + [true];
    ThenReset(r, changed, schedule');
    schedule' := schedule' + [true];
    ThenReset(r, changed, schedule');
    schedule' := schedule' + [true];
  }

  /** The reset, undisturbed, removes every section below the counter and finishes. */
  lemma {:induction false} Drain(r: Race, changed: nat, schedule: seq<bool>) returns (schedule': seq<bool>)
    requires After(r, changed, schedule).reset == Test
    ensures var s := After(r, changed, schedule);
      After(r, changed, schedule') == s.(stored := 0, heads := s.heads - Below(s.stored), reset := Done)
    decreases After(r, changed, schedule).stored
  {
    var s := After(r, changed, schedule);
    if s.stored == 0 {
      ThenReset(r, changed, schedule);
      schedule' := schedule + [true];
      ThenReset(r, changed, schedule');
      schedule' := schedule' + [true];
      assert s.heads - Below(0) == s.heads;
    } else {
      schedule' := ResetTurn(r, changed, schedule);
      schedule' := Drain(r, changed, schedule');
      assert s.heads - {s.stored - 1} - Below(s.stored - 1) == s.heads - Below(s.stored);
    }
  }

  /** The reorganisation passes its guard, the reset removes everything, and the
      reorganisation writes a count of sections that are gone. */
  lemma LostCount(stored: nat, changed: nat) returns (schedule: seq<bool>)
    requires 0 < changed < stored
    ensures After(Overlap(stored), changed, schedule) == Race(changed, changed, {}, Done, Done)
    ensures !Exact(After(Overlap(stored), changed, schedule))
  {
    var r := Overlap(stored);
    assert After(r, changed, []) == r;
    ThenReorg(r, changed, []);
    ThenReset(r, changed, [false]);
    assert [] + [false] == [false] && [false] + [true] == [false, true];
    schedule := Drain(r, changed, [false, true]);
    assert Below(stored) - Below(stored) == {};
    ThenReorg(r, changed, schedule);
    schedule := schedule + [false];
    ThenReorg(r, changed, schedule);
    schedule := schedule + [false];
    ThenReorg(r, changed, schedule);
    schedule := schedule + [false];
    assert 0 in Below(changed);
  }

  /** Both threads decrement before either removes a head: the last section's head
      is never removed. */
  lemma LostHead(stored: nat) returns (schedule: seq<bool>)
    requires stored >= 2
    ensures After(Overlap(stored), 0, schedule) == Race(0, 0, {stored - 1}, Done, Done)
    ensures !Exact(After(Overlap(stored), 0, schedule))
  {
    var r := Overlap(stored);
    schedule := BothDecrement(stored);
    ThenReorg(r, 0, schedule);
    schedule := schedule + [false];
    ThenReorg(r, 0, schedule);
    schedule := schedule + [false];
    ThenReset(r, 0, schedule);
    schedule := schedule + [true];
    ThenReset(r, 0, schedule);
    schedule := schedule + [true];
    schedule := Drain(r, 0, schedule);
    assert Below(stored) - {stored - 2} - {stored - 2} - Below(stored - 2) == {stored - 1};
    ThenReorg(r, 0, schedule);
    schedule := schedule + [false];
    ThenReorg(r, 0, schedule);
    schedule := schedule + [false];
  }

  /** Five steps of the reorganisation and then four of the reset. */
  lemma BothDecrement(stored: nat) returns (schedule: seq<bool>)
    requires stored >= 2
    ensures After(Overlap(stored), 0, schedule) == Race(stored - 2, 0, Below(stored), Index, Index)
  {
    var r := Overlap(stored);
    schedule := [];
    ThenReorg(r, 0, schedule);
    schedule := schedule + [false];
    ThenReorg(r, 0, schedule);
    schedule := schedule + [false];
    ThenReorg(r, 0, schedule);
    schedule := schedule + [false];
    ThenReorg(r, 0, schedule);
    schedule := schedule + [false];
    ThenReorg(r, 0, schedule);
    schedule := schedule + [false];
    ThenReset(r, 0, schedule);
    schedule := schedule + [true];
    ThenReset(r, 0, schedule);
    schedule := schedule + [true];
    ThenReset(r, 0, schedule);
    schedule := schedule + [true];
    ThenReset(r, 0, schedule);
    schedule := schedule + [true];
  }

  // ---------- the counter wraps ----------

  /** With one section the reorganisation tests the counter, the reset runs to its
      end, and the reorganisation decrements zero. */
  lemma Wrapped() returns (schedule: seq<bool>)
    ensures After(Overlap(1), 0, schedule) == Race(WORD - 1, 0, {}, Done, Index)
  {
    var r := Overlap(1);
    schedule := [];
    ThenReorg(r, 0, schedule);
    schedule := schedule + [false];
    ThenReorg(r, 0, schedule);
    schedule := schedule + [false];
    ThenReorg(r, 0, schedule);
    schedule := schedule + [false];
    ThenReset(r, 0, schedule);
    schedule := schedule + [true];
    schedule := Drain(r, 0, schedule);
    assert Below(1) - Below(1) == {};
    ThenReorg(r, 0, schedule);
    schedule := schedule + [false];
    ThenReorg(r, 0, schedule);
    schedule := schedule + [false];
  }

  /** The reorganisation is in its loop, and the counter is still far from zero. */
  ghost predicate Spinning(r: Race, steps: nat) {
    && r.reset == Done && r.stored + steps >= WORD - 1
    && match r.reorg
       case Test => true
       case Load => true
       case Store(read) => read + steps >= WORD - 1
       case Index => true
       case Delete(_) => true
       case _ => false
  }

  /** The wrapped counter keeps the reorganisation, which holds the lock, in its
      loop for any further 2^64 - 3 steps. */
  lemma {:induction false} Spins(schedule: seq<bool>, more: seq<bool>)
    requires After(Overlap(1), 0, schedule) == Race(WORD - 1, 0, {}, Done, Index) && |more| < WORD - 2
    ensures Spinning(After(Overlap(1), 0, schedule + more), |more|)
    ensures !Finished(After(Overlap(1), 0, schedule + more))
    decreases |more|
  {
    if more == [] {
      assert schedule + more == schedule;
    } else {
      var init := more[..|more| - 1];
      Spins(schedule, init);
      assert (schedule + more)[..|schedule + more| - 1] == schedule + init;
    }
  }

  /** After the wrap no fair share of turns is enough. */
  lemma WrappedLate(turns: nat)
    requires 9 <= turns < WORD / 4
    ensures !Ends(1, 0)
  {
    var more := Alternating(turns);
    var schedule := Wrapped();
    AlternatingServes(turns);
    Spins(schedule, more);
    ServedLonger(1, schedule, more);
    assert !Finished(After(Overlap(1), 0, schedule + more));
  }

  function Alternating(n: nat): seq<bool> {
    if n == 0 then [] else Alternating(n - 1) + [true, false]
  }

  lemma {:induction false} AlternatingServes(n: nat)
    ensures |Alternating(n)| == 2 * n
    ensures multiset(Alternating(n))[true] == n && multiset(Alternating(n))[false] == n
  {
    if n > 0 {
      AlternatingServes(n - 1);
    }
  }

  lemma ServedLonger(stored: nat, schedule: seq<bool>, more: seq<bool>)
    requires Served(stored, more)
    ensures Served(stored, schedule + more)
  {
    assert multiset(schedule + more) == multiset(schedule) + multiset(more);
  }
}
