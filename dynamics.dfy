/** The estimate recurrence over many meetings. When no agent is put off by
    peers (every sensitivity is non-negative), attendance starting from
    "everyone" can only fall, and it has settled by the meeting whose number
    is the population size. */
module Dynamics {
  import opened Agents
  import opened Meetings

  ghost predicate NonNegativeSensitivities(agents: seq<Agent>)
  {
    forall i :: 0 <= i < |agents| ==> agents[i].s >= 0.0
  }

  /** A larger estimate draws at least as many attendees. */
  lemma StepMonotone(agents: seq<Agent>, lo: nat, hi: nat)
    requires NonNegativeSensitivities(agents) && lo <= hi
    ensures Step(agents, lo) <= Step(agents, hi)
  {
    var dLo, dHi := Decisions(agents, lo), Decisions(agents, hi);
    forall i | 0 <= i < |agents| ensures dLo[i] ==> dHi[i] {
      ComesInPersonMonotone(agents[i], lo, hi);
    }
    CountMonotone(dLo, dHi);
  }

  /** Starting from everyone, each meeting has at most as many in-person
      attendees as the one before. */
  lemma {:induction false} AttendanceNeverRises(agents: seq<Agent>, k: nat)
    requires NonNegativeSensitivities(agents)
    ensures Run(agents, |agents|, k + 1) <= Run(agents, |agents|, k)
  {
    var n := |agents|;
    RunLagsOneMeeting(agents, n, k);
    if k == 0 {
      StepCountsAttendees(agents, n);
    } else {
      AttendanceNeverRises(agents, k - 1);
      RunLagsOneMeeting(agents, n, k - 1);
      StepMonotone(agents, Run(agents, n, k), Run(agents, n, k - 1));
    }
  }

  /** After `k` meetings the estimate is either a fixed point of the
      recurrence or at least `k` below the population size. */
  lemma {:induction false} SettledOrFalling(agents: seq<Agent>, k: nat)
    requires NonNegativeSensitivities(agents)
    ensures Step(agents, Run(agents, |agents|, k)) == Run(agents, |agents|, k)
            || Run(agents, |agents|, k) + k <= |agents|
  {
    var n := |agents|;
    if k > 0 {
      var before, now := Run(agents, n, k - 1), Run(agents, n, k);
      SettledOrFalling(agents, k - 1);
      RunLagsOneMeeting(agents, n, k - 1);
      AttendanceNeverRises(agents, k - 1);
      assert now == Step(agents, before) && now <= before;
      if Step(agents, before) == before {
        assert Step(agents, now) == now;
      } else {
        assert before + (k - 1) <= n && now < before;
      }
    }
  }

  /** Once the estimate is a fixed point it never changes again. */
  lemma {:induction false} FixedPointPersists(agents: seq<Agent>, estimate: nat, m: nat)
    requires Step(agents, estimate) == estimate
    ensures Run(agents, estimate, m) == estimate
    decreases m
  {
    if m > 0 {
      FixedPointPersists(agents, estimate, m - 1);
    }
  }

  /** With non-negative sensitivities, the attendance of every meeting from
      number `|agents|` on is the same fixed point of the recurrence. */
  lemma SettlesWithinPopulation(agents: seq<Agent>, k: nat)
    requires NonNegativeSensitivities(agents) && k >= |agents|
    ensures Step(agents, Run(agents, |agents|, |agents|)) == Run(agents, |agents|, |agents|)
    ensures Run(agents, |agents|, k) == Run(agents, |agents|, |agents|)
  {
    var n := |agents|;
    var settled := Run(agents, n, n);
    SettledOrFalling(agents, n);
    AttendanceNeverRises(agents, n);
    RunLagsOneMeeting(agents, n, n);
    RunSplit(agents, n, n, k - n);
    FixedPointPersists(agents, settled, k - n);
  }

  /** Running `j` meetings and then `m` more is running `j + m`. */
  lemma {:induction false} RunSplit(agents: seq<Agent>, estimate: nat, j: nat, m: nat)
    ensures Run(agents, estimate, j + m) == Run(agents, Run(agents, estimate, j), m)
    decreases j
  {
    if j > 0 {
      RunSplit(agents, Step(agents, estimate), j - 1, m);
    }
  }

  /** For a sequence object: once it has held as many meetings as it has
      agents (all with non-negative sensitivity), holding another meeting
      leaves its estimate where it is. */
  lemma SequenceHasSettled(ms: MeetingSequence)
    requires ms.Valid() && NonNegativeSensitivities(ms.agents)
    requires ms.meetingsHeld >= |ms.agents|
    ensures Step(ms.agents, ms.attendanceEstimate) == ms.attendanceEstimate
  {
    SettlesWithinPopulation(ms.agents, ms.meetingsHeld);
  }

  /** Without the sign condition attendance need not settle: starting from
      estimate 1, one agent put off by peers stays away from every
      odd-numbered meeting and comes to every even-numbered one, for ever. */
  lemma {:induction false} NegativeSensitivityOscillates(k: nat)
    ensures Run([Agent(-1.0, -0.5)], 1, 2 * k) == 1
    ensures Run([Agent(-1.0, -0.5)], 1, 2 * k + 1) == 0
    decreases k
  {
    var agents := [Agent(-1.0, -0.5)];
    assert Step(agents, 1) == 0;
    assert Step(agents, 0) == 1;
    if k > 0 {
      NegativeSensitivityOscillates(k - 1);
      RunLagsOneMeeting(agents, 1, 2 * k - 1);
      RunLagsOneMeeting(agents, 1, 2 * k);
    }
  }
}
