/** One meeting of a sequence: every agent decides with the shared estimate,
    the in-person attendees are counted, every agent is paid against that
    count, and the count becomes the next estimate. */
module Meetings {
  import opened Agents

  /** Every agent's decision under the shared estimate, in agent order. */
  function Decisions(agents: seq<Agent>, estimate: nat): (d: seq<bool>)
    ensures |d| == |agents|
    ensures forall i :: 0 <= i < |d| ==> d[i] == agents[i].ComesInPerson(estimate)
  {
    seq(|agents|, i requires 0 <= i < |agents| => agents[i].ComesInPerson(estimate))
  }

  /** The number of `true` entries of `choices`. */
  function CountInPerson(choices: seq<bool>): (n: nat)
    ensures n <= |choices|
  {
    if choices == [] then 0
    else
      var last := |choices| - 1;
      CountInPerson(choices[..last]) + (if choices[last] then 1 else 0)
  }

  /** The count agrees with the number of occurrences of `true`. */
  lemma {:induction false} CountIsOccurrences(choices: seq<bool>)
    ensures CountInPerson(choices) == multiset(choices)[true]
  {
    if choices != [] {
      var last := |choices| - 1;
      CountIsOccurrences(choices[..last]);
      assert choices == choices[..last] + [choices[last]];
      assert multiset(choices) == multiset(choices[..last]) + multiset{choices[last]};
    }
  }

  /** The count is full exactly when every choice is `true`, and zero
      exactly when none is. */
  lemma {:induction false} CountFullOrEmpty(choices: seq<bool>)
    ensures CountInPerson(choices) == |choices| <==> forall i :: 0 <= i < |choices| ==> choices[i]
    ensures CountInPerson(choices) == 0 <==> forall i :: 0 <= i < |choices| ==> !choices[i]
  {
    if choices != [] {
      var last := |choices| - 1;
      CountFullOrEmpty(choices[..last]);
      assert forall i :: 0 <= i < last ==> choices[..last][i] == choices[i];
    }
  }

  /** Turning some choices from absent to present never lowers the count. */
  lemma {:induction false} CountMonotone(c1: seq<bool>, c2: seq<bool>)
    requires |c1| == |c2|
    requires forall i :: 0 <= i < |c1| ==> c1[i] ==> c2[i]
    ensures CountInPerson(c1) <= CountInPerson(c2)
  {
    if c1 != [] {
      var last := |c1| - 1;
      CountMonotone(c1[..last], c2[..last]);
    }
  }

  /** The realised in-person count of a meeting held with `estimate`, which
      is also the estimate the next meeting starts from. */
  function Step(agents: seq<Agent>, estimate: nat): (n: nat)
    ensures n <= |agents|
  {
    CountInPerson(Decisions(agents, estimate))
  }

  /** The in-person count is the number of agents that decided, with the
      pre-meeting estimate, to come. The bound is restated for callers from
      `Step`. */
  lemma StepCountsAttendees(agents: seq<Agent>, estimate: nat)
    ensures Step(agents, estimate) <= |agents|
    ensures Step(agents, estimate)
            == multiset(Decisions(agents, estimate))[true]
    ensures Step(agents, estimate) == |agents| <==>
            forall i :: 0 <= i < |agents| ==> agents[i].ComesInPerson(estimate)
    ensures Step(agents, estimate) == 0 <==>
            forall i :: 0 <= i < |agents| ==> !agents[i].ComesInPerson(estimate)
  {
    CountIsOccurrences(Decisions(agents, estimate));
    CountFullOrEmpty(Decisions(agents, estimate));
  }

  /** The summed payoffs of `agents` under the given choices, every agent
      paid against the realised count `np`. */
  function TotalUtility(agents: seq<Agent>, choices: seq<bool>, np: nat): (u: real)
    requires |choices| == |agents|
    ensures u <= HindsightTotal(agents, np)
  {
    if agents == [] then 0.0
    else
      var last := |agents| - 1;
      TotalUtility(agents[..last], choices[..last], np)
        + agents[last].ComputeUtility(np, choices[last])
  }

  /** The summed best-of-both payoffs (see BestUtility) against count `np`. */
  function HindsightTotal(agents: seq<Agent>, np: nat): (h: real)
  {
    if agents == [] then 0.0
    else
      var last := |agents| - 1;
      HindsightTotal(agents[..last], np) + BestUtility(agents[last], np)
  }

  /** The total a meeting held with `estimate` returns: every agent's
      payoff under its own decision, against the realised count. */
  function RoundUtility(agents: seq<Agent>, estimate: nat): (u: real)
    ensures u <= HindsightTotal(agents, Step(agents, estimate))
  {
    TotalUtility(agents, Decisions(agents, estimate), Step(agents, estimate))
  }

  /** The total is a sum over agents: the totals of two groups add up. */
  lemma {:induction false} TotalUtilityAppend(a1: seq<Agent>, c1: seq<bool>,
                                              a2: seq<Agent>, c2: seq<bool>, np: nat)
    requires |c1| == |a1| && |c2| == |a2|
    ensures TotalUtility(a1 + a2, c1 + c2, np)
            == TotalUtility(a1, c1, np) + TotalUtility(a2, c2, np)
  {
    if a2 != [] {
      var last := |a2| - 1;
      TotalUtilityAppend(a1, c1, a2[..last], c2[..last], np);
      assert (a1 + a2)[..|a1 + a2| - 1] == a1 + a2[..last];
      assert (c1 + c2)[..|c1 + c2| - 1] == c1 + c2[..last];
    } else {
      assert a1 + a2 == a1 && c1 + c2 == c1;
    }
  }

  /** Whatever the choices, the total is at most the hindsight total
      (restated for callers from `TotalUtility`); it equals it when every
      agent decided with an estimate equal to the realised count. */
  lemma {:induction false} TotalAtMostHindsight(agents: seq<Agent>, choices: seq<bool>, np: nat)
    requires |choices| == |agents|
    ensures TotalUtility(agents, choices, np) <= HindsightTotal(agents, np)
    ensures (forall i :: 0 <= i < |agents| ==> choices[i] == agents[i].ComesInPerson(np))
            ==> TotalUtility(agents, choices, np) == HindsightTotal(agents, np)
  {
    if agents != [] {
      var last := |agents| - 1;
      TotalAtMostHindsight(agents[..last], choices[..last], np);
      NoRegretWhenEstimateRight(agents[last], np);
    }
  }

  /** A meeting whose estimate turns out exactly right pays every agent the
      better of its two options. */
  lemma SteadyRoundIsHindsightOptimal(agents: seq<Agent>, estimate: nat)
    requires Step(agents, estimate) == estimate
    ensures RoundUtility(agents, estimate) == HindsightTotal(agents, estimate)
  {
    TotalAtMostHindsight(agents, Decisions(agents, estimate), estimate);
  }

  /** The estimate after `k` meetings, starting from `estimate`; after at
      least one meeting, or from a start within `0..|agents|`, it lies
      within `0..|agents|`. */
  function Run(agents: seq<Agent>, estimate: nat, k: nat): (e: nat)
    ensures k > 0 || estimate <= |agents| ==> e <= |agents|
    decreases k
  {
    if k == 0 then estimate else Run(agents, Step(agents, estimate), k - 1)
  }

  /** Meeting `k + 1` decides with exactly the count meeting `k` realised. */
  lemma {:induction false} RunLagsOneMeeting(agents: seq<Agent>, estimate: nat, k: nat)
    ensures Run(agents, estimate, k + 1) == Step(agents, Run(agents, estimate, k))
    decreases k
  {
    if k > 0 {
      var next := Step(agents, estimate);
      RunLagsOneMeeting(agents, next, k - 1);
      assert Run(agents, estimate, k + 1) == Run(agents, next, k);
      assert Run(agents, estimate, k) == Run(agents, next, k - 1);
    }
  }

  /** A sequence of meetings over a fixed population. */
  class MeetingSequence {
    var agents: seq<Agent>
    var attendanceEstimate: nat
    /** The number of meetings held so far. */
    ghost var meetingsHeld: nat

    /** The estimate is the one the recurrence gives after `meetingsHeld`
        meetings starting from everyone, and lies within `0..|agents|`. */
    ghost predicate Valid()
      reads this
    {
      && attendanceEstimate <= |agents|
      && attendanceEstimate == Run(agents, |agents|, meetingsHeld)
    }

    /** Draws `nAgents` agents, agent `i` taking its `s` from the
        `2 * i`-th standard-normal variate `z` and its `B` from the next,
        and expects everyone at the first meeting. The distribution
        parameters default to those of agents.py. */
    constructor (nAgents: nat, z: nat -> real,
                 bParams: NormalParams := NormalParams(10.0, 5.0),
                 sParams: NormalParams := NormalParams(1.0, 0.5))
      ensures Valid()
      ensures |agents| == nAgents
      ensures forall i :: 0 <= i < nAgents ==>
                agents[i] == Agent(sParams.Draw(z(2 * i)), bParams.Draw(z(2 * i + 1)))
      ensures attendanceEstimate == nAgents
      ensures meetingsHeld == 0
    {
      new;
      agents := [];
      var k := 0;
      while k < nAgents
        invariant k <= nAgents
        invariant |agents| == k
        invariant forall i :: 0 <= i < k ==>
                    agents[i] == Agent(sParams.Draw(z(2 * i)), bParams.Draw(z(2 * i + 1)))
      {
        var s := sParams.Draw(z(2 * k));
        var b := bParams.Draw(z(2 * k + 1));
        agents := agents + [Agent(s, b)];
        k := k + 1;
      }
      attendanceEstimate := nAgents;
      meetingsHeld := 0;
    }

    /** Holds one meeting and returns the summed payoffs of all agents. */
    method HoldMeeting() returns (sumUtility: real)
      requires Valid()
      modifies this`attendanceEstimate, this`meetingsHeld
      ensures Valid()
      ensures agents == old(agents)
      ensures attendanceEstimate == Step(agents, old(attendanceEstimate))
      ensures sumUtility == RoundUtility(agents, old(attendanceEstimate))
      ensures meetingsHeld == old(meetingsHeld) + 1
    {
      var agentsInPerson := Decisions(agents, attendanceEstimate);
      var nInPerson := CountInPerson(agentsInPerson);

      sumUtility := 0.0;
      var i := 0;
      while i < |agents|
        invariant i <= |agents|
        invariant sumUtility == TotalUtility(agents[..i], agentsInPerson[..i], nInPerson)
      {
        assert agents[..i + 1][..i] == agents[..i];
        assert agentsInPerson[..i + 1][..i] == agentsInPerson[..i];
        sumUtility := sumUtility + agents[i].ComputeUtility(nInPerson, agentsInPerson[i]);
        i := i + 1;
      }
      assert agents[..i] == agents && agentsInPerson[..i] == agentsInPerson;

      RunLagsOneMeeting(agents, |agents|, meetingsHeld);
      attendanceEstimate := nInPerson;
      meetingsHeld := meetingsHeld + 1;
    }
  }
}
