/** A hybrid-meeting agent: a peer sensitivity `s` and an outside-option
    utility `b` (`B` in agents.py), fixed for the agent's lifetime. */
module Agents {

  /** The parameters of one normal distribution, as the sequence's
      constructor receives them: a mean and a standard deviation. */
  datatype NormalParams = NormalParams(loc: real, sd: real) {

    /** The value a normal draw with these parameters takes when the
        underlying standard-normal variate is `z`. */
    function Draw(z: real): (x: real)
      ensures sd == 0.0 ==> x == loc
      ensures sd > 0.0 ==> (x > loc <==> z > 0.0) && (x < loc <==> z < 0.0)
    {
      loc + sd * z
    }
  }

  datatype Agent = Agent(s: real, b: real) {

    /** The payoff of this agent in a meeting that `np` agents attended in
        person: `s * np` if it attended in person, its outside option `b`
        if it did not. */
    function ComputeUtility(np: nat, choseInPerson: bool): (u: real)
      ensures !choseInPerson ==> u == b
      ensures choseInPerson ==> u == s * np as real
    {
      if choseInPerson then s * np as real else b
    }

    /** The attendance decision under the estimate `npEstimate`: come in
        person exactly when the payoff of coming, judged with the estimate,
        strictly beats the outside option. */
    function ComesInPerson(npEstimate: nat): (r: bool)
      ensures r <==> ComputeUtility(npEstimate, true) > ComputeUtility(npEstimate, false)
    {
      s * npEstimate as real > b
    }
  }

  /** An exact tie between coming and staying away is resolved as staying
      away. */
  lemma TieStaysAway(a: Agent, npEstimate: nat)
    requires a.s * npEstimate as real == a.b
    ensures !a.ComesInPerson(npEstimate)
  {
  }

  /** The decision is a best response to the estimate: judged with the
      estimate, no other choice pays more. */
  lemma DecisionIsBestResponse(a: Agent, npEstimate: nat, other: bool)
    ensures a.ComputeUtility(npEstimate, a.ComesInPerson(npEstimate))
            >= a.ComputeUtility(npEstimate, other)
  {
  }

  /** Judged after the fact, an agent's payoff is at most the better of its
      two options. */
  function BestUtility(a: Agent, np: nat): (u: real)
    ensures u >= a.ComputeUtility(np, true) && u >= a.ComputeUtility(np, false)
    ensures u == a.ComputeUtility(np, true) || u == a.ComputeUtility(np, false)
  {
    if a.s * np as real > a.b then a.s * np as real else a.b
  }

  /** When the realised count equals the estimate the agent decided with,
      its realised payoff is the best it could have had. */
  lemma NoRegretWhenEstimateRight(a: Agent, np: nat)
    ensures a.ComputeUtility(np, a.ComesInPerson(np)) == BestUtility(a, np)
  {
  }

  /** With a non-negative sensitivity, an agent that comes under some
      estimate also comes under every larger one. */
  lemma ComesInPersonMonotone(a: Agent, lo: nat, hi: nat)
    requires a.s >= 0.0 && lo <= hi
    ensures a.ComesInPerson(lo) ==> a.ComesInPerson(hi)
  {
  }
}
