/** The partner card (`src/components/premium/PartnerSynergy.jsx`): from the two
    weekly completion rates it shows their average, a multiplicative synergy
    score, the gap between them, a message chosen by the synergy score and an
    encouragement line. The scores it is given are percentages. */
module Synergy {
  import opened Completion

  function Min(a: nat, b: nat): nat
  {
    if a <= b then a else b
  }

  function Max(a: nat, b: nat): nat
  {
    if a >= b then a else b
  }

  /** `Math.round((userScore + partnerScore) / 2)` */
  function Average(u: nat, p: nat): nat
  {
    Round(u + p, 2)
  }

  /** The average does not depend on who is who, lies between the two scores and
      is the score itself when both agree. */
  lemma AverageSpec(u: nat, p: nat)
    ensures Average(u, p) == Average(p, u)
    ensures Min(u, p) <= Average(u, p) <= Max(u, p)
    ensures u == p ==> Average(u, p) == u
  {
    RoundAtLeast(u + p, 2, Min(u, p));
    RoundAtMost(u + p, 2, Max(u, p));
  }

  /** `Math.round((userScore * partnerScore) / 100)` */
  function SynergyScore(u: nat, p: nat): nat
  {
    Round(u * p, 100)
  }

  /** For percentages the synergy is symmetric, never above the weaker score,
      0 when either score is 0, and a full score leaves the other unchanged. */
  lemma SynergySpec(u: nat, p: nat)
    requires u <= 100 && p <= 100
    ensures SynergyScore(u, p) == SynergyScore(p, u)
    ensures SynergyScore(u, p) <= Min(u, p)
    ensures u == 0 || p == 0 ==> SynergyScore(u, p) == 0
    ensures SynergyScore(u, 100) == u
  {
    MulMonotone(u, p, 100);
    MulMonotone(p, u, 100);
    RoundAtMost(u * p, 100, Min(u, p));
    RoundAtMost(u * 100, 100, u);
    RoundAtLeast(u * 100, 100, u);
  }

  /** The four texts of `getSynergyMessage`, from the lowest tier up. */
  const Messages: seq<string> := ["Starting your journey", "Building together", "Strong alignment", "Exceptional harmony"]

  /** The tier of a score: thresholds 40, 60 and 80. */
  function Tier(score: int): (t: nat)
    ensures t < 4
  {
    if score >= 80 then 3 else if score >= 60 then 2 else if score >= 40 then 1 else 0
  }

  /** `getSynergyMessage(score)` */
  function SynergyMessage(score: int): string
  {
    if score >= 80 then "Exceptional harmony"
    else if score >= 60 then "Strong alignment"
    else if score >= 40 then "Building together"
    else "Starting your journey"
  }

  /** Each score gets exactly one of the four messages, the one of its tier, and
      a higher score never gets a lower tier's message. */
  lemma SynergyMessageSpec(a: int, b: int)
    ensures SynergyMessage(a) == Messages[Tier(a)]
    ensures forall i :: 0 <= i < 4 && Messages[i] == SynergyMessage(a) ==> i == Tier(a)
    ensures a <= b ==> Tier(a) <= Tier(b)
  {
  }

  /** `Math.abs(userScore - partnerScore)` */
  function Gap(u: nat, p: nat): nat
  {
    if u >= p then u - p else p - u
  }

  /** The gap is symmetric, 0 exactly when the scores agree, and is the
      distance from the weaker score to the stronger one. */
  lemma GapSpec(u: nat, p: nat)
    ensures Gap(u, p) == Gap(p, u)
    ensures Gap(u, p) == 0 <==> u == p
    ensures Min(u, p) + Gap(u, p) == Max(u, p)
  {
  }

  const Thriving := "You're both thriving! Keep this momentum going."
  const Committed := "Every day together brings you closer to your goal. Stay committed."

  /** The encouragement line under the card, which switches at a synergy of 70. */
  function Encouragement(synergy: nat): (t: string)
    ensures t == Thriving <==> synergy >= 70
  {
    if synergy >= 70 then Thriving else Committed
  }

  /** Since the synergy is at most the weaker score, the thriving line and the
      top message are only shown when both partners reach the threshold. */
  lemma HighTiersNeedBoth(u: nat, p: nat)
    requires u <= 100 && p <= 100
    ensures Encouragement(SynergyScore(u, p)) == Thriving ==> u >= 70 && p >= 70
    ensures SynergyMessage(SynergyScore(u, p)) == "Exceptional harmony" ==> u >= 80 && p >= 80
  {
    SynergySpec(u, p);
  }
}
