/** From a finding's CVSS base score to the attacker effort written on the privilege
    graph: the risk package and the two weight functions of the graph package. */
module RiskScore {
  import opened Rounding

  datatype Criticality = Critical | High | Medium | Low | Other

  function CriticalityWeight(c: Criticality): real {
    match c
    case Critical => 1.5
    case High => 1.25
    case Medium => 1.0
    case Low => 0.75
    case Other => 1.0
  }

  function Clamped(cvss: real, known: bool, crit: Criticality): real {
    var threat := if known then 1.3 else 1.0;
    var raw := cvss * CriticalityWeight(crit) * threat;
    var capped := if raw > 10.0 then 10.0 else raw;
    if capped < 0.0 then 0.0 else capped
  }

  /** `known` is the answer of the threat-intelligence feed for the finding's CVE. */
  function Score(cvss: real, known: bool, crit: Criticality): real {
    Round1(Clamped(cvss, known, crit))
  }

  /** Effort of a CAN_ESCALATE edge derived from a finding. */
  function AutoEscalationWeight(risk: real): real {
    var w := 10.0 - risk;
    var w' := if w < 0.3 then 0.3 else w;
    Round2(if w' > 9.0 then 9.0 else w')
  }

  /** Effort of a CREDENTIAL_REUSE edge derived from a finding. */
  function AutoReuseWeight(risk: real): real {
    var w := 11.0 - risk;
    var w' := if w < 1.0 then 1.0 else w;
    Round2(if w' > 9.0 then 9.0 else w')
  }

  lemma ScoreInRange(cvss: real, known: bool, crit: Criticality)
    ensures 0.0 <= Score(cvss, known, crit) <= 10.0
    ensures Tenths(Score(cvss, known, crit))
  {
    var c := Clamped(cvss, known, crit);
    Round1Monotone(0.0, c);
    Round1Monotone(c, 10.0);
    var k := Truncate(c * 10.0 + 0.5);
    assert Score(cvss, known, crit) * 10.0 == k as real;
  }

  /** Low is below medium and unknown, these below high, and high below critical. */
  predicate NoMoreCritical(c: Criticality, c': Criticality) {
    || c == c' || c == Low || c' == Critical
    || (c in {Medium, Other} && c' in {Medium, Other, High})
  }

  /** A worse base score, a more critical asset or a known exploit never lowers the
      score, for every real base score. */
  lemma ScoreMonotone(cvss: real, known: bool, crit: Criticality, cvss': real, known': bool, crit': Criticality)
    requires cvss <= cvss'
    requires known ==> known'
    requires NoMoreCritical(crit, crit')
    ensures Score(cvss, known, crit) <= Score(cvss', known', crit')
  {
    assert CriticalityWeight(crit) <= CriticalityWeight(crit');
    assert Clamped(cvss, known, crit) <= Clamped(cvss', known', crit');
    Round1Monotone(Clamped(cvss, known, crit), Clamped(cvss', known', crit'));
  }

  /** What a score is: the product of base score, criticality factor and threat factor,
      rounded to tenths between 0 and 10. */
  lemma ScoreIs(cvss: real, known: bool, crit: Criticality, factor: real)
    requires crit == Critical ==> factor == 1.5
    requires crit == High ==> factor == 1.25
    requires crit == Medium || crit == Other ==> factor == 1.0
    requires crit == Low ==> factor == 0.75
    ensures var product := if known then cvss * factor * 1.3 else cvss * factor;
            && (product <= 0.0 ==> Score(cvss, known, crit) == 0.0)
            && (0.0 <= product <= 10.0 ==> Score(cvss, known, crit) == Round1(product))
            && (product >= 10.0 ==> Score(cvss, known, crit) == 10.0)
  {
    assert CriticalityWeight(crit) == factor;
    assert Round1(0.0) == 0.0 && Round1(10.0) == 10.0;
  }

  /** What the weights are: ten or eleven less the risk, rounded to hundredths, between
      their clamps. */
  lemma WeightsAre(risk: real)
    ensures risk <= 1.0 ==> AutoEscalationWeight(risk) == 9.0
    ensures 1.0 <= risk <= 9.7 ==> AutoEscalationWeight(risk) == Round2(10.0 - risk)
    ensures risk >= 9.7 ==> AutoEscalationWeight(risk) == 0.3
    ensures risk <= 2.0 ==> AutoReuseWeight(risk) == 9.0
    ensures 2.0 <= risk <= 10.0 ==> AutoReuseWeight(risk) == Round2(11.0 - risk)
    ensures risk >= 10.0 ==> AutoReuseWeight(risk) == 1.0
  {
    assert Round2(0.3) == 0.3 && Round2(9.0) == 9.0 && Round2(1.0) == 1.0;
  }

  /** Derived weights lie on the hundredths grid within their documented clamps. */
  lemma WeightsInRange(risk: real)
    ensures 0.3 <= AutoEscalationWeight(risk) <= 9.0 && Hundredths(AutoEscalationWeight(risk))
    ensures 1.0 <= AutoReuseWeight(risk) <= 9.0 && Hundredths(AutoReuseWeight(risk))
  {
    assert Round2(0.3) == 0.3 && Round2(9.0) == 9.0 && Round2(1.0) == 1.0;
    var e := if 10.0 - risk < 0.3 then 0.3 else if 10.0 - risk > 9.0 then 9.0 else 10.0 - risk;
    var r := if 11.0 - risk < 1.0 then 1.0 else if 11.0 - risk > 9.0 then 9.0 else 11.0 - risk;
    assert AutoEscalationWeight(risk) == Round2(e) && AutoReuseWeight(risk) == Round2(r);
    Round2Monotone(0.3, e);
    Round2Monotone(e, 9.0);
    Round2Monotone(1.0, r);
    Round2Monotone(r, 9.0);
    Round2Near(e);
    Round2Near(r);
  }

  lemma WeightsAntitone(risk: real, risk': real)
    requires risk <= risk'
    ensures AutoEscalationWeight(risk') <= AutoEscalationWeight(risk)
    ensures AutoReuseWeight(risk') <= AutoReuseWeight(risk)
  {
    var e := (r: real) => if 10.0 - r < 0.3 then 0.3 else if 10.0 - r > 9.0 then 9.0 else 10.0 - r;
    var u := (r: real) => if 11.0 - r < 1.0 then 1.0 else if 11.0 - r > 9.0 then 9.0 else 11.0 - r;
    Round2Monotone(e(risk'), e(risk));
    Round2Monotone(u(risk'), u(risk));
  }

  /** The whole pipeline is antitone: what makes a finding worse never makes the
      attacker's step more expensive. */
  lemma EffortNeverRises(cvss: real, known: bool, crit: Criticality, cvss': real, known': bool, crit': Criticality)
    requires cvss <= cvss'
    requires known ==> known'
    requires NoMoreCritical(crit, crit')
    ensures AutoEscalationWeight(Score(cvss', known', crit')) <= AutoEscalationWeight(Score(cvss, known, crit))
    ensures AutoReuseWeight(Score(cvss', known', crit')) <= AutoReuseWeight(Score(cvss, known, crit))
  {
    ScoreMonotone(cvss, known, crit, cvss', known', crit');
    WeightsAntitone(Score(cvss, known, crit), Score(cvss', known', crit'));
  }
}
