/**
 * The flat confidence score of a theory (lib/utils/confidence.ts): only ACTIVE
 * cards count, the average strengths of the FOR and AGAINST cards are added up
 * without weighting by vote count, and the FOR share becomes a rounded
 * percentage that is bucketed into a label and a colour.
 */
module Confidence {
  import opened Common

  /** The card shape `calculateConfidence` reads. */
  datatype ScoredCard = ScoredCard(stance: Stance, averageStrength: real, status: CardStatus)

  datatype ConfidenceScore = ConfidenceScore(
    forScore: real,
    againstScore: real,
    totalScore: real,
    confidence: int,
    forCards: nat,
    againstCards: nat)

  /** `cards.filter(card => card.status === 'ACTIVE')`. */
  function ActiveCards(cards: seq<ScoredCard>): (r: seq<ScoredCard>)
    ensures |r| <= |cards|
    ensures forall c :: c in r ==> c in cards && c.status == ACTIVE
    ensures forall i :: 0 <= i < |cards| && cards[i].status == ACTIVE ==> cards[i] in r
  {
    if cards == [] then []
    else
      var rest := ActiveCards(cards[..|cards| - 1]);
      var last := cards[|cards| - 1];
      assert forall i :: 0 <= i < |cards| - 1 ==> cards[i] == cards[..|cards| - 1][i];
      if last.status == ACTIVE then rest + [last] else rest
  }

  /** `cards.filter(card => card.stance === stance)`. */
  function WithStance(cards: seq<ScoredCard>, stance: Stance): (r: seq<ScoredCard>)
    ensures |r| <= |cards|
    ensures forall c :: c in r ==> c in cards && c.stance == stance
    ensures forall i :: 0 <= i < |cards| && cards[i].stance == stance ==> cards[i] in r
  {
    if cards == [] then []
    else
      var rest := WithStance(cards[..|cards| - 1], stance);
      var last := cards[|cards| - 1];
      assert forall i :: 0 <= i < |cards| - 1 ==> cards[i] == cards[..|cards| - 1][i];
      if last.stance == stance then rest + [last] else rest
  }

  /** `cards.reduce((sum, card) => sum + card.averageStrength, 0)`. */
  function AverageSum(cards: seq<ScoredCard>): real {
    if cards == [] then 0.0 else AverageSum(cards[..|cards| - 1]) + cards[|cards| - 1].averageStrength
  }

  /** `calculateConfidence`. */
  function CalculateConfidence(cards: seq<ScoredCard>): (r: ConfidenceScore)
    ensures r.forScore == AverageSum(WithStance(ActiveCards(cards), FOR))
    ensures r.againstScore == AverageSum(WithStance(ActiveCards(cards), AGAINST))
    ensures r.forCards == |WithStance(ActiveCards(cards), FOR)|
    ensures r.againstCards == |WithStance(ActiveCards(cards), AGAINST)|
    ensures r.totalScore == r.forScore + r.againstScore
    ensures r.totalScore > 0.0 ==> r.confidence == Round(r.forScore / r.totalScore * 100.0)
    ensures r.totalScore <= 0.0 ==> r.confidence == 50
    ensures r.forCards + r.againstCards <= |cards|
  {
    var active := ActiveCards(cards);
    StanceSplit(active);
    ScoreOf(WithStance(active, FOR), WithStance(active, AGAINST))
  }

  /** The score once the active cards are split by stance. */
  function ScoreOf(forCards: seq<ScoredCard>, againstCards: seq<ScoredCard>): (r: ConfidenceScore)
    ensures r.forCards == |forCards| && r.againstCards == |againstCards|
  {
    var forScore := AverageSum(forCards);
    var againstScore := AverageSum(againstCards);
    var totalScore := forScore + againstScore;
    var confidence := if totalScore > 0.0 then forScore / totalScore * 100.0 else 50.0;
    ConfidenceScore(forScore, againstScore, totalScore, Round(confidence), |forCards|, |againstCards|)
  }

  // ---------------------------------------------------------------------------
  // Labels and colours.

  /** `getConfidenceLabel`. */
  function ConfidenceLabel(confidence: real): string {
    if confidence >= 80.0 then "Very High"
    else if confidence >= 65.0 then "High"
    else if confidence >= 45.0 then "Moderate"
    else if confidence >= 30.0 then "Low"
    else "Very Low"
  }

  /** `getConfidenceColor`. */
  function ConfidenceColor(confidence: real): string {
    if confidence >= 80.0 then "bg-green-500"
    else if confidence >= 65.0 then "bg-lime-500"
    else if confidence >= 45.0 then "bg-yellow-500"
    else if confidence >= 30.0 then "bg-orange-500"
    else "bg-red-500"
  }

  /** The strength order of the labels, from "Very Low" (0) to "Very High" (4). */
  function LabelRank(l: string): (rank: nat)
    ensures rank <= 4
  {
    if l == "Very High" then 4
    else if l == "High" then 3
    else if l == "Moderate" then 2
    else if l == "Low" then 1
    else 0
  }

  /** The colour that goes with each label. */
  function LabelColor(l: string): string {
    if l == "Very High" then "bg-green-500"
    else if l == "High" then "bg-lime-500"
    else if l == "Moderate" then "bg-yellow-500"
    else if l == "Low" then "bg-orange-500"
    else "bg-red-500"
  }

  // ---------------------------------------------------------------------------
  // Lemmas.

  lemma {:induction false} ActiveAppend(a: seq<ScoredCard>, b: seq<ScoredCard>)
    ensures ActiveCards(a + b) == ActiveCards(a) + ActiveCards(b)
    decreases |b|
  {
    if b == [] {
      assert a + b == a;
    } else {
      assert (a + b)[..|a + b| - 1] == a + b[..|b| - 1];
      ActiveAppend(a, b[..|b| - 1]);
    }
  }

  lemma {:induction false} WithStanceAppend(a: seq<ScoredCard>, b: seq<ScoredCard>, stance: Stance)
    ensures WithStance(a + b, stance) == WithStance(a, stance) + WithStance(b, stance)
    decreases |b|
  {
    if b == [] {
      assert a + b == a;
    } else {
      assert (a + b)[..|a + b| - 1] == a + b[..|b| - 1];
      WithStanceAppend(a, b[..|b| - 1], stance);
    }
  }

  lemma {:induction false} AverageSumAppend(a: seq<ScoredCard>, b: seq<ScoredCard>)
    ensures AverageSum(a + b) == AverageSum(a) + AverageSum(b)
    decreases |b|
  {
    if b == [] {
      assert a + b == a;
    } else {
      assert (a + b)[..|a + b| - 1] == a + b[..|b| - 1];
      AverageSumAppend(a, b[..|b| - 1]);
    }
  }

  /** Every card is FOR or AGAINST, so the two stance filters split a list. */
  lemma {:induction false} StanceSplit(cards: seq<ScoredCard>)
    ensures |WithStance(cards, FOR)| + |WithStance(cards, AGAINST)| == |cards|
    decreases |cards|
  {
    if cards != [] {
      StanceSplit(cards[..|cards| - 1]);
    }
  }

  /** Filtering on ACTIVE twice is filtering once. */
  lemma {:induction false} ActiveIdempotent(cards: seq<ScoredCard>)
    ensures ActiveCards(ActiveCards(cards)) == ActiveCards(cards)
    decreases |cards|
  {
    if cards != [] {
      var init, last := cards[..|cards| - 1], cards[|cards| - 1];
      assert cards == init + [last];
      ActiveIdempotent(init);
      ActiveAppend(init, [last]);
      ActiveAppend(ActiveCards(init), ActiveCards([last]));
      assert ActiveCards([last]) == (if last.status == ACTIVE then [last] else []) by {
        assert [last][..0] == [];
      }
    }
  }

  /** No cards: both scores and both counts are zero and the confidence is the default 50. */
  lemma NoCards()
    ensures CalculateConfidence([]) == ConfidenceScore(0.0, 0.0, 0.0, 50, 0, 0)
  {
  }

  /** Only ACTIVE cards matter: dropping the others first gives the same score. */
  lemma OnlyActiveCount(cards: seq<ScoredCard>)
    ensures CalculateConfidence(ActiveCards(cards)) == CalculateConfidence(cards)
  {
    ActiveIdempotent(cards);
  }

  /**
   * Adding one card at the end: a card that is not ACTIVE changes nothing; an
   * ACTIVE card adds its plain average (no vote-count weighting) to its own
   * stance's score and one to its own stance's card count.
   * With `NoCards`, this determines the scores and counts of every list; the
   * confidence then follows from the scores by `CalculateConfidence`'s contract.
   */
  lemma {:induction false} AddCard(cards: seq<ScoredCard>, c: ScoredCard)
    ensures c.status != ACTIVE ==> CalculateConfidence(cards + [c]) == CalculateConfidence(cards)
    ensures var r, r' := CalculateConfidence(cards), CalculateConfidence(cards + [c]);
      c.status == ACTIVE ==>
        && r'.forScore == r.forScore + (if c.stance == FOR then c.averageStrength else 0.0)
        && r'.againstScore == r.againstScore + (if c.stance == AGAINST then c.averageStrength else 0.0)
        && r'.forCards == r.forCards + (if c.stance == FOR then 1 else 0)
        && r'.againstCards == r.againstCards + (if c.stance == AGAINST then 1 else 0)
  {
    var act := ActiveCards(cards);
    assert ActiveCards(cards + [c]) == if c.status == ACTIVE then act + [c] else act by {
      ActiveAppend(cards, [c]);
      assert [c][..0] == [];
    }
    if c.status == ACTIVE {
      AddToStance(act, c, FOR);
      AddToStance(act, c, AGAINST);
    }
  }

  /** Appending one card to a stance's pile adds its average and one card, if it has that stance. */
  lemma AddToStance(cards: seq<ScoredCard>, c: ScoredCard, stance: Stance)
    ensures AverageSum(WithStance(cards + [c], stance))
         == AverageSum(WithStance(cards, stance)) + (if c.stance == stance then c.averageStrength else 0.0)
    ensures |WithStance(cards + [c], stance)| == |WithStance(cards, stance)| + (if c.stance == stance then 1 else 0)
  {
    assert [c][..0] == [];
    WithStanceAppend(cards, [c], stance);
    AverageSumAppend(WithStance(cards, stance), WithStance([c], stance));
  }

  predicate NonNegativeAverages(cards: seq<ScoredCard>) {
    forall i :: 0 <= i < |cards| ==> cards[i].averageStrength >= 0.0
  }

  lemma {:induction false} AverageSumNonNegative(cards: seq<ScoredCard>)
    requires NonNegativeAverages(cards)
    ensures AverageSum(cards) >= 0.0
    decreases |cards|
  {
    if cards != [] {
      var init := cards[..|cards| - 1];
      assert forall i :: 0 <= i < |init| ==> init[i] == cards[i];
      AverageSumNonNegative(init);
    }
  }

  lemma SubsetNonNegative(sub: seq<ScoredCard>, cards: seq<ScoredCard>)
    requires NonNegativeAverages(cards)
    requires forall c :: c in sub ==> c in cards
    ensures NonNegativeAverages(sub)
  {
    forall i | 0 <= i < |sub| ensures sub[i].averageStrength >= 0.0 {
      assert sub[i] in sub;
      var j :| 0 <= j < |cards| && cards[j] == sub[i];
    }
  }

  /** With non-negative averages the confidence is a percentage in [0, 100]. */
  lemma ConfidenceBounded(cards: seq<ScoredCard>)
    requires NonNegativeAverages(cards)
    ensures 0 <= CalculateConfidence(cards).confidence <= 100
  {
    var act := ActiveCards(cards);
    var f, g := WithStance(act, FOR), WithStance(act, AGAINST);
    SubsetNonNegative(f, cards);
    SubsetNonNegative(g, cards);
    AverageSumNonNegative(f);
    AverageSumNonNegative(g);
    ScoreOfBounded(f, g);
  }

  lemma ScoreOfBounded(f: seq<ScoredCard>, g: seq<ScoredCard>)
    requires AverageSum(f) >= 0.0 && AverageSum(g) >= 0.0
    ensures 0 <= ScoreOf(f, g).confidence <= 100
  {
    var x, y := AverageSum(f), AverageSum(g);
    if x + y > 0.0 {
      SharePercentBounds(x, y);
    }
  }

  /** A positive score with no AGAINST weight is full confidence, and the reverse is none. */
  lemma OneSidedConfidence(cards: seq<ScoredCard>)
    ensures var r := CalculateConfidence(cards);
      (r.forScore > 0.0 && r.againstScore == 0.0 ==> r.confidence == 100)
      && (r.againstScore > 0.0 && r.forScore == 0.0 ==> r.confidence == 0)
  {
    var r := CalculateConfidence(cards);
    if r.totalScore > 0.0 {
      ExtremeShares(r.forScore, r.totalScore);
    }
  }

  /** The whole of a positive total is 100 percent, and nothing of it is 0 percent. */
  lemma ExtremeShares(x: real, t: real)
    requires t > 0.0
    ensures x == t ==> Round(x / t * 100.0) == 100
    ensures x == 0.0 ==> Round(x / t * 100.0) == 0
  {
  }

  /** Higher confidence never gets a weaker label. */
  lemma LabelMonotone(x: real, y: real)
    requires x <= y
    ensures LabelRank(ConfidenceLabel(x)) <= LabelRank(ConfidenceLabel(y))
  {
  }

  /** The colour is the one that goes with the label, and distinct labels get distinct colours. */
  lemma ColorFollowsLabel(x: real, y: real)
    ensures ConfidenceColor(x) == LabelColor(ConfidenceLabel(x))
    ensures ConfidenceLabel(x) != ConfidenceLabel(y) ==> ConfidenceColor(x) != ConfidenceColor(y)
  {
  }

  /** The label bucket boundaries: 80, 65, 45 and 30, each inclusive; each label is exactly one bucket. */
  lemma LabelBuckets(x: real)
    ensures ConfidenceLabel(x) == "Very High" <==> x >= 80.0
    ensures ConfidenceLabel(x) == "High" <==> 65.0 <= x < 80.0
    ensures ConfidenceLabel(x) == "Moderate" <==> 45.0 <= x < 65.0
    ensures ConfidenceLabel(x) == "Low" <==> 30.0 <= x < 45.0
    ensures ConfidenceLabel(x) == "Very Low" <==> x < 30.0
    ensures LabelRank(ConfidenceLabel(x)) == (if x >= 80.0 then 4 else if x >= 65.0 then 3
                                             else if x >= 45.0 then 2 else if x >= 30.0 then 1 else 0)
  {
  }
}
