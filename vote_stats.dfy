/**
 * The count-weighted rollup of a theory's evidence cards (lib/utils/vote-stats.ts):
 * each card's average strength is weighted by its number of votes, the FOR and
 * AGAINST totals are turned into a pair of percentages, and two small helpers
 * filter cards by stance and flatten them for display.
 */
module VoteStats {
  import opened Common

  /** The `voteStats` a card may carry. */
  datatype CardVoteStats = CardVoteStats(count: int, averageStrength: real)

  datatype CardAuthor = CardAuthor(id: string, name: Option<string>)

  /** The card shape the rollup reads; every optional member is an Option. */
  datatype EvidenceCard = EvidenceCard(
    id: string,
    content: string,
    source: Option<string>,
    sourceTitle: Option<string>,
    context: Option<string>,
    stance: Stance,
    voteStats: Option<CardVoteStats>,
    authorName: Option<string>,
    author: Option<CardAuthor>)

  datatype VoteCalculationResult = VoteCalculationResult(
    forScore: real,
    againstScore: real,
    totalVotes: int,
    forPercent: int,
    againstPercent: int)

  /** The flattened card `mapEvidenceCards` produces. */
  datatype DisplayCard = DisplayCard(
    id: string,
    content: string,
    source: Option<string>,
    sourceTitle: Option<string>,
    context: Option<string>,
    stance: Stance,
    voteCount: int,
    averageStrength: real,
    authorName: string)

  const Anonymous: string := "Аноним"

  /** `card.voteStats?.count && card.voteStats.count > 0`. */
  predicate HasVotes(c: EvidenceCard) {
    c.voteStats.Some? && c.voteStats.value.count > 0
  }

  /** What one card adds to its stance's score in the reduce step. */
  function CardScore(c: EvidenceCard): real {
    if HasVotes(c) then c.voteStats.value.averageStrength * c.voteStats.value.count as real else 0.0
  }

  /** `card.voteStats?.count || 0`. */
  function CardCount(c: EvidenceCard): int {
    if c.voteStats.Some? then c.voteStats.value.count else 0
  }

  /** `evidenceCards.filter((c) => c.stance === stance)`. */
  function FilterCardsByStance(cards: seq<EvidenceCard>, stance: Stance): (r: seq<EvidenceCard>)
    ensures |r| <= |cards|
  {
    if cards == [] then []
    else
      var rest := FilterCardsByStance(cards[..|cards| - 1], stance);
      var last := cards[|cards| - 1];
      if last.stance == stance then rest + [last] else rest
  }

  /** The filter holds only cards of the given stance, and every such card of the input. */
  lemma {:induction false} FilterCardsByStanceShape(cards: seq<EvidenceCard>, stance: Stance)
    ensures var r := FilterCardsByStance(cards, stance);
      && (forall c :: c in r ==> c in cards && c.stance == stance)
      && (forall i :: 0 <= i < |cards| && cards[i].stance == stance ==> cards[i] in r)
    decreases |cards|
  {
    if cards != [] {
      var init := cards[..|cards| - 1];
      FilterCardsByStanceShape(init, stance);
      assert forall i :: 0 <= i < |cards| - 1 ==> cards[i] == init[i];
    }
  }

  /** The score reduce: a left fold of `CardScore` starting from 0. */
  function ScoreSum(cards: seq<EvidenceCard>): real {
    if cards == [] then 0.0 else ScoreSum(cards[..|cards| - 1]) + CardScore(cards[|cards| - 1])
  }

  /** The `totalVotes` reduce: a left fold of `CardCount` starting from 0. */
  function CountSum(cards: seq<EvidenceCard>): int {
    if cards == [] then 0 else CountSum(cards[..|cards| - 1]) + CardCount(cards[|cards| - 1])
  }

  /** `calculateVoteStats`. */
  function CalculateVoteStats(cards: seq<EvidenceCard>): (r: VoteCalculationResult)
    ensures r.forScore == ScoreSum(FilterCardsByStance(cards, FOR))
    ensures r.againstScore == ScoreSum(FilterCardsByStance(cards, AGAINST))
    ensures r.forScore + r.againstScore <= 0.0 ==> r.forPercent == 50 && r.againstPercent == 50
    ensures r.forScore + r.againstScore > 0.0 ==>
      r.forPercent == Round(r.forScore / (r.forScore + r.againstScore) * 100.0)
    ensures r.forScore + r.againstScore > 0.0 ==> r.forPercent + r.againstPercent == 100
  {
    var forCards := FilterCardsByStance(cards, FOR);
    var againstCards := FilterCardsByStance(cards, AGAINST);
    var forScore := ScoreSum(forCards);
    var againstScore := ScoreSum(againstCards);
    var totalVotes := CountSum(forCards + againstCards);
    var total := forScore + againstScore;
    var forPercent := if total > 0.0 then Round(forScore / total * 100.0) else 50;
    var againstPercent := if total > 0.0 then 100 - forPercent else 50;
    VoteCalculationResult(forScore, againstScore, totalVotes, forPercent, againstPercent)
  }

  /** The author name shown on a card: `card.author?.name || card.authorName || "Аноним"`. */
  function DisplayAuthorName(c: EvidenceCard): (name: string)
    ensures name != ""
    ensures name == Anonymous || Some(name) == c.authorName || (c.author.Some? && Some(name) == c.author.value.name)
    ensures c.author.Some? && Truthy(c.author.value.name) ==> Some(name) == c.author.value.name
    ensures !(c.author.Some? && Truthy(c.author.value.name)) && Truthy(c.authorName) ==> Some(name) == c.authorName
    ensures !(c.author.Some? && Truthy(c.author.value.name)) && !Truthy(c.authorName) ==> name == Anonymous
  {
    if c.author.Some? && Truthy(c.author.value.name) then c.author.value.name.value
    else if Truthy(c.authorName) then c.authorName.value
    else Anonymous
  }

  function DisplayCardOf(c: EvidenceCard): (d: DisplayCard)
    ensures d.voteCount == CardCount(c) && d.authorName == DisplayAuthorName(c)
    ensures c.voteStats.None? ==> d.voteCount == 0 && d.averageStrength == 0.0
    ensures c.voteStats.Some? ==> d.averageStrength == c.voteStats.value.averageStrength
    ensures d.id == c.id && d.content == c.content && d.stance == c.stance
    ensures d.source == c.source && d.sourceTitle == c.sourceTitle && d.context == c.context
  {
    DisplayCard(c.id, c.content, c.source, c.sourceTitle, c.context, c.stance,
                CardCount(c),
                if c.voteStats.Some? then c.voteStats.value.averageStrength else 0.0,
                DisplayAuthorName(c))
  }

  /** `mapEvidenceCards`: one display card per card, in the same order. */
  function MapEvidenceCards(cards: seq<EvidenceCard>): (r: seq<DisplayCard>)
    ensures |r| == |cards|
    ensures forall i :: 0 <= i < |cards| ==> r[i] == DisplayCardOf(cards[i])
  {
    if cards == [] then []
    else MapEvidenceCards(cards[..|cards| - 1]) + [DisplayCardOf(cards[|cards| - 1])]
  }

  /** Sum of the `voteCount` column of the display cards. */
  function DisplayCountSum(cards: seq<DisplayCard>): int {
    if cards == [] then 0 else DisplayCountSum(cards[..|cards| - 1]) + cards[|cards| - 1].voteCount
  }

  // ---------------------------------------------------------------------------
  // Lemmas.

  lemma {:induction false} FilterAppend(a: seq<EvidenceCard>, b: seq<EvidenceCard>, stance: Stance)
    ensures FilterCardsByStance(a + b, stance) == FilterCardsByStance(a, stance) + FilterCardsByStance(b, stance)
    decreases |b|
  {
    if b == [] {
      assert a + b == a;
    } else {
      assert (a + b)[..|a + b| - 1] == a + b[..|b| - 1];
      FilterAppend(a, b[..|b| - 1], stance);
    }
  }

  lemma {:induction false} ScoreSumAppend(a: seq<EvidenceCard>, b: seq<EvidenceCard>)
    ensures ScoreSum(a + b) == ScoreSum(a) + ScoreSum(b)
    decreases |b|
  {
    if b == [] {
      assert a + b == a;
    } else {
      assert (a + b)[..|a + b| - 1] == a + b[..|b| - 1];
      ScoreSumAppend(a, b[..|b| - 1]);
    }
  }

  lemma {:induction false} CountSumAppend(a: seq<EvidenceCard>, b: seq<EvidenceCard>)
    ensures CountSum(a + b) == CountSum(a) + CountSum(b)
    decreases |b|
  {
    if b == [] {
      assert a + b == a;
    } else {
      assert (a + b)[..|a + b| - 1] == a + b[..|b| - 1];
      CountSumAppend(a, b[..|b| - 1]);
    }
  }

  /** The rollup of no cards: no score, no votes, the neutral 50/50 split. */
  lemma NoCards()
    ensures CalculateVoteStats([]) == VoteCalculationResult(0.0, 0.0, 0, 50, 50)
  {
  }

  /**
   * Adding one card at the end: its weighted score (average times count, only
   * when it has a positive count) goes to its own stance's score, and its count
   * (0 when it has no stats) goes to the vote total whatever its stance.
   * With NoCards this determines `forScore`, `againstScore` and `totalVotes`.
   */
  lemma {:induction false} AddCard(cards: seq<EvidenceCard>, c: EvidenceCard)
    ensures CalculateVoteStats(cards + [c]).forScore
            == CalculateVoteStats(cards).forScore + (if c.stance == FOR then CardScore(c) else 0.0)
    ensures CalculateVoteStats(cards + [c]).againstScore
            == CalculateVoteStats(cards).againstScore + (if c.stance == AGAINST then CardScore(c) else 0.0)
    ensures CalculateVoteStats(cards + [c]).totalVotes == CalculateVoteStats(cards).totalVotes + CardCount(c)
  {
    FilterAppend(cards, [c], FOR);
    FilterAppend(cards, [c], AGAINST);
    var f, g := FilterCardsByStance(cards, FOR), FilterCardsByStance(cards, AGAINST);
    var f1, g1 := FilterCardsByStance([c], FOR), FilterCardsByStance([c], AGAINST);
    ScoreSumAppend(f, f1);
    ScoreSumAppend(g, g1);
    CountSumAppend(f + f1, g + g1);
    CountSumAppend(f, f1);
    CountSumAppend(g, g1);
    CountSumAppend(f, g);
    CountSumAppend(f1, g1);
    if c.stance == FOR {
      assert f1 == [c] && g1 == [];
      assert ScoreSum([c]) == CardScore(c) by { assert [c][..0] == []; }
      assert CountSum([c]) == CardCount(c) by { assert [c][..0] == []; }
      assert f1 + g1 == [c];
    } else {
      assert f1 == [] && g1 == [c];
      assert ScoreSum([c]) == CardScore(c) by { assert [c][..0] == []; }
      assert CountSum([c]) == CardCount(c) by { assert [c][..0] == []; }
      assert f1 + g1 == [c];
    }
  }

  /**
   * `totalVotes` counts every card, since every card is FOR or AGAINST, and it
   * equals the sum of the `voteCount` column that `mapEvidenceCards` shows.
   */
  lemma {:induction false} TotalVotesCountsEveryCard(cards: seq<EvidenceCard>)
    ensures CalculateVoteStats(cards).totalVotes == CountSum(cards)
    ensures CalculateVoteStats(cards).totalVotes == DisplayCountSum(MapEvidenceCards(cards))
  {
    StanceCountsCover(cards);
    DisplayCountsMatch(cards);
  }

  /** Counting the FOR cards and then the AGAINST cards counts every card once. */
  lemma StanceCountsCover(cards: seq<EvidenceCard>)
    ensures CountSum(FilterCardsByStance(cards, FOR) + FilterCardsByStance(cards, AGAINST)) == CountSum(cards)
  {
    CountSumAppend(FilterCardsByStance(cards, FOR), FilterCardsByStance(cards, AGAINST));
    StanceCountsSplit(cards);
  }

  lemma {:induction false} StanceCountsSplit(cards: seq<EvidenceCard>)
    ensures CountSum(FilterCardsByStance(cards, FOR)) + CountSum(FilterCardsByStance(cards, AGAINST)) == CountSum(cards)
    decreases |cards|
  {
    if cards != [] {
      var init, last := cards[..|cards| - 1], cards[|cards| - 1];
      StanceCountsSplit(init);
      var f, g := FilterCardsByStance(init, FOR), FilterCardsByStance(init, AGAINST);
      assert CountSum(cards) == CountSum(init) + CardCount(last);
      if last.stance == FOR {
        assert FilterCardsByStance(cards, FOR) == f + [last] && FilterCardsByStance(cards, AGAINST) == g;
        CountSumSnoc(f, last);
      } else {
        assert FilterCardsByStance(cards, FOR) == f && FilterCardsByStance(cards, AGAINST) == g + [last];
        CountSumSnoc(g, last);
      }
    }
  }

  lemma CountSumSnoc(cards: seq<EvidenceCard>, c: EvidenceCard)
    ensures CountSum(cards + [c]) == CountSum(cards) + CardCount(c)
  {
    assert (cards + [c])[..|cards|] == cards;
  }

  /** The `voteCount` column sums to the cards' vote counts. */
  lemma {:induction false} DisplayCountsMatch(cards: seq<EvidenceCard>)
    ensures DisplayCountSum(MapEvidenceCards(cards)) == CountSum(cards)
    decreases |cards|
  {
    if cards != [] {
      var init := cards[..|cards| - 1];
      DisplayCountsMatch(init);
      assert MapEvidenceCards(cards)[..|cards| - 1] == MapEvidenceCards(init);
    }
  }

  /** Cards whose stats do not carry a negative average. */
  predicate NonNegativeAverages(cards: seq<EvidenceCard>) {
    forall i :: 0 <= i < |cards| && cards[i].voteStats.Some? ==> cards[i].voteStats.value.averageStrength >= 0.0
  }

  lemma {:induction false} ScoreSumNonNegative(cards: seq<EvidenceCard>)
    requires NonNegativeAverages(cards)
    ensures ScoreSum(cards) >= 0.0
    decreases |cards|
  {
    if cards != [] {
      var init := cards[..|cards| - 1];
      assert forall i :: 0 <= i < |init| ==> init[i] == cards[i];
      ScoreSumNonNegative(init);
    }
  }

  lemma FilterKeepsNonNegative(cards: seq<EvidenceCard>, stance: Stance)
    requires NonNegativeAverages(cards)
    ensures NonNegativeAverages(FilterCardsByStance(cards, stance))
  {
    var r := FilterCardsByStance(cards, stance);
    FilterCardsByStanceShape(cards, stance);
    forall i | 0 <= i < |r| && r[i].voteStats.Some? ensures r[i].voteStats.value.averageStrength >= 0.0 {
      assert r[i] in r;
      var j :| 0 <= j < |cards| && cards[j] == r[i];
    }
  }

  /** With non-negative averages both percentages lie in [0, 100]. */
  lemma {:induction false} PercentagesBounded(cards: seq<EvidenceCard>)
    requires NonNegativeAverages(cards)
    ensures var r := CalculateVoteStats(cards);
      0 <= r.forPercent <= 100 && 0 <= r.againstPercent <= 100
  {
    FilterKeepsNonNegative(cards, FOR);
    FilterKeepsNonNegative(cards, AGAINST);
    var f := ScoreSum(FilterCardsByStance(cards, FOR));
    var g := ScoreSum(FilterCardsByStance(cards, AGAINST));
    ScoreSumNonNegative(FilterCardsByStance(cards, FOR));
    ScoreSumNonNegative(FilterCardsByStance(cards, AGAINST));
    if f + g > 0.0 {
      SharePercentBounds(f, g);
    }
  }

  /**
   * One FOR card with two votes averaging 8 and one AGAINST card with a single
   * vote of 2: the FOR side weighs 16 against 2, which rounds to 89 / 11.
   */
  lemma WeightedExample(a: EvidenceCard, b: EvidenceCard)
    requires a.stance == FOR && a.voteStats == Some(CardVoteStats(2, 8.0))
    requires b.stance == AGAINST && b.voteStats == Some(CardVoteStats(1, 2.0))
    ensures CalculateVoteStats([a, b]) == VoteCalculationResult(16.0, 2.0, 3, 89, 11)
  {
    WeightedScores(a, b);
    var r := CalculateVoteStats([a, b]);
    assert r.forPercent == Round(16.0 / 18.0 * 100.0);
    SixteenOfEighteen();
  }

  /** The scores and the vote total of that example, card by card. */
  lemma WeightedScores(a: EvidenceCard, b: EvidenceCard)
    requires a.stance == FOR && a.voteStats == Some(CardVoteStats(2, 8.0))
    requires b.stance == AGAINST && b.voteStats == Some(CardVoteStats(1, 2.0))
    ensures FilterCardsByStance([a, b], FOR) == [a] && FilterCardsByStance([a, b], AGAINST) == [b]
    ensures ScoreSum([a]) == 16.0 && ScoreSum([b]) == 2.0 && CountSum([a] + [b]) == 3
  {
    var ab := [a, b];
    assert ab[..1] == [a] && [a][..0] == [] && [] + [a] == [a];
    assert FilterCardsByStance([a], FOR) == [a] && FilterCardsByStance([a], AGAINST) == [];
    SingleCardFolds(a);
    SingleCardFolds(b);
    assert CardScore(a) == 16.0 && CardScore(b) == 2.0 && CardCount(a) == 2 && CardCount(b) == 1;
    assert ([a] + [b])[..1] == [a] && ([a] + [b])[1] == b;
  }

  lemma SingleCardFolds(c: EvidenceCard)
    ensures ScoreSum([c]) == CardScore(c) && CountSum([c]) == CardCount(c)
  {
    assert [c][..0] == [];
  }

  lemma SixteenOfEighteen()
    ensures Round(16.0 / 18.0 * 100.0) == 89
  {
    assert 16.0 / 18.0 * 100.0 + 0.5 == 1609.0 / 18.0;
    assert 89.0 <= 1609.0 / 18.0 < 90.0;
  }
}
