/**
 * Evidence cards (lib/api/evidence.ts). Reading a theory's cards keeps the
 * ACTIVE ones and annotates each with its average vote strength (5 when it has
 * no votes) and the caller's own vote; writing goes through a card table keyed
 * by id, where deleting is a soft delete and updating touches only the four
 * text fields.
 */
module Evidence {
  import opened Common

  /** A row of the evidence-card table (the columns the core reads or writes). */
  datatype EvidenceCard = EvidenceCard(
    id: string,
    theoryId: string,
    authorId: string,
    content: string,
    source: Option<string>,
    sourceTitle: Option<string>,
    context: Option<string>,
    stance: Stance,
    status: CardStatus)

  /** A card as the queries load it, with `votes: true` included. */
  datatype CardRow = CardRow(card: EvidenceCard, votes: seq<Vote>)

  /** A loaded card annotated with `averageStrength` and `userVote`. */
  datatype CardWithVotes = CardWithVotes(row: CardRow, averageStrength: real, userVote: Option<Vote>)

  /** `EvidenceFormData`, the input of `createEvidenceCard`. */
  datatype EvidenceFormData = EvidenceFormData(
    content: string,
    source: Option<string>,
    sourceTitle: Option<string>,
    context: Option<string>,
    stance: Stance)

  /** `Partial<EvidenceFormData>` as `updateEvidenceCard` uses it; an absent field is left alone. */
  datatype EvidencePatch = EvidencePatch(
    content: Option<string>,
    source: Option<string>,
    sourceTitle: Option<string>,
    context: Option<string>,
    stance: Option<Stance>)

  /** The average shown for a card nobody has voted on. */
  const NoVotesAverage: real := 5.0

  /** `card.votes.reduce((sum, vote) => sum + vote.strength, 0)`. */
  function StrengthSum(votes: seq<Vote>): int {
    if votes == [] then 0 else StrengthSum(votes[..|votes| - 1]) + votes[|votes| - 1].strength
  }

  /** The per-card `averageStrength`. */
  function AverageStrength(votes: seq<Vote>): (avg: real)
    ensures |votes| == 0 ==> avg == NoVotesAverage
    ensures |votes| > 0 ==> avg * |votes| as real == StrengthSum(votes) as real
  {
    if |votes| > 0 then StrengthSum(votes) as real / |votes| as real else NoVotesAverage
  }

  /** Index of the first vote cast by `userId`, or |votes| when there is none. */
  function FirstVoteBy(votes: seq<Vote>, userId: string): (i: nat)
    ensures i <= |votes|
    ensures i < |votes| ==> votes[i].userId == userId
    ensures forall j :: 0 <= j < i ==> votes[j].userId != userId
  {
    if votes == [] then 0
    else if votes[0].userId == userId then 0
    else 1 + FirstVoteBy(votes[1..], userId)
  }

  /** `userId ? card.votes.find(vote => vote.userId === userId) : undefined`. */
  function UserVote(votes: seq<Vote>, userId: Option<string>): (r: Option<Vote>)
    ensures !Truthy(userId) ==> r.None?
    ensures r.Some? ==> r.value in votes && r.value.userId == userId.value
    ensures r.Some? ==> r.value == votes[FirstVoteBy(votes, userId.value)]
    ensures Truthy(userId) && r.None? ==> forall i :: 0 <= i < |votes| ==> votes[i].userId != userId.value
  {
    if !Truthy(userId) then None
    else
      var i := FirstVoteBy(votes, userId.value);
      if i < |votes| then Some(votes[i]) else None
  }

  function WithVotes(row: CardRow, userId: Option<string>): (r: CardWithVotes)
    ensures r.row == row && r.averageStrength == AverageStrength(row.votes) && r.userVote == UserVote(row.votes, userId)
  {
    CardWithVotes(row, AverageStrength(row.votes), UserVote(row.votes, userId))
  }

  /** The `where: { theoryId, status: 'ACTIVE' }` of `getEvidenceCards`. */
  predicate ListedFor(row: CardRow, theoryId: string) {
    row.card.theoryId == theoryId && row.card.status == ACTIVE
  }

  function ActiveCardsOf(rows: seq<CardRow>, theoryId: string): (r: seq<CardRow>)
    ensures |r| <= |rows|
    ensures forall x :: x in r ==> x in rows && ListedFor(x, theoryId)
    ensures forall i :: 0 <= i < |rows| && ListedFor(rows[i], theoryId) ==> rows[i] in r
  {
    if rows == [] then []
    else
      var rest := ActiveCardsOf(rows[..|rows| - 1], theoryId);
      var last := rows[|rows| - 1];
      assert forall i :: 0 <= i < |rows| - 1 ==> rows[i] == rows[..|rows| - 1][i];
      if ListedFor(last, theoryId) then rest + [last] else rest
  }

  function MapWithVotes(rows: seq<CardRow>, userId: Option<string>): (r: seq<CardWithVotes>)
    ensures |r| == |rows|
    ensures forall i :: 0 <= i < |rows| ==> r[i] == WithVotes(rows[i], userId)
  {
    if rows == [] then [] else MapWithVotes(rows[..|rows| - 1], userId) + [WithVotes(rows[|rows| - 1], userId)]
  }

  /**
   * `getEvidenceCards`: the theory's ACTIVE cards, in the order the table
   * yields them (`rows`, newest first), each annotated.
   */
  function GetEvidenceCards(rows: seq<CardRow>, theoryId: string, userId: Option<string>): (r: seq<CardWithVotes>)
    ensures |r| == |ActiveCardsOf(rows, theoryId)|
    ensures forall i :: 0 <= i < |r| ==> r[i] == WithVotes(ActiveCardsOf(rows, theoryId)[i], userId)
    ensures forall x :: x in r ==> x.row in rows && ListedFor(x.row, theoryId)
    ensures forall i :: 0 <= i < |rows| && ListedFor(rows[i], theoryId) ==>
              exists k :: 0 <= k < |r| && r[k].row == rows[i]
  {
    var listed := ActiveCardsOf(rows, theoryId);
    var r := MapWithVotes(listed, userId);
    assert forall x :: x in r ==> exists k :: 0 <= k < |listed| && x == r[k];
    assert forall i :: 0 <= i < |rows| && ListedFor(rows[i], theoryId) ==>
             exists k :: 0 <= k < |listed| && listed[k] == rows[i];
    r
  }

  /** Index of the first row with the given card id, or |rows|. */
  function RowIndex(rows: seq<CardRow>, id: string): (i: nat)
    ensures i <= |rows|
    ensures i < |rows| ==> rows[i].card.id == id
    ensures forall j :: 0 <= j < i ==> rows[j].card.id != id
  {
    if rows == [] then 0
    else if rows[0].card.id == id then 0
    else 1 + RowIndex(rows[1..], id)
  }

  /** `getEvidenceCardById`: the card with that id whatever its status, or null. */
  function GetEvidenceCardById(rows: seq<CardRow>, id: string, userId: Option<string>): (r: Option<CardWithVotes>)
    ensures r.Some? ==> r.value.row in rows && r.value.row.card.id == id
                        && r.value == WithVotes(r.value.row, userId)
    ensures r.None? <==> forall i :: 0 <= i < |rows| ==> rows[i].card.id != id
  {
    var i := RowIndex(rows, id);
    if i < |rows| then Some(WithVotes(rows[i], userId)) else None
  }

  // ---------------------------------------------------------------------------
  // The card table as the queries load it.

  /** The cards of a table are stored under their own ids. */
  predicate KeyedById(cards: map<string, EvidenceCard>) {
    forall k :: k in cards ==> cards[k].id == k
  }

  /** The vote rows of one card, in table order: the `votes: true` of the include. */
  function VotesFor(votes: seq<Vote>, cardId: string): (r: seq<Vote>)
    ensures |r| <= |votes|
    ensures forall v :: v in r ==> v in votes && v.cardId == cardId
    ensures forall i :: 0 <= i < |votes| && votes[i].cardId == cardId ==> votes[i] in r
  {
    if votes == [] then []
    else
      var rest := VotesFor(votes[..|votes| - 1], cardId);
      var last := votes[|votes| - 1];
      assert forall i :: 0 <= i < |votes| - 1 ==> votes[i] == votes[..|votes| - 1][i];
      if last.cardId == cardId then rest + [last] else rest
  }

  /**
   * The rows `findMany` reads from a card table: the card of each id of
   * `order` (the ids newest first, as `orderBy: { createdAt: 'desc' }` lists
   * them), each with its votes. An id without a card gives no row.
   */
  function TableRows(cards: map<string, EvidenceCard>, order: seq<string>, votes: seq<Vote>): (r: seq<CardRow>)
    ensures |r| <= |order|
  {
    if order == [] then []
    else
      var rest := TableRows(cards, order[1..], votes);
      if order[0] in cards then [CardRow(cards[order[0]], VotesFor(votes, order[0]))] + rest else rest
  }

  /** A listing with the entries of one card id removed. */
  function WithoutCard(s: seq<CardWithVotes>, id: string): (r: seq<CardWithVotes>)
    ensures forall x :: x in r ==> x in s && x.row.card.id != id
    ensures forall x :: x in s && x.row.card.id != id ==> x in r
  {
    if s == [] then []
    else if s[0].row.card.id == id then WithoutCard(s[1..], id)
    else [s[0]] + WithoutCard(s[1..], id)
  }

  // ---------------------------------------------------------------------------
  // Writes.

  /** The card after `updateEvidenceCard`: only the text fields given change. */
  function Patched(c: EvidenceCard, patch: EvidencePatch): (r: EvidenceCard)
    ensures r.id == c.id && r.theoryId == c.theoryId && r.authorId == c.authorId
    ensures r.stance == c.stance && r.status == c.status
    ensures r.content == (if patch.content.Some? then patch.content.value else c.content)
    ensures r.source == (if patch.source.Some? then patch.source else c.source)
    ensures r.sourceTitle == (if patch.sourceTitle.Some? then patch.sourceTitle else c.sourceTitle)
    ensures r.context == (if patch.context.Some? then patch.context else c.context)
  {
    c.(content := if patch.content.Some? then patch.content.value else c.content,
       source := if patch.source.Some? then patch.source else c.source,
       sourceTitle := if patch.sourceTitle.Some? then patch.sourceTitle else c.sourceTitle,
       context := if patch.context.Some? then patch.context else c.context)
  }

  /** The card after `deleteEvidenceCard`. */
  function SoftDeleted(c: EvidenceCard): (r: EvidenceCard)
    ensures r.status == DELETED
    ensures r.(status := c.status) == c
  {
    c.(status := DELETED)
  }

  /** The evidence-card table, keyed by id. */
  class CardTable {
    var cards: map<string, EvidenceCard>
    /** The ids in `createdAt` order, newest first. */
    var order: seq<string>

    /** Every card is stored under its id, and the order lists exactly the stored ids, each once. */
    predicate Valid()
      reads this
    {
      && KeyedById(cards)
      && (forall i :: 0 <= i < |order| ==> order[i] in cards)
      && (forall k :: k in cards ==> k in order)
      && (forall i, j :: 0 <= i < j < |order| ==> order[i] != order[j])
    }

    /** A fresh id is not in the order yet, as `CreateThenList` needs. */
    lemma FreshIdUnordered(id: string)
      requires Valid() && id !in cards
      ensures id !in order
    {
    }

    constructor ()
      ensures Valid()
      ensures cards == map[] && order == []
    {
      cards := map[];
      order := [];
    }

    /**
     * `createEvidenceCard`; `id` is the fresh id the database assigns, and the
     * status is the column's default, ACTIVE.
     */
    method CreateEvidenceCard(id: string, theoryId: string, data: EvidenceFormData, authorId: string)
      returns (card: EvidenceCard)
      requires Valid() && id !in cards
      modifies this
      ensures Valid()
      ensures card == EvidenceCard(id, theoryId, authorId, data.content, data.source, data.sourceTitle,
                                   data.context, data.stance, ACTIVE)
      ensures cards == old(cards)[id := card]
      ensures order == [id] + old(order)
    {
      card := EvidenceCard(id, theoryId, authorId, data.content, data.source, data.sourceTitle,
                           data.context, data.stance, ACTIVE);
      cards := cards[id := card];
      order := [id] + order;
    }

    /** `updateEvidenceCard`; a Prisma `update` of a missing id fails and changes nothing. */
    method UpdateEvidenceCard(id: string, patch: EvidencePatch) returns (r: Option<EvidenceCard>)
      requires Valid()
      modifies this
      ensures Valid() && order == old(order)
      ensures r.Some? <==> id in old(cards)
      ensures r.Some? ==> r.value == Patched(old(cards)[id], patch) && cards == old(cards)[id := r.value]
      ensures r.None? ==> cards == old(cards)
    {
      if id in cards {
        var card := Patched(cards[id], patch);
        cards := cards[id := card];
        r := Some(card);
      } else {
        r := None;
      }
    }

    /** `deleteEvidenceCard`: a soft delete that only sets the status to DELETED. */
    method DeleteEvidenceCard(id: string) returns (ok: bool)
      requires Valid()
      modifies this
      ensures Valid() && order == old(order)
      ensures ok <==> id in old(cards)
      ensures ok ==> cards == old(cards)[id := SoftDeleted(old(cards)[id])]
      ensures !ok ==> cards == old(cards)
    {
      ok := id in cards;
      if ok {
        cards := cards[id := SoftDeleted(cards[id])];
      }
    }
  }

  // ---------------------------------------------------------------------------
  // Lemmas.

  predicate StrengthsWithin(votes: seq<Vote>, lo: int, hi: int) {
    forall i :: 0 <= i < |votes| ==> lo <= votes[i].strength <= hi
  }

  lemma {:induction false} StrengthSumBounds(votes: seq<Vote>, lo: int, hi: int)
    requires StrengthsWithin(votes, lo, hi)
    ensures lo * |votes| <= StrengthSum(votes) <= hi * |votes|
    decreases |votes|
  {
    if votes != [] {
      var init := votes[..|votes| - 1];
      assert StrengthsWithin(init, lo, hi) by {
        assert forall i :: 0 <= i < |init| ==> init[i] == votes[i];
      }
      StrengthSumBounds(init, lo, hi);
    }
  }

  /** Strengths on the 0..10 scale give an average on the same scale. */
  lemma AverageWithinScale(votes: seq<Vote>)
    requires StrengthsWithin(votes, 0, 10)
    ensures 0.0 <= AverageStrength(votes) <= 10.0
  {
    if |votes| > 0 {
      StrengthSumBounds(votes, 0, 10);
      var n := |votes| as real;
      var s := StrengthSum(votes) as real;
      assert 0.0 <= s <= 10.0 * n;
      assert s / n <= 10.0 by {
        assert s <= 10.0 * n;
      }
    }
  }

  /** Two votes 0 and 10 average to 5. */
  lemma AverageExample(u1: string, u2: string, cardId: string)
    ensures AverageStrength([Vote(u1, cardId, 0), Vote(u2, cardId, 10)]) == 5.0
  {
    var vs := [Vote(u1, cardId, 0), Vote(u2, cardId, 10)];
    assert vs[..1][..0] == [];
    assert StrengthSum(vs[..1]) == 0;
    assert StrengthSum(vs) == 10;
  }

  /**
   * A re-vote replaces one strength in place: the sum moves by the difference
   * and the count stays, so the old strength is no longer counted.
   */
  lemma {:induction false} ReVoteSum(votes: seq<Vote>, i: nat, strength: int)
    requires i < |votes|
    ensures StrengthSum(votes[i := votes[i].(strength := strength)])
         == StrengthSum(votes) - votes[i].strength + strength
    decreases |votes|
  {
    var v := votes[i := votes[i].(strength := strength)];
    var n := |votes|;
    if i < n - 1 {
      assert v[..n - 1] == votes[..n - 1][i := votes[i].(strength := strength)];
      ReVoteSum(votes[..n - 1], i, strength);
    } else {
      assert v[..n - 1] == votes[..n - 1];
    }
  }

  /** The theory's cards of two runs of rows are those of each run, in order. */
  lemma {:induction false} ActiveCardsOfAppend(a: seq<CardRow>, b: seq<CardRow>, theoryId: string)
    ensures ActiveCardsOf(a + b, theoryId) == ActiveCardsOf(a, theoryId) + ActiveCardsOf(b, theoryId)
    decreases |b|
  {
    if b == [] {
      assert a + b == a;
    } else {
      var b' := b[..|b| - 1];
      assert (a + b)[..|a + b| - 1] == a + b' && (a + b)[|a + b| - 1] == b[|b| - 1];
      ActiveCardsOfAppend(a, b', theoryId);
      var x, y := ActiveCardsOf(a, theoryId), ActiveCardsOf(b', theoryId);
      if ListedFor(b[|b| - 1], theoryId) {
        assert (x + y) + [b[|b| - 1]] == x + (y + [b[|b| - 1]]);
      }
    }
  }

  /** One row is listed exactly when it is an ACTIVE card of the theory. */
  lemma ActiveCardsOfSingle(row: CardRow, theoryId: string)
    ensures ActiveCardsOf([row], theoryId) == if ListedFor(row, theoryId) then [row] else []
  {
    assert [row][..0] == [];
  }

  /**
   * `getEvidenceCards` keeps the table's order: the list of two runs of rows
   * is the list of the first run followed by that of the second.
   */
  lemma GetEvidenceCardsAppend(a: seq<CardRow>, b: seq<CardRow>, theoryId: string, userId: Option<string>)
    ensures GetEvidenceCards(a + b, theoryId, userId)
         == GetEvidenceCards(a, theoryId, userId) + GetEvidenceCards(b, theoryId, userId)
  {
    ActiveCardsOfAppend(a, b, theoryId);
    var x, y := ActiveCardsOf(a, theoryId), ActiveCardsOf(b, theoryId);
    var r, p, q := GetEvidenceCards(a + b, theoryId, userId), GetEvidenceCards(a, theoryId, userId),
                   GetEvidenceCards(b, theoryId, userId);
    assert |r| == |p + q|;
    forall i | 0 <= i < |r| ensures r[i] == (p + q)[i] {
      if i < |x| {
        assert (x + y)[i] == x[i];
      } else {
        assert (x + y)[i] == y[i - |x|];
      }
    }
  }

  /** A soft-deleted card disappears from its theory's list but is still found by id. */
  lemma DeletedCardStillFoundById(rows: seq<CardRow>, k: nat, userId: Option<string>)
    requires k < |rows| && rows[k].card.status == DELETED
    ensures forall x :: x in GetEvidenceCards(rows, rows[k].card.theoryId, userId) ==> x.row != rows[k]
    ensures GetEvidenceCardById(rows, rows[k].card.id, userId).Some?
  {
  }

  /** Updating a card never changes its stance or moderation status. */
  lemma UpdateKeepsStanceAndStatus(c: EvidenceCard, patch: EvidencePatch)
    ensures Patched(c, patch).stance == c.stance && Patched(c, patch).status == c.status
  {
  }

  /** An empty patch changes nothing, so the stance in a patch is ignored. */
  lemma EmptyPatchIsIdentity(c: EvidenceCard, stance: Option<Stance>)
    ensures Patched(c, EvidencePatch(None, None, None, None, stance)) == c
  {
  }

  /** One loaded row is listed, with its votes attached, exactly when it is an ACTIVE card of the theory. */
  lemma GetEvidenceCardsSingle(row: CardRow, theoryId: string, userId: Option<string>)
    ensures GetEvidenceCards([row], theoryId, userId) == if ListedFor(row, theoryId) then [WithVotes(row, userId)] else []
  {
    ActiveCardsOfSingle(row, theoryId);
  }

  /** Removing one card's entries distributes over concatenation. */
  lemma {:induction false} WithoutCardAppend(a: seq<CardWithVotes>, b: seq<CardWithVotes>, id: string)
    ensures WithoutCard(a + b, id) == WithoutCard(a, id) + WithoutCard(b, id)
    decreases |a|
  {
    if a == [] {
      assert a + b == b;
    } else {
      assert (a + b)[0] == a[0] && (a + b)[1..] == a[1..] + b;
      WithoutCardAppend(a[1..], b, id);
      if a[0].row.card.id != id {
        assert [a[0]] + (WithoutCard(a[1..], id) + WithoutCard(b, id))
            == ([a[0]] + WithoutCard(a[1..], id)) + WithoutCard(b, id);
      }
    }
  }

  /** Writing a card under an id the order does not list leaves the loaded rows as they were. */
  lemma {:induction false} TableRowsUntouched(cards: map<string, EvidenceCard>, order: seq<string>,
                                              votes: seq<Vote>, id: string, card: EvidenceCard)
    requires id !in order
    ensures TableRows(cards[id := card], order, votes) == TableRows(cards, order, votes)
    decreases |order|
  {
    if order != [] {
      assert order[0] != id;
      assert forall k :: k in order[1..] ==> k in order;
      TableRowsUntouched(cards, order[1..], votes, id, card);
    }
  }

  /**
   * `createEvidenceCard` then `getEvidenceCards`: the new card, being the
   * newest, heads the theory's listing with its votes attached, and the rest
   * of the listing is what it was before.
   */
  lemma CreateThenList(cards: map<string, EvidenceCard>, order: seq<string>, votes: seq<Vote>,
                       card: EvidenceCard, theoryId: string, userId: Option<string>)
    requires card.id !in order
    ensures var row := CardRow(card, VotesFor(votes, card.id));
      GetEvidenceCards(TableRows(cards[card.id := card], [card.id] + order, votes), theoryId, userId)
      == (if ListedFor(row, theoryId) then [WithVotes(row, userId)] else [])
         + GetEvidenceCards(TableRows(cards, order, votes), theoryId, userId)
  {
    var row := CardRow(card, VotesFor(votes, card.id));
    var c' := cards[card.id := card];
    assert ([card.id] + order)[1..] == order;
    assert TableRows(c', [card.id] + order, votes) == [row] + TableRows(c', order, votes);
    TableRowsUntouched(cards, order, votes, card.id, card);
    GetEvidenceCardsAppend([row], TableRows(cards, order, votes), theoryId, userId);
    GetEvidenceCardsSingle(row, theoryId, userId);
  }

  /** A one-entry listing loses its entry exactly when it is the removed card's. */
  lemma WithoutCardSingle(x: CardWithVotes, id: string)
    ensures WithoutCard([x], id) == if x.row.card.id == id then [] else [x]
  {
    assert [x][1..] == [];
  }

  /** One row after a soft delete of `id`: listed as before unless it is that card. */
  lemma DeleteOneRow(rn: CardRow, ro: CardRow, id: string, theoryId: string, userId: Option<string>)
    requires if ro.card.id == id then rn.card.status == DELETED else rn == ro
    ensures GetEvidenceCards([rn], theoryId, userId) == WithoutCard(GetEvidenceCards([ro], theoryId, userId), id)
  {
    GetEvidenceCardsSingle(rn, theoryId, userId);
    GetEvidenceCardsSingle(ro, theoryId, userId);
    WithoutCardSingle(WithVotes(ro, userId), id);
    if ro.card.id == id {
      assert WithoutCard([], id) == [];
    }
  }

  /**
   * `deleteEvidenceCard` then `getEvidenceCards`: the listing is the old one
   * without the deleted card, and everything else in it stays, in order.
   */
  lemma {:induction false} DeleteThenList(cards: map<string, EvidenceCard>, order: seq<string>, votes: seq<Vote>,
                                          id: string, theoryId: string, userId: Option<string>)
    requires id in cards && KeyedById(cards)
    ensures GetEvidenceCards(TableRows(cards[id := SoftDeleted(cards[id])], order, votes), theoryId, userId)
         == WithoutCard(GetEvidenceCards(TableRows(cards, order, votes), theoryId, userId), id)
    decreases |order|
  {
    var c' := cards[id := SoftDeleted(cards[id])];
    if order == [] {
      assert GetEvidenceCards([], theoryId, userId) == [];
    } else {
      var k, rest := order[0], order[1..];
      DeleteThenList(cards, rest, votes, id, theoryId, userId);
      var n, o := TableRows(c', rest, votes), TableRows(cards, rest, votes);
      if k in cards {
        var rn, ro := CardRow(c'[k], VotesFor(votes, k)), CardRow(cards[k], VotesFor(votes, k));
        assert TableRows(c', order, votes) == [rn] + n;
        assert TableRows(cards, order, votes) == [ro] + o;
        GetEvidenceCardsAppend([rn], n, theoryId, userId);
        GetEvidenceCardsAppend([ro], o, theoryId, userId);
        WithoutCardAppend(GetEvidenceCards([ro], theoryId, userId), GetEvidenceCards(o, theoryId, userId), id);
        assert cards[k].id == k;
        DeleteOneRow(rn, ro, id, theoryId, userId);
      }
    }
  }

  /** When every id of the order is stored, row i is the card of id i of the order. */
  lemma {:induction false} TableRowsAt(cards: map<string, EvidenceCard>, order: seq<string>, votes: seq<Vote>)
    requires forall i :: 0 <= i < |order| ==> order[i] in cards
    ensures |TableRows(cards, order, votes)| == |order|
    ensures forall i :: 0 <= i < |order| ==> TableRows(cards, order, votes)[i].card == cards[order[i]]
    decreases |order|
  {
    if order != [] {
      assert forall i :: 0 <= i < |order[1..]| ==> order[1..][i] == order[i + 1];
      TableRowsAt(cards, order[1..], votes);
    }
  }

  /** A table whose order lists each stored id once loads each card once. */
  lemma TableRowsDistinct(cards: map<string, EvidenceCard>, order: seq<string>, votes: seq<Vote>)
    requires KeyedById(cards)
    requires forall i :: 0 <= i < |order| ==> order[i] in cards
    requires forall i, j :: 0 <= i < j < |order| ==> order[i] != order[j]
    ensures var r := TableRows(cards, order, votes);
      forall i, j :: 0 <= i < j < |r| ==> r[i].card.id != r[j].card.id
  {
    TableRowsAt(cards, order, votes);
  }

  /** A soft-deleted card is no longer listed by `getEvidenceCards`. */
  lemma DeletedCardNotListed(cards: map<string, EvidenceCard>, order: seq<string>, votes: seq<Vote>,
                             id: string, theoryId: string, userId: Option<string>)
    requires id in cards && KeyedById(cards)
    ensures forall x :: x in GetEvidenceCards(TableRows(cards[id := SoftDeleted(cards[id])], order, votes), theoryId, userId)
                        ==> x.row.card.id != id
  {
    DeleteThenList(cards, order, votes, id, theoryId, userId);
  }
}
