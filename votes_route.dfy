/**
 * `POST /api/votes` (app/api/votes/route.ts): early-return guards in the
 * order authentication, presence, range, card existence, then an upsert into
 * the vote store at the `userId_cardId` key. The JSON body is the pair of
 * optional fields it is destructured into; the evidence-card table is seen
 * only through its set of ids.
 */
module VotesRoute {
  import opened Common
  import AuthHelpers
  import Votes
  import Validation

  /** `{ cardId, strength }` of the request body; None is `undefined`. */
  datatype VoteBody = VoteBody(cardId: Option<string>, strength: Option<int>)

  /** The response: an HTTP status and, on success, the vote written. */
  datatype Outcome = Outcome(status: int, vote: Option<Vote>)

  /** The request passes the presence guard. */
  predicate Present(body: VoteBody) {
    Truthy(body.cardId) && body.strength.Some?
  }

  /** The request passes the range guard (checked after presence). */
  predicate InRange(body: VoteBody)
    requires body.strength.Some?
  {
    0 <= body.strength.value <= 10
  }

  /** The response the route gives, as a function of the caller, the body and the card ids. */
  function PostVoteOutcome(current: Option<User>, body: VoteBody, cardIds: set<string>): (r: Outcome)
    ensures r.status in {200, 400, 401, 404}
    ensures r.status == 401 <==> current.None?
    ensures r.status == 400 <==> current.Some? && (!Present(body) || !InRange(body))
    ensures r.status == 404 <==> current.Some? && Present(body) && InRange(body) && body.cardId.value !in cardIds
    ensures r.vote.Some? <==> r.status == 200
    ensures r.status == 200 ==> r.vote.value == Vote(current.value.id, body.cardId.value, body.strength.value)
  {
    match AuthHelpers.RequireAuth(current)
    case Err(_) => Outcome(401, None)
    case Ok(user) =>
      if !Present(body) then Outcome(400, None)
      else if !InRange(body) then Outcome(400, None)
      else if body.cardId.value !in cardIds then Outcome(404, None)
      else Outcome(200, Some(Vote(user.id, body.cardId.value, body.strength.value)))
  }

  /** The handler: the guards, then `voteOnCard`'s upsert on success and no write otherwise. */
  method PostVote(store: Votes.VoteStore, current: Option<User>, body: VoteBody, cardIds: set<string>)
    returns (status: int, vote: Option<Vote>)
    modifies store
    ensures Outcome(status, vote) == PostVoteOutcome(current, body, cardIds)
    ensures status == 200 ==>
      store.votes == Votes.Upsert(old(store.votes), current.value.id, body.cardId.value, body.strength.value)
    ensures status != 200 ==> store.votes == old(store.votes)
  {
    var auth := AuthHelpers.RequireAuth(current);
    if auth.Err? {
      return 401, None;
    }
    var user := auth.value;
    if !Truthy(body.cardId) || body.strength.None? {
      return 400, None;
    }
    var cardId := body.cardId.value;
    var strength := body.strength.value;
    if strength < 0 || strength > 10 {
      return 400, None;
    }
    if cardId !in cardIds {
      return 404, None;
    }
    var written := store.VoteOnCard(cardId, user.id, strength);
    return 200, Some(written);
  }

  // ---------------------------------------------------------------------------
  // Lemmas.

  /** Without a user the route answers 401, whatever the body and the cards. */
  lemma UnauthenticatedFirst(body: VoteBody, cardIds: set<string>)
    ensures PostVoteOutcome(None, body, cardIds) == Outcome(401, None)
  {
  }

  /**
   * The route's range guard is wider than the vote scale: every strength on
   * the scale passes it, and so do off-scale strengths such as 1 and 7.
   */
  lemma RangeWiderThanScale(user: User, cardId: string, cardIds: set<string>, strength: int)
    requires cardId != "" && cardId in cardIds
    ensures Validation.ValidateVoteStrength(strength) ==>
      PostVoteOutcome(Some(user), VoteBody(Some(cardId), Some(strength)), cardIds).status == 200
    ensures PostVoteOutcome(Some(user), VoteBody(Some(cardId), Some(7)), cardIds).status == 200
    ensures PostVoteOutcome(Some(user), VoteBody(Some(cardId), Some(1)), cardIds).status == 200
    ensures !Validation.ValidateVoteStrength(7) && !Validation.ValidateVoteStrength(1)
  {
    Validation.VoteStrengthScale(strength);
    Validation.VoteStrengthScale(7);
    Validation.VoteStrengthScale(1);
  }

  /** The range is checked before the card: an out-of-range vote on a missing card is a 400. */
  lemma RangeBeforeExistence(user: User, cardId: string, strength: int)
    requires cardId != "" && (strength < 0 || strength > 10)
    ensures PostVoteOutcome(Some(user), VoteBody(Some(cardId), Some(strength)), {}).status == 400
  {
  }

  /** A repeated request leaves the store as one request did. */
  lemma RepeatedVoteIdempotent(table: Votes.VoteTable, user: User, body: VoteBody, cardIds: set<string>)
    requires PostVoteOutcome(Some(user), body, cardIds).status == 200
    ensures var once := Votes.Upsert(table, user.id, body.cardId.value, body.strength.value);
      Votes.Upsert(once, user.id, body.cardId.value, body.strength.value) == once
  {
    Votes.VoteIdempotent(table, user.id, body.cardId.value, body.strength.value);
  }
}
