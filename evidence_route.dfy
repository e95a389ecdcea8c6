/**
 * `POST /api/evidence` (app/api/evidence/route.ts): guards in the order
 * authentication, presence, stance, theory existence, then a new ACTIVE card
 * in the card table. The theory table is seen only through its set of ids;
 * the id the database gives the new card is a parameter.
 */
module EvidenceRoute {
  import opened Common
  import AuthHelpers
  import Evidence

  /** The destructured request body; None is `undefined`. */
  datatype EvidenceBody = EvidenceBody(
    theoryId: Option<string>,
    content: Option<string>,
    stance: Option<string>,
    source: Option<string>,
    sourceTitle: Option<string>,
    context: Option<string>)

  /** The response: an HTTP status and, on success, the card created. */
  datatype Outcome = Outcome(status: int, card: Option<Evidence.EvidenceCard>)

  /** `Object.values(Stance).includes(s)`, giving the stance named. */
  function ParseStance(s: string): (r: Option<Stance>)
    ensures r.Some? <==> s == "FOR" || s == "AGAINST"
    ensures r == Some(FOR) <==> s == "FOR"
  {
    if s == "FOR" then Some(FOR) else if s == "AGAINST" then Some(AGAINST) else None
  }

  predicate Present(body: EvidenceBody) {
    Truthy(body.theoryId) && Truthy(body.content) && Truthy(body.stance)
  }

  /** The card the route writes: ACTIVE, authored by the caller, falsy optional fields as null. */
  function NewCard(id: string, body: EvidenceBody, stance: Stance, authorId: string): Evidence.EvidenceCard
    requires Present(body)
  {
    Evidence.EvidenceCard(id, body.theoryId.value, authorId, body.content.value,
      OrNull(body.source), OrNull(body.sourceTitle), OrNull(body.context), stance, ACTIVE)
  }

  /** The response the route gives. */
  function PostEvidenceOutcome(current: Option<User>, body: EvidenceBody, theoryIds: set<string>, id: string)
    : (r: Outcome)
    ensures r.status in {201, 400, 401, 404}
    ensures r.status == 401 <==> current.None?
    ensures r.status == 400 <==> current.Some? && (!Present(body) || ParseStance(body.stance.value).None?)
    ensures r.status == 404 <==> current.Some? && Present(body) && ParseStance(body.stance.value).Some?
                                  && body.theoryId.value !in theoryIds
    ensures r.card.Some? <==> r.status == 201
    ensures r.status == 201 ==>
      && r.card.value.id == id && r.card.value.status == ACTIVE
      && r.card.value.authorId == current.value.id
      && r.card.value.theoryId == body.theoryId.value && r.card.value.theoryId in theoryIds
      && r.card.value.content == body.content.value
      && Some(r.card.value.stance) == ParseStance(body.stance.value)
      && r.card.value.source == OrNull(body.source)
      && r.card.value.sourceTitle == OrNull(body.sourceTitle)
      && r.card.value.context == OrNull(body.context)
  {
    match AuthHelpers.RequireAuth(current)
    case Err(_) => Outcome(401, None)
    case Ok(user) =>
      if !Present(body) then Outcome(400, None)
      else match ParseStance(body.stance.value)
        case None => Outcome(400, None)
        case Some(stance) =>
          if body.theoryId.value !in theoryIds then Outcome(404, None)
          else Outcome(201, Some(NewCard(id, body, stance, user.id)))
  }

  /** The handler: the guards, then `evidenceCard.create` on success and no write otherwise. */
  method PostEvidence(table: Evidence.CardTable, current: Option<User>, body: EvidenceBody,
                      theoryIds: set<string>, id: string)
    returns (status: int, card: Option<Evidence.EvidenceCard>)
    requires table.Valid() && id !in table.cards
    modifies table
    ensures table.Valid()
    ensures Outcome(status, card) == PostEvidenceOutcome(current, body, theoryIds, id)
    ensures status == 201 ==> table.cards == old(table.cards)[id := card.value] && table.order == [id] + old(table.order)
    ensures status != 201 ==> table.cards == old(table.cards) && table.order == old(table.order)
  {
    var auth := AuthHelpers.RequireAuth(current);
    if auth.Err? {
      return 401, None;
    }
    var user := auth.value;
    if !Truthy(body.theoryId) || !Truthy(body.content) || !Truthy(body.stance) {
      return 400, None;
    }
    var stance := ParseStance(body.stance.value);
    if stance.None? {
      return 400, None;
    }
    if body.theoryId.value !in theoryIds {
      return 404, None;
    }
    var data := Evidence.EvidenceFormData(body.content.value, OrNull(body.source),
      OrNull(body.sourceTitle), OrNull(body.context), stance.value);
    var created := table.CreateEvidenceCard(id, body.theoryId.value, data, user.id);
    return 201, Some(created);
  }

  // ---------------------------------------------------------------------------
  // Lemmas.

  /** Without a user the route answers 401 before looking at the body. */
  lemma UnauthenticatedFirst(body: EvidenceBody, theoryIds: set<string>, id: string)
    ensures PostEvidenceOutcome(None, body, theoryIds, id) == Outcome(401, None)
  {
  }

  /** A lower-case stance is refused: the enum comparison is exact. */
  lemma StanceIsCaseSensitive(user: User, body: EvidenceBody, theoryIds: set<string>, id: string)
    requires Truthy(body.theoryId) && Truthy(body.content) && body.stance == Some("for")
    ensures PostEvidenceOutcome(Some(user), body, theoryIds, id).status == 400
  {
  }

  /**
   * A card the route creates is listed first among its theory's cards, with
   * its votes attached, ahead of the cards listed before. The requirement on
   * `order` holds of a valid table, since `id` is not yet a stored id.
   */
  lemma CreatedCardIsListed(current: Option<User>, body: EvidenceBody, theoryIds: set<string>, id: string,
                            cards: map<string, Evidence.EvidenceCard>, order: seq<string>, votes: seq<Vote>,
                            userId: Option<string>)
    requires PostEvidenceOutcome(current, body, theoryIds, id).status == 201
    requires id !in order
    ensures var c := PostEvidenceOutcome(current, body, theoryIds, id).card.value;
      Evidence.GetEvidenceCards(Evidence.TableRows(cards[id := c], [id] + order, votes), body.theoryId.value, userId)
      == [Evidence.WithVotes(Evidence.CardRow(c, Evidence.VotesFor(votes, id)), userId)]
         + Evidence.GetEvidenceCards(Evidence.TableRows(cards, order, votes), body.theoryId.value, userId)
  {
    var c := PostEvidenceOutcome(current, body, theoryIds, id).card.value;
    Evidence.CreateThenList(cards, order, votes, c, body.theoryId.value, userId);
  }
}
