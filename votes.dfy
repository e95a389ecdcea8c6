/**
 * The vote table behind lib/api/votes.ts: at most one vote per (user, card),
 * addressed by the composite unique key `userId_cardId`. The table is a map
 * from that key to the stored strength; `voteOnCard` looks the key up and
 * then updates or creates the row, `removeVote` deletes it, `getUserVote`
 * reads it.
 */
module Votes {
  import opened Common

  /** The `userId_cardId` unique key: (userId, cardId). */
  type VoteKey = (string, string)

  type VoteTable = map<VoteKey, int>

  /** `findUnique({ where: { userId_cardId } })`: the row for the key, if any. */
  function Lookup(table: VoteTable, userId: string, cardId: string): (r: Option<Vote>)
    ensures r.Some? <==> (userId, cardId) in table
    ensures r.Some? ==> r.value == Vote(userId, cardId, table[(userId, cardId)])
  {
    if (userId, cardId) in table then Some(Vote(userId, cardId, table[(userId, cardId)])) else None
  }

  /** The table after writing `strength` at the key, by update or by create. */
  function Upsert(table: VoteTable, userId: string, cardId: string, strength: int): (r: VoteTable)
    ensures (userId, cardId) in r && r[(userId, cardId)] == strength
    ensures r.Keys == table.Keys + {(userId, cardId)}
    ensures forall k :: k in table && k != (userId, cardId) ==> r[k] == table[k]
    ensures |r| == if (userId, cardId) in table then |table| else |table| + 1
  {
    table[(userId, cardId) := strength]
  }

  /** The table after deleting the row at the key. */
  function Delete(table: VoteTable, userId: string, cardId: string): (r: VoteTable)
    ensures r.Keys == table.Keys - {(userId, cardId)}
    ensures forall k :: k in r ==> r[k] == table[k]
    ensures |r| == if (userId, cardId) in table then |table| - 1 else |table|
  {
    table - {(userId, cardId)}
  }

  class VoteStore {
    var votes: VoteTable

    constructor ()
      ensures votes == map[]
    {
      votes := map[];
    }

    /** `getUserVote`: the caller's vote on the card, or null. */
    method GetUserVote(cardId: string, userId: string) returns (vote: Option<Vote>)
      ensures vote == Lookup(votes, userId, cardId)
    {
      if (userId, cardId) in votes {
        vote := Some(Vote(userId, cardId, votes[(userId, cardId)]));
      } else {
        vote := None;
      }
    }

    /** `voteOnCard`: find the existing vote, then update it or create one. */
    method VoteOnCard(cardId: string, userId: string, strength: int) returns (vote: Vote)
      modifies this
      ensures votes == Upsert(old(votes), userId, cardId, strength)
      ensures vote == Vote(userId, cardId, strength)
    {
      var existing := GetUserVote(cardId, userId);
      if existing.Some? {
        votes := votes[(userId, cardId) := strength];
      } else {
        votes := votes[(userId, cardId) := strength];
      }
      vote := Vote(userId, cardId, strength);
    }

    /**
     * `removeVote`: a Prisma `delete` on the unique key, which fails when no
     * such row exists; `ok` is false in that case and the table is unchanged.
     */
    method RemoveVote(cardId: string, userId: string) returns (ok: bool)
      modifies this
      ensures ok <==> (userId, cardId) in old(votes)
      ensures votes == if ok then Delete(old(votes), userId, cardId) else old(votes)
    {
      ok := (userId, cardId) in votes;
      if ok {
        votes := votes - {(userId, cardId)};
      }
    }
  }

  // ---------------------------------------------------------------------------
  // Lemmas about the table operations.

  /** After a vote the caller reads back exactly the strength stored. */
  lemma VoteThenGet(table: VoteTable, userId: string, cardId: string, strength: int)
    ensures Lookup(Upsert(table, userId, cardId, strength), userId, cardId) == Some(Vote(userId, cardId, strength))
  {
  }

  /** A vote leaves every other (user, card) entry as it was. */
  lemma VoteLeavesOthers(table: VoteTable, userId: string, cardId: string, strength: int, u: string, c: string)
    requires (u, c) != (userId, cardId)
    ensures Lookup(Upsert(table, userId, cardId, strength), u, c) == Lookup(table, u, c)
  {
  }

  /** Voting the same strength twice is the same as voting it once. */
  lemma VoteIdempotent(table: VoteTable, userId: string, cardId: string, strength: int)
    ensures Upsert(Upsert(table, userId, cardId, strength), userId, cardId, strength)
         == Upsert(table, userId, cardId, strength)
  {
  }

  /** A re-vote replaces the earlier strength: only the last one remains. */
  lemma ReVoteReplaces(table: VoteTable, userId: string, cardId: string, first: int, second: int)
    ensures Upsert(Upsert(table, userId, cardId, first), userId, cardId, second)
         == Upsert(table, userId, cardId, second)
  {
  }

  /** After a removal the caller has no vote, and nobody else's vote moved. */
  lemma RemoveThenGet(table: VoteTable, userId: string, cardId: string, u: string, c: string)
    ensures Lookup(Delete(table, userId, cardId), userId, cardId) == None
    ensures (u, c) != (userId, cardId) ==> Lookup(Delete(table, userId, cardId), u, c) == Lookup(table, u, c)
  {
  }

  /** Removing a first vote restores the table the vote was cast on. */
  lemma RemoveUndoesFirstVote(table: VoteTable, userId: string, cardId: string, strength: int)
    requires (userId, cardId) !in table
    ensures Delete(Upsert(table, userId, cardId, strength), userId, cardId) == table
  {
  }

  /** Removing and re-casting a vote is the same as re-voting. */
  lemma RemoveThenVote(table: VoteTable, userId: string, cardId: string, strength: int)
    ensures Upsert(Delete(table, userId, cardId), userId, cardId, strength) == Upsert(table, userId, cardId, strength)
  {
    var a, b := Upsert(Delete(table, userId, cardId), userId, cardId, strength), Upsert(table, userId, cardId, strength);
    assert a.Keys == b.Keys;
    assert forall k :: k in a ==> a[k] == b[k];
  }

  /**
   * A client of the store, walked through a vote, a re-vote, a read-back and
   * two removals: the re-vote replaces the first strength and keeps one row,
   * the read-back sees the second strength, the first removal empties the
   * table and the second finds nothing to remove.
   */
  method ReVoteScenario(userId: string, cardId: string)
  {
    var store := new VoteStore();
    var v1 := store.VoteOnCard(cardId, userId, 2);
    var v2 := store.VoteOnCard(cardId, userId, 8);
    assert |store.votes| == 1;
    var got := store.GetUserVote(cardId, userId);
    assert got == Some(Vote(userId, cardId, 8));
    var ok := store.RemoveVote(cardId, userId);
    assert ok && store.votes == map[];
    var again := store.RemoveVote(cardId, userId);
    assert !again;
  }
}
