/**
 * Capability predicates over a user's role and authorship
 * (lib/utils/permissions.ts).
 */
module Permissions {
  import opened Common

  predicate CanModerate(role: Role) {
    role == MODERATOR || role == ADMIN
  }

  predicate CanAdmin(role: Role) {
    role == ADMIN
  }

  predicate CanEditTheory(userId: string, authorId: string, role: Role) {
    userId == authorId || CanModerate(role)
  }

  predicate CanDeleteTheory(userId: string, authorId: string, role: Role) {
    userId == authorId || CanAdmin(role)
  }

  predicate CanEditEvidence(userId: string, authorId: string, role: Role) {
    userId == authorId || CanModerate(role)
  }

  predicate CanDeleteEvidence(userId: string, authorId: string, role: Role) {
    userId == authorId || CanModerate(role)
  }

  predicate CanResolveReport(role: Role) {
    CanModerate(role)
  }

  /** The role ladder: USER below MODERATOR below ADMIN. */
  function Level(role: Role): (n: nat)
    ensures n <= 2
  {
    match role
    case USER => 0
    case MODERATOR => 1
    case ADMIN => 2
  }

  // ---------------------------------------------------------------------------
  // Lemmas.

  /** Moderation and administration are the top two and the top rung of the ladder. */
  lemma RoleThresholds(role: Role)
    ensures CanModerate(role) <==> Level(role) >= 1
    ensures CanAdmin(role) <==> Level(role) >= 2
    ensures CanAdmin(role) ==> CanModerate(role)
  {
  }

  /** An author may edit and delete their own theory and evidence, whatever their role. */
  lemma AuthorMayAlways(userId: string, role: Role)
    ensures CanEditTheory(userId, userId, role) && CanDeleteTheory(userId, userId, role)
    ensures CanEditEvidence(userId, userId, role) && CanDeleteEvidence(userId, userId, role)
  {
  }

  /** A moderator who is not the author may edit a theory but not delete it. */
  lemma ModeratorEditsButCannotDeleteTheory(userId: string, authorId: string)
    requires userId != authorId
    ensures CanEditTheory(userId, authorId, MODERATOR)
    ensures !CanDeleteTheory(userId, authorId, MODERATOR)
  {
  }

  /** For someone else's theory, deleting needs exactly ADMIN. */
  lemma DeletingOthersTheoryNeedsAdmin(userId: string, authorId: string, role: Role)
    requires userId != authorId
    ensures CanDeleteTheory(userId, authorId, role) <==> role == ADMIN
    ensures CanEditTheory(userId, authorId, role) <==> role != USER
  {
  }

  /** Deleting a theory is never allowed to someone who may not edit it. */
  lemma DeleteTheoryImpliesEdit(userId: string, authorId: string, role: Role)
    ensures CanDeleteTheory(userId, authorId, role) ==> CanEditTheory(userId, authorId, role)
  {
  }

  /** Editing and deleting evidence are the same permission. */
  lemma EvidenceEditIsDelete(userId: string, authorId: string, role: Role)
    ensures CanEditEvidence(userId, authorId, role) == CanDeleteEvidence(userId, authorId, role)
  {
  }

  /** A plain USER who is not the author gets no capability at all. */
  lemma PlainUserDenied(userId: string, authorId: string)
    requires userId != authorId
    ensures !CanModerate(USER) && !CanAdmin(USER) && !CanResolveReport(USER)
    ensures !CanEditTheory(userId, authorId, USER) && !CanDeleteTheory(userId, authorId, USER)
    ensures !CanEditEvidence(userId, authorId, USER) && !CanDeleteEvidence(userId, authorId, USER)
  {
  }

  /** Resolving reports is moderating. */
  lemma ResolveIsModerate(role: Role)
    ensures CanResolveReport(role) == CanModerate(role)
  {
  }
}
