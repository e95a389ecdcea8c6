/**
 * The routing gate (middleware.ts): a `withAuth` wrapper whose `authorized`
 * callback runs first (a false verdict sends the request to the sign-in
 * page), followed by the redirect decision of the inner `middleware`, both
 * applied only to the paths the `matcher` lists.
 */
module Middleware {
  import opened Common

  /** The JWT as the gate sees it: the user's id and role. */
  datatype Token = Token(id: string, role: Role)

  /** `NextResponse.next()` or `NextResponse.redirect(location)`. */
  datatype Decision = Next | Redirect(location: string)

  /** What `withAuth` does with a request. */
  datatype Gate = NotMatched | ToSignIn | Ran(decision: Decision)

  predicate HasRole(token: Option<Token>, role: Role) {
    token.Some? && token.value.role == role
  }

  /** The inner `middleware`: prefix tests in source order, the first redirect wins. */
  function MiddlewareDecision(pathname: string, token: Option<Token>): Decision {
    if StartsWith(pathname, "/admin") && !HasRole(token, ADMIN) then Redirect("/")
    else if StartsWith(pathname, "/moderation") && !HasRole(token, ADMIN) && !HasRole(token, MODERATOR) then Redirect("/")
    else if StartsWith(pathname, "/theory/new") && token.None? then Redirect("/login")
    else Next
  }

  /** The public paths of the `authorized` callback. */
  predicate PublicPath(pathname: string) {
    || pathname == "/"
    || StartsWith(pathname, "/login")
    || StartsWith(pathname, "/register")
    || (StartsWith(pathname, "/theory/") && !StartsWith(pathname, "/theory/new"))
  }

  /** The `authorized` callback. */
  predicate Authorized(pathname: string, token: Option<Token>) {
    PublicPath(pathname) || token.Some?
  }

  /** `config.matcher`: `/admin/:path*`, `/moderation/:path*` and `/theory/new`. */
  predicate Matched(pathname: string) {
    || pathname == "/admin" || StartsWith(pathname, "/admin/")
    || pathname == "/moderation" || StartsWith(pathname, "/moderation/")
    || pathname == "/theory/new"
  }

  /** The whole gate. */
  function WithAuth(pathname: string, token: Option<Token>): (g: Gate)
    ensures g.NotMatched? <==> !Matched(pathname)
    ensures g.ToSignIn? <==> Matched(pathname) && token.None?
    ensures g.Ran? ==> g.decision == MiddlewareDecision(pathname, token)
  {
    if !Matched(pathname) then NotMatched
    else
      MatchedPathsNeedToken(pathname);
      if !Authorized(pathname, token) then ToSignIn
      else Ran(MiddlewareDecision(pathname, token))
  }

  // ---------------------------------------------------------------------------
  // Lemmas about the inner decision.

  /** A string with a prefix agrees with it character by character. */
  lemma CharOfPrefix(s: string, prefix: string, i: nat)
    requires StartsWith(s, prefix) && i < |prefix|
    ensures i < |s| && s[i] == prefix[i]
  {
    assert s[i] == s[..|prefix|][i];
  }

  /** A string that disagrees with `prefix` at some position does not start with it. */
  lemma NotPrefixAt(s: string, prefix: string, i: nat)
    requires i < |prefix| && (i >= |s| || s[i] != prefix[i])
    ensures !StartsWith(s, prefix)
  {
    if StartsWith(s, prefix) {
      CharOfPrefix(s, prefix, i);
    }
  }

  /** The second character of a path with one of the gated or public prefixes. */
  lemma SecondChar(s: string)
    ensures StartsWith(s, "/admin") ==> |s| > 1 && s[1] == 'a'
    ensures StartsWith(s, "/moderation") ==> |s| > 1 && s[1] == 'm'
    ensures StartsWith(s, "/theory/") ==> |s| > 1 && s[1] == 't'
    ensures StartsWith(s, "/theory/new") ==> |s| > 1 && s[1] == 't' && StartsWith(s, "/theory/")
    ensures StartsWith(s, "/login") ==> |s| > 1 && s[1] == 'l'
    ensures StartsWith(s, "/register") ==> |s| > 1 && s[1] == 'r'
    ensures StartsWith(s, "/admin/") ==> StartsWith(s, "/admin")
    ensures StartsWith(s, "/moderation/") ==> StartsWith(s, "/moderation")
  {
    if StartsWith(s, "/admin") { CharOfPrefix(s, "/admin", 1); }
    if StartsWith(s, "/moderation") { CharOfPrefix(s, "/moderation", 1); }
    if StartsWith(s, "/theory/") { CharOfPrefix(s, "/theory/", 1); }
    if StartsWith(s, "/theory/new") {
      CharOfPrefix(s, "/theory/new", 1);
      assert s[..8] == s[..11][..8];
    }
    if StartsWith(s, "/login") { CharOfPrefix(s, "/login", 1); }
    if StartsWith(s, "/register") { CharOfPrefix(s, "/register", 1); }
    if StartsWith(s, "/admin/") { assert s[..6] == s[..7][..6]; }
    if StartsWith(s, "/moderation/") { assert s[..11] == s[..12][..11]; }
  }

  /** An "/admin…" path redirects to "/" unless the token's role is ADMIN; no token redirects too. */
  lemma AdminGate(pathname: string, token: Option<Token>)
    requires StartsWith(pathname, "/admin")
    ensures MiddlewareDecision(pathname, token) == Redirect("/") <==> !HasRole(token, ADMIN)
    ensures HasRole(token, ADMIN) ==> MiddlewareDecision(pathname, token) == Next
  {
    SecondChar(pathname);
  }

  /** A "/moderation…" path redirects to "/" unless the role is ADMIN or MODERATOR. */
  lemma ModerationGate(pathname: string, token: Option<Token>)
    requires StartsWith(pathname, "/moderation")
    ensures MiddlewareDecision(pathname, token) == Redirect("/")
        <==> !HasRole(token, ADMIN) && !HasRole(token, MODERATOR)
    ensures MiddlewareDecision(pathname, token) != Redirect("/") ==> MiddlewareDecision(pathname, token) == Next
  {
    SecondChar(pathname);
  }

  /** A "/theory/new…" path without a token redirects to "/login"; with one it passes. */
  lemma NewTheoryGate(pathname: string, token: Option<Token>)
    requires StartsWith(pathname, "/theory/new")
    ensures MiddlewareDecision(pathname, token) == (if token.None? then Redirect("/login") else Next)
  {
    SecondChar(pathname);
  }

  /** A path under none of the three prefixes passes through. */
  lemma OtherPathsPass(pathname: string, token: Option<Token>)
    requires !StartsWith(pathname, "/admin") && !StartsWith(pathname, "/moderation")
    requires !StartsWith(pathname, "/theory/new")
    ensures MiddlewareDecision(pathname, token) == Next
  {
  }

  /** The tests are raw prefixes: "/administrator" is gated as an admin page. */
  lemma AdministratorGatedAsAdmin()
    ensures MiddlewareDecision("/administrator", None) == Redirect("/")
    ensures MiddlewareDecision("/administrator", Some(Token("u", MODERATOR))) == Redirect("/")
  {
    assert "/administrator"[..6] == "/admin";
  }

  // ---------------------------------------------------------------------------
  // Lemmas about the callback and the whole gate.

  /** The public paths are authorized whatever the token; any other path needs a token. */
  lemma AuthorizedPaths(pathname: string, token: Option<Token>)
    ensures PublicPath(pathname) ==> Authorized(pathname, token)
    ensures !PublicPath(pathname) ==> (Authorized(pathname, token) <==> token.Some?)
  {
  }

  /** "/theory/new" and all of its extensions are not public. */
  lemma NewTheoryNotPublic(pathname: string)
    requires StartsWith(pathname, "/theory/new")
    ensures !PublicPath(pathname)
  {
    SecondChar(pathname);
  }

  /** No matched path is public, so each needs a token to get past the callback. */
  lemma MatchedPathsNeedToken(pathname: string)
    requires Matched(pathname)
    ensures !PublicPath(pathname)
  {
    SecondChar(pathname);
    if pathname == "/theory/new" {
      NewTheoryNotPublic(pathname);
    } else if pathname == "/admin" || pathname == "/moderation" {
      assert pathname[1] == 'a' || pathname[1] == 'm';
    }
  }

  /**
   * Behind the callback the inner "/login" redirect never fires: a request
   * without a token is sent to sign in before the middleware runs.
   */
  lemma LoginRedirectUnreachable(pathname: string, token: Option<Token>)
    ensures WithAuth(pathname, token) != Ran(Redirect("/login"))
  {
    if Matched(pathname) && token.Some? {
      assert MiddlewareDecision(pathname, token) != Redirect("/login");
    }
  }

  /** An admin page is served exactly to ADMIN tokens. */
  lemma AdminPagesOnlyForAdmins(rest: string, token: Option<Token>)
    ensures WithAuth("/admin/" + rest, token) == Ran(Next) <==> HasRole(token, ADMIN)
  {
    var p := "/admin/" + rest;
    assert p[..7] == "/admin/";
    SecondChar(p);
    AdminGate(p, token);
    MatchedPathsNeedToken(p);
  }

  /** "/administrator" is not in the matcher, so the gate never runs on it. */
  lemma AdministratorNotMatched()
    ensures WithAuth("/administrator", None) == NotMatched
  {
    var p := "/administrator";
    NotPrefixAt(p, "/admin/", 6);
    NotPrefixAt(p, "/moderation/", 1);
  }
}
