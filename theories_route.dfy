/**
 * `/api/theories` (app/api/theories/route.ts). GET lists theories after a
 * `where` built from the query (status defaulting to ACTIVE) and slices one
 * page by fetching one row more than the page size; POST creates a theory
 * under a Cyrillic-aware slug, suffixed when the plain slug is taken. The
 * theory table is a sequence, newest first (the `createdAt: "desc"` order).
 * The random slug suffix and the fresh id are parameters.
 */
module TheoriesRoute {
  import opened Common
  import AuthHelpers
  import Slug

  /** The values of the `TheoryStatus` enum (from its label table). */
  const TheoryStatuses: seq<string> := ["DRAFT", "ACTIVE", "ARCHIVED", "RESOLVED", "MODERATED"]
  const Active := "ACTIVE"

  datatype Theory = Theory(
    id: string,
    slug: string,
    title: string,
    claim: string,
    tldr: string,
    realm: Option<string>,
    topic: Option<string>,
    tags: seq<string>,
    status: string,
    authorId: string)

  // ---------------------------------------------------------------------------
  // The route's own `generateSlug`: the class [а-яёa-z0-9\s-].

  /** The characters the class keeps besides whitespace and '-'. */
  predicate IsTheorySlugClass(c: char) {
    '\U{0430}' <= c <= '\U{044F}' || c == '\U{0451}' || 'a' <= c <= 'z' || '0' <= c <= '9'
  }

  function GenerateSlug(title: string): string {
    Slug.Slugify(title, IsTheorySlugClass)
  }

  predicate IsTheorySlug(s: string) {
    Slug.NoDoubleDash(s) && forall i :: 0 <= i < |s| ==> IsTheorySlugClass(s[i]) || s[i] == '-'
  }

  /** The output holds only а–я, ё, a–z, 0–9 and '-', and never "--". */
  lemma GenerateSlugIsTheorySlug(title: string)
    ensures IsTheorySlug(GenerateSlug(title))
  {
    Slug.SlugifyShape(title, IsTheorySlugClass);
  }

  /**
   * Unlike the library's slug, the route's drops '_': for letters x and y,
   * "x_ y" gives "x-y".
   */
  lemma UnderscoreExample(x: char, y: char)
    requires 'a' <= x <= 'z' && 'a' <= y <= 'z'
    ensures GenerateSlug([x] + "_ " + [y]) == [x] + "-" + [y]
  {
    var a, w, b := [x], " ", [y];
    assert "_ " == ['_'] + w;
    Slug.AppendAssoc(a, ['_'], w);
    Slug.AppendAssoc(a + ['_'], w, b);
    assert Slug.LowerChar('_') == ['_'] && !Slug.Kept('_', IsTheorySlugClass);
    Slug.SlugifyDropsOutside(a, '_', w + b, IsTheorySlugClass);
    Slug.AppendAssoc(a, w, b);
    SpaceJoinsLetters(x, y);
  }

  /** For letters x and y, "x y" gives "x-y". */
  lemma SpaceJoinsLetters(x: char, y: char)
    requires 'a' <= x <= 'z' && 'a' <= y <= 'z'
    ensures GenerateSlug([x] + " " + [y]) == [x] + "-" + [y]
  {
    var w := " ";
    assert AllWhitespace(w) by {
      assert w[0] == ' ';
    }
    Slug.SlugifyJoinsWords([x], w, [y], IsTheorySlugClass);
  }

  /** A character of the class, or '-', is not whitespace and has nothing to lower-case. */
  lemma PlainSlugChar(c: char)
    requires IsTheorySlugClass(c) || c == '-'
    ensures !IsJsWhitespace(c) && Slug.LowerChar(c) == [c]
  {
  }

  /** A theory slug is its own slug. */
  lemma TheorySlugFixpoint(s: string)
    requires IsTheorySlug(s)
    ensures GenerateSlug(s) == s
  {
    forall i | 0 <= i < |s| ensures !IsJsWhitespace(s[i]) && Slug.LowerChar(s[i]) == [s[i]] {
      PlainSlugChar(s[i]);
    }
    Slug.SlugifyFixpoint(s, IsTheorySlugClass);
  }

  /** The route's `generateSlug` is idempotent. */
  lemma GenerateSlugIdempotent(title: string)
    ensures GenerateSlug(GenerateSlug(title)) == GenerateSlug(title)
  {
    GenerateSlugIsTheorySlug(title);
    TheorySlugFixpoint(GenerateSlug(title));
  }

  /** Unlike lib/utils/slug.ts, this class has no '_': an underscore is dropped. */
  lemma UnderscoreDropped(title: string)
    ensures '_' !in GenerateSlug(title)
  {
    GenerateSlugIsTheorySlug(title);
    NoUnderscore(GenerateSlug(title));
  }

  lemma NoUnderscore(s: string)
    requires IsTheorySlug(s)
    ensures '_' !in s
  {
    forall i | 0 <= i < |s| ensures s[i] != '_' {
      assert IsTheorySlugClass(s[i]) || s[i] == '-';
    }
  }

  // ---------------------------------------------------------------------------
  // GET.

  /** The query parameters; `page` and `limit` already parsed (defaults 0 and 12). */
  datatype Query = Query(
    status: Option<string>,
    realm: Option<string>,
    topic: Option<string>,
    search: Option<string>,
    page: nat,
    limit: nat)

  /** The `where` object: a status always, the other filters only when given. */
  datatype Where = Where(status: string, realm: Option<string>, topic: Option<string>, search: Option<string>)

  function BuildWhere(q: Query): (w: Where)
    ensures !Truthy(q.status) ==> w.status == Active
    ensures Truthy(q.status) ==> w.status == q.status.value
    ensures w.realm == OrNull(q.realm) && w.topic == OrNull(q.topic) && w.search == OrNull(q.search)
  {
    Where(if Truthy(q.status) then q.status.value else Active, OrNull(q.realm), OrNull(q.topic), OrNull(q.search))
  }

  /** `sub` occurs in `s` at index `i`. */
  predicate OccursAt(s: string, sub: string, i: nat) {
    i + |sub| <= |s| && s[i..i + |sub|] == sub
  }

  /** `sub` occurs in `s`. */
  predicate Contains(s: string, sub: string) {
    exists i: nat | i <= |s| :: OccursAt(s, sub, i)
  }

  /** The `OR` of the search: title or claim contain it ignoring case, or a tag equals it. */
  predicate SearchHit(t: Theory, search: string) {
    || Contains(Slug.Lower(t.title), Slug.Lower(search))
    || Contains(Slug.Lower(t.claim), Slug.Lower(search))
    || search in t.tags
  }

  predicate Matches(t: Theory, w: Where) {
    && t.status == w.status
    && (w.realm.Some? ==> t.realm == w.realm)
    && (w.topic.Some? ==> t.topic == w.topic)
    && (w.search.Some? ==> SearchHit(t, w.search.value))
  }

  /** The rows the `where` selects, in table order. */
  function Select(rows: seq<Theory>, w: Where): (r: seq<Theory>)
    ensures |r| <= |rows|
    ensures forall x :: x in r <==> x in rows && Matches(x, w)
  {
    if rows == [] then []
    else if Matches(rows[0], w) then [rows[0]] + Select(rows[1..], w)
    else Select(rows[1..], w)
  }

  /** Selecting from two runs of rows selects from each, in order. */
  lemma {:induction false} SelectAppend(a: seq<Theory>, b: seq<Theory>, w: Where)
    ensures Select(a + b, w) == Select(a, w) + Select(b, w)
    decreases |a|
  {
    if a == [] {
      assert a + b == b;
    } else {
      assert (a + b)[0] == a[0] && (a + b)[1..] == a[1..] + b;
      SelectAppend(a[1..], b, w);
    }
  }

  /** One row is selected exactly when it matches. */
  lemma SelectSingle(t: Theory, w: Where)
    ensures Select([t], w) == if Matches(t, w) then [t] else []
  {
    assert [t][1..] == [];
  }

  function Min(a: int, b: int): int {
    if a <= b then a else b
  }

  /** `skip: page * limit`, written as repeated addition so the page lemmas stay linear. */
  function Offset(page: nat, limit: nat): nat {
    if page == 0 then 0 else Offset(page - 1, limit) + limit
  }

  /** The offset is the product the route computes. */
  lemma {:induction false} OffsetIsProduct(page: nat, limit: nat)
    ensures Offset(page, limit) == page * limit
  {
    if page > 0 {
      OffsetIsProduct(page - 1, limit);
      assert (page - 1) * limit + limit == page * limit;
    }
  }

  /** `findMany({ skip, take })`: at most `take` rows after the first `skip`. */
  function Window(rows: seq<Theory>, skip: nat, take: nat): (r: seq<Theory>)
    ensures |r| <= take
  {
    rows[Min(skip, |rows|)..Min(skip + take, |rows|)]
  }

  /** The response body of GET. */
  datatype TheoryPage = TheoryPage(theories: seq<Theory>, hasMore: bool, totalCount: nat, page: nat)

  /** `hasMore` and the slice: one row beyond `limit` was fetched exactly when there is more. */
  function Paginate(fetched: seq<Theory>, limit: nat): (r: (seq<Theory>, bool))
    ensures r.1 <==> |fetched| > limit
    ensures |r.0| == Min(|fetched|, limit)
    ensures r.0 == fetched[..|r.0|]
  {
    var hasMore := |fetched| > limit;
    (if hasMore then fetched[..limit] else fetched, hasMore)
  }

  lemma SliceInWhole(s: seq<Theory>, lo: nat, hi: nat)
    requires lo <= hi <= |s|
    ensures forall t :: t in s[lo..hi] ==> t in s
  {
    forall t | t in s[lo..hi] ensures t in s {
      var k :| 0 <= k < hi - lo && s[lo..hi][k] == t;
      assert s[lo..hi][k] == s[lo + k];
    }
  }

  /**
   * One page of the matching rows: `skip: page * limit` (`Offset`, equal to the
   * product by `OffsetIsProduct`), `take: limit + 1`, then the cut to `limit`
   * rows and `hasMore`.
   */
  function PageOf(matching: seq<Theory>, page: nat, limit: nat): (r: TheoryPage)
    ensures r.totalCount == |matching| && r.page == page
    ensures r.theories == matching[Min(Offset(page, limit), |matching|)..Min(Offset(page, limit) + limit, |matching|)]
    ensures r.hasMore <==> Offset(page, limit) + limit < |matching|
    ensures |r.theories| <= limit && |r.theories| <= |matching|
    ensures forall t :: t in r.theories ==> t in matching
  {
    var fetched := Window(matching, Offset(page, limit), limit + 1);
    var (list, hasMore) := Paginate(fetched, limit);
    SliceAt(matching, Offset(page, limit), limit);
    SliceInWhole(matching, Min(Offset(page, limit), |matching|), Min(Offset(page, limit) + limit, |matching|));
    TheoryPage(list, hasMore, |matching|, page)
  }

  /** GET; a status that is not a `TheoryStatus` makes the query fail with 500. */
  function GetTheories(rows: seq<Theory>, q: Query): (r: Result<TheoryPage, int>)
    ensures r.Err? <==> BuildWhere(q).status !in TheoryStatuses
    ensures r.Err? ==> r.error == 500
    ensures r.Ok? ==> forall t :: t in r.value.theories ==> t in rows && Matches(t, BuildWhere(q))
    ensures r.Ok? ==> |r.value.theories| <= q.limit && r.value.page == q.page
    ensures r.Ok? ==> |r.value.theories| <= r.value.totalCount
    ensures r.Ok? ==> r.value.totalCount == |Select(rows, BuildWhere(q))|
  {
    var w := BuildWhere(q);
    if w.status !in TheoryStatuses then Err(500)
    else
      var matching := Select(rows, w);
      Ok(PageOf(matching, q.page, q.limit))
  }

  // ---------------------------------------------------------------------------
  // Lemmas about GET.

  /**
   * A page is the slice of the matching rows from `page * limit`, at most
   * `limit` long, and `hasMore` says whether matching rows remain after it.
   */
  lemma GetTheoriesIsSlice(rows: seq<Theory>, q: Query)
    ensures var r := GetTheories(rows, q);
      r.Ok? ==>
        var m, skip := Select(rows, BuildWhere(q)), q.page * q.limit;
        && r.value.theories == m[Min(skip, |m|)..Min(skip + q.limit, |m|)]
        && (r.value.hasMore <==> skip + q.limit < |m|)
  {
    OffsetIsProduct(q.page, q.limit);
  }

  /** With no status parameter only ACTIVE theories are listed. */
  lemma DefaultsToActive(rows: seq<Theory>, q: Query)
    requires !Truthy(q.status)
    ensures GetTheories(rows, q).Ok?
    ensures forall t :: t in GetTheories(rows, q).value.theories ==> t.status == Active
  {
  }

  /** From any offset, the window of `limit + 1` rows cut to `limit` is the slice there. */
  lemma SliceAt(matching: seq<Theory>, skip: nat, limit: nat)
    ensures var (list, hasMore) := Paginate(Window(matching, skip, limit + 1), limit);
      && list == matching[Min(skip, |matching|)..Min(skip + limit, |matching|)]
      && (hasMore <==> skip + limit < |matching|)
  {
  }

  /**
   * A page is the slice of the matching rows from `page * limit`, at most
   * `limit` long, and `hasMore` says whether rows remain after it.
   */
  lemma PageIsSlice(matching: seq<Theory>, page: nat, limit: nat)
    ensures var (list, hasMore) := Paginate(Window(matching, Offset(page, limit), limit + 1), limit);
      && list == matching[Min(Offset(page, limit), |matching|)..Min(Offset(page, limit) + limit, |matching|)]
      && (hasMore <==> Offset(page, limit) + limit < |matching|)
  {
    SliceAt(matching, Offset(page, limit), limit);
  }

  /** Two windows side by side cover the rows of both, without gap or overlap. */
  lemma AdjacentWindows(matching: seq<Theory>, skip: nat, limit: nat)
    ensures Paginate(Window(matching, skip, limit + 1), limit).0
          + Paginate(Window(matching, skip + limit, limit + 1), limit).0
         == matching[Min(skip, |matching|)..Min(skip + limit + limit, |matching|)]
  {
    SliceAt(matching, skip, limit);
    SliceAt(matching, skip + limit, limit);
    var lo, mid, hi := Min(skip, |matching|), Min(skip + limit, |matching|), Min(skip + limit + limit, |matching|);
    assert matching[lo..mid] + matching[mid..hi] == matching[lo..hi];
  }

  /** Consecutive pages tile the matching rows without gap or overlap. */
  lemma ConsecutivePages(matching: seq<Theory>, page: nat, limit: nat)
    ensures var first := Paginate(Window(matching, Offset(page, limit), limit + 1), limit).0;
      var second := Paginate(Window(matching, Offset(page + 1, limit), limit + 1), limit).0;
      first + second == matching[Min(Offset(page, limit), |matching|)..Min(Offset(page + 2, limit), |matching|)]
  {
    var skip := Offset(page, limit);
    assert Offset(page + 1, limit) == skip + limit;
    assert Offset(page + 2, limit) == skip + limit + limit;
    assert Window(matching, Offset(page + 1, limit), limit + 1) == Window(matching, skip + limit, limit + 1);
    AdjacentWindows(matching, skip, limit);
  }

  // ---------------------------------------------------------------------------
  // POST.

  /** `{ title, claim, tldr, realm, topic, tags, status }` of the request body. */
  datatype TheoryBody = TheoryBody(
    title: Option<string>,
    claim: Option<string>,
    tldr: Option<string>,
    realm: Option<string>,
    topic: Option<string>,
    tags: Option<seq<string>>,
    status: Option<string>)

  /** The response: an HTTP status and, on success, the theory created. */
  datatype Outcome = Outcome(status: int, theory: Option<Theory>)

  /** `findUnique({ where: { slug } })` finds a row. */
  predicate SlugTaken(theories: seq<Theory>, slug: string) {
    exists i :: 0 <= i < |theories| && theories[i].slug == slug
  }

  /** The slug POST stores: the base slug, or base-suffix when the base is taken. */
  function ChosenSlug(theories: seq<Theory>, title: string, suffix: string): (s: string)
    ensures !SlugTaken(theories, GenerateSlug(title)) ==> s == GenerateSlug(title)
    ensures SlugTaken(theories, GenerateSlug(title)) ==> s == GenerateSlug(title) + "-" + suffix
  {
    var base := GenerateSlug(title);
    if SlugTaken(theories, base) then base + "-" + suffix else base
  }

  predicate Present(body: TheoryBody) {
    Truthy(body.title) && Truthy(body.claim) && Truthy(body.tldr)
  }

  /** The stored status: the given one, or ACTIVE. */
  function StatusOf(body: TheoryBody): string {
    if Truthy(body.status) then body.status.value else Active
  }

  /**
   * The response POST gives. A write that breaks the unique slug or names a
   * status outside the enum fails in the database, and the route answers 500.
   */
  function PostTheoryOutcome(theories: seq<Theory>, current: Option<User>, body: TheoryBody,
                             id: string, suffix: string): (r: Outcome)
    ensures r.status in {201, 400, 401, 500}
    ensures r.status == 401 <==> current.None?
    ensures r.status == 400 <==> current.Some? && !Present(body)
    ensures r.status == 500 <==> current.Some? && Present(body)
                                  && (StatusOf(body) !in TheoryStatuses
                                      || SlugTaken(theories, ChosenSlug(theories, body.title.value, suffix)))
    ensures r.theory.Some? <==> r.status == 201
    ensures r.status == 201 ==>
      && r.theory.value.id == id
      && r.theory.value.slug == ChosenSlug(theories, body.title.value, suffix)
      && !SlugTaken(theories, r.theory.value.slug)
      && r.theory.value.title == body.title.value
      && r.theory.value.claim == body.claim.value
      && r.theory.value.tldr == body.tldr.value
      && r.theory.value.realm == OrNull(body.realm)
      && r.theory.value.topic == OrNull(body.topic)
      && r.theory.value.tags == (if body.tags.Some? then body.tags.value else [])
      && r.theory.value.status == StatusOf(body) && r.theory.value.status in TheoryStatuses
      && r.theory.value.authorId == current.value.id
  {
    match AuthHelpers.RequireAuth(current)
    case Err(_) => Outcome(401, None)
    case Ok(user) =>
      if !Present(body) then Outcome(400, None)
      else
        var slug := ChosenSlug(theories, body.title.value, suffix);
        var status := StatusOf(body);
        if status !in TheoryStatuses || SlugTaken(theories, slug) then Outcome(500, None)
        else Outcome(201, Some(Theory(id, slug, body.title.value, body.claim.value, body.tldr.value,
          OrNull(body.realm), OrNull(body.topic), if body.tags.Some? then body.tags.value else [],
          status, user.id)))
  }

  /** A signed-in request with every field, an enum status and a free chosen slug is created. */
  lemma ValidPostCreates(theories: seq<Theory>, user: User, body: TheoryBody, id: string, suffix: string)
    requires Present(body) && StatusOf(body) in TheoryStatuses
    requires !SlugTaken(theories, ChosenSlug(theories, body.title.value, suffix))
    ensures PostTheoryOutcome(theories, Some(user), body, id, suffix).status == 201
  {
  }

  /** No two theories share a slug (the column is unique). */
  predicate UniqueSlugs(theories: seq<Theory>) {
    forall i, j :: 0 <= i < j < |theories| ==> theories[i].slug != theories[j].slug
  }

  class TheoryTable {
    var theories: seq<Theory>

    constructor ()
      ensures theories == []
    {
      theories := [];
    }

    /** POST: the guards, the slug choice, then `theory.create`; the new theory is the newest. */
    method PostTheory(current: Option<User>, body: TheoryBody, id: string, suffix: string)
      returns (status: int, theory: Option<Theory>)
      modifies this
      ensures Outcome(status, theory) == PostTheoryOutcome(old(theories), current, body, id, suffix)
      ensures status == 201 ==> theories == [theory.value] + old(theories)
      ensures status != 201 ==> theories == old(theories)
    {
      var auth := AuthHelpers.RequireAuth(current);
      if auth.Err? {
        return 401, None;
      }
      var user := auth.value;
      if !Truthy(body.title) || !Truthy(body.claim) || !Truthy(body.tldr) {
        return 400, None;
      }
      var slug := GenerateSlug(body.title.value);
      var existing := SlugTaken(theories, slug);
      if existing {
        slug := slug + "-" + suffix;
      }
      assert slug == ChosenSlug(theories, body.title.value, suffix);
      var tags := if body.tags.Some? then body.tags.value else [];
      var stored := if Truthy(body.status) then body.status.value else Active;
      assert stored == StatusOf(body);
      if stored !in TheoryStatuses || SlugTaken(theories, slug) {
        assert PostTheoryOutcome(theories, current, body, id, suffix) == Outcome(500, None);
        return 500, None;
      }
      var created := Theory(id, slug, body.title.value, body.claim.value, body.tldr.value,
        OrNull(body.realm), OrNull(body.topic), tags, stored, user.id);
      assert PostTheoryOutcome(theories, current, body, id, suffix) == Outcome(201, Some(created));
      theories := [created] + theories;
      return 201, Some(created);
    }
  }

  // ---------------------------------------------------------------------------
  // Lemmas about POST.

  /** A theory whose slug is not taken can be put in front without a clash. */
  lemma PrependKeepsSlugsUnique(t: Theory, theories: seq<Theory>)
    requires UniqueSlugs(theories) && !SlugTaken(theories, t.slug)
    ensures UniqueSlugs([t] + theories)
  {
    var all := [t] + theories;
    forall i, j | 0 <= i < j < |all| ensures all[i].slug != all[j].slug {
      assert all[j] == theories[j - 1];
      if i > 0 {
        assert all[i] == theories[i - 1];
      }
    }
  }

  /** Creating a theory keeps the slugs unique. */
  lemma PostKeepsSlugsUnique(theories: seq<Theory>, current: Option<User>, body: TheoryBody,
                             id: string, suffix: string)
    requires UniqueSlugs(theories)
    requires PostTheoryOutcome(theories, current, body, id, suffix).status == 201
    ensures UniqueSlugs([PostTheoryOutcome(theories, current, body, id, suffix).theory.value] + theories)
  {
    var r := PostTheoryOutcome(theories, current, body, id, suffix);
    PrependKeepsSlugsUnique(r.theory.value, theories);
  }

  /** A title whose slug is taken is stored under base-suffix. */
  lemma TakenSlugGetsSuffix(theories: seq<Theory>, user: User, body: TheoryBody, id: string, suffix: string)
    requires Present(body) && SlugTaken(theories, GenerateSlug(body.title.value))
    requires PostTheoryOutcome(theories, Some(user), body, id, suffix).status == 201
    ensures PostTheoryOutcome(theories, Some(user), body, id, suffix).theory.value.slug
         == GenerateSlug(body.title.value) + "-" + suffix
  {
  }

  /** The newest row, when it matches, heads the first page. */
  lemma NewestMatchHeadsFirstPage(t: Theory, rows: seq<Theory>, q: Query)
    requires q.page == 0 && q.limit >= 1
    requires BuildWhere(q).status in TheoryStatuses && Matches(t, BuildWhere(q))
    ensures var listed := GetTheories([t] + rows, q);
      listed.Ok? && |listed.value.theories| > 0 && listed.value.theories[0] == t
  {
    assert ([t] + rows)[1..] == rows;
    var matching := Select([t] + rows, BuildWhere(q));
    assert matching[0] == t;
    PageIsSlice(matching, 0, q.limit);
  }

  /** A new theory left at the default status heads the first page of the default listing. */
  lemma CreatedTheoryListedFirst(theories: seq<Theory>, user: User, body: TheoryBody,
                                 id: string, suffix: string, limit: nat)
    requires PostTheoryOutcome(theories, Some(user), body, id, suffix).status == 201
    requires !Truthy(body.status) && limit >= 1
    ensures var t := PostTheoryOutcome(theories, Some(user), body, id, suffix).theory.value;
      var listed := GetTheories([t] + theories, Query(None, None, None, None, 0, limit));
      listed.Ok? && |listed.value.theories| > 0 && listed.value.theories[0] == t
  {
    var t := PostTheoryOutcome(theories, Some(user), body, id, suffix).theory.value;
    NewestMatchHeadsFirstPage(t, theories, Query(None, None, None, None, 0, limit));
  }
}
