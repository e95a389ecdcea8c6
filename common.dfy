/**
 * Values shared by the whole model of TheoryDeck: the optional and error
 * wrappers, the Prisma enums the core reads (user role, card stance, card
 * status), the current-user record, a vote record, and the few pieces of
 * JavaScript string and number behaviour the core depends on (truthiness of
 * optional strings, `String.prototype.trim`, the regex class `\s`, UTF-16
 * `length`, `startsWith` and `Math.round`).
 */
module Common {

  datatype Option<T> = None | Some(value: T)

  datatype Result<T, E> = Ok(value: T) | Err(error: E)

  /** `UserRole` of the Prisma schema. */
  datatype Role = USER | MODERATOR | ADMIN

  /** `Stance` of an evidence card. */
  datatype Stance = FOR | AGAINST

  /** `CardStatus` of an evidence card; only ACTIVE cards are shown and scored. */
  datatype CardStatus = ACTIVE | HIDDEN | FLAGGED | DELETED

  /** The user record that `getCurrentUser` selects (id, email, name, role). */
  datatype User = User(id: string, email: string, name: Option<string>, role: Role)

  /** A row of the vote table: one vote of one user on one card. */
  datatype Vote = Vote(userId: string, cardId: string, strength: int)

  // ---------------------------------------------------------------------------
  // JavaScript truthiness of optional strings: undefined, null and "" are falsy.

  predicate Truthy(s: Option<string>) {
    s.Some? && s.value != ""
  }

  /** `s || null`: the value itself when truthy, otherwise null. */
  function OrNull(s: Option<string>): (r: Option<string>)
    ensures r.Some? <==> Truthy(s)
    ensures r.Some? ==> r == s
  {
    if Truthy(s) then s else None
  }

  // ---------------------------------------------------------------------------
  // Characters and strings as JavaScript sees them.

  /**
   * The characters `String.prototype.trim` strips and the regex class `\s`
   * matches: the ECMAScript WhiteSpace and LineTerminator code points.
   */
  predicate IsJsWhitespace(c: char) {
    || '\t' <= c <= '\r'
    || c == ' ' || c == '\U{00A0}' || c == '\U{1680}'
    || '\U{2000}' <= c <= '\U{200A}'
    || c == '\U{2028}' || c == '\U{2029}' || c == '\U{202F}' || c == '\U{205F}'
    || c == '\U{3000}' || c == '\U{FEFF}'
  }

  predicate NoWhitespace(s: string) {
    forall i :: 0 <= i < |s| ==> !IsJsWhitespace(s[i])
  }

  predicate AllWhitespace(s: string) {
    forall i :: 0 <= i < |s| ==> IsJsWhitespace(s[i])
  }

  function TrimStart(s: string): (r: string)
    ensures |r| <= |s| && r == s[|s| - |r|..]
    ensures r == [] || !IsJsWhitespace(r[0])
    ensures AllWhitespace(s[..|s| - |r|])
  {
    if |s| > 0 && IsJsWhitespace(s[0]) then TrimStart(s[1..]) else s
  }

  /** Only leading whitespace goes: after the first non-blank character, the text is kept. */
  lemma {:induction false} TrimStartAppend(a: string, b: string)
    requires !AllWhitespace(a)
    ensures TrimStart(a + b) == TrimStart(a) + b
    decreases |a|
  {
    assert (a + b)[0] == a[0];
    if IsJsWhitespace(a[0]) {
      assert (a + b)[1..] == a[1..] + b;
      assert !AllWhitespace(a[1..]) by {
        var i :| 0 <= i < |a| && !IsJsWhitespace(a[i]);
        assert a[1..][i - 1] == a[i];
      }
      TrimStartAppend(a[1..], b);
    }
  }

  /** A whitespace run in front of a non-blank start is removed exactly. */
  lemma {:induction false} TrimStartRun(w: string, v: string)
    requires AllWhitespace(w) && (v == [] || !IsJsWhitespace(v[0]))
    ensures TrimStart(w + v) == v
    decreases |w|
  {
    if w == [] {
      assert w + v == v;
    } else {
      assert (w + v)[0] == w[0] && (w + v)[1..] == w[1..] + v;
      assert AllWhitespace(w[1..]) by {
        forall i | 0 <= i < |w[1..]| ensures IsJsWhitespace(w[1..][i]) {
          assert w[1..][i] == w[i + 1];
        }
      }
      TrimStartRun(w[1..], v);
    }
  }

  function TrimEnd(s: string): (r: string)
    ensures |r| <= |s| && r == s[..|r|]
    ensures r == [] || !IsJsWhitespace(r[|r| - 1])
    ensures AllWhitespace(s[|r|..])
  {
    if |s| > 0 && IsJsWhitespace(s[|s| - 1]) then
      var r := TrimEnd(s[..|s| - 1]);
      assert s[|r|..] == s[..|s| - 1][|r|..] + [s[|s| - 1]];
      r
    else s
  }

  /** `String.prototype.trim`: strip leading and trailing whitespace. */
  function Trim(s: string): (r: string)
    ensures |r| <= |s|
    ensures r == [] || (!IsJsWhitespace(r[0]) && !IsJsWhitespace(r[|r| - 1]))
  {
    TrimEnd(TrimStart(s))
  }

  /** Trimming yields the empty string exactly when every character is whitespace. */
  lemma {:induction false} TrimEmptyIffAllWhitespace(s: string)
    ensures Trim(s) == [] <==> AllWhitespace(s)
  {
    var t := TrimStart(s);
    if Trim(s) == [] {
      assert t[0..] == t;
      assert |t| == 0;
      forall i | 0 <= i < |s| ensures IsJsWhitespace(s[i]) {
        assert s[i] == s[..|s|][i];
      }
    }
  }

  /** Trimming a string without whitespace changes nothing. */
  lemma TrimNoWhitespace(s: string)
    requires NoWhitespace(s)
    ensures Trim(s) == s
  {
  }

  /** Code units a character takes in UTF-16: two above the Basic Multilingual Plane. */
  function Utf16Units(c: char): nat {
    if c as int > 0xFFFF then 2 else 1
  }

  /** JavaScript `length`: the number of UTF-16 code units. */
  function JsLength(s: string): (n: nat)
    ensures |s| <= n <= 2 * |s|
  {
    if s == [] then 0 else JsLength(s[..|s| - 1]) + Utf16Units(s[|s| - 1])
  }

  /** `String.prototype.startsWith`. */
  predicate StartsWith(s: string, prefix: string) {
    |prefix| <= |s| && s[..|prefix|] == prefix
  }

  // ---------------------------------------------------------------------------
  // Numbers.

  /** `Math.round`: the nearest integer, halves rounded towards +infinity. */
  function Round(x: real): int {
    (x + 0.5).Floor
  }

  /** `Math.round` is never more than one half away from its argument. */
  lemma RoundNear(x: real)
    ensures x - 0.5 < Round(x) as real <= x + 0.5
  {
  }

  lemma RoundMonotone(x: real, y: real)
    requires x <= y
    ensures Round(x) <= Round(y)
  {
  }

  /** A percentage in [0, 100] rounds to an integer percentage in [0, 100]. */
  lemma RoundPercentBounds(x: real)
    requires 0.0 <= x <= 100.0
    ensures 0 <= Round(x) <= 100
  {
    RoundMonotone(0.0, x);
    RoundMonotone(x, 100.0);
  }

  /** The rounded share of a non-negative part in a positive total is a percentage in [0, 100]. */
  lemma SharePercentBounds(part: real, other: real)
    requires part >= 0.0 && other >= 0.0 && part + other > 0.0
    ensures 0 <= Round(part / (part + other) * 100.0) <= 100
  {
    var t := part + other;
    assert part / t <= 1.0 by {
      assert part <= t;
    }
    RoundPercentBounds(part / t * 100.0);
  }
}
