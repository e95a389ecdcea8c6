/**
 * Slugs (lib/utils/slug.ts). `generateSlug` is a chain of five string
 * steps: lower-casing, dropping every character outside a kept class, turning
 * each whitespace run into '-', collapsing dash runs, trimming. The chain is
 * written once, over the kept class; this file instantiates it with the class
 * `[\w\s-]`, and app/api/theories/route.ts (module TheoriesRoute) with its own
 * Cyrillic-aware class. `generateUniqueSlug` tries base, base-1, base-2, …
 * until the existence oracle says no; the oracle is membership in a finite set.
 */
module Slug {
  import opened Common

  // ---------------------------------------------------------------------------
  // Lower-casing.

  predicate IsAsciiUpper(c: char) {
    'A' <= c <= 'Z'
  }

  /** Cyrillic capitals U+0400–U+042F (Ѐ…Џ then А…Я). */
  predicate IsCyrillicUpper(c: char) {
    '\U{0400}' <= c <= '\U{042F}'
  }

  /**
   * `toLowerCase` of one character, for the characters whose lower case can
   * survive either slug class: ASCII and Cyrillic capitals, KELVIN SIGN
   * (lower case 'k') and LATIN CAPITAL I WITH DOT ABOVE (lower case 'i'
   * followed by COMBINING DOT ABOVE). Every other character is kept as it is.
   */
  function LowerChar(c: char): (r: string)
    ensures forall i :: 0 <= i < |r| ==> !IsAsciiUpper(r[i]) && !IsCyrillicUpper(r[i])
    ensures !IsAsciiUpper(c) && !IsCyrillicUpper(c) && c != '\U{212A}' && c != '\U{0130}' ==> r == [c]
    ensures IsAsciiUpper(c) ==> |r| == 1 && 'a' <= r[0] <= 'z' && r[0] as int - 'a' as int == c as int - 'A' as int
    ensures '\U{0410}' <= c <= '\U{042F}' ==>
      |r| == 1 && '\U{0430}' <= r[0] <= '\U{044F}' && r[0] as int - 0x430 == c as int - 0x410
    ensures '\U{0400}' <= c <= '\U{040F}' ==>
      |r| == 1 && '\U{0450}' <= r[0] <= '\U{045F}' && r[0] as int - 0x450 == c as int - 0x400
    ensures c == '\U{212A}' ==> r == "k"
    ensures c == '\U{0130}' ==> r == "i\U{0307}"
  {
    if IsAsciiUpper(c) then [(c as int + 32) as char]
    else if '\U{0410}' <= c <= '\U{042F}' then [(c as int + 32) as char]
    else if IsCyrillicUpper(c) then [(c as int + 80) as char]
    else if c == '\U{212A}' then ['k']
    else if c == '\U{0130}' then ['i', '\U{0307}']
    else [c]
  }

  /** `String.prototype.toLowerCase`, character by character. */
  function Lower(s: string): (r: string)
    ensures forall i :: 0 <= i < |r| ==> !IsAsciiUpper(r[i]) && !IsCyrillicUpper(r[i])
  {
    if s == [] then [] else Lower(s[..|s| - 1]) + LowerChar(s[|s| - 1])
  }

  /** Lower-casing a string without capitals changes nothing. */
  lemma {:induction false} LowerFixpoint(s: string)
    requires forall i :: 0 <= i < |s| ==> LowerChar(s[i]) == [s[i]]
    ensures Lower(s) == s
  {
    if s != [] {
      LowerFixpoint(s[..|s| - 1]);
      assert s == s[..|s| - 1] + [s[|s| - 1]];
    }
  }

  /** Lower-casing works character by character: it distributes over concatenation. */
  lemma {:induction false} LowerAppend(a: string, b: string)
    ensures Lower(a + b) == Lower(a) + Lower(b)
    decreases |b|
  {
    if b == [] {
      assert a + b == a;
    } else {
      assert (a + b)[..|a + b| - 1] == a + b[..|b| - 1];
      LowerAppend(a, b[..|b| - 1]);
    }
  }

  /** The lower case of a one-character string is that character's lower case. */
  lemma LowerSingle(c: char)
    ensures Lower([c]) == LowerChar(c)
  {
    assert [c][..0] == [];
  }

  // ---------------------------------------------------------------------------
  // The replacement steps.

  /** The class a `replace(/[^…\s-]/g, '')` keeps: the extra characters, whitespace and '-'. */
  predicate Kept(c: char, keep: char -> bool) {
    keep(c) || IsJsWhitespace(c) || c == '-'
  }

  /** Drop every character outside the kept class. */
  function KeepOnly(s: string, keep: char -> bool): (r: string)
    ensures |r| <= |s|
    ensures forall i :: 0 <= i < |r| ==> Kept(r[i], keep) && r[i] in s
    ensures (forall i :: 0 <= i < |s| ==> Kept(s[i], keep)) ==> r == s
  {
    if s == [] then []
    else if Kept(s[0], keep) then [s[0]] + KeepOnly(s[1..], keep)
    else KeepOnly(s[1..], keep)
  }

  /** Dropping works character by character: it distributes over concatenation. */
  lemma {:induction false} KeepOnlyAppend(a: string, b: string, keep: char -> bool)
    ensures KeepOnly(a + b, keep) == KeepOnly(a, keep) + KeepOnly(b, keep)
  {
    if a == [] {
      assert a + b == b;
    } else {
      assert (a + b)[0] == a[0] && (a + b)[1..] == a[1..] + b;
      KeepOnlyAppend(a[1..], b, keep);
    }
  }

  /** One character is kept exactly when it is in the class. */
  lemma KeepOnlySingle(c: char, keep: char -> bool)
    ensures KeepOnly([c], keep) == if Kept(c, keep) then [c] else []
  {
    assert [c][1..] == [];
  }

  /** `replace(/\s+/g, '-')`: each maximal whitespace run becomes one '-'. */
  function DashWhitespace(s: string): string
    decreases |s|
  {
    if s == [] then []
    else if IsJsWhitespace(s[0]) then "-" + DashWhitespace(TrimStart(s[1..]))
    else [s[0]] + DashWhitespace(s[1..])
  }

  /**
   * No whitespace is left, every character is '-' or one of the input's, and a
   * string without whitespace is unchanged.
   */
  lemma {:induction false} DashWhitespaceShape(s: string)
    ensures var r := DashWhitespace(s);
      && NoWhitespace(r)
      && (forall i :: 0 <= i < |r| ==> r[i] == '-' || r[i] in s)
      && (NoWhitespace(s) ==> r == s)
    decreases |s|
  {
    if s != [] {
      if IsJsWhitespace(s[0]) {
        var rest := TrimStart(s[1..]);
        var t := DashWhitespace(rest);
        DashWhitespaceShape(rest);
        DashIsNotWhitespace();
        SuffixChars(s, |s| - |rest|);
        PrefixKeepsDashOrChars('-', t, rest, s);
        PrefixNoWhitespace('-', t);
      } else {
        var t := DashWhitespace(s[1..]);
        DashWhitespaceShape(s[1..]);
        TailNoWhitespace(s);
        SuffixChars(s, 1);
        PrefixKeepsDashOrChars(s[0], t, s[1..], s);
        PrefixNoWhitespace(s[0], t);
      }
    }
  }

  /** Same as `PrefixKeepsChars`, with dashes allowed besides the characters of `s`. */
  lemma PrefixKeepsDashOrChars(c: char, t: string, sub: string, s: string)
    requires c == '-' || c in s
    requires forall i :: 0 <= i < |t| ==> t[i] == '-' || t[i] in sub
    requires forall x :: x in sub ==> x in s
    ensures forall i :: 0 <= i < |[c] + t| ==> ([c] + t)[i] == '-' || ([c] + t)[i] in s
  {
    forall i | 0 <= i < |[c] + t| ensures ([c] + t)[i] == '-' || ([c] + t)[i] in s {
      if i > 0 {
        assert ([c] + t)[i] == t[i - 1];
      }
    }
  }

  lemma PrefixNoWhitespace(c: char, t: string)
    requires !IsJsWhitespace(c) && NoWhitespace(t)
    ensures NoWhitespace([c] + t)
  {
    forall i | 0 <= i < |[c] + t| ensures !IsJsWhitespace(([c] + t)[i]) {
      if i > 0 {
        assert ([c] + t)[i] == t[i - 1];
      }
    }
  }

  lemma TailNoWhitespace(s: string)
    requires |s| > 0
    ensures NoWhitespace(s) ==> NoWhitespace(s[1..]) && s == [s[0]] + s[1..]
  {
    if NoWhitespace(s) {
      forall i | 0 <= i < |s[1..]| ensures !IsJsWhitespace(s[1..][i]) {
        assert s[1..][i] == s[i + 1];
      }
    }
  }

  /** A whitespace run followed by a non-blank start becomes one '-'. */
  lemma DashWhitespaceRunStart(w: string, v: string)
    requires w != [] && AllWhitespace(w) && (v == [] || !IsJsWhitespace(v[0]))
    ensures DashWhitespace(w + v) == "-" + DashWhitespace(v)
  {
    assert (w + v)[0] == w[0] && (w + v)[1..] == w[1..] + v;
    assert AllWhitespace(w[1..]) by {
      forall i | 0 <= i < |w[1..]| ensures IsJsWhitespace(w[1..][i]) {
        assert w[1..][i] == w[i + 1];
      }
    }
    TrimStartRun(w[1..], v);
  }

  lemma AppendAssoc(a: string, b: string, c: string)
    ensures a + (b + c) == (a + b) + c
  {
  }

  /** Trimming the front of a string that ends in a non-blank character keeps that last character. */
  lemma {:induction false} TrimStartKeepsLast(a: string)
    requires a != [] && !IsJsWhitespace(a[|a| - 1])
    ensures var t := TrimStart(a); t != [] && |t| <= |a| && t[|t| - 1] == a[|a| - 1]
    decreases |a|
  {
    if IsJsWhitespace(a[0]) {
      assert |a| > 1;
      assert a[1..][|a| - 2] == a[|a| - 1];
      TrimStartKeepsLast(a[1..]);
    }
  }

  /** Cutting after a non-blank character leaves the runs on either side separate. */
  lemma {:induction false} DashWhitespaceAppend(u: string, v: string)
    requires u == [] || !IsJsWhitespace(u[|u| - 1])
    ensures DashWhitespace(u + v) == DashWhitespace(u) + DashWhitespace(v)
    decreases |u|
  {
    if u == [] {
      assert u + v == v;
    } else {
      var c, u' := u[0], u[1..];
      assert (u + v)[0] == c && (u + v)[1..] == u' + v;
      if IsJsWhitespace(c) {
        assert u' != [] && u'[|u'| - 1] == u[|u| - 1];
        TrimStartAppend(u', v);
        TrimStartKeepsLast(u');
        var t := TrimStart(u');
        DashWhitespaceAppend(t, v);
        AppendAssoc("-", DashWhitespace(t), DashWhitespace(v));
      } else {
        assert u' == [] || u'[|u'| - 1] == u[|u| - 1];
        DashWhitespaceAppend(u', v);
        AppendAssoc([c], DashWhitespace(u'), DashWhitespace(v));
      }
    }
  }

  /**
   * A maximal whitespace run between `u` and `v` becomes exactly one '-', and
   * the text on either side is handled on its own.
   */
  lemma WhitespaceRunBecomesDash(u: string, w: string, v: string)
    requires u == [] || !IsJsWhitespace(u[|u| - 1])
    requires w != [] && AllWhitespace(w)
    requires v == [] || !IsJsWhitespace(v[0])
    ensures DashWhitespace(u + w + v) == DashWhitespace(u) + "-" + DashWhitespace(v)
  {
    AppendAssoc(u, w, v);
    DashWhitespaceAppend(u, w + v);
    DashWhitespaceRunStart(w, v);
    AppendAssoc(DashWhitespace(u), "-", DashWhitespace(v));
  }

  lemma DashIsNotWhitespace()
    ensures !IsJsWhitespace('-')
  {
  }

  /** A character in front of a string without "--" adds none, unless both are dashes. */
  lemma PrefixNoDoubleDash(c: char, t: string)
    requires NoDoubleDash(t) && (c != '-' || t == [] || t[0] != '-')
    ensures NoDoubleDash([c] + t)
  {
    var u := [c] + t;
    forall i | 0 <= i < |u| - 1 ensures !(u[i] == '-' && u[i + 1] == '-') {
      assert u[i + 1] == t[i];
      if i > 0 {
        assert u[i] == t[i - 1];
      }
    }
  }

  /** Drop the leading dashes. */
  function DropDashes(s: string): (r: string)
    ensures |r| <= |s| && r == s[|s| - |r|..]
    ensures r == [] || r[0] != '-'
    ensures forall i :: 0 <= i < |s| - |r| ==> s[i] == '-'
    ensures s == [] || s[0] != '-' ==> r == s
  {
    if |s| > 0 && s[0] == '-' then DropDashes(s[1..]) else s
  }

  /** No two consecutive dashes. */
  predicate NoDoubleDash(s: string) {
    forall i :: 0 <= i < |s| - 1 ==> !(s[i] == '-' && s[i + 1] == '-')
  }

  /** Every character of a suffix is a character of the whole. */
  lemma SuffixChars(s: string, k: nat)
    requires k <= |s|
    ensures forall x :: x in s[k..] ==> x in s
  {
    forall x | x in s[k..] ensures x in s {
      var j :| 0 <= j < |s[k..]| && s[k..][j] == x;
      assert s[k + j] == x;
    }
  }

  /** A character of `s` in front of characters of `sub`, all in `s`, gives characters of `s`. */
  lemma PrefixKeepsChars(c: char, t: string, sub: string, s: string)
    requires c in s
    requires forall i :: 0 <= i < |t| ==> t[i] in sub
    requires forall x :: x in sub ==> x in s
    ensures forall i :: 0 <= i < |[c] + t| ==> ([c] + t)[i] in s
  {
    forall i | 0 <= i < |[c] + t| ensures ([c] + t)[i] in s {
      if i > 0 {
        assert ([c] + t)[i] == t[i - 1];
      }
    }
  }

  /** `replace(/-+/g, '-')`: each maximal dash run becomes one '-'. */
  function CollapseDashes(s: string): string
    decreases |s|
  {
    if s == [] then []
    else if s[0] == '-' then "-" + CollapseDashes(DropDashes(s[1..]))
    else [s[0]] + CollapseDashes(s[1..])
  }

  /**
   * No "--" is left, every character is one of the input's, the result is
   * empty exactly when the input is, and it starts with '-' exactly when the
   * input does.
   */
  lemma {:induction false} CollapseDashesShape(s: string)
    ensures var r := CollapseDashes(s);
      && NoDoubleDash(r)
      && (forall i :: 0 <= i < |r| ==> r[i] in s)
      && (|r| > 0 <==> |s| > 0)
      && (|r| > 0 ==> (r[0] == '-' <==> s[0] == '-'))
    decreases |s|
  {
    if s != [] {
      if s[0] == '-' {
        var rest := DropDashes(s[1..]);
        var t := CollapseDashes(rest);
        CollapseDashesShape(rest);
        SuffixChars(s, |s| - |rest|);
        PrefixKeepsChars('-', t, rest, s);
        PrefixNoDoubleDash('-', t);
      } else {
        var t := CollapseDashes(s[1..]);
        CollapseDashesShape(s[1..]);
        SuffixChars(s, 1);
        PrefixKeepsChars(s[0], t, s[1..], s);
        PrefixNoDoubleDash(s[0], t);
      }
    }
  }

  /** Only leading dashes go: after the first other character, the text is kept. */
  lemma {:induction false} DropDashesAppend(a: string, b: string)
    requires a != [] && a[|a| - 1] != '-'
    ensures DropDashes(a + b) == DropDashes(a) + b
    decreases |a|
  {
    assert (a + b)[0] == a[0];
    if a[0] == '-' {
      assert (a + b)[1..] == a[1..] + b;
      assert a[1..][|a[1..]| - 1] == a[|a| - 1];
      DropDashesAppend(a[1..], b);
    }
  }

  /** A dash run in front of a start that is not a dash is removed exactly. */
  lemma {:induction false} DropDashRun(d: string, v: string)
    requires forall i :: 0 <= i < |d| ==> d[i] == '-'
    requires v == [] || v[0] != '-'
    ensures DropDashes(d + v) == v
    decreases |d|
  {
    if d == [] {
      assert d + v == v;
    } else {
      assert (d + v)[0] == d[0] && (d + v)[1..] == d[1..] + v;
      assert forall i :: 0 <= i < |d[1..]| ==> d[1..][i] == d[i + 1];
      DropDashRun(d[1..], v);
    }
  }

  /** Cutting after a character that is not a dash leaves the runs on either side separate. */
  lemma {:induction false} CollapseDashesAppend(u: string, v: string)
    requires u == [] || u[|u| - 1] != '-'
    ensures CollapseDashes(u + v) == CollapseDashes(u) + CollapseDashes(v)
    decreases |u|
  {
    if u == [] {
      assert u + v == v;
    } else {
      var c, u' := u[0], u[1..];
      assert (u + v)[0] == c && (u + v)[1..] == u' + v;
      if c == '-' {
        assert u' != [] && u'[|u'| - 1] == u[|u| - 1];
        DropDashesAppend(u', v);
        var t := DropDashes(u');
        assert t != [] && t[|t| - 1] == u'[|u'| - 1];
        CollapseDashesAppend(t, v);
        AppendAssoc("-", CollapseDashes(t), CollapseDashes(v));
      } else {
        assert u' == [] || u'[|u'| - 1] == u[|u| - 1];
        CollapseDashesAppend(u', v);
        AppendAssoc([c], CollapseDashes(u'), CollapseDashes(v));
      }
    }
  }

  /**
   * A maximal dash run between `u` and `v` becomes exactly one '-', and the
   * text on either side is handled on its own; in particular every other
   * character is kept, in order.
   */
  lemma DashRunCollapses(u: string, d: string, v: string)
    requires u == [] || u[|u| - 1] != '-'
    requires d != [] && forall i :: 0 <= i < |d| ==> d[i] == '-'
    requires v == [] || v[0] != '-'
    ensures CollapseDashes(u + d + v) == CollapseDashes(u) + "-" + CollapseDashes(v)
  {
    AppendAssoc(u, d, v);
    CollapseDashesAppend(u, d + v);
    DashRunStart(d, v);
    AppendAssoc(CollapseDashes(u), "-", CollapseDashes(v));
  }

  /** A dash run followed by a start that is not a dash becomes one '-'. */
  lemma DashRunStart(d: string, v: string)
    requires d != [] && forall i :: 0 <= i < |d| ==> d[i] == '-'
    requires v == [] || v[0] != '-'
    ensures CollapseDashes(d + v) == "-" + CollapseDashes(v)
  {
    assert (d + v)[0] == '-' && (d + v)[1..] == d[1..] + v;
    assert forall i :: 0 <= i < |d[1..]| ==> d[1..][i] == d[i + 1];
    DropDashRun(d[1..], v);
  }

  /** Collapsing a string without dash runs changes nothing. */
  lemma {:induction false} CollapseDashesFixpoint(s: string)
    requires NoDoubleDash(s)
    ensures CollapseDashes(s) == s
    decreases |s|
  {
    if s != [] {
      assert NoDoubleDash(s[1..]) by {
        forall i | 0 <= i < |s[1..]| - 1 ensures !(s[1..][i] == '-' && s[1..][i + 1] == '-') {
          assert s[1..][i] == s[i + 1] && s[1..][i + 1] == s[i + 2];
        }
      }
      CollapseDashesFixpoint(s[1..]);
      if s[0] == '-' {
        assert |s| == 1 || s[1] != '-';
        assert DropDashes(s[1..]) == s[1..];
      }
    }
  }

  /** The whole chain, over the kept class `keep`. */
  function Slugify(title: string, keep: char -> bool): string {
    Trim(CollapseDashes(DashWhitespace(KeepOnly(Lower(title), keep))))
  }

  /**
   * What the chain produces: dashes and kept, non-blank characters of the
   * lower-cased title, never two dashes in a row, and nothing for `trim` to
   * remove.
   */
  lemma SlugifyShape(title: string, keep: char -> bool)
    ensures var r := Slugify(title, keep);
      && NoDoubleDash(r) && NoWhitespace(r)
      && (forall i :: 0 <= i < |r| ==> r[i] == '-' || (keep(r[i]) && !IsJsWhitespace(r[i]) && r[i] in Lower(title)))
      && r == CollapseDashes(DashWhitespace(KeepOnly(Lower(title), keep)))
  {
    var k := KeepOnly(Lower(title), keep);
    var d := DashWhitespace(k);
    var c := CollapseDashes(d);
    DashWhitespaceShape(k);
    CollapseDashesShape(d);
    assert NoWhitespace(c) by {
      forall i | 0 <= i < |c| ensures !IsJsWhitespace(c[i]) {
        var j :| 0 <= j < |d| && d[j] == c[i];
      }
    }
    TrimNoWhitespace(c);
    forall i | 0 <= i < |c| ensures c[i] == '-' || (keep(c[i]) && !IsJsWhitespace(c[i]) && c[i] in Lower(title)) {
      var j :| 0 <= j < |d| && d[j] == c[i];
      if d[j] != '-' {
        var m :| 0 <= m < |k| && k[m] == d[j];
      }
    }
  }

  /** A string already of that shape, with nothing to lower-case, is its own slug. */
  lemma SlugifyFixpoint(s: string, keep: char -> bool)
    requires NoDoubleDash(s) && NoWhitespace(s)
    requires forall i :: 0 <= i < |s| ==> (keep(s[i]) || s[i] == '-') && LowerChar(s[i]) == [s[i]]
    ensures Slugify(s, keep) == s
  {
    LowerFixpoint(s);
    assert KeepOnly(s, keep) == s;
    DashWhitespaceShape(s);
    CollapseDashesFixpoint(s);
    TrimNoWhitespace(s);
  }

  // ---------------------------------------------------------------------------
  // `generateSlug` of lib/utils/slug.ts.

  /** `\w`: ASCII letters, digits and '_'. */
  predicate IsWordChar(c: char) {
    IsAsciiUpper(c) || 'a' <= c <= 'z' || '0' <= c <= '9' || c == '_'
  }

  /** The characters of a slug: [a-z0-9_-]. */
  predicate IsSlugChar(c: char) {
    'a' <= c <= 'z' || '0' <= c <= '9' || c == '_' || c == '-'
  }

  predicate IsSlug(s: string) {
    NoDoubleDash(s) && forall i :: 0 <= i < |s| ==> IsSlugChar(s[i])
  }

  function GenerateSlug(title: string): string {
    Slugify(title, IsWordChar)
  }

  /** The output is in [a-z0-9_-] and never contains "--". */
  lemma GenerateSlugIsSlug(title: string)
    ensures IsSlug(GenerateSlug(title))
  {
    SlugifyShape(title, IsWordChar);
  }

  /** A slug is its own slug. */
  lemma SlugFixpoint(s: string)
    requires IsSlug(s)
    ensures GenerateSlug(s) == s
  {
    SlugifyFixpoint(s, IsWordChar);
  }

  /** `generateSlug` is idempotent. */
  lemma GenerateSlugIdempotent(title: string)
    ensures GenerateSlug(GenerateSlug(title)) == GenerateSlug(title)
  {
    GenerateSlugIsSlug(title);
    SlugFixpoint(GenerateSlug(title));
  }

  /** A string of which the class keeps no character filters to nothing. */
  lemma {:induction false} KeepOnlyNone(s: string, keep: char -> bool)
    requires forall i :: 0 <= i < |s| ==> !Kept(s[i], keep)
    ensures KeepOnly(s, keep) == []
  {
    if s != [] {
      assert forall i :: 0 <= i < |s[1..]| ==> s[1..][i] == s[i + 1];
      KeepOnlyNone(s[1..], keep);
    }
  }

  /**
   * A character whose lower case lies wholly outside the kept class leaves no
   * trace: the slug is that of the title without it.
   */
  lemma SlugifyDropsOutside(a: string, c: char, b: string, keep: char -> bool)
    requires forall i :: 0 <= i < |LowerChar(c)| ==> !Kept(LowerChar(c)[i], keep)
    ensures Slugify(a + [c] + b, keep) == Slugify(a + b, keep)
  {
    LowerAppend(a + [c], b);
    LowerAppend(a, [c]);
    LowerSingle(c);
    LowerAppend(a, b);
    var la, lc, lb := Lower(a), LowerChar(c), Lower(b);
    KeepOnlyAppend(la + lc, lb, keep);
    KeepOnlyAppend(la, lc, keep);
    KeepOnlyAppend(la, lb, keep);
    KeepOnlyNone(lc, keep);
    assert KeepOnly(la, keep) + [] == KeepOnly(la, keep);
  }

  /** A word of the slug alphabet other than the separators: [a-z0-9]+. */
  predicate PlainWord(s: string) {
    s != [] && forall i :: 0 <= i < |s| ==> 'a' <= s[i] <= 'z' || '0' <= s[i] <= '9'
  }

  /** Two plain words around a whitespace run become the two words joined by one '-'. */
  lemma SlugifyJoinsWords(a: string, w: string, b: string, keep: char -> bool)
    requires PlainWord(a) && PlainWord(b) && w != [] && AllWhitespace(w)
    requires forall i :: 0 <= i < |a| ==> keep(a[i])
    requires forall i :: 0 <= i < |b| ==> keep(b[i])
    ensures Slugify(a + w + b, keep) == a + "-" + b
  {
    JoinedUnchangedByFilters(a, w, b, keep);
    PlainWordNoWhitespace(a);
    PlainWordNoWhitespace(b);
    WhitespaceRunBecomesDash(a, w, b);
    DashWhitespaceShape(a);
    DashWhitespaceShape(b);
    assert DashWhitespace(a + w + b) == a + "-" + b;
    JoinedIsFixed(a, b);
  }

  /** A plain word has no whitespace and does not end in a separator. */
  lemma PlainWordNoWhitespace(s: string)
    requires PlainWord(s)
    ensures NoWhitespace(s) && s[|s| - 1] != '-' && !IsJsWhitespace(s[|s| - 1])
  {
  }

  /** Lower-casing and the class filter leave plain words and whitespace alone. */
  lemma JoinedUnchangedByFilters(a: string, w: string, b: string, keep: char -> bool)
    requires PlainWord(a) && PlainWord(b) && AllWhitespace(w)
    requires forall i :: 0 <= i < |a| ==> keep(a[i])
    requires forall i :: 0 <= i < |b| ==> keep(b[i])
    ensures KeepOnly(Lower(a + w + b), keep) == a + w + b
  {
    var t := a + w + b;
    forall i | 0 <= i < |t| ensures LowerChar(t[i]) == [t[i]] && Kept(t[i], keep) {
      if i < |a| {
        assert t[i] == a[i];
      } else if i < |a| + |w| {
        assert t[i] == w[i - |a|];
      } else {
        assert t[i] == b[i - |a| - |w|];
      }
    }
    LowerFixpoint(t);
  }

  /** Two plain words joined by one '-' pass the dash collapse and the trim unchanged. */
  lemma JoinedIsFixed(a: string, b: string)
    requires PlainWord(a) && PlainWord(b)
    ensures Trim(CollapseDashes(a + "-" + b)) == a + "-" + b
  {
    var d := a + "-" + b;
    assert NoDoubleDash(d) && NoWhitespace(d) by {
      forall i | 0 <= i < |d| ensures d[i] != '-' ==> 'a' <= d[i] <= 'z' || '0' <= d[i] <= '9'
        ensures d[i] == '-' ==> i == |a|
      {
        if i < |a| {
          assert d[i] == a[i];
        } else if i > |a| {
          assert d[i] == b[i - |a| - 1];
        }
      }
    }
    CollapseDashesFixpoint(d);
    TrimNoWhitespace(d);
  }

  /**
   * One title through the chain: for lower-case letters x and y, "x  y!"
   * loses its '!' and its two spaces become one '-'.
   */
  lemma GenerateSlugExample(x: char, y: char)
    requires 'a' <= x <= 'z' && 'a' <= y <= 'z'
    ensures GenerateSlug([x] + "  " + [y] + "!") == [x] + "-" + [y]
  {
    var t := [x] + "  " + [y];
    assert LowerChar('!') == ['!'] && !Kept('!', IsWordChar);
    assert t + "!" == t + ['!'] + [] && t + [] == t;
    SlugifyDropsOutside(t, '!', [], IsWordChar);
    TwoWordsExample(x, y);
  }

  /** The two spaces between two letters become one '-'. */
  lemma TwoWordsExample(x: char, y: char)
    requires 'a' <= x <= 'z' && 'a' <= y <= 'z'
    ensures GenerateSlug([x] + "  " + [y]) == [x] + "-" + [y]
  {
    var w := "  ";
    assert AllWhitespace(w) by {
      assert w[0] == w[1] == ' ';
    }
    SlugifyJoinsWords([x], w, [y], IsWordChar);
  }

  // ---------------------------------------------------------------------------
  // Decimal numerals, as the template literal prints a counter.

  function DigitChar(d: nat): (c: char)
    requires d < 10
    ensures '0' <= c <= '9' && c as int - '0' as int == d
  {
    ('0' as int + d) as char
  }

  /** `${n}` for a natural number: its decimal numeral, without leading zeros. */
  function NatToString(n: nat): (r: string)
    ensures |r| > 0
    ensures forall i :: 0 <= i < |r| ==> '0' <= r[i] <= '9'
  {
    if n < 10 then [DigitChar(n)] else NatToString(n / 10) + [DigitChar(n % 10)]
  }

  /** The value of a decimal numeral. */
  function ParseNat(s: string): nat
    requires forall i :: 0 <= i < |s| ==> '0' <= s[i] <= '9'
  {
    if s == [] then 0 else ParseNat(s[..|s| - 1]) * 10 + (s[|s| - 1] as int - '0' as int)
  }

  /** Reading a printed number gives the number back. */
  lemma {:induction false} ParsePrinted(n: nat)
    ensures ParseNat(NatToString(n)) == n
  {
    if n >= 10 {
      ParsePrinted(n / 10);
      var s := NatToString(n);
      assert s[..|s| - 1] == NatToString(n / 10);
    }
  }

  /** Different numbers print differently. */
  lemma NatToStringInjective(a: nat, b: nat)
    requires NatToString(a) == NatToString(b)
    ensures a == b
  {
    ParsePrinted(a);
    ParsePrinted(b);
  }

  // ---------------------------------------------------------------------------
  // `generateUniqueSlug`.

  /** The k-th slug tried: the base, then base-1, base-2, … */
  function Candidate(base: string, k: nat): string {
    if k == 0 then base else base + "-" + NatToString(k)
  }

  /** The candidates are pairwise different. */
  lemma CandidatesDistinct(base: string, j: nat, k: nat)
    requires j != k
    ensures Candidate(base, j) != Candidate(base, k)
  {
    if j > 0 && k > 0 && Candidate(base, j) == Candidate(base, k) {
      assert Candidate(base, j)[|base| + 1..] == NatToString(j);
      assert Candidate(base, k)[|base| + 1..] == NatToString(k);
      NatToStringInjective(j, k);
    }
  }

  /** `slug` is the first candidate the oracle does not report as taken. */
  ghost predicate FirstFree(base: string, taken: set<string>, slug: string) {
    slug !in taken
      && exists k: nat :: slug == Candidate(base, k) && forall j: nat :: j < k ==> Candidate(base, j) in taken
  }

  /** There is only one first free candidate. */
  lemma FirstFreeUnique(base: string, taken: set<string>, s1: string, s2: string)
    requires FirstFree(base, taken, s1) && FirstFree(base, taken, s2)
    ensures s1 == s2
  {
    var k1: nat :| s1 == Candidate(base, k1) && forall j: nat :: j < k1 ==> Candidate(base, j) in taken;
    var k2: nat :| s2 == Candidate(base, k2) && forall j: nat :: j < k2 ==> Candidate(base, j) in taken;
    assert k1 < k2 ==> Candidate(base, k1) in taken;
    assert k2 < k1 ==> Candidate(base, k2) in taken;
  }

  /** `generateUniqueSlug`, with `checkExists(s)` as `s in taken`. */
  method GenerateUniqueSlug(title: string, taken: set<string>) returns (slug: string)
    ensures FirstFree(GenerateSlug(title), taken, slug)
  {
    slug := FirstFreeCandidate(GenerateSlug(title), taken);
  }

  /** The `while` loop of `generateUniqueSlug`, from the base slug of the title. */
  method FirstFreeCandidate(base: string, taken: set<string>) returns (slug: string)
    ensures FirstFree(base, taken, slug)
  {
    slug := base;
    var counter: nat := 1;
    while slug in taken
      invariant counter >= 1 && slug == Candidate(base, counter - 1)
      invariant forall j: nat :: j < counter - 1 ==> Candidate(base, j) in taken
      invariant counter - 1 <= |taken|
      decreases |taken| - (counter - 1)
    {
      TakenBound(base, taken, counter);
      slug := base + "-" + NatToString(counter);
      assert slug == Candidate(base, counter);
      counter := counter + 1;
    }
    FirstFreeAt(base, taken, counter - 1);
  }

  /** The k-th candidate is the first free one when it is free and every earlier one is taken. */
  lemma FirstFreeAt(base: string, taken: set<string>, k: nat)
    requires Candidate(base, k) !in taken
    requires forall j: nat :: j < k ==> Candidate(base, j) in taken
    ensures FirstFree(base, taken, Candidate(base, k))
  {
  }

  /** The first n candidates, base, base-1, …, base-(n-1). */
  ghost function CandidatesBelow(base: string, n: nat): set<string> {
    if n == 0 then {} else CandidatesBelow(base, n - 1) + {Candidate(base, n - 1)}
  }

  /** There are n of them, and no later candidate is among them. */
  lemma {:induction false} CandidatesBelowCard(base: string, n: nat)
    ensures |CandidatesBelow(base, n)| == n
    ensures forall j: nat :: j >= n ==> Candidate(base, j) !in CandidatesBelow(base, n)
  {
    if n > 0 {
      CandidatesBelowCard(base, n - 1);
      forall j: nat | j >= n ensures Candidate(base, j) !in CandidatesBelow(base, n) {
        CandidatesDistinct(base, j, n - 1);
      }
    }
  }

  lemma {:induction false} CandidatesBelowTaken(base: string, taken: set<string>, n: nat)
    requires forall j: nat :: j < n ==> Candidate(base, j) in taken
    ensures CandidatesBelow(base, n) <= taken
  {
    if n > 0 {
      CandidatesBelowTaken(base, taken, n - 1);
    }
  }

  /** When the first n candidates are all taken, at least n slugs are taken: the loop's measure. */
  lemma TakenBound(base: string, taken: set<string>, n: nat)
    requires forall j: nat :: j < n ==> Candidate(base, j) in taken
    ensures n <= |taken|
  {
    CandidatesBelowCard(base, n);
    CandidatesBelowTaken(base, taken, n);
    SubsetCard(CandidatesBelow(base, n), taken);
  }

  lemma SubsetCard<T>(a: set<T>, b: set<T>)
    requires a <= b
    ensures |a| <= |b|
  {
    assert b == a + (b - a);
  }
}
