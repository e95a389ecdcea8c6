/**
 * The list logic of the tag input (components/ui/tag-input.tsx): `addTag`
 * maps the current tags and the text in the input box to the new tags and the
 * new box text; `removeTag` filters a tag out. The component's default bound
 * is five tags.
 */
module TagInput {
  import opened Common

  const DefaultMaxTags := 5

  /** The tag list and the input box. */
  datatype TagState = TagState(tags: seq<string>, input: string)

  /** `addTag`. */
  function AddTag(tags: seq<string>, input: string, maxTags: int): (r: TagState)
    ensures r.tags == tags || r.tags == tags + [Trim(input)]
    ensures r.tags != tags <==> Trim(input) != "" && Trim(input) !in tags && |tags| < maxTags
    ensures r.input == (if Trim(input) == "" then input else "")
  {
    var trimmed := Trim(input);
    if trimmed == "" then TagState(tags, input)
    else if trimmed in tags then TagState(tags, "")
    else if |tags| >= maxTags then TagState(tags, "")
    else TagState(tags + [trimmed], "")
  }

  /** `removeTag`: keep the tags other than `t`, in order. */
  function RemoveTag(tags: seq<string>, t: string): (r: seq<string>)
    ensures |r| <= |tags|
    ensures forall x :: x in r <==> x in tags && x != t
  {
    if tags == [] then []
    else if tags[0] != t then [tags[0]] + RemoveTag(tags[1..], t)
    else RemoveTag(tags[1..], t)
  }

  /** No tag appears twice. */
  predicate NoDuplicates(tags: seq<string>) {
    forall i, j :: 0 <= i < j < |tags| ==> tags[i] != tags[j]
  }

  /** The invariant the component keeps: distinct tags, at most `maxTags` of them. */
  predicate ValidTags(tags: seq<string>, maxTags: int) {
    NoDuplicates(tags) && |tags| <= maxTags
  }

  // ---------------------------------------------------------------------------
  // Lemmas.

  /** `addTag` keeps the list distinct and within the bound. */
  lemma AddTagKeepsValid(tags: seq<string>, input: string, maxTags: int)
    requires ValidTags(tags, maxTags)
    ensures ValidTags(AddTag(tags, input, maxTags).tags, maxTags)
  {
    var r := AddTag(tags, input, maxTags);
    if r.tags != tags {
      forall i, j | 0 <= i < j < |r.tags| ensures r.tags[i] != r.tags[j] {
        if j == |tags| {
          assert r.tags[i] == tags[i];
        }
      }
    }
  }

  /** `removeTag` distributes over concatenation, so it keeps the order of the rest. */
  lemma {:induction false} RemoveTagAppend(a: seq<string>, b: seq<string>, t: string)
    ensures RemoveTag(a + b, t) == RemoveTag(a, t) + RemoveTag(b, t)
  {
    if a == [] {
      assert a + b == b;
    } else {
      assert (a + b)[0] == a[0] && (a + b)[1..] == a[1..] + b;
      RemoveTagAppend(a[1..], b, t);
    }
  }

  /** Removing an absent tag changes nothing. */
  lemma {:induction false} RemoveAbsentTag(tags: seq<string>, t: string)
    requires t !in tags
    ensures RemoveTag(tags, t) == tags
  {
    if tags != [] {
      RemoveAbsentTag(tags[1..], t);
    }
  }

  /** `removeTag` keeps the list distinct and within the bound; a present tag shortens it by one. */
  lemma {:induction false} RemoveTagKeepsValid(tags: seq<string>, t: string, maxTags: int)
    requires ValidTags(tags, maxTags)
    ensures ValidTags(RemoveTag(tags, t), maxTags)
    ensures |RemoveTag(tags, t)| == if t in tags then |tags| - 1 else |tags|
  {
    if tags != [] {
      assert ValidTags(tags[1..], maxTags) by {
        forall i, j | 0 <= i < j < |tags[1..]| ensures tags[1..][i] != tags[1..][j] {
          assert tags[1..][i] == tags[i + 1] && tags[1..][j] == tags[j + 1];
        }
      }
      RemoveTagKeepsValid(tags[1..], t, maxTags);
      var rest := RemoveTag(tags[1..], t);
      if tags[0] != t {
        assert tags[0] !in tags[1..] by {
          forall k | 0 <= k < |tags[1..]| ensures tags[1..][k] != tags[0] {
            assert tags[1..][k] == tags[k + 1];
          }
        }
        forall i, j | 0 <= i < j < |[tags[0]] + rest| ensures ([tags[0]] + rest)[i] != ([tags[0]] + rest)[j] {
          if i == 0 {
            assert ([tags[0]] + rest)[j] == rest[j - 1];
            assert rest[j - 1] in rest;
          } else {
            assert ([tags[0]] + rest)[i] == rest[i - 1] && ([tags[0]] + rest)[j] == rest[j - 1];
          }
        }
        assert t in tags <==> t in tags[1..];
      } else {
        assert t !in tags[1..] by {
          forall k | 0 <= k < |tags[1..]| ensures tags[1..][k] != t {
            assert tags[1..][k] == tags[k + 1];
          }
        }
        RemoveAbsentTag(tags[1..], t);
      }
    }
  }

  /** Removing a tag that was just added gives the earlier list back. */
  lemma RemoveUndoesAdd(tags: seq<string>, input: string, maxTags: int)
    requires AddTag(tags, input, maxTags).tags != tags
    ensures RemoveTag(AddTag(tags, input, maxTags).tags, Trim(input)) == tags
  {
    var t := Trim(input);
    RemoveTagAppend(tags, [t], t);
    RemoveAbsentTag(tags, t);
  }

  /** Adding a tag already present only clears the box. */
  lemma AddDuplicateClearsInput(tags: seq<string>, input: string, maxTags: int)
    requires Trim(input) != "" && Trim(input) in tags
    ensures AddTag(tags, input, maxTags) == TagState(tags, "")
  {
  }

  /** Once the list is full, nothing more is added and the box is cleared. */
  lemma AddWhenFullClearsInput(tags: seq<string>, input: string, maxTags: int)
    requires |tags| >= maxTags && Trim(input) != ""
    ensures AddTag(tags, input, maxTags) == TagState(tags, "")
  {
  }
}
