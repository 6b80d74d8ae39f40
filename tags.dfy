/**
 * A task's tag list (schedule_manager/manager.py:344-422): an ordered list
 * without duplicates, kept in first-insertion order.  These functions are the
 * specification of the list operations; `Manager.Task` performs them in place.
 */
module Tags {

  type Tag = string

  predicate NoDup(l: seq<Tag>) {
    forall i, j :: 0 <= i < j < |l| ==> l[i] != l[j]
  }

  /** `add_tag`: append when absent. */
  function AddTag(l: seq<Tag>, t: Tag): seq<Tag> {
    if t in l then l else l + [t]
  }

  /** `add_tags`: `add_tag` of each tag in turn (written as a fold from the left end). */
  function AddTags(l: seq<Tag>, ts: seq<Tag>): seq<Tag>
    decreases |ts|
  {
    if ts == [] then l else AddTag(AddTags(l, ts[..|ts| - 1]), ts[|ts| - 1])
  }

  /** `list.remove`: drop the first occurrence, if any. */
  function RemoveFirst(l: seq<Tag>, t: Tag): seq<Tag> {
    if l == [] then []
    else if l[0] == t then l[1..]
    else [l[0]] + RemoveFirst(l[1..], t)
  }

  /** `remove_tag`: `remove` guarded by a membership test. */
  function RemoveTag(l: seq<Tag>, t: Tag): seq<Tag> {
    if t in l then RemoveFirst(l, t) else l
  }

  function RemoveTags(l: seq<Tag>, ts: seq<Tag>): seq<Tag>
    decreases |ts|
  {
    if ts == [] then l else RemoveTag(RemoveTags(l, ts[..|ts| - 1]), ts[|ts| - 1])
  }

  /** `set_tags`: clear, then add each tag that is not yet present. */
  function SetTags(ts: seq<Tag>): seq<Tag> {
    AddTags([], ts)
  }

  /** Every element of `l` except `t`, in order: a reference definition for removal. */
  function Without(l: seq<Tag>, t: Tag): seq<Tag> {
    if l == [] then [] else (if l[0] == t then [] else [l[0]]) + Without(l[1..], t)
  }

  // ---------------------------------------------------------------------
  // Adding.

  /**
   * Adding keeps the list duplicate-free, keeps what was there as a prefix
   * (first-insertion order) and holds exactly the old tags and the new ones.
   */
  lemma {:induction false} AddTagsSpec(l: seq<Tag>, ts: seq<Tag>)
    requires NoDup(l)
    ensures NoDup(AddTags(l, ts))
    ensures |AddTags(l, ts)| >= |l| && AddTags(l, ts)[..|l|] == l
    ensures forall x :: x in AddTags(l, ts) <==> x in l || x in ts
    decreases |ts|
  {
    if ts != [] {
      var init := ts[..|ts| - 1];
      AddTagsSpec(l, init);
      var r := AddTags(l, init);
      var t := ts[|ts| - 1];
      assert ts == init + [t];
      if t !in r {
        assert (r + [t])[..|l|] == r[..|l|];
      }
    }
  }

  /** A tag that is already present is not added again. */
  lemma {:induction false} AddTagsPresent(l: seq<Tag>, ts: seq<Tag>)
    requires forall x :: x in ts ==> x in l
    ensures AddTags(l, ts) == l
    decreases |ts|
  {
    if ts != [] {
      assert ts[|ts| - 1] in ts;
      assert forall x :: x in ts[..|ts| - 1] ==> x in ts;
      AddTagsPresent(l, ts[..|ts| - 1]);
    }
  }

  lemma AddTagsIdempotent(l: seq<Tag>, ts: seq<Tag>)
    requires NoDup(l)
    ensures AddTags(AddTags(l, ts), ts) == AddTags(l, ts)
  {
    AddTagsSpec(l, ts);
    AddTagsPresent(AddTags(l, ts), ts);
  }

  /** `set_tags` gives the tags without repeats, each at its first occurrence. */
  lemma SetTagsSpec(ts: seq<Tag>)
    ensures NoDup(SetTags(ts))
    ensures forall x :: x in SetTags(ts) <==> x in ts
  {
    AddTagsSpec([], ts);
  }

  // ---------------------------------------------------------------------
  // Removing.

  /** On a duplicate-free list, removing a tag is filtering it out. */
  lemma {:induction false} RemoveFirstWithout(l: seq<Tag>, t: Tag)
    requires NoDup(l)
    ensures RemoveFirst(l, t) == Without(l, t)
    ensures NoDup(Without(l, t))
    ensures forall x :: x in Without(l, t) <==> x in l && x != t
  {
    if l != [] {
      assert NoDup(l[1..]) by {
        forall i, j | 0 <= i < j < |l[1..]| ensures l[1..][i] != l[1..][j] {
          assert l[1..][i] == l[i + 1] && l[1..][j] == l[j + 1];
        }
      }
      RemoveFirstWithout(l[1..], t);
      if l[0] == t {
        assert t !in l[1..] by {
          forall k | 0 <= k < |l[1..]| ensures l[1..][k] != t {
            assert l[1..][k] == l[k + 1];
          }
        }
        WithoutAbsent(l[1..], t);
      } else {
        assert l[0] !in l[1..] by {
          forall k | 0 <= k < |l[1..]| ensures l[1..][k] != l[0] {
            assert l[1..][k] == l[k + 1];
          }
        }
        var w := Without(l[1..], t);
        forall i, j | 0 <= i < j < |[l[0]] + w| ensures ([l[0]] + w)[i] != ([l[0]] + w)[j] {
          if i == 0 {
            assert ([l[0]] + w)[j] == w[j - 1];
            assert w[j - 1] in w;
          } else {
            assert ([l[0]] + w)[i] == w[i - 1] && ([l[0]] + w)[j] == w[j - 1];
          }
        }
      }
    }
  }

  lemma {:induction false} WithoutAbsent(l: seq<Tag>, t: Tag)
    requires t !in l
    ensures Without(l, t) == l
  {
    if l != [] {
      assert l[1..] + [] == l[1..];
      WithoutAbsent(l[1..], t);
      assert [l[0]] + l[1..] == l;
    }
  }

  /**
   * `remove_tag` deletes exactly that tag and keeps the others in order; it
   * changes nothing when the tag is absent.
   */
  lemma RemoveTagSpec(l: seq<Tag>, t: Tag)
    requires NoDup(l)
    ensures RemoveTag(l, t) == Without(l, t)
    ensures NoDup(RemoveTag(l, t))
    ensures forall x :: x in RemoveTag(l, t) <==> x in l && x != t
    ensures t !in l ==> RemoveTag(l, t) == l
  {
    RemoveFirstWithout(l, t);
    if t !in l {
      WithoutAbsent(l, t);
    }
  }

  lemma {:induction false} RemoveTagsSpec(l: seq<Tag>, ts: seq<Tag>)
    requires NoDup(l)
    ensures NoDup(RemoveTags(l, ts))
    ensures forall x :: x in RemoveTags(l, ts) <==> x in l && x !in ts
    decreases |ts|
  {
    if ts != [] {
      var init := ts[..|ts| - 1];
      RemoveTagsSpec(l, init);
      RemoveTagSpec(RemoveTags(l, init), ts[|ts| - 1]);
      assert ts == init + [ts[|ts| - 1]];
    }
  }

  lemma {:induction false} RemoveTagsAbsent(l: seq<Tag>, ts: seq<Tag>)
    requires forall x :: x in ts ==> x !in l
    ensures RemoveTags(l, ts) == l
    decreases |ts|
  {
    if ts != [] {
      assert ts[|ts| - 1] in ts;
      assert forall x :: x in ts[..|ts| - 1] ==> x in ts;
      RemoveTagsAbsent(l, ts[..|ts| - 1]);
    }
  }

  lemma RemoveTagsIdempotent(l: seq<Tag>, ts: seq<Tag>)
    requires NoDup(l)
    ensures RemoveTags(RemoveTags(l, ts), ts) == RemoveTags(l, ts)
  {
    RemoveTagsSpec(l, ts);
    RemoveTagsAbsent(RemoveTags(l, ts), ts);
  }
}
