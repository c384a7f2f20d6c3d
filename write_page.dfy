/** The editor's handlers in src/app/write/page.tsx: the duplicate-free tag
    list, and the two submissions (save as draft, publish with a blank check).
    The form's state slots are the fields of a WriteForm; a submission is the
    value handed to the create mutation. */
module WritePage {
  import opened Common
  import opened PostTypes

  /** The `includes` test and the `filter` callback's negation for `tag`. */
  function IsTag(tag: string): string -> bool {
    (t: string) => t == tag
  }

  /** The tag list after `handleAddTag` with the input `input`. */
  function AddTag(tags: seq<string>, input: string): (r: seq<string>)
    ensures Trim(input) != "" && Trim(input) !in tags ==> r == tags + [Trim(input)]
    ensures Trim(input) == "" || Trim(input) in tags ==> r == tags
  {
    var t := Trim(input);
    if t != "" && t !in tags then tags + [t] else tags
  }

  /** The tag list after `handleRemoveTag(tag)`. */
  function RemoveTag(tags: seq<string>, tag: string): (r: seq<string>)
    ensures tag !in r
    ensures forall t :: t in r <==> t in tags && t != tag
  {
    FilterMembers(tags, Not(IsTag(tag)));
    Filter(tags, Not(IsTag(tag)))
  }

  /** The remaining tags keep their order: removal distributes over concatenation. */
  lemma RemoveTagKeepsOrder(a: seq<string>, b: seq<string>, tag: string)
    ensures RemoveTag(a + b, tag) == RemoveTag(a, tag) + RemoveTag(b, tag)
  {
    FilterAppend(a, b, Not(IsTag(tag)));
  }

  /** A tag as `handleAddTag` stores it: non-empty and with no white space at
      either end, so that trimming leaves it as it is. */
  predicate CleanTag(t: string) {
    t != "" && Trimmed(t)
  }

  predicate Distinct(tags: seq<string>) {
    forall i, j :: 0 <= i < j < |tags| ==> tags[i] != tags[j]
  }

  /** The tag list's invariant: distinct, and every tag clean. */
  predicate WellFormedTags(tags: seq<string>) {
    Distinct(tags) && forall i :: 0 <= i < |tags| ==> CleanTag(tags[i])
  }

  /** Adding a tag keeps the list well formed. */
  lemma AddTagKeepsWellFormed(tags: seq<string>, input: string)
    requires WellFormedTags(tags)
    ensures WellFormedTags(AddTag(tags, input))
  {
    var t := Trim(input);
    if t != "" && t !in tags {
      AppendKeepsDistinct(tags, t);
    }
  }

  /** Appending a tag not in the list keeps it duplicate-free. */
  lemma AppendKeepsDistinct(tags: seq<string>, t: string)
    requires Distinct(tags) && t !in tags
    ensures Distinct(tags + [t])
  {
    var r := tags + [t];
    forall i, j | 0 <= i < j < |r| ensures r[i] != r[j] {
      if j == |tags| {
        assert r[i] == tags[i];
      }
    }
  }

  /** Filtering a duplicate-free list keeps it duplicate-free. */
  lemma {:induction false} FilterKeepsDistinct(tags: seq<string>, tag: string)
    requires Distinct(tags)
    ensures Distinct(Filter(tags, Not(IsTag(tag))))
  {
    if tags != [] {
      var rest := tags[1..];
      assert Distinct(rest);
      FilterKeepsDistinct(rest, tag);
      FilterMembers(rest, Not(IsTag(tag)));
    }
  }

  /** Removing a tag keeps the list well formed. */
  lemma RemoveTagKeepsWellFormed(tags: seq<string>, tag: string)
    requires WellFormedTags(tags)
    ensures WellFormedTags(RemoveTag(tags, tag))
  {
    FilterKeepsDistinct(tags, tag);
    var r := RemoveTag(tags, tag);
    forall i | 0 <= i < |r| ensures CleanTag(r[i]) {
      CleanTagOf(tags, r[i]);
    }
  }

  lemma CleanTagOf(tags: seq<string>, t: string)
    requires forall i :: 0 <= i < |tags| ==> CleanTag(tags[i])
    requires t in tags
    ensures CleanTag(t)
  {
  }

  /** Adding a new tag and removing it again gives the list back. */
  lemma AddThenRemove(tags: seq<string>, input: string)
    requires Trim(input) != "" && Trim(input) !in tags
    ensures RemoveTag(AddTag(tags, input), Trim(input)) == tags
  {
    var t := Trim(input);
    var q := Not(IsTag(t));
    FilterSkips(tags, t, [], q);
    assert tags + [t] + [] == tags + [t] && tags + [] == tags;
    forall i | 0 <= i < |tags| ensures q(tags[i]) {
      assert tags[i] in tags;
    }
    FilterKeepsAll(tags, q);
  }

  /** The value handed to the create mutation. */
  function Submission(title: string, content: string, excerpt: string, coverImage: string,
                      tags: seq<string>, status: PostStatus): (r: CreatePostInput)
    ensures r.title == title && r.content == content && r.tags == Some(tags)
    ensures r.excerpt == Some(excerpt) && r.coverImage == Some(coverImage)
    ensures r.status == Some(status)
  {
    CreatePostInput(title, content, Some(excerpt), Some(coverImage), Some(tags), Some(status))
  }

  class WriteForm {
    var title: string
    var content: string
    var excerpt: string
    var coverImage: string
    var tags: seq<string>
    var tagInput: string

    /** The empty form. */
    constructor ()
      ensures title == "" && content == "" && excerpt == "" && coverImage == ""
      ensures tags == [] && tagInput == ""
    {
      title, content, excerpt, coverImage := "", "", "", "";
      tags, tagInput := [], "";
    }

    /** `handleAddTag`: the trimmed input is added when it is non-empty and new,
        and only then is the input cleared. */
    method HandleAddTag()
      modifies this
      ensures tags == AddTag(old(tags), old(tagInput))
      ensures tagInput == if tags != old(tags) then "" else old(tagInput)
      ensures title == old(title) && content == old(content)
      ensures excerpt == old(excerpt) && coverImage == old(coverImage)
    {
      var t := Trim(tagInput);
      var at := FindIndex(tags, IsTag(t));
      if t != "" && at < 0 {
        assert t !in tags;
        tags := tags + [t];
        tagInput := "";
      } else if t != "" {
        assert tags[at] == t;
      }
    }

    /** `handleRemoveTag(tag)`. */
    method HandleRemoveTag(tag: string)
      modifies this
      ensures tags == RemoveTag(old(tags), tag)
      ensures tagInput == old(tagInput) && title == old(title) && content == old(content)
      ensures excerpt == old(excerpt) && coverImage == old(coverImage)
    {
      tags := Filter(tags, Not(IsTag(tag)));
    }

    /** `handleSaveDraft`: submits the form as a draft, with no check. */
    method HandleSaveDraft() returns (submitted: CreatePostInput)
      ensures submitted.status == Some(Draft)
      ensures submitted.title == title && submitted.content == content && submitted.tags == Some(tags)
      ensures submitted.excerpt == Some(excerpt) && submitted.coverImage == Some(coverImage)
    {
      submitted := Submission(title, content, excerpt, coverImage, tags, Draft);
    }

    /** `handlePublish`: nothing is submitted when the title or the content is
        blank after trimming; otherwise the form is submitted as published. */
    method HandlePublish() returns (submitted: Option<CreatePostInput>)
      ensures submitted.None? <==> (forall c :: c in title ==> IsSpace(c)) || (forall c :: c in content ==> IsSpace(c))
      ensures submitted.Some? ==> submitted.value == Submission(title, content, excerpt, coverImage, tags, Published)
    {
      if Trim(title) == "" || Trim(content) == "" {
        return None;
      }
      submitted := Some(Submission(title, content, excerpt, coverImage, tags, Published));
    }
  }
}
