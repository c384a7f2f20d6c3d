/** Post helpers (src/lib/posts.ts): the normalising slug generator, the
    post schema check, and the reshaping of a database post row. */
module PostsLib {
  import opened Common
  import opened PostTypes

  // ---------------------------------------------------------------------
  // generateSlug

  /** `[\w\s-]`: the characters the character-removing replace keeps. */
  predicate IsSlugKept(c: char) { IsWordChar(c) || IsSpace(c) || c == '-' }

  /** `[\s_-]`: the characters whose runs become one "-". */
  predicate IsSlugSep(c: char) { IsSpace(c) || c == '_' || c == '-' }

  predicate IsDash(c: char) { c == '-' }

  predicate IsSlugChar(c: char) { IsAsciiLower(c) || IsDigit(c) || c == '-' }

  predicate AllSlugChars(s: string) {
    forall i :: 0 <= i < |s| ==> IsSlugChar(s[i])
  }

  /** A normalised slug base: lower-case letters, digits and single inner dashes. */
  predicate IsSlugBase(s: string) {
    && AllSlugChars(s)
    && (s != [] ==> s[0] != '-' && s[|s| - 1] != '-')
    && NoDoubleDash(s)
  }

  /** The title lower-cased, trimmed, stripped of characters outside
      `[\w\s-]`, with each run of `[\s_-]` turned into "-", and with leading
      and trailing dashes removed. */
  function SlugBase(title: string): (base: string)
    ensures IsSlugBase(base)
  {
    var kept := Filter(Trim(Lower(title)), IsSlugKept);
    KeptChars(title);
    CollapsedChars(kept);
    StrippedIsSlugBase(CollapseRuns(kept, IsSlugSep));
    DropTrailing(DropLeading(CollapseRuns(kept, IsSlugSep), IsDash), IsDash)
  }

  /** `generateSlug(title)`, where `randomDigits` are the base-36 digits of
      `Math.random()` after its "0." prefix. */
  function GenerateSlug(title: string, randomDigits: string): (slug: string)
    ensures var base := SlugBase(title);
      && IsSlugBase(base)
      && |base| < |slug| <= |base| + 6
      && slug[..|base|] == base
      && slug[|base|] == '-'
      && slug[|base| + 1..] == Take(randomDigits, 5)
  {
    var base := SlugBase(title);
    JoinSuffix(base, Take(randomDigits, 5));
    base + "-" + Take(randomDigits, 5)
  }

  /** Dropping dashes from either end of a string without "--" keeps it without "--". */
  lemma NoDoubleDashSlice(s: string, a: nat, b: nat)
    requires NoDoubleDash(s) && a <= b <= |s|
    ensures NoDoubleDash(s[a..b])
  {
    forall i | 0 <= i < b - a - 1
      ensures !(s[a..b][i] == '-' && s[a..b][i + 1] == '-')
    {
      assert s[a..b][i] == s[a + i] && s[a..b][i + 1] == s[a + i + 1];
    }
  }

  /** A character that survives the removal and is no separator is a
      letter or a digit; lowered, it is a slug character. */
  lemma KeptNonSepIsSlugChar(c: char)
    requires IsSlugKept(c) && !IsSlugSep(c) && !IsAsciiUpper(c)
    ensures IsSlugChar(c)
  {
  }

  /** Slug characters are not white space, and "-" is the only separator among them. */
  lemma SlugCharIsNoSpace(c: char)
    requires IsSlugChar(c)
    ensures !IsSpace(c) && (IsSlugSep(c) ==> c == '-')
  {
  }

  /** The characters left after lowering, trimming and removal. */
  lemma KeptChars(title: string)
    ensures forall c :: c in Filter(Trim(Lower(title)), IsSlugKept) ==> IsSlugKept(c) && !IsAsciiUpper(c)
  {
    LowerFacts(title);
    var trimmed := Trim(Lower(title));
    assert forall c :: c in trimmed ==> !IsAsciiUpper(c);
    FilterMembers(trimmed, IsSlugKept);
  }

  /** Collapsing the kept characters leaves only slug characters and no "--". */
  lemma CollapsedChars(kept: string)
    requires forall c :: c in kept ==> IsSlugKept(c) && !IsAsciiUpper(c)
    ensures AllSlugChars(CollapseRuns(kept, IsSlugSep))
    ensures NoDoubleDash(CollapseRuns(kept, IsSlugSep))
  {
    var collapsed := CollapseRuns(kept, IsSlugSep);
    CollapseRunsChars(kept, IsSlugSep);
    assert IsSlugSep('-');
    forall i | 0 <= i < |collapsed| ensures IsSlugChar(collapsed[i]) {
      var c := collapsed[i];
      assert c in collapsed;
      if c != '-' {
        KeptNonSepIsSlugChar(c);
      }
    }
  }

  /** Dropping the dashes at both ends of `s` leaves no dash at either end. */
  lemma DropDashesEnds(s: string)
    ensures var base := DropTrailing(DropLeading(s, IsDash), IsDash);
      base != [] ==> base[0] != '-' && base[|base| - 1] != '-'
  {
    var front := DropLeading(s, IsDash);
    var base := DropTrailing(front, IsDash);
    if base != [] {
      assert base[0] == front[0];
    }
  }

  /** A slice of slug characters without "--" that starts and ends with no dash is a slug base. */
  lemma SliceIsSlugBase(s: string, base: string, a: nat)
    requires AllSlugChars(s)
    requires NoDoubleDash(s)
    requires a + |base| <= |s| && base == s[a..a + |base|]
    requires base != [] ==> base[0] != '-' && base[|base| - 1] != '-'
    ensures IsSlugBase(base)
  {
    NoDoubleDashSlice(s, a, a + |base|);
    forall i | 0 <= i < |base| ensures IsSlugChar(base[i]) {
      assert base[i] == s[a + i];
    }
  }

  /** Dropping the end dashes of a string of slug characters without "--" gives a slug base. */
  lemma StrippedIsSlugBase(collapsed: string)
    requires AllSlugChars(collapsed)
    requires NoDoubleDash(collapsed)
    ensures IsSlugBase(DropTrailing(DropLeading(collapsed, IsDash), IsDash))
  {
    var base := DropTrailing(DropLeading(collapsed, IsDash), IsDash);
    var a := DropBothIsSlice(collapsed, IsDash);
    DropDashesEnds(collapsed);
    SliceIsSlugBase(collapsed, base, a);
  }

  /** Two alphanumeric words joined by a run of white space, "_" or "-", as in
      "Hello World" or "Hello_-_World", give the lowered words joined by one "-". */
  lemma SlugBaseOfWords(a: string, w: string, b: string)
    requires a != [] && forall i :: 0 <= i < |a| ==> IsAsciiAlnum(a[i])
    requires w != [] && forall i :: 0 <= i < |w| ==> IsSlugSep(w[i])
    requires b != [] && forall i :: 0 <= i < |b| ==> IsAsciiAlnum(b[i])
    ensures SlugBase(a + w + b) == Lower(a) + "-" + Lower(b)
  {
    var la, lb := Lower(a), Lower(b);
    var title := a + w + b;
    var t := LoweredWords(a, w, b);
    assert Lower(title) == t;
    assert Trim(t) == t;
    FilterKeepsAll(t, IsSlugKept);
    assert Filter(Trim(Lower(title)), IsSlugKept) == t;
    assert t == la + w + lb;
    CollapseAlnumWords(la, w, lb);
    SlugBaseUnfold(title);
  }

  /** SlugBase spelled out as its steps. */
  lemma SlugBaseUnfold(title: string)
    ensures SlugBase(title)
         == DropTrailing(DropLeading(CollapseRuns(Filter(Trim(Lower(title)), IsSlugKept), IsSlugSep), IsDash), IsDash)
  {
  }

  /** Alphanumeric words around a separator run collapse to "x-y", which has no end dashes to drop. */
  lemma CollapseAlnumWords(x: string, w: string, y: string)
    requires x != [] && forall i :: 0 <= i < |x| ==> IsAsciiAlnum(x[i])
    requires w != [] && forall i :: 0 <= i < |w| ==> IsSlugSep(w[i])
    requires y != [] && forall i :: 0 <= i < |y| ==> IsAsciiAlnum(y[i])
    ensures DropTrailing(DropLeading(CollapseRuns(x + w + y, IsSlugSep), IsDash), IsDash) == x + "-" + y
  {
    AlnumNoSlugSep(x);
    AlnumNoSlugSep(y);
    CollapseRunsWords(x, w, y, IsSlugSep);
    var r := x + "-" + y;
    assert r[0] == x[0] && r[|r| - 1] == y[|y| - 1];
    DropDashesFixes(r);
  }

  lemma AlnumNoSlugSep(s: string)
    requires forall i :: 0 <= i < |s| ==> IsAsciiAlnum(s[i])
    ensures forall i :: 0 <= i < |s| ==> !IsSlugSep(s[i])
  {
  }

  /** The lowered title of SlugBaseOfWords: the words lowered around the
      unchanged run, trimmed already, and made only of kept characters. */
  lemma LoweredWords(a: string, w: string, b: string) returns (t: string)
    requires a != [] && forall i :: 0 <= i < |a| ==> IsAsciiAlnum(a[i])
    requires w != [] && forall i :: 0 <= i < |w| ==> IsSlugSep(w[i])
    requires b != [] && forall i :: 0 <= i < |b| ==> IsAsciiAlnum(b[i])
    ensures t == Lower(a + w + b) && t == Lower(a) + w + Lower(b)
    ensures Trimmed(t)
    ensures forall i :: 0 <= i < |t| ==> IsSlugKept(t[i])
    ensures forall i :: 0 <= i < |Lower(a)| ==> IsAsciiAlnum(Lower(a)[i])
    ensures forall i :: 0 <= i < |Lower(b)| ==> IsAsciiAlnum(Lower(b)[i])
  {
    LowerAppend(a + w, b);
    LowerAppend(a, w);
    assert Lower(w) == w;
    t := Lower(a) + w + Lower(b);
    forall i | 0 <= i < |t| ensures IsSlugKept(t[i]) {
      if i < |a| {
        assert t[i] == Lower(a)[i];
      } else if i < |a| + |w| {
        assert t[i] == w[i - |a|];
      } else {
        assert t[i] == Lower(b)[i - |a| - |w|];
      }
    }
  }

  /** Lowering and trimming leave a slug base unchanged. */
  lemma SlugBaseTrimmed(b: string)
    requires IsSlugBase(b)
    ensures Trim(Lower(b)) == b
  {
    LowerFacts(b);
    forall c | c in b ensures !IsAsciiUpper(c) {
      var i :| 0 <= i < |b| && b[i] == c;
      assert IsSlugChar(b[i]);
    }
    if b != [] {
      SlugCharIsNoSpace(b[0]);
      SlugCharIsNoSpace(b[|b| - 1]);
    }
  }

  /** The removal and the run collapsing leave a slug base unchanged. */
  lemma SlugBaseCollapsed(b: string)
    requires IsSlugBase(b)
    ensures CollapseRuns(Filter(b, IsSlugKept), IsSlugSep) == b
  {
    forall i | 0 <= i < |b| ensures IsSlugKept(b[i]) {
      assert IsSlugChar(b[i]);
    }
    FilterKeepsAll(b, IsSlugKept);
    forall c | c in b && IsSlugSep(c) ensures c == '-' {
      var i :| 0 <= i < |b| && b[i] == c;
      SlugCharIsNoSpace(b[i]);
    }
    CollapseRunsIdentity(b, IsSlugSep);
  }

  /** Dropping end dashes leaves a string with no dash at either end unchanged. */
  lemma DropDashesFixes(b: string)
    requires b != [] ==> b[0] != '-' && b[|b| - 1] != '-'
    ensures DropTrailing(DropLeading(b, IsDash), IsDash) == b
  {
  }

  /** A normalised slug base is left unchanged by normalisation. */
  lemma SlugBaseFixes(b: string)
    requires IsSlugBase(b)
    ensures SlugBase(b) == b
  {
    SlugBaseTrimmed(b);
    SlugBaseCollapsed(b);
    DropDashesFixes(b);
  }

  /** Normalisation is idempotent. */
  lemma SlugBaseIdempotent(title: string)
    ensures SlugBase(SlugBase(title)) == SlugBase(title)
  {
    SlugBaseFixes(SlugBase(title));
  }

  // ---------------------------------------------------------------------
  // validatePost

  /** A `Partial<CreatePostInput>` as received; an absent field is None. */
  datatype PostInput = PostInput(
    title: Option<string>,
    content: Option<string>,
    excerpt: Option<string>,
    coverImage: Option<string>,
    tags: Option<seq<string>>,
    status: Option<string>)

  /** One schema violation, by field. */
  datatype Issue =
    | Required(field: string)
    | TooShort(field: string, message: string)
    | InvalidUrl
    | InvalidStatus(received: string)

  datatype Validation = Valid(data: PostInput) | Invalid(errors: seq<Issue>)

  const TitleMessage := "Title must be at least 3 characters"
  const ContentMessage := "Content must be at least 10 characters"

  /** A required string with a minimum length. */
  function MinLength(field: string, value: Option<string>, min: nat, message: string): (r: seq<Issue>)
    ensures r == [] <==> value.Some? && |value.value| >= min
    ensures value.None? ==> r == [Required(field)]
    ensures value.Some? && |value.value| < min ==> r == [TooShort(field, message)]
  {
    if value.None? then [Required(field)]
    else if |value.value| < min then [TooShort(field, message)]
    else []
  }

  /** The schema's issues in field order; `isUrl` is the URL parser's verdict. */
  function Issues(d: PostInput, isUrl: string -> bool): (r: seq<Issue>)
    ensures r == [] <==>
      && d.title.Some? && |d.title.value| >= 3
      && d.content.Some? && |d.content.value| >= 10
      && (d.coverImage.None? || d.coverImage.value == "" || isUrl(d.coverImage.value))
      && (d.status.None? || d.status.value in {"DRAFT", "PUBLISHED"})
    ensures d.coverImage.Some? && d.coverImage.value != "" && !isUrl(d.coverImage.value) ==> InvalidUrl in r
  {
    MinLength("title", d.title, 3, TitleMessage)
    + MinLength("content", d.content, 10, ContentMessage)
    + (if d.coverImage.Some? && d.coverImage.value != "" && !isUrl(d.coverImage.value) then [InvalidUrl] else [])
    + (if d.status.Some? && d.status.value != "DRAFT" && d.status.value != "PUBLISHED"
       then [InvalidStatus(d.status.value)] else [])
  }

  /** `validatePost(data)`: the data when it fits the schema, its issues otherwise. */
  function ValidatePost(d: PostInput, isUrl: string -> bool): (r: Validation)
    ensures r.Valid? <==>
      && d.title.Some? && |d.title.value| >= 3
      && d.content.Some? && |d.content.value| >= 10
      && (d.coverImage.None? || d.coverImage.value == "" || isUrl(d.coverImage.value))
      && (d.status.None? || d.status.value in {"DRAFT", "PUBLISHED"})
    ensures r.Valid? ==> r.data == d
    ensures d.title.Some? && |d.title.value| < 3 ==> r.Invalid? && TooShort("title", TitleMessage) in r.errors
    ensures d.content.Some? && |d.content.value| < 10 ==> r.Invalid? && TooShort("content", ContentMessage) in r.errors
    ensures d.status.Some? && d.status.value !in {"DRAFT", "PUBLISHED"} ==>
      r.Invalid? && InvalidStatus(d.status.value) in r.errors
  {
    var issues := Issues(d, isUrl);
    if issues == [] then Valid(d) else Invalid(issues)
  }

  // ---------------------------------------------------------------------
  // formatPost

  datatype DbUser = DbUser(id: string, name: string, email: string, avatarUrl: Option<string>, bio: Option<string>)

  datatype PostTagLink = PostTagLink(tag: Tag)

  /** The columns of a post row, which the spread copies unchanged. */
  datatype PostRow = PostRow(
    id: string,
    title: string,
    slug: string,
    content: string,
    excerpt: Option<string>,
    coverImage: Option<string>,
    status: PostStatus,
    publishedAt: Option<string>,
    authorId: string,
    createdAt: string,
    updatedAt: string)

  datatype DbPost = DbPost(row: PostRow, postTags: Option<seq<PostTagLink>>, author: Option<DbUser>)

  datatype FormattedPost = FormattedPost(row: PostRow, postTags: Option<seq<PostTagLink>>, tags: seq<Tag>, author: Option<User>)

  /** `formatPost(post)`. */
  function FormatPost(p: DbPost): (r: FormattedPost)
    ensures r.row == p.row && r.postTags == p.postTags
    ensures p.postTags.None? ==> r.tags == []
    ensures p.postTags.Some? ==>
      |r.tags| == |p.postTags.value| && forall i :: 0 <= i < |r.tags| ==> r.tags[i] == p.postTags.value[i].tag
    ensures r.author.Some? <==> p.author.Some?
    ensures p.author.Some? ==>
      var a := p.author.value;
      r.author.value == User(a.id, a.name, a.email, a.avatarUrl, a.bio)
  {
    FormattedPost(
      p.row,
      p.postTags,
      if p.postTags.Some? then seq(|p.postTags.value|, i requires 0 <= i < |p.postTags.value| => p.postTags.value[i].tag) else [],
      if p.author.Some? then
        var a := p.author.value;
        Some(User(a.id, a.name, a.email, a.avatarUrl, a.bio))
      else None)
  }
}
