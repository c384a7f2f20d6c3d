/** The page metadata builders of src/lib/seo.ts: for a post (title suffix,
    description from the excerpt or the tag-stripped content, keywords,
    authors, OpenGraph and Twitter cards, canonical URL), for a user profile
    and for a tag page. */
module Seo {
  import opened Common
  import opened PostTypes

  datatype Image = Image(url: string, width: nat, height: nat, alt: string)

  /** The `openGraph` block; `kind` is its `type`. Fields a builder does not set are None. */
  datatype OpenGraph = OpenGraph(
    kind: string,
    title: string,
    description: string,
    url: string,
    siteName: string,
    publishedTime: Option<string>,
    modifiedTime: Option<string>,
    authors: Option<seq<string>>,
    tags: Option<seq<string>>,
    images: Option<seq<Image>>)

  datatype Twitter = Twitter(card: string, title: string, description: string, creator: Option<string>, images: Option<seq<string>>)

  /** A page's metadata; `authors` holds the `name` of each author entry. */
  datatype Metadata = Metadata(
    title: string,
    description: string,
    keywords: Option<seq<string>>,
    authors: Option<seq<string>>,
    openGraph: OpenGraph,
    twitter: Twitter,
    canonical: Option<string>)

  const SiteName := "Medium Clone"

  // ---------------------------------------------------------------------
  // Tag stripping

  /** The rest of a tag after its "<": everything through the first ">", or all of it. */
  function SkipTag(s: string): (r: string)
    ensures |r| <= |s| && r == s[|s| - |r|..]
    ensures forall i :: 0 <= i < |s| - |r| - 1 ==> s[i] != '>'
    ensures r != s ==> s[|s| - |r| - 1] == '>' || r == []
  {
    if s == [] then []
    else if s[0] == '>' then s[1..]
    else SkipTag(s[1..])
  }

  /** `s.replace(/<[^>]*>?/gm, '')`: every "<" is removed together with what
      follows it up to and including the next ">", or up to the end. */
  function StripTags(s: string): (r: string)
    ensures '<' !in r
    ensures |r| <= |s|
    ensures forall c :: c in r ==> c in s
    decreases |s|
  {
    if s == [] then []
    else if s[0] == '<' then
      var rest := SkipTag(s[1..]);
      assert forall c :: c in rest ==> c in s by {
        forall c | c in rest ensures c in s {
          var k :| 0 <= k < |rest| && rest[k] == c;
          assert s[|s| - |rest| + k] == c;
        }
      }
      StripTags(rest)
    else [s[0]] + StripTags(s[1..])
  }

  /** Text without "<" is left as it is. */
  lemma {:induction false} StripTagsPlain(s: string)
    requires '<' !in s
    ensures StripTags(s) == s
    decreases |s|
  {
    if s != [] {
      assert '<' !in s[1..] by {
        forall k | 0 <= k < |s[1..]| ensures s[1..][k] != '<' {
          assert s[1..][k] == s[k + 1];
        }
      }
      StripTagsPlain(s[1..]);
    }
  }

  /** Text before the first "<" passes through unchanged. */
  lemma {:induction false} StripTagsPrefix(a: string, b: string)
    requires '<' !in a
    ensures StripTags(a + b) == a + StripTags(b)
    decreases |a|
  {
    if a != [] {
      assert (a + b)[0] == a[0] && (a + b)[1..] == a[1..] + b;
      assert '<' !in a[1..] by {
        forall k | 0 <= k < |a[1..]| ensures a[1..][k] != '<' {
          assert a[1..][k] == a[k + 1];
        }
      }
      StripTagsPrefix(a[1..], b);
      assert a[0] in a;
      assert StripTags(a + b) == [a[0]] + StripTags(a[1..] + b);
      assert [a[0]] + (a[1..] + StripTags(b)) == a + StripTags(b);
    } else {
      assert a + b == b;
    }
  }

  /** Stripping twice strips once. */
  lemma StripTagsIdempotent(s: string)
    ensures StripTags(StripTags(s)) == StripTags(s)
  {
    StripTagsPlain(StripTags(s));
  }

  /** A tag body without ">" is skipped through its closing ">". */
  lemma {:induction false} SkipTagTo(t: string, b: string)
    requires '>' !in t
    ensures SkipTag(t + ">" + b) == b
    decreases |t|
  {
    if t == [] {
      assert t + ">" + b == ">" + b && (">" + b)[1..] == b;
    } else {
      assert (t + ">" + b)[0] == t[0] && t[0] in t;
      assert (t + ">" + b)[1..] == t[1..] + ">" + b;
      assert '>' !in t[1..] by {
        forall k | 0 <= k < |t[1..]| ensures t[1..][k] != '>' {
          assert t[1..][k] == t[k + 1];
        }
      }
      SkipTagTo(t[1..], b);
    }
  }

  /** A tag that is never closed runs to the end of the text. */
  lemma {:induction false} SkipTagOpen(t: string)
    requires '>' !in t
    ensures SkipTag(t) == []
    decreases |t|
  {
    if t != [] {
      assert t[0] in t;
      assert '>' !in t[1..] by {
        forall k | 0 <= k < |t[1..]| ensures t[1..][k] != '>' {
          assert t[1..][k] == t[k + 1];
        }
      }
      SkipTagOpen(t[1..]);
    }
  }

  /** A tag "<...>" is removed whole, whatever it holds besides ">" (a "<" included). */
  lemma StripTagsTag(t: string, b: string)
    requires '>' !in t
    ensures StripTags("<" + t + ">" + b) == StripTags(b)
  {
    var s := "<" + t + ">" + b;
    assert s[0] == '<' && s[1..] == t + ">" + b;
    SkipTagTo(t, b);
  }

  /** An unclosed "<" removes the rest of the text. */
  lemma StripTagsOpen(t: string)
    requires '>' !in t
    ensures StripTags("<" + t) == []
  {
    var s := "<" + t;
    assert s[0] == '<' && s[1..] == t;
    SkipTagOpen(t);
  }

  // ---------------------------------------------------------------------
  // Derived strings

  /** `post.excerpt || content.replace(...).substring(0, 160) + '...'`. */
  function Description(excerpt: Option<string>, content: string): (r: string)
    ensures Truthy(excerpt) ==> r == excerpt.value
    ensures !Truthy(excerpt) ==> 3 <= |r| <= 163 && r[|r| - 3..] == "..."
    ensures !Truthy(excerpt) ==> r[..|r| - 3] == Take(StripTags(content), 160)
    ensures !Truthy(excerpt) ==> '<' !in r
  {
    if Truthy(excerpt) then excerpt.value
    else
      var cut := Take(StripTags(content), 160);
      assert forall c :: c in cut ==> c in StripTags(content);
      cut + "..."
  }

  /** The text of a handle: lower-cased, with all white space removed (`.toLowerCase().replace(/\s+/g, '')`). */
  function HandleText(name: string): (r: string)
    ensures forall i :: 0 <= i < |r| ==> !IsSpace(r[i]) && !IsAsciiUpper(r[i])
  {
    LowerFacts(name);
    FilterMembers(Lower(name), Not(IsSpace));
    Filter(Lower(name), Not(IsSpace))
  }

  /** A handle is empty exactly when the name is all white space. */
  lemma {:induction false} HandleTextEmpty(name: string)
    ensures HandleText(name) == [] <==> forall i :: 0 <= i < |name| ==> IsSpace(name[i])
    decreases |name|
  {
    if name != [] {
      LowerCharSpace(name[0]);
      var l := Lower(name);
      assert l[1..] == Lower(name[1..]);
      HandleTextEmpty(name[1..]);
      assert forall i :: 1 <= i < |name| ==> name[i] == name[1..][i - 1];
    }
  }

  /** A white-space character anywhere in a name does not change its handle. */
  lemma HandleIgnoresSpace(a: string, c: char, b: string)
    requires IsSpace(c)
    ensures HandleText(a + [c] + b) == HandleText(a + b)
  {
    LowerAppend(a + [c], b);
    LowerAppend(a, [c]);
    LowerAppend(a, b);
    var la, lb := Lower(a), Lower(b);
    assert Lower([c]) == [c];
    FilterSkips(la, c, lb, Not(IsSpace));
  }

  /** A name without white space gives its lower-cased self as the handle. */
  lemma HandleTextNoSpace(name: string)
    requires forall i :: 0 <= i < |name| ==> !IsSpace(name[i])
    ensures HandleText(name) == Lower(name)
  {
    forall i | 0 <= i < |name| ensures Not(IsSpace)(Lower(name)[i]) {
      LowerCharSpace(name[i]);
    }
    FilterKeepsAll(Lower(name), Not(IsSpace));
  }

  /** `post.author?.name?.toLowerCase().replace(/\s+/g, '') || 'author'`, after "@". */
  function PostCreator(author: Option<User>): (r: string)
    ensures |r| >= 2 && r[0] == '@'
    ensures author.None? ==> r == "@author"
    ensures author.Some? && HandleText(author.value.name) != [] ==> r == "@" + HandleText(author.value.name)
    ensures author.Some? && (forall i :: 0 <= i < |author.value.name| ==> IsSpace(author.value.name[i])) ==> r == "@author"
  {
    if author.None? then "@author"
    else
      HandleTextEmpty(author.value.name);
      var h := HandleText(author.value.name);
      "@" + (if h == [] then "author" else h)
  }

  /** `post.author?.name || 'Unknown Author'`. */
  function AuthorName(author: Option<User>): (r: string)
    ensures r != ""
    ensures author.Some? && author.value.name != "" ==> r == author.value.name
    ensures !(author.Some? && author.value.name != "") ==> r == "Unknown Author"
  {
    if author.Some? && author.value.name != "" then author.value.name else "Unknown Author"
  }

  /** `post.tags?.map(tag => tag.name)`. */
  function TagNames(tags: seq<Tag>): (r: seq<string>)
    ensures |r| == |tags| && forall i :: 0 <= i < |tags| ==> r[i] == tags[i].name
  {
    seq(|tags|, i requires 0 <= i < |tags| => tags[i].name)
  }

  // ---------------------------------------------------------------------
  // Builders

  /** `generatePostMetadata(post)`. */
  function GeneratePostMetadata(post: Post): (m: Metadata)
    ensures m.title == post.title + " | Medium Clone"
    ensures m.description == Description(post.excerpt, post.content)
    ensures m.openGraph.title == m.twitter.title == m.title
    ensures m.openGraph.description == m.twitter.description == m.description
    ensures m.keywords == Some(if post.tags.Some? then TagNames(post.tags.value) else [])
    ensures m.openGraph.tags == if post.tags.Some? then Some(TagNames(post.tags.value)) else None
    ensures m.authors == Some([AuthorName(post.author)]) && m.openGraph.authors == m.authors
    ensures m.openGraph.url == "/posts/" + post.slug && m.canonical == Some(m.openGraph.url)
    ensures m.openGraph.images.Some? && m.twitter.images.Some?
    ensures |m.openGraph.images.value| > 0 <==> Truthy(post.coverImage)
    ensures |m.twitter.images.value| > 0 <==> Truthy(post.coverImage)
    ensures Truthy(post.coverImage) ==>
      && m.openGraph.images.value == [Image(post.coverImage.value, 1200, 630, post.title)]
      && m.twitter.images.value == [post.coverImage.value]
    ensures m.twitter.creator == Some(PostCreator(post.author))
    ensures m.openGraph.publishedTime == post.publishedAt && m.openGraph.modifiedTime == Some(post.updatedAt)
  {
    var title := post.title + " | Medium Clone";
    var description := Description(post.excerpt, post.content);
    var names := if post.tags.Some? then Some(TagNames(post.tags.value)) else None;
    var author := AuthorName(post.author);
    var hasCover := Truthy(post.coverImage);
    Metadata(
      title,
      description,
      Some(if names.Some? then names.value else []),
      Some([author]),
      OpenGraph("article", title, description, "/posts/" + post.slug, SiteName, post.publishedAt, Some(post.updatedAt),
                Some([author]), names,
                Some(if hasCover then [Image(post.coverImage.value, 1200, 630, post.title)] else [])),
      Twitter("summary_large_image", title, description, Some(PostCreator(post.author)),
              Some(if hasCover then [post.coverImage.value] else [])),
      Some("/posts/" + post.slug))
  }

  /** The profile fields `generateUserMetadata` reads. */
  datatype ProfileUser = ProfileUser(id: string, name: string, bio: Option<string>, avatarUrl: Option<string>)

  /** `generateUserMetadata(user)`. */
  function GenerateUserMetadata(user: ProfileUser): (m: Metadata)
    ensures m.title == user.name + " | Medium Clone"
    ensures Truthy(user.bio) ==> m.description == user.bio.value
    ensures !Truthy(user.bio) ==> m.description == "Read stories by " + user.name + " on Medium Clone"
    ensures m.openGraph.title == m.twitter.title == m.title
    ensures m.openGraph.description == m.twitter.description == m.description
    ensures m.authors == Some([user.name]) && m.keywords.None? && m.canonical.None?
    ensures m.openGraph.url == "/profile?user=" + user.id
    ensures m.openGraph.images.Some? && m.twitter.images.Some?
    ensures |m.openGraph.images.value| > 0 <==> Truthy(user.avatarUrl)
    ensures |m.twitter.images.value| > 0 <==> Truthy(user.avatarUrl)
    ensures Truthy(user.avatarUrl) ==> m.openGraph.images.value == [Image(user.avatarUrl.value, 400, 400, user.name)]
    ensures m.twitter.creator == Some("@" + HandleText(user.name))
  {
    var title := user.name + " | Medium Clone";
    var description := if Truthy(user.bio) then user.bio.value else "Read stories by " + user.name + " on Medium Clone";
    var hasAvatar := Truthy(user.avatarUrl);
    Metadata(
      title,
      description,
      None,
      Some([user.name]),
      OpenGraph("profile", title, description, "/profile?user=" + user.id, SiteName, None, None, None, None,
                Some(if hasAvatar then [Image(user.avatarUrl.value, 400, 400, user.name)] else [])),
      Twitter("summary", title, description, Some("@" + HandleText(user.name)),
              Some(if hasAvatar then [user.avatarUrl.value] else [])),
      None)
  }

  /** `generateTagMetadata(tag)`. */
  function GenerateTagMetadata(tag: string): (m: Metadata)
    ensures m.title == tag + " Stories | Medium Clone"
    ensures m.description == "Discover stories about " + tag + " on Medium Clone"
    ensures m.keywords == Some([tag, "stories", "articles", "blog"])
    ensures m.openGraph.url == "/explore?tag=" + tag
    ensures m.openGraph.title == m.twitter.title == m.title
    ensures m.openGraph.description == m.twitter.description == m.description
    ensures m.openGraph.images.None? && m.twitter.images.None? && m.twitter.creator.None?
  {
    var title := tag + " Stories | Medium Clone";
    var description := "Discover stories about " + tag + " on Medium Clone";
    Metadata(
      title,
      description,
      Some([tag, "stories", "articles", "blog"]),
      None,
      OpenGraph("website", title, description, "/explore?tag=" + tag, SiteName, None, None, None, None, None),
      Twitter("summary", title, description, None, None),
      None)
  }

  /** The post page and its canonical link agree, and a post's creator handle
      never holds white space or upper-case letters. */
  lemma PostMetadataFacts(post: Post)
    ensures var m := GeneratePostMetadata(post);
      && m.canonical == Some(m.openGraph.url)
      && forall i :: 1 <= i < |m.twitter.creator.value| ==>
        !IsSpace(m.twitter.creator.value[i]) && !IsAsciiUpper(m.twitter.creator.value[i])
  {
    var c := PostCreator(post.author);
    if c != "@author" {
      var h := HandleText(post.author.value.name);
      assert c == "@" + h;
      assert forall i :: 1 <= i < |c| ==> c[i] == h[i - 1];
    }
  }
}
