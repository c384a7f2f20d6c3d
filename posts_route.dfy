/** The posts collection endpoint (src/app/api/posts/route.ts). GET lists the
    stored posts with one status; POST checks the title and content, builds the
    post record (slug, status, publication time, author, tag records) and
    appends it to the posts file, which is the `posts` field of a PostFile. */
module PostsRoute {
  import opened Common
  import opened PostTypes

  datatype AuthorSummary = AuthorSummary(id: string, name: string, email: string)

  /** A post as this route stores it; `status` is stored as received. */
  datatype StoredPost = StoredPost(
    id: string,
    title: string,
    slug: string,
    content: string,
    excerpt: Option<string>,
    coverImage: Option<string>,
    status: string,
    publishedAt: Option<string>,
    authorId: string,
    author: AuthorSummary,
    tags: seq<Tag>,
    createdAt: string,
    updatedAt: string)

  datatype Pagination = Pagination(page: nat, limit: nat, total: nat, pages: nat)

  datatype Listing = Listing(posts: seq<StoredPost>, pagination: Pagination)

  // ---------------------------------------------------------------------
  // GET

  function WithStatus(status: string): StoredPost -> bool {
    (p: StoredPost) => p.status == status
  }

  /** GET /api/posts?status=..., "PUBLISHED" when the parameter is absent or empty. */
  function Get(stored: seq<StoredPost>, status: Option<string>): (r: Reply<Listing>)
    ensures r.Ok? && r.status == 200
    ensures forall p :: p in r.data.posts <==> p in stored && p.status == (if Truthy(status) then status.value else "PUBLISHED")
    ensures r.data.pagination == Pagination(1, 10, |r.data.posts|, 1)
  {
    var filtered := Filter(stored, WithStatus(Or(status, "PUBLISHED")));
    FilterMembers(stored, WithStatus(Or(status, "PUBLISHED")));
    Ok(200, Listing(filtered, Pagination(1, 10, |filtered|, 1)))
  }

  /** GET lists posts in store order. */
  lemma GetKeepsStoreOrder(a: seq<StoredPost>, b: seq<StoredPost>, status: Option<string>)
    ensures Get(a + b, status).data.posts == Get(a, status).data.posts + Get(b, status).data.posts
  {
    FilterAppend(a, b, WithStatus(Or(status, "PUBLISHED")));
  }

  // ---------------------------------------------------------------------
  // POST

  datatype CreateBody = CreateBody(
    title: Option<string>,
    content: Option<string>,
    excerpt: Option<string>,
    coverImage: Option<string>,
    tags: Option<seq<string>>,
    status: Option<string>)

  /** The lower-cased title with every white-space run replaced by "-", then "-" and the clock reading. */
  function RouteSlug(title: string, now: nat): (slug: string)
    ensures forall c :: c in slug ==> !IsSpace(c)
    ensures forall c :: c in slug ==> c == '-' || IsDigit(c) || c in Lower(title)
    ensures var base := CollapseRuns(Lower(title), IsSpace);
      && |slug| == |base| + 1 + |Decimal(now)|
      && slug[..|base|] == base
      && slug[|base|] == '-'
      && slug[|base| + 1..] == Decimal(now)
  {
    var base := CollapseRuns(Lower(title), IsSpace);
    CollapseRunsChars(Lower(title), IsSpace);
    JoinSuffix(base, Decimal(now));
    base + "-" + Decimal(now)
  }

  /** Two words with white space between them, as in "Hello  World", give
      "hello-world-<now>": the words are lowered and the run becomes one "-". */
  lemma RouteSlugOfWords(a: string, w: string, b: string, now: nat)
    requires forall i :: 0 <= i < |a| ==> !IsSpace(a[i])
    requires w != [] && forall i :: 0 <= i < |w| ==> IsSpace(w[i])
    requires forall i :: 0 <= i < |b| ==> !IsSpace(b[i])
    ensures RouteSlug(a + w + b, now) == Lower(a) + "-" + Lower(b) + "-" + Decimal(now)
  {
    LowerWords(a, w, b);
    CollapseRunsWords(Lower(a), Lower(w), Lower(b), IsSpace);
  }

  /** Lowering keeps white space and non-white space apart, piece by piece. */
  lemma LowerWords(a: string, w: string, b: string)
    ensures Lower(a + w + b) == Lower(a) + Lower(w) + Lower(b)
    ensures forall i :: 0 <= i < |a| ==> (IsSpace(Lower(a)[i]) <==> IsSpace(a[i]))
    ensures forall i :: 0 <= i < |w| ==> (IsSpace(Lower(w)[i]) <==> IsSpace(w[i]))
    ensures forall i :: 0 <= i < |b| ==> (IsSpace(Lower(b)[i]) <==> IsSpace(b[i]))
  {
    LowerAppend(a + w, b);
    LowerAppend(a, w);
    forall c: char ensures IsSpace(LowerChar(c)) <==> IsSpace(c) {
      LowerCharSpace(c);
    }
  }

  /** The tag records of the tag names: the i-th is "tag_i", the name, and the lower-cased name. */
  function TagRecords(names: seq<string>): (tags: seq<Tag>)
    ensures |tags| == |names|
    ensures forall i :: 0 <= i < |names| ==> tags[i].id == "tag_" + Decimal(i)
    ensures forall i :: 0 <= i < |names| ==> tags[i].name == names[i] && tags[i].slug == Lower(names[i])
    ensures forall i, j :: 0 <= i < j < |tags| ==> tags[i].id != tags[j].id
  {
    var tags := seq(|names|, i requires 0 <= i < |names| => Tag("tag_" + Decimal(i), names[i], Lower(names[i])));
    assert forall i, j :: 0 <= i < j < |tags| ==> tags[i].id != tags[j].id by {
      forall i, j | 0 <= i < j < |tags| ensures tags[i].id != tags[j].id {
        if tags[i].id == tags[j].id {
          assert Decimal(i) == tags[i].id[4..];
          assert Decimal(j) == tags[j].id[4..];
          DecimalInjective(i, j);
        }
      }
    }
    tags
  }

  /** The post POST stores for a present title and content. */
  function NewPost(title: string, content: string, body: CreateBody, userId: Option<string>,
                   userName: Option<string>, now: nat, isoNow: string): (p: StoredPost)
    ensures p.title == title && p.content == content
    ensures p.excerpt == body.excerpt && p.coverImage == body.coverImage
    ensures p.slug == RouteSlug(title, now)
    ensures Truthy(body.status) ==> p.status == body.status.value
    ensures !Truthy(body.status) ==> p.status == "DRAFT"
    ensures p.id == "post_" + Decimal(now)
    ensures p.publishedAt == if body.status == Some("PUBLISHED") then Some(isoNow) else None
    ensures p.createdAt == isoNow && p.updatedAt == isoNow
    ensures body.tags.None? ==> p.tags == []
    ensures body.tags.Some? ==> p.tags == TagRecords(body.tags.value)
    ensures p.authorId == p.author.id
    ensures Truthy(userId) ==> p.authorId == userId.value
    ensures !Truthy(userId) ==> p.authorId == "user_" + Decimal(now)
    ensures p.author.name == (if Truthy(userName) then userName.value else "User")
    ensures p.author.email == Lower(p.author.name) + "@example.com"
  {
    var author := Or(userId, "user_" + Decimal(now));
    var name := Or(userName, "User");
    StoredPost(
      "post_" + Decimal(now),
      title,
      RouteSlug(title, now),
      content,
      body.excerpt,
      body.coverImage,
      Or(body.status, "DRAFT"),
      if body.status == Some("PUBLISHED") then Some(isoNow) else None,
      author,
      AuthorSummary(author, name, Lower(name) + "@example.com"),
      if body.tags.Some? then TagRecords(body.tags.value) else [],
      isoNow,
      isoNow)
  }

  class PostFile {
    /** The records of the posts file. */
    var posts: seq<StoredPost>

    constructor (stored: seq<StoredPost>)
      ensures posts == stored
    {
      posts := stored;
    }

    /** POST /api/posts with the `x-user-id` / `x-user-name` headers. */
    method Post(body: CreateBody, userId: Option<string>, userName: Option<string>, now: nat, isoNow: string)
      returns (reply: Reply<StoredPost>)
      modifies this
      ensures !(Truthy(body.title) && Truthy(body.content)) ==>
        reply == Fail(400, "Title and content are required") && posts == old(posts)
      ensures Truthy(body.title) && Truthy(body.content) ==>
        var p := NewPost(body.title.value, body.content.value, body, userId, userName, now, isoNow);
        reply == Ok(201, p) && posts == old(posts) + [p]
    {
      if !(Truthy(body.title) && Truthy(body.content)) {
        return Fail(400, "Title and content are required");
      }
      var post := NewPost(body.title.value, body.content.value, body, userId, userName, now, isoNow);
      posts := posts + [post];
      reply := Ok(201, post);
    }
  }

  /** A post appended with the queried status ("PUBLISHED" when none is
      given) is listed once more by GET afterwards, last. */
  lemma PostListedLast(stored: seq<StoredPost>, p: StoredPost, status: Option<string>)
    requires p.status == Or(status, "PUBLISHED")
    ensures Get(stored + [p], status).data.posts == Get(stored, status).data.posts + [p]
  {
    GetKeepsStoreOrder(stored, [p], status);
    FilterKeepsAll([p], WithStatus(Or(status, "PUBLISHED")));
  }
}
