/** The post records of src/types/post.ts. */
module PostTypes {
  import opened Common

  datatype PostStatus = Draft | Published

  datatype User = User(id: string, name: string, email: string, image: Option<string>, bio: Option<string>)

  datatype Tag = Tag(id: string, name: string, slug: string)

  datatype Post = Post(
    id: string,
    title: string,
    slug: string,
    content: string,
    excerpt: Option<string>,
    coverImage: Option<string>,
    status: PostStatus,
    publishedAt: Option<string>,
    authorId: string,
    author: Option<User>,
    tags: Option<seq<Tag>>,
    createdAt: string,
    updatedAt: string)

  /** What the editor submits to create a post. */
  datatype CreatePostInput = CreatePostInput(
    title: string,
    content: string,
    excerpt: Option<string>,
    coverImage: Option<string>,
    tags: Option<seq<string>>,
    status: Option<PostStatus>)
}
