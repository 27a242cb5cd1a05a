/** The three shapes a post takes on its way from the network to the screen:
    the wire object, the cached row and the domain value. All three carry the
    same four fields. */
module Models {
  import opened Types

  /** Domain post, the value the screens show. */
  datatype Post = Post(id: Int32, userId: Int32, title: string, body: string)

  /** A row of the `posts` table; `id` is its primary key. */
  datatype PostEntity = PostEntity(id: Int32, userId: Int32, title: string, body: string)

  /** A post as decoded from the remote JSON object `{id, userId, title, body}`. */
  datatype PostDto = PostDto(id: Int32, userId: Int32, title: string, body: string)
}
