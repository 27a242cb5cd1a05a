/** The sync repository: reads come from the cache, mapped to domain posts;
    refreshes fetch from the remote source and write the result into the
    cache. The remote call is not modelled as HTTP: each refresh receives
    the call's outcome as a value. */
module PostRepository {
  import opened Types
  import opened Models
  import opened PostDao

  /** How a refresh call ended: normally, or by rethrowing the exception it
      caught. */
  datatype Completion = Completed | Threw(error: Failure)

  /** The cache after a refresh, and how the refresh ended. */
  datatype Refreshed = Refreshed(cache: Table, completion: Completion)

  // ---------------------------------------------------------------------
  // Mappers
  // ---------------------------------------------------------------------

  /** Cached row to domain post, field for field. */
  function ToDomainModel(e: PostEntity): (p: Post)
    ensures p.id == e.id && p.userId == e.userId
    ensures p.title == e.title && p.body == e.body
  {
    Post(e.id, e.userId, e.title, e.body)
  }

  /** Wire object to cached row, field for field. */
  function ToEntity(d: PostDto): (e: PostEntity)
    ensures e.id == d.id && e.userId == d.userId
    ensures e.title == d.title && e.body == d.body
  {
    PostEntity(d.id, d.userId, d.title, d.body)
  }

  /** Every fetched object converted to a row, in fetched order. */
  function ToEntities(ds: seq<PostDto>): (r: seq<PostEntity>)
    ensures |r| == |ds|
    ensures forall i :: 0 <= i < |ds| ==> r[i] == ToEntity(ds[i])
  {
    if |ds| == 0 then [] else ToEntities(ds[..|ds| - 1]) + [ToEntity(ds[|ds| - 1])]
  }

  /** The wire-to-domain path keeps all four fields. */
  lemma MappersPreserveFields(d: PostDto)
    ensures ToDomainModel(ToEntity(d)) == Post(d.id, d.userId, d.title, d.body)
  {
  }

  /** The row-to-domain mapping loses nothing: distinct rows stay distinct. */
  lemma ToDomainModelInjective(a: PostEntity, b: PostEntity)
    requires ToDomainModel(a) == ToDomainModel(b)
    ensures a == b
  {
  }

  // ---------------------------------------------------------------------
  // Reads
  // ---------------------------------------------------------------------

  /** `getPosts`: the cached rows as domain posts, same length and order,
      so ascending by id. */
  function GetPosts(t: Table): (r: seq<Post>)
    ensures |r| == |t|
    ensures forall i :: 0 <= i < |t| ==> r[i] == ToDomainModel(t[i])
    ensures forall i, j :: 0 <= i < j < |r| ==> r[i].id < r[j].id
  {
    var rows := GetAllPosts(t);
    seq(|rows|, i requires 0 <= i < |rows| => ToDomainModel(rows[i]))
  }

  /** `getPostById`: none exactly when no row has that id, otherwise the
      stored row as a domain post. */
  function GetPostById(t: Table, id: Int32): (r: Option<Post>)
    ensures r.None? <==> id !in Contents(t)
    ensures r.Some? ==> r.value == ToDomainModel(Contents(t)[id]) && r.value.id == id
  {
    match PostDao.GetPostById(t, id)
    case None => None
    case Some(e) =>
      ContentsValue(t, id);
      Some(ToDomainModel(e))
  }

  /** The two reads agree: a post is in the list exactly when the
      by-id read of its id yields it. */
  lemma ReadsAgree(t: Table, p: Post)
    ensures p in GetPosts(t) <==> GetPostById(t, p.id) == Some(p)
  {
    TableMembership(t);
    if p in GetPosts(t) {
      var k :| 0 <= k < |GetPosts(t)| && GetPosts(t)[k] == p;
      assert t[k] in t;
    }
    if GetPostById(t, p.id) == Some(p) {
      var e := Contents(t)[p.id];
      assert e in t;
      var k :| 0 <= k < |t| && t[k] == e;
      assert GetPosts(t)[k] == p;
    }
  }

  // ---------------------------------------------------------------------
  // Refreshes
  // ---------------------------------------------------------------------

  /** `refreshPosts`: on a successful fetch, one batch write of the fetched
      objects converted to rows, in fetched order; on a failed fetch, the
      exception is rethrown and the cache is not touched. */
  function RefreshPosts(t: Table, fetched: Remote<seq<PostDto>>): (r: Refreshed)
    ensures fetched.Failed? ==> r.cache == t && r.completion == Threw(fetched.error)
    ensures fetched.Ok? ==>
              r.completion == Completed &&
              Contents(r.cache) == Contents(t) + Batch(ToEntities(fetched.value))
  {
    match fetched
    case Ok(dtos) => Refreshed(InsertPosts(t, ToEntities(dtos)), Completed)
    case Failed(error) => Refreshed(t, Threw(error))
  }

  /** `refreshPostById`: on a successful fetch, one insert-or-replace of the
      fetched object converted to a row; on a failed fetch, the exception is
      rethrown and the cache is not touched. The row is stored under the
      fetched object's own id. */
  function RefreshPostById(t: Table, fetched: Remote<PostDto>): (r: Refreshed)
    ensures fetched.Failed? ==> r.cache == t && r.completion == Threw(fetched.error)
    ensures fetched.Ok? ==>
              r.completion == Completed &&
              Contents(r.cache) == Contents(t)[fetched.value.id := ToEntity(fetched.value)]
  {
    match fetched
    case Ok(dto) => Refreshed(InsertPost(t, ToEntity(dto)), Completed)
    case Failed(error) => Refreshed(t, Threw(error))
  }

  /** A successful refresh never removes a post: every stored id is still
      stored, and ids the fetch did not return keep their previous value. */
  lemma RefreshNeverRemoves(t: Table, dtos: seq<PostDto>, id: Int32)
    ensures var after := RefreshPosts(t, Ok(dtos)).cache;
            (GetPostById(t, id).Some? ==> GetPostById(after, id).Some?) &&
            (id !in IdSet(ToEntities(dtos)) ==> GetPostById(after, id) == GetPostById(t, id))
  {
    BatchKeys(ToEntities(dtos));
  }

  /** The fetched value wins: when the fetch returned an object with this
      id, and no later one with the same id, the cache now holds exactly
      that object. */
  lemma RefreshStoresFetched(t: Table, dtos: seq<PostDto>, i: nat)
    requires i < |dtos|
    requires forall j :: i < j < |dtos| ==> dtos[j].id != dtos[i].id
    ensures GetPostById(RefreshPosts(t, Ok(dtos)).cache, dtos[i].id)
            == Some(ToDomainModel(ToEntity(dtos[i])))
  {
    BatchLastWins(ToEntities(dtos), i);
  }
}
