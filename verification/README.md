# Offline-first posts viewer: cache, sync repository and screen reducers

A Dafny model of the core of an Android posts viewer. The app shows a list of
posts and a single post's detail. It reads them from a local Room cache and
refreshes that cache from a remote JSON API. The model covers three parts:

- **The cache store** (`PostDao`). This is the `posts` table as its data-access
  object promises it, with at most one row per primary key `id`. The stored
  state is the ordered read-back itself, a `Table`: a sequence of rows strictly
  ascending by id. Its meaning is the primary-key map `Contents`. Every
  operation is specified against that map:
  - `getAllPosts` and `getPostById` are reads;
  - `insertPost` and `insertPosts` use the REPLACE conflict strategy
    (insert-or-replace);
  - `deleteAllPosts` clears the table;
  - `updatePost` is an UPDATE by primary key.
- **The sync repository** (`PostRepository`). The reads are the cache mapped
  field by field to domain posts. `refreshPosts` and `refreshPostById` take the
  remote call's outcome as a value (`Remote.Ok` or `Remote.Failed`). On success
  they write the converted objects to the cache. On failure they rethrow and
  leave the cache untouched.
- **The two screen state holders** (`PostList`, `PostDetail`). Their
  coroutines are replaced by explicit events: `CacheEmitted`, `CacheFailed`,
  `RefreshSucceeded` and `RefreshFailed`. Each `Step` is the state update an
  event performs on the published `Loading | Success | Error` state. `Run`
  applies a series of events in order.

`OfflineSync` puts these together: one shared cache with both screens
subscribed to it.
- A completed refresh that writes at least one row changes the cache, and every
  live query then re-emits. A completed refresh that fetched nothing writes no
  row, so nothing re-emits.
- A failed refresh reaches only the screen that made the call.
- Refresh calls are whole steps, taken one after another, and each screen has
  received its first cache emission before the first call (see "## Left out").

Its main results, under that order:
- `AlwaysConsistent`: both screens always show what the cache holds.
- `FailuresKeepCachedData`: failed refreshes never disturb the cache or the
  data on screen; they only set the offline flag.

Both screens start in `Loading`: the constants `PostList.Initial` and
`PostDetail.Initial`, from `PostListViewModel.kt:20` and
`PostDetailViewModel.kt:20`.

Kotlin's `Int` is the subset type `Types.Int32`. Ids are only compared and used
as keys, so no wrap-around arises. A thrown exception is reduced to its
possibly-null message (`Types.Failure`).

Behaviour of the code worth knowing, which the model keeps:
- A non-empty cache emission always rebuilds `Success` with `isOffline = false`,
  so an earlier offline flag is dropped (`PostListViewModel.kt:48`,
  `PostDetailViewModel.kt:43`).
- A failed detail refresh with no cached post leaves the screen at `Loading`
  (`PostDetailViewModel.kt:61-63`, `OfflineSync.DetailFetchFailure`); the list
  screen shows the connectivity hint in the same situation
  (`PostListViewModel.kt:68-69`).
- A "not found" from the remote is not distinguished from any other failure.

## Model

| member | source | states |
|---|---|---|
| PostDao.GetAllPosts | app/src/main/java/com/itb/visualizadorpostsapp/data/local/dao/PostDao.kt:18-19 | The read-back is strictly ascending by id. It holds each stored row exactly once: a row is in it iff it is the map's entry for its id, and its length is the number of keys. |
| PostDao.GetPostById | app/src/main/java/com/itb/visualizadorpostsapp/data/local/dao/PostDao.kt:25-26 | The by-id read is the map's entry for that id, or none exactly when the id is not stored. |
| PostDao.InsertPost | app/src/main/java/com/itb/visualizadorpostsapp/data/local/dao/PostDao.kt:38-39 | Insert-or-replace: the map afterwards is the old map with `e.id` bound to `e`, whether or not the id was stored. Every row afterwards is `e` or an old row, and the table stays strictly ascending (one row per id). |
| PostDao.InsertPosts | app/src/main/java/com/itb/visualizadorpostsapp/data/local/dao/PostDao.kt:32-33 | A batch write in list order: the map afterwards is the old map overridden by the batch's last row per id. |
| PostDao.DeleteAllPosts | app/src/main/java/com/itb/visualizadorpostsapp/data/local/dao/PostDao.kt:44-45 | Afterwards the map is empty, every by-id read yields none, and the list read is the empty sequence. |
| PostDao.UpdatePost | app/src/main/java/com/itb/visualizadorpostsapp/data/local/dao/PostDao.kt:50-51 | On a stored id, only that id's row changes, to `e`; on an id that is not stored, nothing changes. Length and ids by position are kept. |
| PostDao.TableMembership | app/src/main/java/com/itb/visualizadorpostsapp/data/local/entity/PostEntity.kt:12-14 | The primary key is unique: a row is stored iff it is the map's entry for its id. |
| PostDao.TableSize | app/src/main/java/com/itb/visualizadorpostsapp/data/local/entity/PostEntity.kt:12-14 | The table has exactly one row per stored id. |
| PostDao.TableExtensional | app/src/main/java/com/itb/visualizadorpostsapp/data/local/dao/PostDao.kt:18-19 | Two tables with the same map are the same ordered sequence: the read-back depends only on what is stored. |
| PostDao.BatchLastWins | app/src/main/java/com/itb/visualizadorpostsapp/data/local/dao/PostDao.kt:29-33 | Within a batch, the last row written for an id is the one stored under it. |
| PostDao.InsertFreshBatch | app/src/androidTest/java/com/itb/visualizadorpostsapp/data/local/dao/PostDaoTest.kt:78-96 | Writing n rows with distinct ids into an empty table reads back exactly those rows, n of them. |
| PostDao.InsertionOrderIrrelevant | app/src/main/java/com/itb/visualizadorpostsapp/data/local/dao/PostDao.kt:18-19 | Writing the same rows (distinct ids) in any order gives the same read-back. |
| PostDao.InsertSortedRows | app/src/androidTest/java/com/itb/visualizadorpostsapp/data/local/dao/PostDaoTest.kt:80-95 | Writing an already ascending set of rows into an empty table reads back those rows in that order. |
| PostDao.ReadBackAscendingExample | app/src/androidTest/java/com/itb/visualizadorpostsapp/data/local/dao/PostDaoTest.kt:217-238 | Rows written with ids 5, 2, 8, 1 are read back as the rows with ids 1, 2, 5, 8. |
| PostDao.InsertThenGet | app/src/androidTest/java/com/itb/visualizadorpostsapp/data/local/dao/PostDaoTest.kt:53-72 | After a row is written, the by-id read of its id yields that row with identical fields; every other id reads as before. |
| PostDao.InsertReplaces | app/src/androidTest/java/com/itb/visualizadorpostsapp/data/local/dao/PostDaoTest.kt:102-133 | Writing the same id twice equals writing only the second row: one row for that id, holding the second row's fields. |
| PostDao.UpdateVersusInsert | app/src/androidTest/java/com/itb/visualizadorpostsapp/data/local/dao/PostDaoTest.kt:139-163 | On a stored id, an update equals an insert-or-replace. On an id that is not stored, the update is a no-op while the insert adds one row. |
| PostRepository.ToDomainModel | app/src/main/java/com/itb/visualizadorpostsapp/data/repository/PostRepositoryImpl.kt:73-80 | A cached row becomes the domain post with the same `id`, `userId`, `title` and `body`. |
| PostRepository.ToEntity | app/src/main/java/com/itb/visualizadorpostsapp/data/repository/PostRepositoryImpl.kt:83-90 | A fetched object becomes the cached row with the same `id`, `userId`, `title` and `body`. |
| PostRepository.ToEntities | app/src/main/java/com/itb/visualizadorpostsapp/data/repository/PostRepositoryImpl.kt:48 | The fetched list converted element by element: same length, and position i holds the conversion of fetched object i. |
| PostRepository.MappersPreserveFields | app/src/main/java/com/itb/visualizadorpostsapp/data/repository/PostRepositoryImpl.kt:72-90 | The wire-to-row-to-domain conversion keeps `id`, `userId`, `title` and `body`. |
| PostRepository.ToDomainModelInjective | app/src/main/java/com/itb/visualizadorpostsapp/data/repository/PostRepositoryImpl.kt:73-80 | The row-to-domain mapping loses no field: distinct rows give distinct posts. |
| PostRepository.GetPosts | app/src/main/java/com/itb/visualizadorpostsapp/data/repository/PostRepositoryImpl.kt:24-28 | The list read has the cache's length and order, maps each row field by field, and is strictly ascending by id. |
| PostRepository.GetPostById | app/src/main/java/com/itb/visualizadorpostsapp/data/repository/PostRepositoryImpl.kt:33-37 | The by-id read is none exactly when the id is not cached. Otherwise it is the cached row as a domain post with that id. |
| PostRepository.ReadsAgree | app/src/main/java/com/itb/visualizadorpostsapp/data/repository/PostRepositoryImpl.kt:24-37 | A post is in the list read iff the by-id read of its id yields it. |
| PostRepository.RefreshPosts | app/src/main/java/com/itb/visualizadorpostsapp/data/repository/PostRepositoryImpl.kt:45-56 | On a failed fetch, the exception is rethrown and the cache is unchanged. On success, the call completes and the cache map becomes the old map overridden by the fetched objects converted in fetched order. |
| PostRepository.RefreshPostById | app/src/main/java/com/itb/visualizadorpostsapp/data/repository/PostRepositoryImpl.kt:61-70 | On a failed fetch, the exception is rethrown and the cache is unchanged. On success, the fetched object is upserted under its own id. |
| PostRepository.RefreshNeverRemoves | app/src/main/java/com/itb/visualizadorpostsapp/data/repository/PostRepositoryImpl.kt:45-49 | A successful refresh keeps every cached id, and ids the fetch did not return keep their previous post. |
| PostRepository.RefreshStoresFetched | app/src/main/java/com/itb/visualizadorpostsapp/data/repository/PostRepositoryImpl.kt:47-49 | After a successful refresh, a fetched id reads back as the last fetched object with that id. |
| PostList.Step | app/src/main/java/com/itb/visualizadorpostsapp/ui/screens/postlist/PostListViewModel.kt:38-72 | Each event's effect on the list state:<br>• An emission gives `Loading` iff the list is empty; otherwise `Success(list, false)`.<br>• A stream failure gives `Error` with its message, or "Unknown error occurred" when there is none.<br>• A returned refresh changes nothing.<br>• A failed refresh keeps `Success` with the same posts and sets `isOffline`; outside `Success` it gives the connectivity-hint `Error`.<br>• `isOffline` is only ever set on posts already shown.<br>• Well-formedness is preserved. |
| PostList.ReachableWellFormed | app/src/main/java/com/itb/visualizadorpostsapp/ui/screens/postlist/PostListViewModel.kt:40-69 | From the initial state, no event series shows `Success` with an empty list, and `Error` never carries posts. |
| PostList.RefreshOutcomesOnly | app/src/main/java/com/itb/visualizadorpostsapp/ui/screens/postlist/PostListViewModel.kt:60-72 | Refresh outcomes alone keep `Success`'s posts and set `isOffline` iff one failed. Without data, any failure gives the connectivity hint and no failure changes nothing. |
| PostList.LastEmissionDecides | app/src/main/java/com/itb/visualizadorpostsapp/ui/screens/postlist/PostListViewModel.kt:44-50 | The last cache emission and the refresh outcomes after it determine the state, whatever came before. A non-empty list gives `Success(list, some refresh failed since)`. An empty list gives `Loading`, or the connectivity-hint `Error` once a refresh has failed. |
| PostList.RefreshFailedIdempotent | app/src/main/java/com/itb/visualizadorpostsapp/ui/screens/postlist/PostListViewModel.kt:65-70 | A second refresh failure leaves the state the first one produced. |
| PostList.OfflineWithCachedPost | app/src/test/java/com/itb/visualizadorpostsapp/ui/screens/postlist/PostListViewModelTest.kt:129-149 | One cached post followed by a failed refresh shows that post with `isOffline = true`. |
| PostList.ErrorWithEmptyCache | app/src/main/java/com/itb/visualizadorpostsapp/ui/screens/postlist/PostListViewModel.kt:68-69 | An empty cache followed by a failed refresh shows `Error("Comprueba tu conexión a internet")`. |
| PostList.FailureBeforeFirstEmission | app/src/main/java/com/itb/visualizadorpostsapp/ui/screens/postlist/PostListViewModel.kt:36-69 | A refresh failure that arrives before the cache's first emission gives the connectivity hint; the emission that follows overwrites it with `Success(posts, false)`, so no offline flag survives. |
| PostDetail.Step | app/src/main/java/com/itb/visualizadorpostsapp/ui/screens/postdetail/PostDetailViewModel.kt:33-65 | Each event's effect on the detail state:<br>• An emission gives `Loading` iff it is none; otherwise `Success(post, false)`.<br>• A stream failure gives `Error` with its message, or the default message.<br>• A returned refresh changes nothing.<br>• A failed refresh keeps `Success`'s post and sets `isOffline`; any other state stays as it is.<br>• `isOffline` is only ever set on a post already shown. |
| PostDetail.RefreshOutcomesOnly | app/src/main/java/com/itb/visualizadorpostsapp/ui/screens/postdetail/PostDetailViewModel.kt:55-66 | Refresh outcomes alone keep `Success`'s post and set `isOffline` iff one failed. Every other state is left unchanged. |
| PostDetail.LastEmissionDecides | app/src/main/java/com/itb/visualizadorpostsapp/ui/screens/postdetail/PostDetailViewModel.kt:39-45 | The last cache emission and the refresh outcomes after it determine the state. An emitted post gives `Success(post, some refresh failed since)`. No post gives `Loading`, whatever the refreshes did. |
| PostDetail.RefreshFailedIdempotent | app/src/main/java/com/itb/visualizadorpostsapp/ui/screens/postdetail/PostDetailViewModel.kt:59-63 | A second refresh failure leaves the state the first one produced. |
| PostDetail.ErrorIgnoresRefreshes | app/src/main/java/com/itb/visualizadorpostsapp/ui/screens/postdetail/PostDetailViewModel.kt:60-63 | After a stream failure, no refresh outcome changes the `Error` state. |
| OfflineSync.Open | app/src/main/java/com/itb/visualizadorpostsapp/ui/screens/postlist/PostListViewModel.kt:35-50 | Once the first emissions are delivered, both screens show what the cache holds, and neither is flagged offline. |
| OfflineSync.Written | app/src/main/java/com/itb/visualizadorpostsapp/data/local/dao/PostDao.kt:14-26 | After a write, both live queries re-emit: the list screen shows every cached post as a fresh `Success`, or `Loading` for an empty cache; the detail screen shows its cached post as a fresh `Success`, or `Loading` when none is cached. |
| OfflineSync.Apply | app/src/main/java/com/itb/visualizadorpostsapp/data/repository/PostRepositoryImpl.kt:45-70 | Effect of one refresh call on the system:<br>• It never shrinks the cache.<br>• A failed fetch leaves the cache as it was.<br>• It preserves consistency between the cache and both screens. |
| OfflineSync.AlwaysConsistent | app/src/main/java/com/itb/visualizadorpostsapp/ui/screens/postlist/PostListViewModel.kt:44-69 | Whatever the fetches return and whatever the order of whole refresh calls, both screens show what the cache holds. A non-empty cache is always shown as `Success`. |
| OfflineSync.FailuresKeepCachedData | app/src/main/java/com/itb/visualizadorpostsapp/data/repository/PostRepositoryImpl.kt:50-55 | Any number of failed refreshes leave the cache unchanged. Each screen showing data keeps the same data, flagged offline iff it already was or one of its own refreshes failed. |
| OfflineSync.DetailRefreshVisibleInList | app/src/main/java/com/itb/visualizadorpostsapp/data/repository/PostRepositoryImpl.kt:61-65 | A post fetched by the detail screen's refresh appears in the list screen's posts. |
| OfflineSync.DetailFetchFailure | app/src/main/java/com/itb/visualizadorpostsapp/ui/screens/postdetail/PostDetailViewModel.kt:59-63 | A failed detail refresh leaves a `Loading` detail screen at `Loading`, flags a shown post offline, and changes neither the cache nor the list screen. |
| OfflineSync.EmptyFetchChangesNothing | app/src/main/java/com/itb/visualizadorpostsapp/data/repository/PostRepositoryImpl.kt:45-49 | A completed list refresh that fetched no posts writes no row, so neither screen changes, not even its offline flag. |
| OfflineSync.FailureWithoutDataAsymmetry | app/src/main/java/com/itb/visualizadorpostsapp/ui/screens/postdetail/PostDetailViewModel.kt:61-63 | From `Loading`, a failed refresh gives the connectivity-hint `Error` on the list screen, but leaves the detail screen at `Loading`. |

## Left out

- Compose screens, navigation, Koin modules and the application class: these only render, route and wire.
- HTTP client, API calls, JSON decoding and the 15-second timeouts. The remote call is the `Types.Remote` outcome passed to each refresh.
- Room database builder, destructive migration and the SQL engine. Only the data-access object's promised semantics are modelled. Live queries are modelled as a re-emission to both screens after every write of at least one row (`OfflineSync.Written`). A batch write of an empty list writes no row and causes no re-emission (`OfflineSync.EmptyFetchChangesNothing`).
- Storage failures during a write. The write operations of `PostDao` are total. A failure of a cache stream appears only as the reducers' `CacheFailed` event.
- Coroutine scheduling: the `delay(4000)` before the list screen first loads, `viewModelScope` launches, cancellation, and repeated calls to `loadPosts`. Each is serialised as a sequence of events (`PostList.Run`, `PostDetail.Run`) or actions (`OfflineSync.Run`).
- OfflineSync.Open, OfflineSync.Apply: they fix one order of events. `Open` delivers each screen's first cache emission before any refresh outcome. `Apply` delivers a write's re-emission to both screens before the next refresh call. In the source, the first refresh races the first emission, and a failure that arrives first is overwritten by that emission, so the offline flag is lost (`PostList.FailureBeforeFirstEmission`). `OfflineSync.AlwaysConsistent` and `OfflineSync.FailuresKeepCachedData` are stated only for the fixed order.
- `printStackTrace` logging.
- PostRepository.RefreshPostById: takes no post id, only the outcome of fetching it. The source stores the fetched object under the fetched object's own id and never compares that id with the requested one; the model keeps this.
- Exception kinds: only an exception's optional message is kept. The code never tells a "not found" apart from any other failure.
