/** The home feed: pages of posts loaded on demand, each post given one
    picture or one video, new pages merged without repeating a post that
    is already shown, a scroll-to-top button that follows the scrolling
    direction, and local deletion.

    The screen's state cells are fields of `Feed`; `FeedState` is their
    snapshot, and each handler is a method proved to move the snapshot as
    the matching function below does. A load is two events: the request
    (which sets the in-flight ref) and the arrival of its response, which
    is a parameter (`None` when the request throws). */
module HomeFeed {
  import opened Wrappers
  import opened JsText
  import opened JsArray

  const PostsPerPage: int := 10
  const ScrollThreshold: real := 100.0
  const JitterBuffer: real := 15.0
  const VideoUrl: string := "https://commondatastorage.googleapis.com/gtv-videos-bucket/sample/BigBuckBunny.mp4"
  const InitialError: string := "Failed to fetch posts. Please try again later."
  const MoreError: string := "Failed to fetch more posts. Pull to retry."

  datatype Post = Post(
    id: int,
    title: string,
    body: string,
    tags: seq<string>,
    likes: int,
    dislikes: int,
    views: int,
    imageUrl: Option<string>,
    videoUrl: Option<string>)

  /** One response of the posts endpoint. */
  datatype Page = Page(posts: seq<Post>, total: int, skip: int, limit: int)

  // ------------------------------------------------------------------ media

  /** `id % 100`: the stock picture shown for an id. */
  function PictureId(id: int): (p: int)
    ensures -100 < p < 100
    ensures id >= 0 ==> p == id % 100
  {
    JsRem(id, 100)
  }

  /** A stock picture URL for an id, at the given size. */
  function PicsumUrl(id: int, size: string): string {
    "https://picsum.photos/id/" + IntToString(PictureId(id)) + "/" + size
  }

  /** Every fifth id gets the video: `id % 5 === 0`, which for a negative
      id is the same test as for its absolute value. */
  predicate HasVideo(id: int) {
    JsRem(id, 5) == 0
  }

  lemma HasVideoIsMultipleOfFive(id: int)
    ensures HasVideo(id) <==> id % 5 == 0
  {
    if id < 0 {
      var q := (-id) / 5;
      var r := (-id) % 5;
      assert -id == q * 5 + r;
      assert id == (-q - 1) * 5 + (5 - r) || r == 0;
      if r == 0 {
        assert id == (-q) * 5;
      } else {
        assert id % 5 == 5 - r;
      }
    }
  }

  /** One post of `mapMediaToPosts`: exactly one of the two media fields is
      set, the video for every fifth id and a stock picture otherwise;
      nothing else about the post changes. */
  function WithMedia(p: Post): (r: Post)
    ensures r.(imageUrl := p.imageUrl, videoUrl := p.videoUrl) == p
    ensures r.videoUrl.Some? != r.imageUrl.Some?
    ensures r.videoUrl.Some? <==> HasVideo(p.id)
    ensures r.videoUrl.Some? ==> r.videoUrl.value == VideoUrl
    ensures r.imageUrl.Some? ==> r.imageUrl.value == PicsumUrl(p.id, "400/200")
  {
    if HasVideo(p.id) then p.(videoUrl := Some(VideoUrl), imageUrl := None)
    else p.(imageUrl := Some(PicsumUrl(p.id, "400/200")), videoUrl := None)
  }

  /** `mapMediaToPosts`: the same posts in the same order, each with its media. */
  function MapMedia(items: seq<Post>): (r: seq<Post>)
    ensures |r| == |items|
    ensures forall i :: 0 <= i < |items| ==> r[i] == WithMedia(items[i])
  {
    seq(|items|, i requires 0 <= i < |items| => WithMedia(items[i]))
  }

  /** Assigning media twice is assigning it once: the assignment depends
      only on the id, which it never changes. */
  lemma MapMediaIdempotent(items: seq<Post>)
    ensures MapMedia(MapMedia(items)) == MapMedia(items)
  {
    var once := MapMedia(items);
    forall i | 0 <= i < |items| ensures MapMedia(once)[i] == once[i] {
      assert once[i].id == items[i].id;
    }
  }

  // ------------------------------------------------------------------ merge

  function Ids(ps: seq<Post>): set<int> {
    set i | 0 <= i < |ps| :: ps[i].id
  }

  predicate UniqueIds(ps: seq<Post>) {
    forall i, j :: 0 <= i < j < |ps| ==> ps[i].id != ps[j].id
  }

  /** The fetched posts whose id is not among `existing`. */
  function Fresh(items: seq<Post>, existing: set<int>): seq<Post> {
    Filter(items, (p: Post) => p.id !in existing)
  }

  /** The `setPosts` updater of `loadMore`: the posts shown stay, in front
      and unchanged, followed by the fetched posts whose id is not shown. */
  function Merge(prev: seq<Post>, items: seq<Post>): (merged: seq<Post>)
    ensures |merged| >= |prev| && merged[..|prev|] == prev
  {
    prev + Fresh(items, Ids(prev))
  }

  /** What a merge appends is exactly the fetched posts with a new id. */
  lemma MergeAppendsFresh(prev: seq<Post>, items: seq<Post>)
    ensures var merged := Merge(prev, items);
            forall p :: p in merged[|prev|..] <==> p in items && p.id !in Ids(prev)
  {
    var merged := Merge(prev, items);
    assert merged[|prev|..] == Fresh(items, Ids(prev));
    FilterMembers(items, (p: Post) => p.id !in Ids(prev));
  }

  /** A filter of posts with distinct ids has distinct ids. */
  lemma {:induction false} FilterKeepsUniqueIds(s: seq<Post>, f: Post -> bool)
    requires UniqueIds(s)
    ensures UniqueIds(Filter(s, f))
    decreases |s|
  {
    if s != [] {
      var rest := Filter(s[1..], f);
      FilterKeepsUniqueIds(s[1..], f);
      FilterMembers(s[1..], f);
      if f(s[0]) {
        var r := [s[0]] + rest;
        forall i, j | 0 <= i < j < |r| ensures r[i].id != r[j].id {
          if i == 0 {
            assert r[j] == rest[j - 1] && r[j] in s[1..];
            var k :| 0 <= k < |s[1..]| && s[1..][k] == r[j];
            assert s[k + 1] == r[j];
          } else {
            assert r[i] == rest[i - 1] && r[j] == rest[j - 1];
          }
        }
      }
    }
  }

  /** Distinct ids stay distinct through a merge, provided the fetched page
      itself repeats no id (see `MergeRepeatsWithinPage`). */
  lemma MergeKeepsIdsUnique(prev: seq<Post>, items: seq<Post>)
    requires UniqueIds(prev) && UniqueIds(items)
    ensures UniqueIds(Merge(prev, items))
  {
    var added := Fresh(items, Ids(prev));
    FilterKeepsUniqueIds(items, (p: Post) => p.id !in Ids(prev));
    FilterMembers(items, (p: Post) => p.id !in Ids(prev));
    var merged := prev + added;
    forall i, j | 0 <= i < j < |merged| ensures merged[i].id != merged[j].id {
      if j < |prev| {
        assert merged[i] == prev[i] && merged[j] == prev[j];
      } else if i < |prev| {
        assert merged[i] == prev[i] && merged[i].id in Ids(prev);
        assert merged[j] == added[j - |prev|] && merged[j] in added;
      } else {
        assert merged[i] == added[i - |prev|] && merged[j] == added[j - |prev|];
      }
    }
  }

  /** The ids already shown are checked, but not the ids within the page:
      a page that repeats an id puts both copies on screen. */
  lemma MergeRepeatsWithinPage(p: Post)
    ensures !UniqueIds(Merge([], [p, p]))
  {
    var merged := Merge([], [p, p]);
    assert Ids([]) == {};
    FilterKeepsAll([p, p], (q: Post) => q.id !in Ids([]));
    assert merged[0] == p && merged[1] == p;
  }

  /** Fetching a page that is already merged again adds nothing. */
  lemma MergeIdempotent(prev: seq<Post>, items: seq<Post>)
    ensures Merge(Merge(prev, items), items) == Merge(prev, items)
  {
    var merged := Merge(prev, items);
    var f := (p: Post) => p.id !in Ids(merged);
    FilterMembers(items, (p: Post) => p.id !in Ids(prev));
    FilterMembers(items, f);
    forall p | p in items ensures p.id in Ids(merged) {
      if p.id in Ids(prev) {
        var i :| 0 <= i < |prev| && prev[i].id == p.id;
        assert merged[i] == prev[i];
      } else {
        assert p in merged[|prev|..];
        var k :| 0 <= k < |merged[|prev|..]| && merged[|prev|..][k] == p;
        assert merged[|prev| + k] == p;
      }
    }
    FilterKeepsNone(items, f);
    assert merged + [] == merged;
  }

  // ----------------------------------------------------------------- scroll

  /** The scroll-to-top button and the offset it last reacted to. */
  datatype Fab = Fab(visible: bool, lastScrollY: real)

  function Abs(x: real): real {
    if x < 0.0 then -x else x
  }

  /** `handleScroll`: near the top the button hides; further down it shows
      when scrolling up and hides when scrolling down by more than the
      jitter buffer, and the remembered offset moves only on such a move. */
  function ScrollStep(fab: Fab, y: real): (r: Fab)
    ensures y < ScrollThreshold ==> !r.visible
    ensures y >= ScrollThreshold && y - fab.lastScrollY < -JitterBuffer ==> r == Fab(true, y)
    ensures y >= ScrollThreshold && y - fab.lastScrollY > JitterBuffer ==> r == Fab(false, y)
    ensures y >= ScrollThreshold && Abs(y - fab.lastScrollY) <= JitterBuffer ==> r == fab
    ensures r.lastScrollY == y || r.lastScrollY == fab.lastScrollY
  {
    var diff := y - fab.lastScrollY;
    var visible :=
      if y < ScrollThreshold then false
      else if diff < -JitterBuffer then true
      else if diff > JitterBuffer then false
      else fab.visible;
    Fab(visible, if Abs(diff) > JitterBuffer then y else fab.lastScrollY)
  }

  /** Reporting the same offset twice changes nothing the second time. */
  lemma ScrollSettles(fab: Fab, y: real)
    ensures ScrollStep(ScrollStep(fab, y), y) == ScrollStep(fab, y)
  {
  }

  // ------------------------------------------------------------ the screen

  datatype FeedState = FeedState(
    posts: seq<Post>,
    total: int,
    skip: int,
    hasMore: bool,
    error: Option<string>,
    loading: bool,        // isLoadingRef
    postsLoading: bool,
    fetchingMore: bool,
    fab: Fab)

  /** The state cells on first render. */
  const InitialFeed := FeedState([], 0, 0, true, None, false, true, false, Fab(false, 0.0))

  /** The next page never starts inside the posts shown. */
  predicate FeedValid(s: FeedState) {
    |s.posts| <= s.skip
  }

  /** `loadInitial` up to its request, for the first page. */
  function BeginInitial(s: FeedState): FeedState {
    s.(postsLoading := true, error := None, loading := true)
  }

  /** `loadInitial` once its response (or failure) arrives. */
  function EndInitial(s: FeedState, page: Option<Page>): FeedState {
    var s1 := match page
      case Some(pg) =>
        var items := MapMedia(pg.posts);
        s.(posts := items, total := pg.total, skip := |items|, hasMore := pg.limit < pg.total)
      case None => s.(error := Some(InitialError));
    s1.(postsLoading := false, loading := false)
  }

  /** `loadMore` up to its request: nothing while a load is in flight or
      when there is nothing more; otherwise the offset asked for. */
  function BeginMore(s: FeedState): (FeedState, Option<int>) {
    if s.loading || !s.hasMore then (s, None)
    else (s.(error := None, fetchingMore := true, loading := true), Some(s.skip))
  }

  /** `loadMore` once its response (or failure) arrives. */
  function EndMore(s: FeedState, page: Option<Page>): FeedState {
    var s1 := match page
      case Some(pg) =>
        var merged := Merge(s.posts, MapMedia(pg.posts));
        s.(posts := merged, skip := |merged|, hasMore := |merged| < pg.total, total := pg.total)
      case None => s.(error := Some(MoreError));
    s1.(fetchingMore := false, loading := false)
  }

  function Scroll(s: FeedState, y: real): FeedState {
    s.(fab := ScrollStep(s.fab, y))
  }

  /** `handleDeletePost` */
  function Delete(s: FeedState, postId: int): FeedState {
    s.(posts := Filter(s.posts, (p: Post) => p.id != postId), total := s.total - 1)
  }

  /** The first page: its posts with media, the offset past them, and more
      to come exactly when the page size is below the total. */
  lemma InitialBookkeeping(s: FeedState, page: Page)
    ensures var r := EndInitial(s, Some(page));
            |r.posts| == |page.posts| == r.skip &&
            (forall i :: 0 <= i < |page.posts| ==> r.posts[i].id == page.posts[i].id) &&
            (r.hasMore <==> page.limit < page.total) && r.total == page.total &&
            !r.loading && !r.postsLoading
  {
  }

  /** A request for more is made only when nothing is in flight and more
      is expected, and it asks for the posts after those already counted. */
  lemma MoreIsGuarded(s: FeedState)
    ensures var (r, request) := BeginMore(s);
            (request.None? <==> s.loading || !s.hasMore) &&
            (request.None? ==> r == s) &&
            (request.Some? ==> request.value == s.skip && r.loading && r.posts == s.posts)
  {
  }

  /** After a merge the offset is the number of posts shown, more is
      expected exactly while fewer posts than the total are shown, and the
      earlier posts are an unchanged prefix. */
  lemma MoreBookkeeping(s: FeedState, page: Page)
    ensures var r := EndMore(s, Some(page));
            r.skip == |r.posts| && (r.hasMore <==> |r.posts| < page.total) &&
            r.posts[..|s.posts|] == s.posts && r.total == page.total && !r.loading
  {
  }

  /** Assigning media keeps every id. */
  lemma MapMediaKeepsIds(items: seq<Post>)
    ensures UniqueIds(MapMedia(items)) <==> UniqueIds(items)
  {
    var r := MapMedia(items);
    assert forall i :: 0 <= i < |items| ==> r[i].id == items[i].id;
  }

  /** Posts shown with distinct ids keep distinct ids after loading a page
      that repeats no id. */
  lemma MoreKeepsIdsUnique(s: FeedState, page: Page)
    requires UniqueIds(s.posts) && UniqueIds(page.posts)
    ensures UniqueIds(EndMore(s, Some(page)).posts)
  {
    MapMediaKeepsIds(page.posts);
    MergeKeepsIdsUnique(s.posts, MapMedia(page.posts));
  }

  /** Deleting removes every post with that id, keeps every other post in
      its order, and lowers the total by exactly one (even when no post
      had that id). */
  lemma DeleteRemoves(s: FeedState, postId: int, a: seq<Post>, b: seq<Post>)
    requires s.posts == a + b
    ensures var r := Delete(s, postId);
            (forall p :: p in r.posts <==> p in s.posts && p.id != postId) &&
            r.posts == Filter(a, (p: Post) => p.id != postId) + Filter(b, (p: Post) => p.id != postId) &&
            r.total == s.total - 1
  {
    FilterMembers(s.posts, (p: Post) => p.id != postId);
    FilterAppend(a, b, (p: Post) => p.id != postId);
  }

  /** Every handler keeps the next page from starting inside the posts shown. */
  lemma StepsKeepFeedValid(s: FeedState, page: Option<Page>, y: real, postId: int)
    requires FeedValid(s)
    ensures FeedValid(InitialFeed)
    ensures FeedValid(BeginInitial(s)) && FeedValid(EndInitial(s, page))
    ensures FeedValid(BeginMore(s).0) && FeedValid(EndMore(s, page))
    ensures FeedValid(Scroll(s, y)) && FeedValid(Delete(s, postId))
  {
  }

  // ------------------------------------------- a refresh during loadMore

  /** The response of the posts endpoint for an offset when the server holds
      the posts `all`, in order: up to a page of them from the offset on. */
  function ServerPage(all: seq<Post>, offset: nat): Page {
    var lo := if offset < |all| then offset else |all|;
    var hi := if offset + PostsPerPage < |all| then offset + PostsPerPage else |all|;
    Page(all[lo..hi], |all|, offset, PostsPerPage)
  }

  /** The feed shows the server's posts from the first on, without a gap,
      and the next page starts right after them. */
  predicate ShowsPrefix(s: FeedState, all: seq<Post>) {
    0 <= s.skip <= |all| && s.posts == MapMedia(all[..s.skip])
  }

  /** Assigning media to a concatenation assigns it to each part. */
  lemma MapMediaAppend(a: seq<Post>, b: seq<Post>)
    ensures MapMedia(a + b) == MapMedia(a) + MapMedia(b)
  {
    var l, r := MapMedia(a + b), MapMedia(a) + MapMedia(b);
    forall i | 0 <= i < |a + b| ensures l[i] == r[i] {
      if i < |a| {
        assert (a + b)[i] == a[i];
      } else {
        assert (a + b)[i] == b[i - |a|];
      }
    }
  }

  /** Posts of two disjoint stretches of a list with distinct ids never
      share an id, with or without media. */
  lemma StretchesDisjoint(all: seq<Post>, lo: int, hi: int, lo2: int, hi2: int)
    requires UniqueIds(all) && 0 <= lo <= hi <= lo2 <= hi2 <= |all|
    ensures forall i :: 0 <= i < hi2 - lo2 ==> MapMedia(all[lo2..hi2])[i].id !in Ids(MapMedia(all[lo..hi]))
  {
    var prev, items := MapMedia(all[lo..hi]), MapMedia(all[lo2..hi2]);
    forall i | 0 <= i < hi2 - lo2 ensures items[i].id !in Ids(prev) {
      forall j | 0 <= j < |prev| ensures prev[j].id != items[i].id {
        assert prev[j].id == all[lo + j].id && items[i].id == all[lo2 + i].id;
      }
    }
  }

  /** Merging posts that share no id with those shown appends them all. */
  lemma MergeDisjoint(prev: seq<Post>, items: seq<Post>)
    requires forall i :: 0 <= i < |items| ==> items[i].id !in Ids(prev)
    ensures Merge(prev, items) == prev + items
  {
    FilterKeepsAll(items, (p: Post) => p.id !in Ids(prev));
  }

  /** As written, a refresh (pull-to-refresh or the scroll-to-top button)
      that runs while `loadMore` waits out its delay lets the late page land
      on the refreshed first page: with 20 posts shown, the 11th to 20th
      posts of the server are never shown, the offset stays at 20, and every
      later `loadMore` fetches the same page again and adds nothing. */
  lemma RefreshDuringLoadMoreSkipsPosts(s: FeedState, all: seq<Post>)
    requires UniqueIds(all) && |all| >= 30
    requires s.skip == 20 && !s.loading && s.hasMore
    ensures var (s1, request) := BeginMore(s);
            var s2 := EndInitial(BeginInitial(s1), Some(ServerPage(all, 0)));
            var s3 := EndMore(s2, Some(ServerPage(all, 20)));
            request == Some(20) &&
            s3.posts == MapMedia(all[..10]) + MapMedia(all[20..30]) &&
            s3.skip == 20 && s3.hasMore && !ShowsPrefix(s3, all) &&
            all[10].id !in Ids(s3.posts) &&
            BeginMore(s3).1 == Some(20) &&
            EndMore(BeginMore(s3).0, Some(ServerPage(all, 20))).posts == s3.posts
  {
    var (s1, request) := BeginMore(s);
    var s2 := EndInitial(BeginInitial(s1), Some(ServerPage(all, 0)));
    assert all[0..10] == all[..10];
    var first, late := MapMedia(all[..10]), MapMedia(all[20..30]);
    assert s2.posts == first;
    StretchesDisjoint(all, 0, 10, 20, 30);
    MergeDisjoint(first, late);
    var s3 := EndMore(s2, Some(ServerPage(all, 20)));
    assert s3.posts == first + late;
    forall j | 0 <= j < |s3.posts| ensures s3.posts[j].id != all[10].id {
      if j < 10 {
        assert s3.posts[j].id == all[j].id;
      } else {
        assert s3.posts[j].id == all[10 + j].id;
      }
    }
    assert s3.posts[10].id == all[20].id && MapMedia(all[..20])[10].id == all[10].id;
    MergeIdempotent(first, late);
  }

  /** `loadMore` as evidently intended: a page asked for at an offset that
      is no longer the current one (a refresh ran meanwhile) is dropped. */
  function EndMoreAt(s: FeedState, offset: int, page: Option<Page>): FeedState {
    if offset == s.skip then EndMore(s, page) else s.(fetchingMore := false, loading := false)
  }

  /** The first page shows the server's first posts. */
  lemma FirstPageShowsPrefix(s: FeedState, all: seq<Post>)
    ensures ShowsPrefix(EndInitial(s, Some(ServerPage(all, 0))), all)
  {
    var pg := ServerPage(all, 0);
    assert pg.posts == all[..|pg.posts|];
  }

  /** A page from an offset inside the list is the stretch of the list
      that starts there. */
  lemma ServerPageSlice(all: seq<Post>, offset: nat)
    requires offset <= |all|
    ensures var pg := ServerPage(all, offset);
            offset + |pg.posts| <= |all| && pg.posts == all[offset..offset + |pg.posts|]
  {
  }

  /** Merging the next stretch of a list with distinct ids onto the
      stretch before it gives the whole prefix. */
  lemma MergeGrowsPrefix(all: seq<Post>, k: int, hi: int)
    requires UniqueIds(all) && 0 <= k <= hi <= |all|
    ensures Merge(MapMedia(all[..k]), MapMedia(all[k..hi])) == MapMedia(all[..hi])
  {
    StretchesDisjoint(all, 0, k, k, hi);
    MergeDisjoint(MapMedia(all[..k]), MapMedia(all[k..hi]));
    assert all[..k] + all[k..hi] == all[..hi];
    MapMediaAppend(all[..k], all[k..hi]);
  }

  /** The page at the current offset extends the posts shown by exactly
      the server's next posts. */
  lemma NextPageExtendsPrefix(s: FeedState, all: seq<Post>)
    requires UniqueIds(all) && ShowsPrefix(s, all)
    ensures ShowsPrefix(EndMore(s, Some(ServerPage(all, s.skip))), all)
  {
    var page := ServerPage(all, s.skip);
    ServerPageSlice(all, s.skip);
    var hi := s.skip + |page.posts|;
    MergeGrowsPrefix(all, s.skip, hi);
  }

  /** With `EndMoreAt`, the feed shows the server's posts without a gap
      whichever order the requests and responses come in: every step keeps
      `ShowsPrefix`, the late page included. */
  lemma IntendedStepsShowPrefix(s: FeedState, all: seq<Post>, offset: nat, y: real)
    requires UniqueIds(all) && ShowsPrefix(s, all)
    ensures ShowsPrefix(InitialFeed, all)
    ensures ShowsPrefix(BeginInitial(s), all) && ShowsPrefix(BeginMore(s).0, all) && ShowsPrefix(Scroll(s, y), all)
    ensures ShowsPrefix(EndInitial(s, None), all) && ShowsPrefix(EndInitial(s, Some(ServerPage(all, 0))), all)
    ensures ShowsPrefix(EndMoreAt(s, offset, None), all)
    ensures ShowsPrefix(EndMoreAt(s, offset, Some(ServerPage(all, offset))), all)
  {
    assert all[..0] == [];
    FirstPageShowsPrefix(s, all);
    if offset == s.skip {
      NextPageExtendsPrefix(s, all);
    }
  }

  /** The home screen's feed state cells and refs. */
  class Feed {
    var posts: seq<Post>
    var total: int
    var skip: int
    var hasMore: bool
    var error: Option<string>
    var loading: bool
    var postsLoading: bool
    var fetchingMore: bool
    var fabVisible: bool
    var lastScrollY: real

    function State(): FeedState
      reads this
    {
      FeedState(posts, total, skip, hasMore, error, loading, postsLoading, fetchingMore,
                Fab(fabVisible, lastScrollY))
    }

    constructor()
      ensures State() == InitialFeed
    {
      posts := [];
      total := 0;
      skip := 0;
      hasMore := true;
      error := None;
      loading := false;
      postsLoading := true;
      fetchingMore := false;
      fabVisible := false;
      lastScrollY := 0.0;
    }

    /** `loadInitial` up to its request; returns the page size and offset asked for. */
    method BeginLoadInitial() returns (limit: int, offset: int)
      modifies this
      ensures State() == BeginInitial(old(State()))
      ensures limit == PostsPerPage && offset == 0
    {
      postsLoading := true;
      error := None;
      loading := true;
      limit, offset := PostsPerPage, 0;
    }

    /** `loadInitial` once its response (or failure) arrives. Nothing orders
        it against a `loadMore` in flight: `loadInitial` never reads the ref. */
    method FinishLoadInitial(page: Option<Page>)
      modifies this
      ensures State() == EndInitial(old(State()), page)
    {
      if page.Some? {
        var items := MapMedia(page.value.posts);
        posts := items;
        total := page.value.total;
        skip := |items|;
        hasMore := page.value.limit < page.value.total;
      } else {
        error := Some(InitialError);
      }
      postsLoading := false;
      loading := false;
    }

    /** `loadMore` up to its request; returns the offset asked for, if any. */
    method BeginLoadMore() returns (offset: Option<int>)
      modifies this
      ensures (State(), offset) == BeginMore(old(State()))
    {
      if loading || !hasMore {
        return None;
      }
      error := None;
      fetchingMore := true;
      loading := true;
      offset := Some(skip);
    }

    /** `loadMore` once its response (or failure) arrives, merging onto the
        posts shown at that moment, whatever loaded in between. */
    method FinishLoadMore(page: Option<Page>)
      modifies this
      ensures State() == EndMore(old(State()), page)
    {
      if page.Some? {
        var items := MapMedia(page.value.posts);
        var merged := Merge(posts, items);
        skip := |merged|;
        hasMore := |merged| < page.value.total;
        total := page.value.total;
        posts := merged;
      } else {
        error := Some(MoreError);
      }
      fetchingMore := false;
      loading := false;
    }

    method HandleScroll(y: real)
      modifies this
      ensures State() == Scroll(old(State()), y)
    {
      var diff := y - lastScrollY;
      if y < ScrollThreshold {
        fabVisible := false;
      } else if diff < -JitterBuffer {
        fabVisible := true;
      } else if diff > JitterBuffer {
        fabVisible := false;
      }
      if Abs(diff) > JitterBuffer {
        lastScrollY := y;
      }
    }

    method HandleDeletePost(postId: int)
      modifies this
      ensures State() == Delete(old(State()), postId)
    {
      posts := Filter(posts, (p: Post) => p.id != postId);
      total := total - 1;
    }
  }
}
