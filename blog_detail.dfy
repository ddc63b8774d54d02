/** The blog detail screen's derived values: the reading-time label and
    the hero picture chosen from the post id or the route id. Both copies
    of the screen compute them the same way. */
module BlogDetail {
  import opened Wrappers
  import opened JsText
  import opened HomeFeed

  const WordsPerMinute: nat := 200

  /** The fields of a fetched post that the derived values read. */
  datatype PostDetail = PostDetail(id: int, title: string, body: string)

  /** Words of the body plus words of the title; a post not yet loaded has none. */
  function WordCount(post: Option<PostDetail>): (n: nat)
    ensures post.None? ==> n == 0
    ensures post.Some? ==> n == |Words(post.value.body)| + |Words(post.value.title)|
  {
    match post
    case None => 0
    case Some(p) => |Words(p.body)| + |Words(p.title)|
  }

  /** `max(1, ceil(words / 200))`: the fewest whole minutes that cover the
      words at 200 words a minute, and never less than one. */
  function ReadMinutes(words: nat): (m: nat)
    ensures m >= 1
    ensures words > 0 ==> (m - 1) * WordsPerMinute < words <= m * WordsPerMinute
    ensures words == 0 ==> m == 1
  {
    var c := (words + WordsPerMinute - 1) / WordsPerMinute;
    if c < 1 then 1 else c
  }

  /** More words never mean fewer minutes. */
  lemma ReadMinutesMonotonic(a: nat, b: nat)
    requires a <= b
    ensures ReadMinutes(a) <= ReadMinutes(b)
  {
    if a > 0 {
      assert (ReadMinutes(a) - 1) * WordsPerMinute < ReadMinutes(b) * WordsPerMinute;
    }
  }

  /** Up to 200 words read in one minute, 201 to 400 in two. */
  lemma ReadMinutesBands(words: nat)
    ensures words <= 200 ==> ReadMinutes(words) == 1
    ensures 200 < words <= 400 ==> ReadMinutes(words) == 2
  {
  }

  /** The `readTime` label. */
  function ReadTime(post: Option<PostDetail>): string {
    IntToString(ReadMinutes(WordCount(post))) + " min read"
  }

  /** A post not yet loaded, or one whose title and body are blank, reads
      in "1 min read". */
  lemma EmptyPostReadTime(post: Option<PostDetail>)
    requires post.Some? ==> forall i :: 0 <= i < |post.value.body| ==> IsSpace(post.value.body[i])
    requires post.Some? ==> forall i :: 0 <= i < |post.value.title| ==> IsSpace(post.value.title[i])
    ensures ReadTime(post) == "1 min read"
  {
    if post.Some? {
      WordsOfBlank(post.value.body);
      WordsOfBlank(post.value.title);
    }
    assert WordCount(post) == 0;
    OneMinuteLabel();
  }

  lemma OneMinuteLabel()
    ensures IntToString(ReadMinutes(0)) + " min read" == "1 min read"
  {
  }

  /** The label's number reads back as the minutes: the label is the
      minute count followed by " min read". */
  lemma ReadTimeReadsBack(post: Option<PostDetail>)
    ensures ParseInt(ReadTime(post)) == Some(ReadMinutes(WordCount(post)))
  {
    var m := ReadMinutes(WordCount(post));
    var digits := NatToString(m);
    assert ReadTime(post) == digits + " min read";
    DigitsThenText(digits, " min read");
    NatToStringValue(m);
  }

  /** `computedId`: the post's own id once it is loaded, otherwise the
      route id read as a number, with 0 when the route id is missing, not
      a number, or zero. */
  function ComputedId(post: Option<PostDetail>, routeId: Option<string>): (id: int)
    ensures post.Some? ==> id == post.value.id
    ensures post.None? && routeId.None? ==> id == 0
    ensures post.None? && routeId.Some? && JsNumber(routeId.value).None? ==> id == 0
    ensures post.None? && routeId.Some? && JsNumber(routeId.value).Some? ==> id == JsNumber(routeId.value).value
  {
    match post
    case Some(p) => p.id
    case None =>
      match routeId
      case None => 0
      case Some(text) => JsNumber(text).GetOr(0)
  }

  /** Before the post arrives, a route id written by `String(id)` gives
      back that id. */
  lemma ComputedIdFromRoute(i: int)
    ensures ComputedId(None, Some(IntToString(i))) == i
  {
    JsNumberToString(i);
  }

  /** The hero picture: the stock picture of the computed id, at 800 by 600. */
  function HeroUri(post: Option<PostDetail>, routeId: Option<string>): string {
    PicsumUrl(ComputedId(post, routeId), "800/600")
  }

  /** The hero picture is one of the stock pictures 0 to 99 for every
      non-negative id, and ids a hundred apart share a picture. */
  lemma HeroPictureRange(id: int)
    requires id >= 0
    ensures 0 <= PictureId(id) < 100
    ensures PictureId(id + 100) == PictureId(id)
  {
  }
}
