/** The pages the crawler fetches, as the data it extracts from them, and the records it
    builds from that data and sends to Kafka. Each page is given already parsed: the
    model starts where BeautifulSoup's `find`/`find_all`/`get_text` have produced their
    strings, flags and numbers. */
module Records {
  import opened Base
  import opened Text
  import opened Clock
  import opened Timestamps
  import opened Fields
  import opened Jobs

  /** One member row of a follow listing: its link, and whether the row carries the
      `5338.gif` or the `5337.gif` marker image. */
  datatype FollowRow = FollowRow(href: string, publicMark: bool, enterpriseMark: bool)

  /** A follow listing: its member rows and the number in its `pagelist` box, if any. */
  datatype FollowPage = FollowPage(rows: seq<FollowRow>, pagelist: Option<int>)

  /** One tweet `div` of a timeline. For a repost (`repost`, the "转发理由:" comment is
      present) `text` is the text of that comment's parent and `ct` its time line, and
      `commentHref` the href of the comment link of the second-to-last inner `div`;
      otherwise `text` and `ct` are the tweet's own. */
  datatype TweetDiv = TweetDiv(id: string, repost: bool, text: string, ct: string, commentHref: Option<string>)

  datatype TweetPage = TweetPage(divs: seq<TweetDiv>, pagelist: Option<int>)

  /** One comment `div`: its id, the href of its first link if any, its text and time line. */
  datatype CommentDiv = CommentDiv(id: string, userHref: Option<string>, content: string, ct: string)

  /** The tweet at the top of a comment page (`id='M_'`). */
  datatype MainTweet = MainTweet(userHref: Option<string>, repost: bool, content: string, ct: string)

  /** A comment page: its comments, its main tweet if any, the texts of the
      `div`s holding a `pms` element (the counters line), and its `pagelist` number. */
  datatype CommentPage = CommentPage(comments: seq<CommentDiv>, main: Option<MainTweet>, details: seq<string>, pagelist: Option<int>)

  /** The site as the crawler sees it: what each fetched URL yields. `infoLinks` gives
      the href of the "资料" link on the home page at a URL, if the page has one. */
  datatype Site = Site(
    follows: string -> FollowPage,
    timelines: string -> TweetPage,
    commentPages: string -> CommentPage,
    infoLinks: string -> Option<string>)

  /** A `tweet_info` message of a timeline tweet. */
  datatype TweetInfo = TweetInfo(flag: string, sourceTid: Option<string>, content: string, id: string, time: string,
                                 source: string, like: CounterValue, transfer: CounterValue, comment: CounterValue, uid: string)

  /** A `comment_info` message; `pubTime` and `source` are keys the dict may lack. */
  datatype CommentInfo = CommentInfo(userId: UserRef, content: string, pubTime: Option<string>, source: Option<string>,
                                     id: string, tweetId: string)

  /** The `tweet_info` message of the tweet at the top of a comment page; the optional
      fields are keys the dict may lack. */
  datatype QuotedTweetInfo = QuotedTweetInfo(content: Option<string>, id: string, like: CounterValue, transfer: CounterValue,
                                             comment: CounterValue, time: Option<string>, source: Option<string>, uid: Option<UserRef>)

  /** The messages sent to the `sinaweibo` topic. */
  datatype Record = TweetMsg(tweet: TweetInfo) | CommentMsg(info: CommentInfo) | QuotedMsg(quoted: QuotedTweetInfo)

  const Nbsp: string := "\U{00A0}"
  const ZeroWidthSpace: string := "\U{200B}"
  const RepostFlag: string := "转发"
  const OriginalFlag: string := "原创"

  // ---- follow listings -----------------------------------------------------------------

  /** The id of a member row: the profile-link digits, else the id from the member's home
      page at the link. */
  function MemberId(row: FollowRow, site: Site): (r: Result<UserRef>)
    ensures ProfileLinkId(row.href).Some? ==> r.Ok? && r.value.Id? && AllDigits(r.value.text)
    ensures r.Err? <==> ProfileLinkId(row.href).None? && site.infoLinks(row.href).Some?
                        && !Contains(site.infoLinks(row.href).value, "/")
    ensures r.Err? ==> r.error == IndexError
    ensures r == Ok(NoId) <==> ProfileLinkId(row.href).None? && site.infoLinks(row.href).None?
  {
    match ProfileLinkId(row.href)
    case Some(d) => Ok(Id(d))
    case None => UserIdFromHomepage(site.infoLinks(row.href))
  }

  /** A member linked by "https://weibo.cn/u/<digits>" gets those digits, whatever its
      home page says. */
  lemma MemberIdOfProfileLink(d: string, rest: string, publicMark: bool, enterpriseMark: bool, site: Site)
    requires AllDigits(d) && (rest != "" ==> !IsDigit(rest[0]))
    ensures MemberId(FollowRow(ProfilePrefix + d + rest, publicMark, enterpriseMark), site) == Ok(Id(d))
  {
    ProfileLinkRoundTrip(d, rest);
  }

  /** A member whose link has no "cn/u/" gets the id its home page names. */
  lemma MemberIdFromHomepage(row: FollowRow, site: Site)
    requires !Contains(row.href, "cn/u/")
    ensures MemberId(row, site) == UserIdFromHomepage(site.infoLinks(row.href))
  {
    ProfileLinkAbsent(row.href);
  }

  /** A row with either marker image is not passed to the user queue. */
  predicate Exempt(row: FollowRow)
  {
    row.publicMark || row.enterpriseMark
  }

  // ---- timeline tweets ----------------------------------------------------------------

  /** The content and the `;`-joined footer of a tweet `div`. A repost's text is split on
      no-break spaces: the content is the first field less its five-character
      "转发理由:" head, the footer the other fields. An original's text is split on
      zero-width spaces: the content is the first piece, the footer the no-break-space
      fields of the last piece after its first. */
  function TweetParts(div: TweetDiv): (r: (string, string))
  {
    if div.repost then
      var fields := Split(div.text, Nbsp);
      (Drop(fields[0], 5), Join(fields[1..], ";"))
    else
      var fields := Split(div.text, ZeroWidthSpace);
      var others := Split(Last(fields), Nbsp);
      (fields[0], Join(others[1..], ";"))
  }

  /** A repost's content is the reason after "转发理由:", the footer what follows the
      first no-break space. */
  lemma RepostParts(id: string, reason: string, rest: string, ct: string, href: Option<string>)
    requires !Contains(reason, Nbsp)
    ensures TweetParts(TweetDiv(id, true, "转发理由:" + reason + Nbsp + rest, ct, href))
         == (reason, Join(Split(rest, Nbsp), ";"))
  {
    var head := "转发理由:" + reason;
    var text := head + Nbsp + rest;
    assert !Contains(head, Nbsp) by {
      forall j | 0 <= j <= |head| ensures !OccursAt(head, Nbsp, j) {
        if j < 5 {
          assert head[j..j + 1][0] == "转发理由:"[j];
        } else if j < |head| {
          assert head[j..j + 1] == reason[j - 5..j - 5 + 1];
          assert !OccursAt(reason, Nbsp, j - 5);
        }
      }
    }
    FindAround(head, Nbsp, rest);
    assert text[..|head|] == head;
    assert text[|head| + 1..] == rest;
    var fields := Split(text, Nbsp);
    assert fields == [head] + Split(rest, Nbsp);
    assert fields[1..] == Split(rest, Nbsp);
    assert Drop(head, 5) == reason;
  }

  /** The record of a timeline tweet: ValueError or OverflowError when its time text
      cannot be converted, else every field filled from the `div`. */
  function TweetRecord(div: TweetDiv, uid: string, now: DateTime): (r: Result<TweetInfo>)
    requires Clock.Valid(now)
    ensures r.Err? <==> GetTime(TweetTimeSource(div.ct).0, now).Err?
    ensures r.Err? ==> r.error == GetTime(TweetTimeSource(div.ct).0, now).error
    ensures r.Ok? ==> r.value.id == div.id && r.value.uid == uid
    ensures r.Ok? ==> r.value.time == GetTime(TweetTimeSource(div.ct).0, now).value
    ensures r.Ok? ==> r.value.source == TweetTimeSource(div.ct).1
    ensures r.Ok? ==> r.value.flag == (if div.repost then RepostFlag else OriginalFlag) && (r.value.sourceTid.Some? ==> div.repost)
    ensures r.Ok? && div.repost ==> r.value.sourceTid == SourceTid(div.commentHref)
    ensures r.Ok? ==> r.value.content == TweetParts(div).0
    ensures r.Ok? ==> (r.value.like, r.value.transfer, r.value.comment) == TweetCounters(TweetParts(div).1, TimelineFallback)
  {
    var (content, other) := TweetParts(div);
    var (time, source) := TweetTimeSource(div.ct);
    var stamp :- GetTime(time, now);
    var (like, transfer, comment) := TweetCounters(other, TimelineFallback);
    Ok(TweetInfo(
      if div.repost then RepostFlag else OriginalFlag,
      if div.repost then SourceTid(div.commentHref) else None,
      content, div.id, stamp, source, like, transfer, comment, uid))
  }

  // ---- comments -----------------------------------------------------------------------

  /** The record of a comment by `user`: its time and source only when its time line is
      not empty; ValueError or OverflowError when the time text cannot be converted. */
  function CommentRecord(div: CommentDiv, user: UserRef, tweetId: string, now: DateTime): (r: Result<CommentInfo>)
    requires Clock.Valid(now)
    ensures r.Ok? ==> r.value == CommentInfo(user, div.content, r.value.pubTime, r.value.source, div.id, tweetId)
    ensures r.Ok? ==> (r.value.pubTime.Some? <==> div.ct != "")
    ensures r.Ok? ==> r.value.source == (if div.ct == "" then None else CommentTimeSource(div.ct).value.1)
    ensures r.Err? <==> div.ct != "" && GetTime(CommentTimeSource(div.ct).value.0, now).Err?
    ensures r.Ok? && div.ct != "" ==> r.value.pubTime == Some(GetTime(CommentTimeSource(div.ct).value.0, now).value)
  {
    match CommentTimeSource(div.ct)
    case None => Ok(CommentInfo(user, div.content, None, None, div.id, tweetId))
    case Some((time, source)) =>
      var stamp :- GetTime(time, now);
      Ok(CommentInfo(user, div.content, Some(stamp), source, div.id, tweetId))
  }

  /** The record of the tweet at the top of a comment page, sent only when the page has
      that tweet and the tweet has a user link. The user id is resolved first (and can
      fail), then the first counters line is read (IndexError when there is none). A
      repost's record carries the counters alone; an original's also its content, its
      author and, when its time line is not empty, its time and source. */
  function QuotedTweetRecord(page: CommentPage, site: Site, tweetId: string, now: DateTime): (r: Result<Option<QuotedTweetInfo>>)
    requires Clock.Valid(now)
    ensures r == Ok(None) <==> !HasAuthorLink(page)
    ensures r.Ok? && r.value.Some? ==> r.value.value.id == tweetId && |page.details| > 0
    ensures r.Ok? && r.value.Some? ==>
      (r.value.value.like, r.value.value.transfer, r.value.value.comment)
        == TweetCounters(RemoveChar(page.details[0], '\U{00A0}'), QuotedFallback)
    ensures r.Err? <==> HasAuthorLink(page) && (AuthorId(page, site).Err? || |page.details| == 0
                          || (!page.main.value.repost && page.main.value.ct != ""
                              && GetTime(CommentTimeSource(page.main.value.ct).value.0, now).Err?))
    ensures r.Err? && (AuthorId(page, site).Err? || |page.details| == 0) ==> r.error == IndexError
    ensures r.Ok? && r.value.Some? && page.main.value.repost ==>
      var q := r.value.value; q.content.None? && q.time.None? && q.source.None? && q.uid.None?
    ensures r.Ok? && r.value.Some? && !page.main.value.repost ==>
      var q := r.value.value; var main := page.main.value;
      && q.content == Some(main.content) && q.uid == Some(AuthorId(page, site).value)
      && q.time == (if main.ct == "" then None else Some(GetTime(CommentTimeSource(main.ct).value.0, now).value))
      && q.source == (if main.ct == "" then None else CommentTimeSource(main.ct).value.1)
  {
    match page.main
    case None => Ok(None)
    case Some(main) =>
      match main.userHref
      case None => Ok(None)
      case Some(href) =>
        var user :- AuthorId(page, site);
        if |page.details| == 0 then Err(IndexError)
        else
          var detail := RemoveChar(page.details[0], '\U{00A0}');
          var (like, transfer, comment) := TweetCounters(detail, QuotedFallback);
          if main.repost then
            Ok(Some(QuotedTweetInfo(None, tweetId, like, transfer, comment, None, None, None)))
          else
            match CommentTimeSource(main.ct)
            case None =>
              Ok(Some(QuotedTweetInfo(Some(main.content), tweetId, like, transfer, comment, None, None, Some(user))))
            case Some((time, source)) =>
              var stamp :- GetTime(time, now);
              Ok(Some(QuotedTweetInfo(Some(main.content), tweetId, like, transfer, comment, Some(stamp), source, Some(user))))
  }

  /** The page has a main tweet, and that tweet has a user link. */
  predicate HasAuthorLink(page: CommentPage)
  {
    page.main.Some? && page.main.value.userHref.Some?
  }

  /** The id behind the main tweet's user link. */
  function AuthorId(page: CommentPage, site: Site): Result<UserRef>
    requires HasAuthorLink(page)
  {
    var href := page.main.value.userHref.value;
    LinkUserId(href, site.infoLinks(Host + href))
  }

  /** A quoted tweet with no counter in its counters line has zeros, where a timeline
      tweet in the same case has -1. */
  lemma QuotedCountersDefaultToZero(page: CommentPage, site: Site, tweetId: string, now: DateTime)
    requires Clock.Valid(now)
    requires QuotedTweetRecord(page, site, tweetId, now).Ok? && QuotedTweetRecord(page, site, tweetId, now).value.Some?
    requires !Contains(RemoveChar(page.details[0], '\U{00A0}'), "[")
    ensures var rec := QuotedTweetRecord(page, site, tweetId, now).value.value;
      rec.like == Fallback(0) && rec.transfer == Fallback(0) && rec.comment == Fallback(0)
  {
    var d := RemoveChar(page.details[0], '\U{00A0}');
    NoBracketNoCounter(d, LikeLabel);
    NoBracketNoCounter(d, TransferLabel);
    NoBracketNoCounter(d, CommentLabel);
    CounterAbsent(d, LikeLabel, QuotedFallback);
    CounterAbsent(d, TransferLabel, QuotedFallback);
    CounterAbsent(d, CommentLabel, QuotedFallback);
  }

  /** A text without '[' holds no `name[`. */
  lemma NoBracketNoCounter(s: string, name: string)
    requires !Contains(s, "[")
    ensures !Contains(s, name + "[")
  {
    forall i | 0 <= i <= |s| ensures !OccursAt(s, name + "[", i) {
      BracketAfterName(s, name, i);
    }
  }

  /** An occurrence of `name[` at `i` has its '[' at `i + |name|`. */
  lemma BracketAfterName(s: string, name: string, i: nat)
    ensures OccursAt(s, name + "[", i) ==> OccursAt(s, "[", i + |name|)
  {
    if OccursAt(s, name + "[", i) {
      var k := i + |name|;
      assert s[k] == s[i..k + 1][|name|] == (name + "[")[|name|] == '[';
      assert s[k..k + 1] == [s[k]];
    }
  }
}
