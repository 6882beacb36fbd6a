/** The jobs the crawler pushes to its Redis queues and the URLs they carry: the
    follow-up page jobs of a paginated listing, the filter `crawl_weibo` applies to a
    tweet job before fetching it, and the URL `grab_follow` fetches for a job. */
module Jobs {
  import opened Base
  import opened Text
  import opened Fields

  /** The paginated kinds of `JobType`. */
  datatype Kind = Follower | Tweet | Comment

  /** A job of a paginated kind: its `url`, and the `uid` (follower and tweet jobs) or
      `tweetId` (comment jobs) it carries. */
  datatype PageJob = PageJob(url: string, key: string)

  /** `follow_url % uid`. */
  function FollowUrl(uid: string): string
  {
    Host + "/" + uid + "/follow"
  }

  /** The first page of a listing: `follow_url`, `user_tweet_url` or `tweet_comment_url`
      filled with the key. */
  function FirstPageUrl(kind: Kind, key: string): string
  {
    match kind
    case Follower => FollowUrl(key)
    case Tweet => Host + "/" + key
    case Comment => Host + "/comment/" + key
  }

  /** Page `page` of a listing: the first page's URL with `?page=` and the number. */
  function PageUrl(kind: Kind, key: string, page: nat): string
  {
    FirstPageUrl(kind, key) + "?page=" + NatToString(page)
  }

  /** `'page=' not in url`: only a job for a first page expands into follow-up jobs. */
  predicate Expands(url: string)
  {
    !Contains(url, "page=")
  }

  /** The jobs `for page in range(2, m + 1)` pushes, in that order. */
  function PageJobs(kind: Kind, key: string, m: int): (r: seq<PageJob>)
    ensures |r| == if m < 2 then 0 else m - 1
    ensures forall i :: 0 <= i < |r| ==> r[i] == PageJob(PageUrl(kind, key, i + 2), key)
    decreases m
  {
    if m < 2 then [] else PageJobs(kind, key, m - 1) + [PageJob(PageUrl(kind, key, m), key)]
  }

  /** Every page URL holds `page=`. */
  lemma PageUrlHasPage(kind: Kind, key: string, page: nat)
    ensures !Expands(PageUrl(kind, key, page))
  {
    var first := FirstPageUrl(kind, key);
    var u := PageUrl(kind, key, page);
    assert u[|first| + 1..|first| + 6] == "page=";
    assert OccursAt(u, "page=", |first| + 1);
  }

  /** A follow-up job never expands again. */
  lemma NoReExpansion(kind: Kind, key: string, m: int)
    ensures forall job :: job in PageJobs(kind, key, m) ==> !Expands(job.url)
  {
    var r := PageJobs(kind, key, m);
    forall job | job in r ensures !Expands(job.url) {
      var i :| 0 <= i < |r| && r[i] == job;
      PageUrlHasPage(kind, key, i + 2);
    }
  }

  /** Different pages of one listing have different URLs. */
  lemma PageUrlInjective(kind: Kind, key: string, p: nat, q: nat)
    requires PageUrl(kind, key, p) == PageUrl(kind, key, q)
    ensures p == q
  {
    var head := FirstPageUrl(kind, key) + "?page=";
    assert PageUrl(kind, key, p)[|head|..] == NatToString(p);
    assert PageUrl(kind, key, q)[|head|..] == NatToString(q);
    NatToStringInjective(p, q);
  }

  /** The follow-up jobs of one listing are all different and carry its key: one job
      per page 2..m, in ascending page order. */
  lemma PageJobsDistinct(kind: Kind, key: string, m: int)
    ensures var r := PageJobs(kind, key, m);
      forall i, j :: 0 <= i < j < |r| ==> r[i].url != r[j].url
    ensures forall job :: job in PageJobs(kind, key, m) ==> job.key == key
  {
    var r := PageJobs(kind, key, m);
    forall i, j | 0 <= i < j < |r| ensures r[i].url != r[j].url {
      if r[i].url == r[j].url {
        PageUrlInjective(kind, key, i + 2, j + 2);
      }
    }
  }

  /** `weibo_limit` caps a tweet listing at this many pages. */
  const TweetPageCap: int := 500

  /** The last page of a tweet listing to push: the `pagelist` value, capped at 500 when
      `weibo_limit` is set. */
  function TweetMaxPage(value: int, limit: bool): (m: int)
    ensures limit ==> m <= TweetPageCap
    ensures m <= value
  {
    if limit then (if value < TweetPageCap then value else TweetPageCap) else value
  }

  /** With the cap on, a tweet listing yields at most 499 follow-up jobs, one for each
      page from 2 to the smaller of the `pagelist` value and 500. */
  lemma TweetPagesCapped(uid: string, value: int)
    ensures var r := PageJobs(Tweet, uid, TweetMaxPage(value, true));
      && |r| == (if value < 2 then 0 else if value < TweetPageCap then value - 1 else TweetPageCap - 1)
      && forall i :: 0 <= i < |r| ==> r[i].url == PageUrl(Tweet, uid, i + 2) && i + 2 <= TweetPageCap
  {
  }

  // ---- the filter of `crawl_weibo` ----------------------------------------------------

  /** Tweet jobs for pages beyond this one are dropped. */
  const PageSkipAbove: int := 200

  /** The pattern `https://weibo.cn/(\d*)\?page=(\d*)` at position `i` (its `.` is any
      character but a newline): the page digits. */
  function TweetPageAt(s: string, i: nat): (r: Option<string>)
    ensures r.Some? ==> AllDigits(r.value) && Contains(s, "?page=")
  {
    if i + 17 <= |s| && s[i..i + 13] == "https://weibo" && s[i + 13] != '\n' && s[i + 14..i + 17] == "cn/" then
      var k1 := DigitRunEnd(s, i + 17);
      if OccursAt(s, "?page=", k1) then
        var k2 := DigitRunEnd(s, k1 + 6);
        Some(s[k1 + 6..k2])
      else None
    else None
  }

  /** Whether `crawl_weibo` fetches a tweet job: skipped (false) when the URL's first
      match of the page pattern names a page above 200; ValueError when that match has
      no page digits, since `int('')` sits outside the `try`. */
  function TweetAdmission(url: string): (r: Result<bool>)
    ensures r.Err? ==> r.error == ValueError
    ensures !Contains(url, "?page=") ==> r == Ok(true)
  {
    match FirstMatch(url, TweetPageAt, 0)
    case None => Ok(true)
    case Some((_, d)) =>
      var n :- ParseDigits(d);
      Ok(n <= PageSkipAbove)
  }

  /** The page pattern at 0, read off where each part of the URL ends. */
  lemma TweetPageAtParts(s: string, uid: string, d: string)
    requires AllDigits(uid) && AllDigits(d)
    requires |s| == 23 + |uid| + |d|
    requires s[0..13] == "https://weibo" && s[13] == '.' && s[14..17] == "cn/"
    requires s[17..17 + |uid|] == uid && s[17 + |uid|..23 + |uid|] == "?page=" && s[23 + |uid|..] == d
    ensures TweetPageAt(s, 0) == Some(d)
  {
    var k1 := 17 + |uid|;
    assert s[k1] == s[k1..k1 + 6][0];
    DigitRunOf(s, 17, uid);
    assert s[k1 + 6..k1 + 6 + |d|] == d;
    DigitRunOf(s, k1 + 6, d);
  }

  lemma TweetPageUrlParts(uid: string, page: nat)
    ensures var s := PageUrl(Tweet, uid, page); var d := NatToString(page);
      && |s| == 23 + |uid| + |d|
      && s[0..13] == "https://weibo" && s[13] == '.' && s[14..17] == "cn/"
      && s[17..17 + |uid|] == uid && s[17 + |uid|..23 + |uid|] == "?page=" && s[23 + |uid|..] == d
  {
    var s := PageUrl(Tweet, uid, page);
    assert s == "https://weibo.cn/" + uid + "?page=" + NatToString(page);
  }

  /** A tweet page job of a numeric uid is fetched exactly when its page is at most 200. */
  lemma TweetAdmissionOfPage(uid: string, page: nat)
    requires AllDigits(uid)
    ensures TweetAdmission(PageUrl(Tweet, uid, page)) == Ok(page <= PageSkipAbove)
  {
    var s := PageUrl(Tweet, uid, page);
    TweetPageUrlParts(uid, page);
    TweetPageAtParts(s, uid, NatToString(page));
    FirstMatchAtStart(s, TweetPageAt);
    NatToStringValue(page);
  }

  /** Of the follow-up jobs of a numeric uid's tweet listing, `crawl_weibo` fetches those
      for pages 2..200 and skips the rest. */
  lemma TweetPagesAdmitted(uid: string, value: int, limit: bool)
    requires AllDigits(uid)
    ensures var r := PageJobs(Tweet, uid, TweetMaxPage(value, limit));
      forall i :: 0 <= i < |r| ==> TweetAdmission(r[i].url) == Ok(i + 2 <= PageSkipAbove)
  {
    var r := PageJobs(Tweet, uid, TweetMaxPage(value, limit));
    forall i | 0 <= i < |r| ensures TweetAdmission(r[i].url) == Ok(i + 2 <= PageSkipAbove) {
      TweetJobAdmission(r[i], uid, i + 2);
    }
  }

  lemma TweetJobAdmission(job: PageJob, uid: string, page: nat)
    requires AllDigits(uid) && job.url == PageUrl(Tweet, uid, page)
    ensures TweetAdmission(job.url) == Ok(page <= PageSkipAbove)
  {
    TweetAdmissionOfPage(uid, page);
  }

  // ---- the URL `grab_follow` fetches -----------------------------------------------------

  /** As the source writes it: `follow_url % uid`, the first page, whatever the job. */
  function FollowFetchUrlAsWritten(job: PageJob): string
  {
    FollowUrl(job.key)
  }

  /** As intended: the job's own URL, so that a follow-up job reads its own page. */
  function FollowFetchUrl(job: PageJob): string
  {
    job.url
  }

  /** As written, every follow-up job of a follower listing fetches the first page again
      instead of its own: pages 2..m are never read. */
  lemma FollowPagesRefetchFirst(uid: string, m: int)
    ensures forall job :: job in PageJobs(Follower, uid, m) ==>
      FollowFetchUrlAsWritten(job) == FollowUrl(uid) && FollowFetchUrlAsWritten(job) != job.url
  {
    forall job | job in PageJobs(Follower, uid, m)
      ensures FollowFetchUrlAsWritten(job) == FollowUrl(uid) && FollowFetchUrlAsWritten(job) != job.url
    {
      assert |job.url| > |FollowUrl(uid)|;
    }
  }

  /** As intended, the follow-up jobs fetch pairwise different pages, none of them the
      first page. */
  lemma FollowPagesFetchOwn(uid: string, m: int)
    ensures var r := PageJobs(Follower, uid, m);
      && (forall i, j :: 0 <= i < j < |r| ==> FollowFetchUrl(r[i]) != FollowFetchUrl(r[j]))
      && (forall i :: 0 <= i < |r| ==> FollowFetchUrl(r[i]) == PageUrl(Follower, uid, i + 2) != FollowUrl(uid))
  {
    PageJobsDistinct(Follower, uid, m);
    var r := PageJobs(Follower, uid, m);
    forall i, j | 0 <= i < j < |r| ensures FollowFetchUrl(r[i]) != FollowFetchUrl(r[j]) {
    }
    forall i | 0 <= i < |r| ensures FollowFetchUrl(r[i]) == PageUrl(Follower, uid, i + 2) != FollowUrl(uid) {
      FollowJobFetchesOwn(r[i], uid, i + 2);
    }
  }

  lemma FollowJobFetchesOwn(job: PageJob, uid: string, page: nat)
    requires job == PageJob(PageUrl(Follower, uid, page), uid)
    ensures FollowFetchUrl(job) == PageUrl(Follower, uid, page) != FollowUrl(uid)
  {
    assert |PageUrl(Follower, uid, page)| > |FollowUrl(uid)|;
  }
}
