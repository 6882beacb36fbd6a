/** `WeiboCnSpider` itself: the bloom filter of user ids already queued, the Redis job
    queues it pushes to, the Kafka topic it sends records to, and the `grab_*` steps
    that fill them from a fetched page. The pure functions here specify what one grab
    does; the class carries them out one row, tweet or comment at a time. */
module Spider {
  import opened Base
  import opened Text
  import opened Clock
  import opened Timestamps
  import opened Fields
  import opened Jobs
  import opened Records

  /** What the grabs change besides the page queues: the ids in the bloom filter, the
      user jobs pushed (each the `{'user_id': id}` of one id), the records sent. */
  datatype Effects = Effects(seen: set<string>, users: seq<string>, sent: seq<Record>)

  /** The effects of a grab and the exception that ended it early, if any. */
  datatype Outcome = Outcome(effects: Effects, error: Option<PyError>)

  predicate Distinct(xs: seq<string>)
  {
    forall i, j :: 0 <= i < j < |xs| ==> xs[i] != xs[j]
  }

  /** The filter holds exactly the ids pushed, and no id was pushed twice. */
  ghost predicate Consistent(e: Effects)
  {
    && Distinct(e.users)
    && forall u :: u in e.seen <==> u in e.users
  }

  // ---- user_id_in_queue ---------------------------------------------------------------

  /** `user_id_in_queue`: a truthy id not yet in the filter is added to it and queued;
      anything else changes nothing. */
  function Gate(e: Effects, u: UserRef): Effects
  {
    if Truthy(u) && u.text !in e.seen then e.(seen := e.seen + {u.text}, users := e.users + [u.text]) else e
  }

  /** The filter and the user queue stay in step. */
  lemma GateKeepsConsistent(e: Effects, u: UserRef)
    requires Consistent(e)
    ensures Consistent(Gate(e, u))
  {
    var g := Gate(e, u);
    if Truthy(u) && u.text !in e.seen {
      forall i, j | 0 <= i < j < |g.users| ensures g.users[i] != g.users[j] {
        if j == |e.users| {
          assert g.users[i] == e.users[i];
          assert e.users[i] in e.users;
        }
      }
    }
  }

  /** The four outcomes: a falsy id or one already seen changes nothing; a new truthy id
      is added to the filter and queued once; afterwards a truthy id is always seen. */
  lemma GateOutcomes(e: Effects, u: UserRef)
    requires Consistent(e)
    ensures !Truthy(u) ==> Gate(e, u) == e
    ensures Truthy(u) && u.text in e.seen ==> Gate(e, u) == e
    ensures Truthy(u) && u.text !in e.seen ==> Gate(e, u).users == e.users + [u.text] && u.text !in e.users
    ensures Truthy(u) ==> u.text in Gate(e, u).seen && u.text in Gate(e, u).users
    ensures Gate(e, u).sent == e.sent && e.seen <= Gate(e, u).seen
  {
  }

  /** Calling `user_id_in_queue` twice with the same id pushes it once. */
  lemma GateTwice(e: Effects, u: UserRef)
    ensures Gate(Gate(e, u), u) == Gate(e, u)
  {
  }

  // ---- grab_follow ----------------------------------------------------------------------

  /** One member row: resolve its id (which can raise), then queue it unless the row
      carries a marker image. */
  function FollowStep(e: Effects, row: FollowRow, site: Site): Outcome
  {
    match MemberId(row, site)
    case Err(x) => Outcome(e, Some(x))
    case Ok(u) => Outcome(if Exempt(row) then e else Gate(e, u), None)
  }

  /** The member rows in order; the first exception ends the loop. */
  function FollowRows(e: Effects, rows: seq<FollowRow>, site: Site): Outcome
    decreases |rows|
  {
    if |rows| == 0 then Outcome(e, None)
    else
      var o := FollowRows(e, rows[..|rows| - 1], site);
      if o.error.Some? then o else FollowStep(o.effects, rows[|rows| - 1], site)
  }

  /** Once a row has raised, the later rows change nothing. */
  lemma {:induction false} FollowRowsStop(e: Effects, rows: seq<FollowRow>, site: Site, k: nat)
    requires k <= |rows| && FollowRows(e, rows[..k], site).error.Some?
    ensures FollowRows(e, rows, site) == FollowRows(e, rows[..k], site)
    decreases |rows| - k
  {
    if k < |rows| {
      assert rows[..k + 1][..k] == rows[..k];
      FollowRowsStop(e, rows, site, k + 1);
    } else {
      assert rows[..k] == rows;
    }
  }

  /** The ids of the rows without a marker image whose id resolves and is truthy. */
  ghost function Members(rows: seq<FollowRow>, site: Site): set<string>
    decreases |rows|
  {
    if |rows| == 0 then {}
    else
      var row := rows[|rows| - 1];
      var id := MemberId(row, site);
      Members(rows[..|rows| - 1], site) + if !Exempt(row) && id.Ok? && Truthy(id.value) then {id.value.text} else {}
  }

  /** Each of those ids is the resolved, non-empty id of some row without a marker image. */
  lemma {:induction false} MembersAreRows(rows: seq<FollowRow>, site: Site, x: string)
    requires x in Members(rows, site)
    ensures x != "" && exists i :: 0 <= i < |rows| && !Exempt(rows[i]) && MemberId(rows[i], site) == Ok(Id(x))
    decreases |rows|
  {
    var front := rows[..|rows| - 1];
    if x in Members(front, site) {
      MembersAreRows(front, site, x);
      var i :| 0 <= i < |front| && !Exempt(front[i]) && MemberId(front[i], site) == Ok(Id(x));
      assert rows[i] == front[i];
    } else {
      assert !Exempt(rows[|rows| - 1]) && MemberId(rows[|rows| - 1], site) == Ok(Id(x));
    }
  }

  /** The member rows keep the filter and queue in step, send nothing, and only append
      to the user queue, and only ids of rows without a marker image. */
  lemma {:induction false} FollowRowsPushes(e: Effects, rows: seq<FollowRow>, site: Site)
    requires Consistent(e)
    ensures var o := FollowRows(e, rows, site);
      && Consistent(o.effects) && o.effects.sent == e.sent
      && |e.users| <= |o.effects.users| && o.effects.users[..|e.users|] == e.users
      && forall k :: |e.users| <= k < |o.effects.users| ==> o.effects.users[k] in Members(rows, site)
    decreases |rows|
  {
    if |rows| > 0 {
      var front := rows[..|rows| - 1];
      var row := rows[|rows| - 1];
      FollowRowsPushes(e, front, site);
      var o := FollowRows(e, front, site);
      if o.error.None? && MemberId(row, site).Ok? && !Exempt(row) {
        GateKeepsConsistent(o.effects, MemberId(row, site).value);
        assert Gate(o.effects, MemberId(row, site).value).users[..|o.effects.users|] == o.effects.users;
      }
    }
  }

  /** When no row raises, every row resolves, and every row without a marker image has
      its truthy id in the filter afterwards. */
  lemma {:induction false} FollowRowsGateAll(e: Effects, rows: seq<FollowRow>, site: Site)
    requires FollowRows(e, rows, site).error.None?
    ensures forall i :: 0 <= i < |rows| ==> MemberId(rows[i], site).Ok?
    ensures forall i :: 0 <= i < |rows| && !Exempt(rows[i]) && Truthy(MemberId(rows[i], site).value) ==>
      MemberId(rows[i], site).value.text in FollowRows(e, rows, site).effects.seen
    ensures e.seen <= FollowRows(e, rows, site).effects.seen
    decreases |rows|
  {
    if |rows| > 0 {
      var front := rows[..|rows| - 1];
      var o := FollowRows(e, front, site);
      assert o.error.None?;
      FollowRowsGateAll(e, front, site);
      forall i | 0 <= i < |rows| ensures MemberId(rows[i], site).Ok? {
        if i < |front| { assert rows[i] == front[i]; }
      }
      forall i | 0 <= i < |rows| && !Exempt(rows[i]) && Truthy(MemberId(rows[i], site).value)
        ensures MemberId(rows[i], site).value.text in FollowRows(e, rows, site).effects.seen
      {
        if i < |front| { assert rows[i] == front[i]; }
      }
    }
  }

  // ---- grab_user_tweet ------------------------------------------------------------------

  /** Send the records in order; the first exception ends the loop. */
  function SendAll(e: Effects, rs: seq<Result<Record>>): Outcome
    decreases |rs|
  {
    if |rs| == 0 then Outcome(e, None)
    else
      var o := SendAll(e, rs[..|rs| - 1]);
      if o.error.Some? then o
      else match rs[|rs| - 1]
        case Err(x) => Outcome(o.effects, Some(x))
        case Ok(m) => Outcome(o.effects.(sent := o.effects.sent + [m]), None)
  }

  lemma {:induction false} SendAllStop(e: Effects, rs: seq<Result<Record>>, k: nat)
    requires k <= |rs| && SendAll(e, rs[..k]).error.Some?
    ensures SendAll(e, rs) == SendAll(e, rs[..k])
    decreases |rs| - k
  {
    if k < |rs| {
      assert rs[..k + 1][..k] == rs[..k];
      SendAllStop(e, rs, k + 1);
    } else {
      assert rs[..k] == rs;
    }
  }

  /** Sending queues no user and appends, in order, the records before the first
      exception; it ends without an exception exactly when there is none, and then every
      record was sent. */
  lemma {:induction false} SendAllSends(e: Effects, rs: seq<Result<Record>>)
    ensures var o := SendAll(e, rs);
      && o.effects.seen == e.seen && o.effects.users == e.users
      && |e.sent| <= |o.effects.sent| <= |e.sent| + |rs| && o.effects.sent[..|e.sent|] == e.sent
      && (forall k :: |e.sent| <= k < |o.effects.sent| ==> rs[k - |e.sent|] == Ok(o.effects.sent[k]))
      && (o.error.None? <==> forall i :: 0 <= i < |rs| ==> rs[i].Ok?)
      && (o.error.None? ==> |o.effects.sent| == |e.sent| + |rs|)
    decreases |rs|
  {
    if |rs| > 0 {
      var front := rs[..|rs| - 1];
      SendAllSends(e, front);
      var o := SendAll(e, front);
      assert forall i :: 0 <= i < |front| ==> rs[i] == front[i];
      if o.error.None? && rs[|rs| - 1].Ok? {
        assert (o.effects.sent + [rs[|rs| - 1].value])[..|e.sent|] == o.effects.sent[..|e.sent|];
      }
      if o.error.Some? {
        var i :| 0 <= i < |front| && !front[i].Ok?;
        assert !rs[i].Ok?;
      }
    }
  }

  /** Sending that raises stops at a failing record. */
  lemma {:induction false} SendAllFailsAt(e: Effects, rs: seq<Result<Record>>)
    ensures var o := SendAll(e, rs);
      o.error.Some? ==> |e.sent| <= |o.effects.sent| < |e.sent| + |rs| && rs[|o.effects.sent| - |e.sent|].Err?
    decreases |rs|
  {
    if |rs| > 0 {
      var front := rs[..|rs| - 1];
      SendAllFailsAt(e, front);
      SendAllSends(e, front);
    }
  }

  /** The message of one timeline tweet, or the exception building it raises. */
  function TweetResult(div: TweetDiv, uid: string, now: DateTime): Result<Record>
    requires Clock.Valid(now)
  {
    var t :- TweetRecord(div, uid, now);
    Ok(TweetMsg(t))
  }

  /** The results of the page's tweets, in page order. */
  function TweetResults(divs: seq<TweetDiv>, uid: string, now: DateTime): (r: seq<Result<Record>>)
    requires Clock.Valid(now)
  {
    seq(|divs|, i requires 0 <= i < |divs| => TweetResult(divs[i], uid, now))
  }

  /** A timeline page sends the record of each tweet before the first whose time cannot
      be converted. */
  function TweetDivs(e: Effects, divs: seq<TweetDiv>, uid: string, now: DateTime): Outcome
    requires Clock.Valid(now)
  {
    SendAll(e, TweetResults(divs, uid, now))
  }

  /** A timeline page queues no user and sends, in page order, the record of each tweet
      before the first whose time cannot be converted, and without an exception every
      tweet was sent. */
  lemma TweetDivsSends(e: Effects, divs: seq<TweetDiv>, uid: string, now: DateTime)
    requires Clock.Valid(now)
    ensures var o := TweetDivs(e, divs, uid, now); var n := |o.effects.sent| - |e.sent|;
      && o.effects.seen == e.seen && o.effects.users == e.users
      && 0 <= n <= |divs| && o.effects.sent[..|e.sent|] == e.sent
      && (forall k :: 0 <= k < n ==>
            TweetRecord(divs[k], uid, now).Ok?
            && o.effects.sent[|e.sent| + k] == TweetMsg(TweetRecord(divs[k], uid, now).value))
      && (o.error.None? <==> n == |divs|)
      && (o.error.Some? ==> n < |divs| && TweetRecord(divs[n], uid, now).Err?)
  {
    SendAllSends(e, TweetResults(divs, uid, now));
    TweetDivsSent(e, divs, uid, now);
    TweetDivsFail(e, divs, uid, now);
  }

  /** The messages a timeline page sends are its first tweets' records. */
  lemma TweetDivsSent(e: Effects, divs: seq<TweetDiv>, uid: string, now: DateTime)
    requires Clock.Valid(now)
    ensures var o := TweetDivs(e, divs, uid, now); var n := |o.effects.sent| - |e.sent|;
      n <= |divs| && forall k :: 0 <= k < n ==>
        TweetRecord(divs[k], uid, now).Ok?
        && o.effects.sent[|e.sent| + k] == TweetMsg(TweetRecord(divs[k], uid, now).value)
  {
    var rs := TweetResults(divs, uid, now);
    SendAllSends(e, rs);
    var o := SendAll(e, rs);
    forall k | 0 <= k < |o.effects.sent| - |e.sent|
      ensures TweetRecord(divs[k], uid, now).Ok?
      ensures o.effects.sent[|e.sent| + k] == TweetMsg(TweetRecord(divs[k], uid, now).value)
    {
      TweetSentAt(divs, uid, now, k, o.effects.sent[|e.sent| + k]);
    }
  }

  /** A timeline page that raises stops at a tweet whose record fails. */
  lemma TweetDivsFail(e: Effects, divs: seq<TweetDiv>, uid: string, now: DateTime)
    requires Clock.Valid(now)
    ensures var o := TweetDivs(e, divs, uid, now); var n := |o.effects.sent| - |e.sent|;
      o.error.Some? ==> 0 <= n < |divs| && TweetRecord(divs[n], uid, now).Err?
  {
    var rs := TweetResults(divs, uid, now);
    SendAllFailsAt(e, rs);
    var o := SendAll(e, rs);
    if o.error.Some? {
      TweetFailedAt(divs, uid, now, |o.effects.sent| - |e.sent|);
    }
  }

  /** A tweet whose message was built: its record exists, and the message is that record. */
  lemma TweetSentAt(divs: seq<TweetDiv>, uid: string, now: DateTime, k: nat, m: Record)
    requires Clock.Valid(now) && k < |divs| && TweetResults(divs, uid, now)[k] == Ok(m)
    ensures TweetRecord(divs[k], uid, now).Ok? && m == TweetMsg(TweetRecord(divs[k], uid, now).value)
  {
    assert TweetResults(divs, uid, now)[k] == TweetResult(divs[k], uid, now);
  }

  /** A tweet whose message failed: its record failed. */
  lemma TweetFailedAt(divs: seq<TweetDiv>, uid: string, now: DateTime, k: nat)
    requires Clock.Valid(now) && k < |divs| && TweetResults(divs, uid, now)[k].Err?
    ensures TweetRecord(divs[k], uid, now).Err?
  {
    assert TweetResults(divs, uid, now)[k] == TweetResult(divs[k], uid, now);
  }

  // ---- grab_tweet_comments ------------------------------------------------------------

  /** One comment: without a user link nothing happens; else resolve the author's id
      (which can raise), queue it, then build and send the record (which can raise
      after the id was queued). */
  function CommentStep(e: Effects, div: CommentDiv, site: Site, tweetId: string, now: DateTime): Outcome
    requires Clock.Valid(now)
  {
    match div.userHref
    case None => Outcome(e, None)
    case Some(href) =>
      match LinkUserId(href, site.infoLinks(Host + href))
      case Err(x) => Outcome(e, Some(x))
      case Ok(u) =>
        var g := Gate(e, u);
        match CommentRecord(div, u, tweetId, now)
        case Err(x) => Outcome(g, Some(x))
        case Ok(c) => Outcome(g.(sent := g.sent + [CommentMsg(c)]), None)
  }

  /** The comment `div`s in order; the first exception ends the loop. */
  function CommentDivs(e: Effects, divs: seq<CommentDiv>, site: Site, tweetId: string, now: DateTime): Outcome
    requires Clock.Valid(now)
    decreases |divs|
  {
    if |divs| == 0 then Outcome(e, None)
    else
      var o := CommentDivs(e, divs[..|divs| - 1], site, tweetId, now);
      if o.error.Some? then o else CommentStep(o.effects, divs[|divs| - 1], site, tweetId, now)
  }

  lemma {:induction false} CommentDivsStop(e: Effects, divs: seq<CommentDiv>, site: Site, tweetId: string, now: DateTime, k: nat)
    requires Clock.Valid(now)
    requires k <= |divs| && CommentDivs(e, divs[..k], site, tweetId, now).error.Some?
    ensures CommentDivs(e, divs, site, tweetId, now) == CommentDivs(e, divs[..k], site, tweetId, now)
    decreases |divs| - k
  {
    if k < |divs| {
      assert divs[..k + 1][..k] == divs[..k];
      CommentDivsStop(e, divs, site, tweetId, now, k + 1);
    } else {
      assert divs[..k] == divs;
    }
  }

  /** The number of comments that have a user link. */
  function Linked(divs: seq<CommentDiv>): nat
    decreases |divs|
  {
    if |divs| == 0 then 0
    else Linked(divs[..|divs| - 1]) + if divs[|divs| - 1].userHref.Some? then 1 else 0
  }

  /** The comments keep the filter and queue in step; every record sent is a comment of
      this tweet whose author, when truthy, is in the filter; and without an exception
      exactly the comments with a user link are sent. */
  lemma {:induction false} CommentDivsSend(e: Effects, divs: seq<CommentDiv>, site: Site, tweetId: string, now: DateTime)
    requires Clock.Valid(now) && Consistent(e)
    ensures var o := CommentDivs(e, divs, site, tweetId, now);
      && Consistent(o.effects) && e.seen <= o.effects.seen
      && |e.sent| <= |o.effects.sent| && o.effects.sent[..|e.sent|] == e.sent
      && (forall k :: |e.sent| <= k < |o.effects.sent| ==>
            && o.effects.sent[k].CommentMsg? && o.effects.sent[k].info.tweetId == tweetId
            && (Truthy(o.effects.sent[k].info.userId) ==> o.effects.sent[k].info.userId.text in o.effects.seen))
      && (o.error.None? ==> |o.effects.sent| == |e.sent| + Linked(divs))
    decreases |divs|
  {
    if |divs| > 0 {
      var front := divs[..|divs| - 1];
      CommentDivsSend(e, front, site, tweetId, now);
      var o := CommentDivs(e, front, site, tweetId, now);
      var div := divs[|divs| - 1];
      if o.error.None? && div.userHref.Some? {
        var href := div.userHref.value;
        var id := LinkUserId(href, site.infoLinks(Host + href));
        if id.Ok? {
          GateKeepsConsistent(o.effects, id.value);
        }
      }
    }
  }

  /** What one comment sends when its author's id and its record both resolve: its
      message; nothing when it has no user link or either step raises. */
  function CommentMsgOf(div: CommentDiv, site: Site, tweetId: string, now: DateTime): (r: seq<Record>)
    requires Clock.Valid(now)
    ensures |r| <= 1
  {
    match div.userHref
    case None => []
    case Some(href) =>
      match LinkUserId(href, site.infoLinks(Host + href))
      case Err(_) => []
      case Ok(u) =>
        match CommentRecord(div, u, tweetId, now)
        case Err(_) => []
        case Ok(c) => [CommentMsg(c)]
  }

  /** The messages of the comments, in page order. */
  function CommentMsgs(divs: seq<CommentDiv>, site: Site, tweetId: string, now: DateTime): seq<Record>
    requires Clock.Valid(now)
    decreases |divs|
  {
    if |divs| == 0 then []
    else CommentMsgs(divs[..|divs| - 1], site, tweetId, now) + CommentMsgOf(divs[|divs| - 1], site, tweetId, now)
  }

  /** The truthy ids of the comments' authors that resolve. */
  ghost function Commenters(divs: seq<CommentDiv>, site: Site): set<string>
    decreases |divs|
  {
    if |divs| == 0 then {}
    else
      var div := divs[|divs| - 1];
      Commenters(divs[..|divs| - 1], site)
        + if div.userHref.Some? && LinkUserId(div.userHref.value, site.infoLinks(Host + div.userHref.value)).Ok?
             && Truthy(LinkUserId(div.userHref.value, site.infoLinks(Host + div.userHref.value)).value)
          then {LinkUserId(div.userHref.value, site.infoLinks(Host + div.userHref.value)).value.text} else {}
  }

  /** The comments only append to the user queue, and only their authors' ids; without
      an exception they send exactly the comments' messages, in page order. */
  lemma {:induction false} CommentDivsRecords(e: Effects, divs: seq<CommentDiv>, site: Site, tweetId: string, now: DateTime)
    requires Clock.Valid(now)
    ensures var o := CommentDivs(e, divs, site, tweetId, now);
      && |e.users| <= |o.effects.users| && o.effects.users[..|e.users|] == e.users
      && (forall k :: |e.users| <= k < |o.effects.users| ==> o.effects.users[k] in Commenters(divs, site))
      && (o.error.None? ==> o.effects.sent == e.sent + CommentMsgs(divs, site, tweetId, now))
    decreases |divs|
  {
    if |divs| > 0 {
      var front := divs[..|divs| - 1];
      var div := divs[|divs| - 1];
      CommentDivsRecords(e, front, site, tweetId, now);
      var o := CommentDivs(e, front, site, tweetId, now);
      if o.error.None? && div.userHref.Some? {
        var href := div.userHref.value;
        var id := LinkUserId(href, site.infoLinks(Host + href));
        if id.Ok? {
          var g := Gate(o.effects, id.value);
          assert g.users[..|o.effects.users|] == o.effects.users;
          assert g.users[..|e.users|] == e.users;
          var rec := CommentRecord(div, id.value, tweetId, now);
          if rec.Ok? {
            assert e.sent + CommentMsgs(divs, site, tweetId, now)
                == (e.sent + CommentMsgs(front, site, tweetId, now)) + [CommentMsg(rec.value)];
          }
        }
      }
    }
  }

  /** The main tweet's record, sent after the comments of a first page. */
  function QuotedStep(e: Effects, page: CommentPage, site: Site, tweetId: string, now: DateTime): Outcome
    requires Clock.Valid(now)
  {
    match QuotedTweetRecord(page, site, tweetId, now)
    case Err(x) => Outcome(e, Some(x))
    case Ok(None) => Outcome(e, None)
    case Ok(Some(q)) => Outcome(e.(sent := e.sent + [QuotedMsg(q)]), None)
  }

  /** Everything one comment page does besides paging: its comments, then, on a first
      page reached without an exception, its main tweet. */
  function CommentPageEffects(e: Effects, page: CommentPage, site: Site, job: PageJob, now: DateTime): Outcome
    requires Clock.Valid(now)
  {
    var o := CommentDivs(e, page.comments, site, job.key, now);
    if o.error.None? && Expands(job.url) then QuotedStep(o.effects, page, site, job.key, now) else o
  }

  // ---- the crawler ----------------------------------------------------------------------

  class WeiboCnSpider {
    /** The bloom filter of user ids already queued (exact: it never forgets an id). */
    var seen: set<string>
    /** The jobs pushed to each Redis queue by this process, oldest first. */
    var userJobs: seq<string>
    var followerJobs: seq<PageJob>
    var tweetJobs: seq<PageJob>
    var commentJobs: seq<PageJob>
    /** The records sent to Kafka, oldest first. */
    var sent: seq<Record>
    var weiboLimit: bool

    function State(): Effects
      reads this
    {
      Effects(seen, userJobs, sent)
    }

    function Queue(kind: Kind): seq<PageJob>
      reads this
    {
      match kind
      case Follower => followerJobs
      case Tweet => tweetJobs
      case Comment => commentJobs
    }

    ghost predicate Valid()
      reads this
    {
      Consistent(State())
    }

    constructor()
      ensures Valid() && weiboLimit
      ensures seen == {} && userJobs == [] && sent == []
      ensures followerJobs == [] && tweetJobs == [] && commentJobs == []
    {
      seen := {};
      userJobs := [];
      followerJobs := [];
      tweetJobs := [];
      commentJobs := [];
      sent := [];
      weiboLimit := true;
    }

    method UserIdInQueue(u: UserRef)
      requires Valid()
      modifies this
      ensures Valid() && State() == Gate(old(State()), u)
      ensures followerJobs == old(followerJobs) && tweetJobs == old(tweetJobs) && commentJobs == old(commentJobs)
      ensures weiboLimit == old(weiboLimit)
    {
      GateKeepsConsistent(State(), u);
      if Truthy(u) && u.text !in seen {
        seen := seen + {u.text};
        userJobs := userJobs + [u.text];
      }
    }

    /** `redis_job.push_job(kind, job)`. */
    method PushJob(kind: Kind, job: PageJob)
      modifies this
      ensures Queue(kind) == old(Queue(kind)) + [job]
      ensures kind != Follower ==> followerJobs == old(followerJobs)
      ensures kind != Tweet ==> tweetJobs == old(tweetJobs)
      ensures kind != Comment ==> commentJobs == old(commentJobs)
      ensures seen == old(seen) && userJobs == old(userJobs) && sent == old(sent) && weiboLimit == old(weiboLimit)
    {
      match kind {
        case Follower => followerJobs := followerJobs + [job];
        case Tweet => tweetJobs := tweetJobs + [job];
        case Comment => commentJobs := commentJobs + [job];
      }
    }

    /** `for page in range(2, m + 1)`: push the job of each page. */
    method PushPages(kind: Kind, key: string, m: int)
      modifies this
      ensures Queue(kind) == old(Queue(kind)) + PageJobs(kind, key, m)
      ensures kind != Follower ==> followerJobs == old(followerJobs)
      ensures kind != Tweet ==> tweetJobs == old(tweetJobs)
      ensures kind != Comment ==> commentJobs == old(commentJobs)
      ensures seen == old(seen) && userJobs == old(userJobs) && sent == old(sent) && weiboLimit == old(weiboLimit)
    {
      var page := 2;
      while page <= m
        invariant 2 <= page <= if m < 2 then 2 else m + 1
        invariant Queue(kind) == old(Queue(kind)) + PageJobs(kind, key, page - 1)
        invariant kind != Follower ==> followerJobs == old(followerJobs)
        invariant kind != Tweet ==> tweetJobs == old(tweetJobs)
        invariant kind != Comment ==> commentJobs == old(commentJobs)
        invariant seen == old(seen) && userJobs == old(userJobs) && sent == old(sent) && weiboLimit == old(weiboLimit)
      {
        PushJob(kind, PageJob(PageUrl(kind, key, page), key));
        page := page + 1;
      }
    }

    /** `grab_follow`, fetching the job's own URL: queue the id of each member row
        without a marker image, then, on a first page, push a job per further page. */
    method GrabFollow(job: PageJob, site: Site) returns (error: Option<PyError>)
      requires Valid()
      modifies this
      ensures Valid()
      ensures var page := site.follows(FollowFetchUrl(job));
        var o := FollowRows(old(State()), page.rows, site);
        && State() == o.effects && error == o.error
        && followerJobs == old(followerJobs)
             + (if error.None? && Expands(job.url) && page.pagelist.Some?
                then PageJobs(Follower, job.key, page.pagelist.value) else [])
      ensures tweetJobs == old(tweetJobs) && commentJobs == old(commentJobs) && weiboLimit == old(weiboLimit)
    {
      var page := site.follows(FollowFetchUrl(job));
      error := QueueMembers(page.rows, site);
      if error.None? && Expands(job.url) && page.pagelist.Some? {
        PushPages(Follower, job.key, page.pagelist.value);
      }
    }

    /** The loop of `grab_follow`: queue the id of each member row without a marker
        image, until resolving an id raises. */
    method QueueMembers(rows: seq<FollowRow>, site: Site) returns (error: Option<PyError>)
      requires Valid()
      modifies this
      ensures Valid()
      ensures State() == FollowRows(old(State()), rows, site).effects
      ensures error == FollowRows(old(State()), rows, site).error
      ensures followerJobs == old(followerJobs) && tweetJobs == old(tweetJobs) && commentJobs == old(commentJobs)
      ensures weiboLimit == old(weiboLimit)
    {
      var i := 0;
      while i < |rows|
        invariant 0 <= i <= |rows| && Valid()
        invariant FollowRows(old(State()), rows[..i], site) == Outcome(State(), None)
        invariant followerJobs == old(followerJobs) && tweetJobs == old(tweetJobs) && commentJobs == old(commentJobs)
        invariant weiboLimit == old(weiboLimit)
      {
        var row := rows[i];
        assert rows[..i + 1][..i] == rows[..i];
        match MemberId(row, site) {
          case Err(x) =>
            error := Some(x);
            FollowRowsStop(old(State()), rows, site, i + 1);
            return;
          case Ok(u) =>
            if !Exempt(row) {
              UserIdInQueue(u);
            }
        }
        i := i + 1;
      }
      assert rows[..i] == rows;
      error := None;
    }

    /** Send the records in order, until one is an exception. */
    method SendRecords(rs: seq<Result<Record>>) returns (error: Option<PyError>)
      requires Valid()
      modifies this
      ensures Valid()
      ensures State() == SendAll(old(State()), rs).effects && error == SendAll(old(State()), rs).error
      ensures followerJobs == old(followerJobs) && tweetJobs == old(tweetJobs) && commentJobs == old(commentJobs)
      ensures weiboLimit == old(weiboLimit)
    {
      var i := 0;
      while i < |rs|
        invariant 0 <= i <= |rs| && Valid()
        invariant SendAll(old(State()), rs[..i]) == Outcome(State(), None)
        invariant seen == old(seen) && userJobs == old(userJobs)
        invariant followerJobs == old(followerJobs) && tweetJobs == old(tweetJobs) && commentJobs == old(commentJobs)
        invariant weiboLimit == old(weiboLimit)
      {
        assert rs[..i + 1][..i] == rs[..i];
        match rs[i] {
          case Err(x) =>
            error := Some(x);
            SendAllStop(old(State()), rs, i + 1);
            return;
          case Ok(m) =>
            sent := sent + [m];
        }
        i := i + 1;
      }
      assert rs[..i] == rs;
      error := None;
    }

    /** `grab_user_tweet`: send the record of each tweet on the page, then, on a first
        page, push a job per further page, at most up to page 500 under `weibo_limit`. */
    method GrabUserTweet(job: PageJob, site: Site, now: DateTime) returns (error: Option<PyError>)
      requires Valid() && Clock.Valid(now)
      modifies this
      ensures Valid()
      ensures var page := site.timelines(job.url);
        var o := TweetDivs(old(State()), page.divs, job.key, now);
        && State() == o.effects && error == o.error
        && tweetJobs == old(tweetJobs)
             + (if error.None? && Expands(job.url) && page.pagelist.Some?
                then PageJobs(Tweet, job.key, TweetMaxPage(page.pagelist.value, weiboLimit)) else [])
      ensures followerJobs == old(followerJobs) && commentJobs == old(commentJobs) && weiboLimit == old(weiboLimit)
    {
      var page := site.timelines(job.url);
      error := SendRecords(TweetResults(page.divs, job.key, now));
      if error.None? && Expands(job.url) && page.pagelist.Some? {
        PushPages(Tweet, job.key, TweetMaxPage(page.pagelist.value, weiboLimit));
      }
    }

    /** One round of `crawl_weibo`: a job whose URL names a page above 200 is dropped
        before any fetch; a page pattern without digits raises ValueError outside the
        `try`; any other job is grabbed. */
    method CrawlTweetJob(job: PageJob, site: Site, now: DateTime) returns (error: Option<PyError>)
      requires Valid() && Clock.Valid(now)
      modifies this
      ensures Valid()
      ensures TweetAdmission(job.url) != Ok(true) ==>
        && State() == old(State()) && tweetJobs == old(tweetJobs)
        && error == (if TweetAdmission(job.url).Err? then Some(ValueError) else None)
      ensures TweetAdmission(job.url) == Ok(true) ==>
        var page := site.timelines(job.url);
        var o := TweetDivs(old(State()), page.divs, job.key, now);
        && State() == o.effects && error == o.error
        && tweetJobs == old(tweetJobs)
             + (if error.None? && Expands(job.url) && page.pagelist.Some?
                then PageJobs(Tweet, job.key, TweetMaxPage(page.pagelist.value, weiboLimit)) else [])
      ensures followerJobs == old(followerJobs) && commentJobs == old(commentJobs) && weiboLimit == old(weiboLimit)
    {
      match TweetAdmission(job.url) {
        case Err(x) =>
          error := Some(x);
        case Ok(admitted) =>
          if admitted {
            error := GrabUserTweet(job, site, now);
          } else {
            error := None;
          }
      }
    }

    /** One comment: queue its author's id and send its record, as `CommentStep` says. */
    method SendComment(div: CommentDiv, site: Site, tweetId: string, now: DateTime) returns (error: Option<PyError>)
      requires Valid() && Clock.Valid(now)
      modifies this
      ensures Valid()
      ensures State() == CommentStep(old(State()), div, site, tweetId, now).effects
      ensures error == CommentStep(old(State()), div, site, tweetId, now).error
      ensures followerJobs == old(followerJobs) && tweetJobs == old(tweetJobs) && commentJobs == old(commentJobs)
      ensures weiboLimit == old(weiboLimit)
    {
      error := None;
      if div.userHref.Some? {
        var href := div.userHref.value;
        match LinkUserId(href, site.infoLinks(Host + href)) {
          case Err(x) =>
            error := Some(x);
          case Ok(u) =>
            UserIdInQueue(u);
            match CommentRecord(div, u, tweetId, now) {
              case Err(x) =>
                error := Some(x);
              case Ok(c) =>
                sent := sent + [CommentMsg(c)];
            }
        }
      }
    }

    /** The loop of `grab_tweet_comments`: queue each commenter and send each
        comment's record, until one raises. */
    method SendComments(divs: seq<CommentDiv>, site: Site, tweetId: string, now: DateTime) returns (error: Option<PyError>)
      requires Valid() && Clock.Valid(now)
      modifies this
      ensures Valid()
      ensures State() == CommentDivs(old(State()), divs, site, tweetId, now).effects
      ensures error == CommentDivs(old(State()), divs, site, tweetId, now).error
      ensures followerJobs == old(followerJobs) && tweetJobs == old(tweetJobs) && commentJobs == old(commentJobs)
      ensures weiboLimit == old(weiboLimit)
    {
      var i := 0;
      while i < |divs|
        invariant 0 <= i <= |divs| && Valid()
        invariant CommentDivs(old(State()), divs[..i], site, tweetId, now) == Outcome(State(), None)
        invariant followerJobs == old(followerJobs) && tweetJobs == old(tweetJobs) && commentJobs == old(commentJobs)
        invariant weiboLimit == old(weiboLimit)
      {
        assert divs[..i + 1][..i] == divs[..i];
        error := SendComment(divs[i], site, tweetId, now);
        if error.Some? {
          CommentDivsStop(old(State()), divs, site, tweetId, now, i + 1);
          return;
        }
        i := i + 1;
      }
      assert divs[..i] == divs;
      error := None;
    }

    /** `grab_tweet_comments`: the comments of the page; on a first page then the main
        tweet's record and a job per further page. */
    method GrabTweetComments(job: PageJob, site: Site, now: DateTime) returns (error: Option<PyError>)
      requires Valid() && Clock.Valid(now)
      modifies this
      ensures Valid()
      ensures var page := site.commentPages(job.url);
        var o := CommentPageEffects(old(State()), page, site, job, now);
        && State() == o.effects && error == o.error
        && commentJobs == old(commentJobs)
             + (if error.None? && Expands(job.url) && page.pagelist.Some?
                then PageJobs(Comment, job.key, page.pagelist.value) else [])
      ensures followerJobs == old(followerJobs) && tweetJobs == old(tweetJobs) && weiboLimit == old(weiboLimit)
    {
      var page := site.commentPages(job.url);
      error := SendComments(page.comments, site, job.key, now);
      if error.Some? || !Expands(job.url) {
        return;
      }
      match QuotedTweetRecord(page, site, job.key, now) {
        case Err(x) =>
          error := Some(x);
          return;
        case Ok(q) =>
          if q.Some? {
            sent := sent + [QuotedMsg(q.value)];
          }
      }
      if page.pagelist.Some? {
        PushPages(Comment, job.key, page.pagelist.value);
      }
    }
  }
}
