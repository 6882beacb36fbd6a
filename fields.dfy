/** The string helpers `WeiboCnSpider` uses to fill its records: the "来自" split of a
    timestamp line into time and source, the `X[digits];` counters, the user id behind a
    profile link, and the id of the original tweet behind a repost's comment link. */
module Fields {
  import opened Base
  import opened Text

  // ---- time and source ----------------------------------------------------------------

  /** "来自" ("from"): the word between the timestamp and the client name in a `ct` span. */
  const FromMark: string := "来自"

  lemma FromMarkShape()
    ensures |FromMark| == 2 && Unbordered(FromMark)
  {
    assert FromMark[..1] == ['来'] && FromMark[1..] == ['自'];
  }

  /** The `ct` text of a timeline tweet split on "来自": the time text is the first
      piece; the source is the second piece when there are exactly two, else "unknown". */
  function TweetTimeSource(ct: string): (r: (string, string))
    ensures !Contains(r.0, FromMark)
    ensures !Contains(ct, FromMark) ==> r == (ct, "unknown")
  {
    SplitPiecesFree(ct, FromMark);
    var pieces := Split(ct, FromMark);
    (pieces[0], if |pieces| == 2 then pieces[1] else "unknown")
  }

  /** The `ct` text of a comment or of the quoted tweet: nothing at all when the text is
      empty (the source tests `if others:`), else the time text and, only when the text
      splits into exactly two pieces, the source. */
  function CommentTimeSource(ct: string): (r: Option<(string, Option<string>)>)
    ensures r.None? <==> ct == ""
    ensures r.Some? ==> !Contains(r.value.0, FromMark)
    ensures r.Some? && !Contains(ct, FromMark) ==> r.value == (ct, None)
  {
    if ct == "" then None
    else
      SplitPiecesFree(ct, FromMark);
      var pieces := Split(ct, FromMark);
      Some((pieces[0], if |pieces| == 2 then Some(pieces[1]) else None))
  }

  /** A time and a source without "来自" in them come back apart on both kinds of page. */
  lemma TimeSourceRoundTrip(time: string, source: string)
    requires !Contains(time, FromMark) && !Contains(source, FromMark)
    ensures TweetTimeSource(time + FromMark + source) == (time, source)
    ensures CommentTimeSource(time + FromMark + source) == Some((time, Some(source)))
  {
    FromMarkShape();
    SplitAround(time, FromMark, source);
  }

  /** With "来自" twice or more, a timeline tweet's source is "unknown" and a comment has
      none; the time is still the text before the first mark. */
  lemma TimeSourceAmbiguous(time: string, a: string, b: string)
    requires !Contains(time, FromMark)
    ensures TweetTimeSource(time + FromMark + a + FromMark + b) == (time, "unknown")
    ensures CommentTimeSource(time + FromMark + a + FromMark + b) == Some((time, None))
  {
    FromMarkShape();
    var rest := a + FromMark + b;
    var s := time + FromMark + rest;
    assert s == time + FromMark + a + FromMark + b;
    FindAround(time, FromMark, rest);
    assert s[..|time|] == time;
    assert s[|time| + 2..] == rest;
    assert Contains(rest, FromMark) by {
      assert rest[|a|..|a| + 2] == FromMark;
      assert OccursAt(rest, FromMark, |a|);
    }
    SplitFirst(rest, FromMark);
    assert Split(s, FromMark) == [time] + Split(rest, FromMark);
  }

  /** The two call sites agree: a comment's time is the tweet's time, and a comment has a
      source exactly when the tweet's would not be the "unknown" placeholder for a split
      into other than two pieces. */
  lemma TimeSourceSitesAgree(ct: string)
    requires ct != ""
    ensures CommentTimeSource(ct).value.0 == TweetTimeSource(ct).0
    ensures CommentTimeSource(ct).value.1.Some? ==> TweetTimeSource(ct).1 == CommentTimeSource(ct).value.1.value
    ensures CommentTimeSource(ct).value.1.None? ==> TweetTimeSource(ct).1 == "unknown"
    ensures CommentTimeSource(ct).value.1.Some? <==> |Split(ct, FromMark)| == 2
  {
  }

  /** The time text is everything before the first "来自"; with exactly two pieces the
      line is time, mark and source put back together. */
  lemma TweetTimeSourceParts(ct: string)
    ensures ct[..|TweetTimeSource(ct).0|] == TweetTimeSource(ct).0
    ensures Contains(ct, FromMark) ==> OccursAt(ct, FromMark, |TweetTimeSource(ct).0|)
    ensures |Split(ct, FromMark)| == 2 ==> ct == TweetTimeSource(ct).0 + FromMark + TweetTimeSource(ct).1
  {
    var pieces := Split(ct, FromMark);
    if Contains(ct, FromMark) {
      SplitFirst(ct, FromMark);
    }
    if |pieces| == 2 {
      SplitJoin(ct, FromMark);
      assert Join(pieces, FromMark) == pieces[0] + FromMark + Join(pieces[1..], FromMark);
      assert pieces[1..] == [pieces[1]];
    }
  }

  // ---- counters ---------------------------------------------------------------------

  /** A counter as the record carries it: the digit string the pattern captured, or the
      integer the caller falls back to when the pattern is absent. */
  datatype CounterValue = Digits(text: string) | Fallback(n: int)

  /** Fallback of the counters of a timeline tweet and of `grab_view`. */
  const TimelineFallback: int := -1
  /** Fallback of the counters of the tweet quoted at the top of a comment page. */
  const QuotedFallback: int := 0

  const LikeLabel: string := "赞"
  const TransferLabel: string := "转发"
  const CommentLabel: string := "评论"
  const TweetNumLabel: string := "微博"
  const FansLabel: string := "粉丝"
  const FollowLabel: string := "关注"

  /** The pattern `name\[(\d+)\];` at position `i`: the digits between the brackets. */
  function CounterAt(s: string, name: string, i: nat): (r: Option<string>)
    ensures r.Some? ==> r.value != "" && AllDigits(r.value)
    ensures r.Some? ==> OccursAt(s, name + "[" + r.value + "];", i)
  {
    if !OccursAt(s, name + "[", i) then None
    else
      var j := i + |name| + 1;
      var k := DigitRunEnd(s, j);
      if k > j && OccursAt(s, "];", k) then
        assert s[i..k + 2] == s[i..j] + s[j..k] + s[k..k + 2];
        Some(s[j..k])
      else None
  }

  /** `re.findall(name\[(\d+)\];, s)`: its first capture when there is one, else the
      fallback. */
  function Counter(s: string, name: string, fallback: int): (r: CounterValue)
    ensures r.Digits? ==> r.text != "" && AllDigits(r.text) && Contains(s, name + "[" + r.text + "];")
    ensures r.Fallback? ==> r.n == fallback && forall i :: 0 <= i <= |s| ==> CounterAt(s, name, i).None?
    ensures r.Digits? ==> exists i :: 0 <= i <= |s| && CounterAt(s, name, i) == Some(r.text)
                                      && forall j :: 0 <= j < i ==> CounterAt(s, name, j).None?
  {
    var at := (t: string, i: nat) => CounterAt(t, name, i);
    match FirstMatch(s, at, 0)
    case Some((i, d)) =>
      assert CounterAt(s, name, i) == Some(d) && forall j :: 0 <= j < i ==> CounterAt(s, name, j).None? by {
        forall j | 0 <= j < i ensures CounterAt(s, name, j).None? {
          assert at(s, j).None?;
        }
      }
      Digits(d)
    case None =>
      assert forall i :: 0 <= i <= |s| ==> CounterAt(s, name, i).None? by {
        forall i | 0 <= i <= |s| ensures CounterAt(s, name, i).None? {
          assert at(s, i).None?;
        }
      }
      Fallback(fallback)
  }

  /** The count printed after the name comes back, whatever follows, when the text in
      front has no character the name starts with. */
  lemma CounterRoundTrip(p: string, name: string, n: nat, rest: string, fallback: int)
    requires name != "" && Lacks(p, name[0])
    ensures Counter(p + (name + "[" + NatToString(n) + "];" + rest), name, fallback) == Digits(NatToString(n))
  {
    var d := NatToString(n);
    var s := p + (name + "[" + d + "];" + rest);
    var at := (t: string, i: nat) => CounterAt(t, name, i);
    var j := |p| + |name| + 1;
    assert s[|p|..j] == name + "[";
    assert s[j..j + |d|] == d;
    assert s[j + |d|..j + |d| + 2] == "];";
    DigitRunOf(s, j, d);
    assert CounterAt(s, name, |p|) == Some(d);
    forall i | 0 <= i < |p| ensures at(s, i).None? {
      if i + |name| + 1 <= |s| {
        assert s[i..i + |name| + 1][0] == p[i];
        assert (name + "[")[0] == name[0];
        assert !OccursAt(s, name + "[", i);
      }
    }
    FirstMatchFrom(s, at, 0, |p|);
  }

  lemma CounterAtStart(name: string, n: nat, rest: string, fallback: int)
    requires name != ""
    ensures Counter(name + "[" + NatToString(n) + "];" + rest, name, fallback) == Digits(NatToString(n))
  {
    var s := name + "[" + NatToString(n) + "];" + rest;
    assert "" + s == s;
    CounterRoundTrip("", name, n, rest, fallback);
  }

  /** A text without `name[` falls back. */
  lemma CounterAbsent(s: string, name: string, fallback: int)
    requires !Contains(s, name + "[")
    ensures Counter(s, name, fallback) == Fallback(fallback)
  {
    var at := (t: string, i: nat) => CounterAt(t, name, i);
    forall i | 0 <= i <= |s| ensures at(s, i).None? {
      assert !OccursAt(s, name + "[", i);
    }
    FirstMatchNone(s, at, 0);
  }

  /** The like, transfer and comment counters of a tweet's footer. */
  function TweetCounters(other: string, fallback: int): (r: (CounterValue, CounterValue, CounterValue))
    ensures r.0.Fallback? ==> r.0.n == fallback
    ensures r.1.Fallback? ==> r.1.n == fallback
    ensures r.2.Fallback? ==> r.2.n == fallback
  {
    (Counter(other, LikeLabel, fallback), Counter(other, TransferLabel, fallback), Counter(other, CommentLabel, fallback))
  }

  /** One tweet footer with all three counters: "赞[a];转发[b];评论[c];" and more. Each
      label is searched on its own, so this order is one example, not a requirement. */
  function Footer(a: nat, b: nat, c: nat, rest: string): string
  {
    LikeLabel + "[" + NatToString(a) + "];"
      + (TransferLabel + "[" + NatToString(b) + "];" + (CommentLabel + "[" + NatToString(c) + "];" + rest))
  }

  lemma FooterLike(a: nat, b: nat, c: nat, rest: string, fallback: int)
    ensures Counter(Footer(a, b, c, rest), LikeLabel, fallback) == Digits(NatToString(a))
  {
    var tail := TransferLabel + "[" + NatToString(b) + "];" + (CommentLabel + "[" + NatToString(c) + "];" + rest);
    CounterAtStart(LikeLabel, a, tail, fallback);
  }

  lemma FooterTransfer(a: nat, b: nat, c: nat, rest: string, fallback: int)
    ensures Counter(Footer(a, b, c, rest), TransferLabel, fallback) == Digits(NatToString(b))
  {
    var p := LikeLabel + "[" + NatToString(a) + "];";
    DigitsLack(NatToString(a), '转');
    assert Lacks(p, '转');
    CounterRoundTrip(p, TransferLabel, b, CommentLabel + "[" + NatToString(c) + "];" + rest, fallback);
  }

  /** The text in front of the comment counter. */
  function FooterHead(a: nat, b: nat): (r: string)
    ensures Lacks(r, CommentLabel[0])
  {
    var p1 := LikeLabel + "[" + NatToString(a) + "];";
    var p2 := TransferLabel + "[" + NatToString(b) + "];";
    DigitsLack(NatToString(a), '评');
    DigitsLack(NatToString(b), '评');
    assert Lacks(p1, '评');
    assert Lacks(p2, '评');
    LacksConcat(p1, p2, '评');
    p1 + p2
  }

  lemma FooterSplitsAtComment(a: nat, b: nat, c: nat, rest: string)
    ensures Footer(a, b, c, rest) == FooterHead(a, b) + (CommentLabel + "[" + NatToString(c) + "];" + rest)
  {
    var p1 := LikeLabel + "[" + NatToString(a) + "];";
    var p2 := TransferLabel + "[" + NatToString(b) + "];";
    Reassociate(p1, p2, CommentLabel + "[" + NatToString(c) + "];" + rest);
  }

  lemma FooterComment(a: nat, b: nat, c: nat, rest: string, fallback: int)
    ensures Counter(Footer(a, b, c, rest), CommentLabel, fallback) == Digits(NatToString(c))
  {
    FooterSplitsAtComment(a, b, c, rest);
    CounterRoundTrip(FooterHead(a, b), CommentLabel, c, rest, fallback);
  }

  /** A footer gives its three numbers in their own fields, whichever fallback the
      caller uses. */
  lemma TweetCountersOfFooter(a: nat, b: nat, c: nat, rest: string, fallback: int)
    ensures TweetCounters(Footer(a, b, c, rest), fallback)
         == (Digits(NatToString(a)), Digits(NatToString(b)), Digits(NatToString(c)))
  {
    FooterLike(a, b, c, rest, fallback);
    FooterTransfer(a, b, c, rest, fallback);
    FooterComment(a, b, c, rest, fallback);
  }

  lemma Reassociate(x: string, y: string, z: string)
    ensures x + (y + z) == (x + y) + z
  {
  }

  lemma LacksConcat(x: string, y: string, c: char)
    requires Lacks(x, c) && Lacks(y, c)
    ensures Lacks(x + y, c)
  {
  }

  lemma DigitsLack(d: string, c: char)
    requires AllDigits(d) && !IsDigit(c)
    ensures Lacks(d, c)
  {
  }

  /** `grab_view`: the tweet, fans and follow counts on a user's home page, read from the
      `tip2` block's text (empty when the block is missing), each falling back to -1. */
  function ViewCounters(tip: Option<string>): (r: (CounterValue, CounterValue, CounterValue))
    ensures r.0.Fallback? ==> r.0.n == TimelineFallback
    ensures r.1.Fallback? ==> r.1.n == TimelineFallback
    ensures r.2.Fallback? ==> r.2.n == TimelineFallback
  {
    var content := if tip.Some? then tip.value else "";
    (Counter(content, TweetNumLabel, TimelineFallback), Counter(content, FansLabel, TimelineFallback),
     Counter(content, FollowLabel, TimelineFallback))
  }

  /** One `tip2` text with all three counters: "微博[a];粉丝[b];关注[c];" and more. Each
      label is searched on its own, so this order is one example, not a requirement. */
  function Tip(a: nat, b: nat, c: nat, rest: string): string
  {
    TweetNumLabel + "[" + NatToString(a) + "];"
      + (FansLabel + "[" + NatToString(b) + "];" + (FollowLabel + "[" + NatToString(c) + "];" + rest))
  }

  /** The text in front of the follow counter. */
  function TipHead(a: nat, b: nat): (r: string)
    ensures Lacks(r, FollowLabel[0])
  {
    var p1 := TweetNumLabel + "[" + NatToString(a) + "];";
    var p2 := FansLabel + "[" + NatToString(b) + "];";
    DigitsLack(NatToString(a), '关');
    DigitsLack(NatToString(b), '关');
    assert Lacks(p1, '关');
    assert Lacks(p2, '关');
    LacksConcat(p1, p2, '关');
    p1 + p2
  }

  lemma TipTweetNum(a: nat, b: nat, c: nat, rest: string)
    ensures Counter(Tip(a, b, c, rest), TweetNumLabel, TimelineFallback) == Digits(NatToString(a))
  {
    var tail := FansLabel + "[" + NatToString(b) + "];" + (FollowLabel + "[" + NatToString(c) + "];" + rest);
    CounterAtStart(TweetNumLabel, a, tail, TimelineFallback);
  }

  lemma TipFans(a: nat, b: nat, c: nat, rest: string)
    ensures Counter(Tip(a, b, c, rest), FansLabel, TimelineFallback) == Digits(NatToString(b))
  {
    var p := TweetNumLabel + "[" + NatToString(a) + "];";
    DigitsLack(NatToString(a), '粉');
    assert Lacks(p, '粉');
    CounterRoundTrip(p, FansLabel, b, FollowLabel + "[" + NatToString(c) + "];" + rest, TimelineFallback);
  }

  lemma TipFollow(a: nat, b: nat, c: nat, rest: string)
    ensures Counter(Tip(a, b, c, rest), FollowLabel, TimelineFallback) == Digits(NatToString(c))
  {
    var p1 := TweetNumLabel + "[" + NatToString(a) + "];";
    var p2 := FansLabel + "[" + NatToString(b) + "];";
    Reassociate(p1, p2, FollowLabel + "[" + NatToString(c) + "];" + rest);
    CounterRoundTrip(TipHead(a, b), FollowLabel, c, rest, TimelineFallback);
  }

  /** A `tip2` block gives its three numbers in their own fields: the tweet count after
      微博, the fans after 粉丝, the follows after 关注. */
  lemma ViewCountersOfTip(a: nat, b: nat, c: nat, rest: string)
    ensures ViewCounters(Some(Tip(a, b, c, rest)))
         == (Digits(NatToString(a)), Digits(NatToString(b)), Digits(NatToString(c)))
  {
    TipTweetNum(a, b, c, rest);
    TipFans(a, b, c, rest);
    TipFollow(a, b, c, rest);
  }

  /** A home page without the `tip2` block reports -1 for all three counts. */
  lemma ViewCountersWithoutBlock()
    ensures ViewCounters(None) == (Fallback(TimelineFallback), Fallback(TimelineFallback), Fallback(TimelineFallback))
  {
    CounterAbsent("", TweetNumLabel, TimelineFallback);
    CounterAbsent("", FansLabel, TimelineFallback);
    CounterAbsent("", FollowLabel, TimelineFallback);
  }

  // ---- user ids -----------------------------------------------------------------------

  /** What an id lookup yields: a string, or the integer 0 that
      `get_user_id_from_homepage` returns when the page has no "资料" link. */
  datatype UserRef = Id(text: string) | NoId

  /** Python truthiness of the id: the empty string and 0 are false. */
  predicate Truthy(u: UserRef)
  {
    u.Id? && u.text != ""
  }

  const Host: string := "https://weibo.cn"
  const ProfilePrefix: string := "https://weibo.cn/u/"

  /** The pattern `https://weibo.cn/u/(\d*)` at position `i` (its `.` is any character
      but a newline): the digits after the prefix, possibly none. */
  function ProfileAt(s: string, i: nat): (r: Option<string>)
    ensures r.Some? ==> i + 19 <= |s| && AllDigits(r.value)
  {
    if i + 19 <= |s| && s[i..i + 13] == "https://weibo" && s[i + 13] != '\n' && s[i + 14..i + 19] == "cn/u/" then
      var k := DigitRunEnd(s, i + 19);
      Some(s[i + 19..k])
    else None
  }

  /** `user_id_pattern.findall(href)[0]` when the list is not empty. */
  function ProfileLinkId(href: string): (r: Option<string>)
    ensures r.Some? ==> AllDigits(r.value)
    ensures r.None? ==> forall i :: 0 <= i <= |href| ==> ProfileAt(href, i).None?
  {
    match FirstMatch(href, ProfileAt, 0)
    case Some((_, d)) => Some(d)
    case None => None
  }

  /** A profile link gives back the digits after `/u/`. */
  lemma ProfileLinkRoundTrip(d: string, rest: string)
    requires AllDigits(d) && (rest != "" ==> !IsDigit(rest[0]))
    ensures ProfileLinkId(ProfilePrefix + d + rest) == Some(d)
  {
    var s := ProfilePrefix + d + rest;
    assert s[0..13] == "https://weibo" && s[13] == '.' && s[14..19] == "cn/u/";
    assert s[19..19 + |d|] == d;
    if 19 + |d| < |s| {
      assert s[19 + |d|] == rest[0];
    }
    DigitRunOf(s, 19, d);
    FirstMatchAtStart(s, ProfileAt);
  }

  /** A link without "cn/u/" is not a profile link. */
  lemma ProfileLinkAbsent(href: string)
    requires !Contains(href, "cn/u/")
    ensures ProfileLinkId(href).None?
  {
    forall i | 0 <= i <= |href| ensures ProfileAt(href, i).None? {
      if i + 19 <= |href| {
        assert !OccursAt(href, "cn/u/", i + 14);
      }
    }
    FirstMatchNone(href, ProfileAt, 0);
  }

  /** `get_user_id_from_homepage` given the href of the home page's "资料" link, if any:
      the second '/'-piece of the href, IndexError when it has no '/', 0 without a link. */
  function UserIdFromHomepage(info: Option<string>): (r: Result<UserRef>)
    ensures info.None? ==> r == Ok(NoId)
    ensures r.Err? <==> info.Some? && !Contains(info.value, "/")
    ensures r.Err? ==> r.error == IndexError
    ensures r.Ok? && info.Some? ==> r.value.Id? && !Contains(r.value.text, "/")
    ensures r.Ok? && info.Some? ==> SecondPieceIs(info.value, r.value.text)
  {
    match info
    case None => Ok(NoId)
    case Some(h) =>
      SplitPiecesFree(h, "/");
      var pieces := Split(h, "/");
      if |pieces| < 2 then Err(IndexError)
      else
        SplitFirst(h, "/");
        SecondPiece(h);
        Ok(Id(pieces[1]))
  }

  /** `id` is what `h` holds between its first '/' and the next '/' or its end. */
  predicate SecondPieceIs(h: string, id: string)
  {
    match Find(h, "/")
    case None => false
    case Some(i) =>
      var j := i + 1 + |id|;
      j <= |h| && h[i + 1..j] == id && (j == |h| || h[j] == '/')
  }

  /** The second piece of an href with a '/' is what it holds after its first '/', up
      to the next '/' or its end. */
  lemma SecondPiece(h: string)
    requires Contains(h, "/")
    ensures |Split(h, "/")| >= 2 && SecondPieceIs(h, Split(h, "/")[1])
  {
    FindSpec(h, "/");
    var i := Find(h, "/").value;
    SplitStep(h, "/", i);
    var t := h[i + 1..];
    var rest := FirstPiece(t);
    SecondPieceAt(h, i, Split(t, "/")[0], rest);
  }

  lemma SecondPieceAt(h: string, i: nat, id: string, rest: string)
    requires Find(h, "/") == Some(i) && i + 1 <= |h| && h[i + 1..] == id + rest
    requires rest == "" || StartsWith(rest, "/")
    ensures SecondPieceIs(h, id)
  {
    var j := i + 1 + |id|;
    assert h[i + 1..j] == (id + rest)[..|id|] == id;
    if j < |h| {
      assert h[j] == (id + rest)[|id|] == rest[0];
      assert rest[..1] == "/";
    }
  }

  /** The first '/'-piece of `t` and the rest of `t`, which is empty or starts with '/'. */
  lemma FirstPiece(t: string) returns (rest: string)
    ensures t == Split(t, "/")[0] + rest && (rest == "" || StartsWith(rest, "/"))
  {
    if Contains(t, "/") {
      FindSpec(t, "/");
      SplitFirst(t, "/");
      var i := Find(t, "/").value;
      rest := t[i..];
      assert t == t[..i] + rest;
      assert rest[..1] == t[i..i + 1];
    } else {
      SplitWithout(t, "/");
      rest := "";
      assert t == t + rest;
    }
  }

  /** A "资料" href "<p>/<id>/<rest>" or "<p>/<id>", with no '/' in `p` or `id`, names
      `id`. */
  lemma HomepageRoundTrip(p: string, id: string, rest: string)
    requires !Contains(p, "/") && !Contains(id, "/")
    ensures UserIdFromHomepage(Some(p + "/" + id + "/" + rest)) == Ok(Id(id))
    ensures UserIdFromHomepage(Some(p + "/" + id)) == Ok(Id(id))
  {
    var t := id + "/" + rest;
    FindAround(p, "/", t);
    var s := p + "/" + t;
    assert s == p + "/" + id + "/" + rest;
    assert s[..|p|] == p && s[|p| + 1..] == t;
    SplitStep(s, "/", |p|);
    FindAround(id, "/", rest);
    assert t[..|id|] == id;
    SplitStep(t, "/", |id|);
    FindAround(p, "/", id);
    var u := p + "/" + id;
    assert u[..|p|] == p && u[|p| + 1..] == id;
    SplitStep(u, "/", |p|);
    SplitWithout(id, "/");
  }

  /** The id behind a user link on a comment page: what follows `/u/`, or else the id
      read from the home page at `Host + href` (its "资料" link is `info`). */
  function LinkUserId(href: string, info: Option<string>): (r: Result<UserRef>)
    ensures StartsWith(href, "/u/") ==> r.Ok? && r.value.Id? && "/u/" + r.value.text == href
    ensures !StartsWith(href, "/u/") && info.None? ==> r == Ok(NoId)
    ensures r.Err? <==> !StartsWith(href, "/u/") && info.Some? && !Contains(info.value, "/")
    ensures r.Err? ==> r.error == IndexError
  {
    if StartsWith(href, "/u/") then
      assert "/u/" + href[3..] == href[..3] + href[3..] == href;
      Ok(Id(href[3..]))
    else UserIdFromHomepage(info)
  }

  /** `/u/<digits>` needs no home page. */
  lemma LinkUserIdRoundTrip(d: string, info: Option<string>)
    ensures LinkUserId("/u/" + d, info) == Ok(Id(d))
  {
    var s := "/u/" + d;
    assert s[..3] == "/u/" && s[3..] == d;
  }

  // ---- the original tweet of a repost -----------------------------------------------

  /** `comment_href.split('?')[0].split('/')[-1]`; no link (the `find` that raised
      inside the swallowing `try`) gives no `sourceTid`. */
  function SourceTid(commentHref: Option<string>): (r: Option<string>)
    ensures r.Some? <==> commentHref.Some?
    ensures r.Some? ==> !Contains(r.value, "/") && !Contains(r.value, "?")
  {
    match commentHref
    case None => None
    case Some(h) =>
      var path := Split(h, "?")[0];
      SplitPiecesFree(h, "?");
      SplitPiecesFree(path, "/");
      var tid := Last(Split(path, "/"));
      assert !Contains(tid, "?") by { SplitPieceFreeOf(path, "/", "?"); }
      Some(tid)
  }

  /** The pieces of `s` split on `sep` hold no `other` that `s` does not hold. */
  lemma SplitPieceFreeOf(s: string, sep: string, other: string)
    requires |sep| > 0 && |other| == 1 && !Contains(s, other)
    ensures forall k :: 0 <= k < |Split(s, sep)| ==> !Contains(Split(s, sep)[k], other)
  {
    SplitJoin(s, sep);
    forall k | 0 <= k < |Split(s, sep)| ensures !Contains(Split(s, sep)[k], other) {
      JoinHoldsPiece(Split(s, sep), sep, k);
      var pre, post :| Join(Split(s, sep), sep) == pre + Split(s, sep)[k] + post;
      NotContainsPart(pre, Split(s, sep)[k], post, other);
    }
  }

  /** Each piece sits inside the joined string. */
  lemma {:induction false} JoinHoldsPiece(parts: seq<string>, sep: string, k: nat)
    requires k < |parts|
    ensures exists pre, post :: Join(parts, sep) == pre + parts[k] + post
    decreases |parts|
  {
    if |parts| == 1 {
      assert Join(parts, sep) == "" + parts[0] + "";
    } else if k == 0 {
      assert Join(parts, sep) == "" + parts[0] + (sep + Join(parts[1..], sep));
    } else {
      JoinHoldsPiece(parts[1..], sep, k - 1);
      var pre, post :| Join(parts[1..], sep) == pre + parts[1..][k - 1] + post;
      assert Join(parts, sep) == (parts[0] + sep + pre) + parts[k] + post;
    }
  }

  /** A one-character string absent from a whole is absent from its middle part. */
  lemma NotContainsPart(pre: string, mid: string, post: string, c: string)
    requires |c| == 1 && !Contains(pre + mid + post, c)
    ensures !Contains(mid, c)
  {
    var s := pre + mid + post;
    forall j | 0 <= j <= |mid| ensures !OccursAt(mid, c, j) {
      if j + 1 <= |mid| {
        assert s[|pre| + j..|pre| + j + 1] == mid[j..j + 1];
        assert !OccursAt(s, c, |pre| + j);
      }
    }
  }

  /** A comment link ".../<tid>?<query>" names the tweet `tid`. */
  lemma SourceTidRoundTrip(p: string, tid: string, query: string)
    requires !Contains(p, "?") && !Contains(tid, "/") && !Contains(tid, "?")
    ensures SourceTid(Some(p + "/" + tid + "?" + query)) == Some(tid)
  {
    var path := p + "/" + tid;
    var h := path + "?" + query;
    assert !Contains(path, "?") by {
      forall j | 0 <= j <= |path| ensures !OccursAt(path, "?", j) {
        if j < |p| {
          assert !OccursAt(p, "?", j);
          if j + 1 <= |path| { assert path[j..j + 1] == p[j..j + 1]; }
        } else if j > |p| && j + 1 <= |path| {
          assert path[j..j + 1] == tid[j - |p| - 1..j - |p|];
          assert !OccursAt(tid, "?", j - |p| - 1);
        }
      }
    }
    FindAround(path, "?", query);
    assert h[..|path|] == path;
    SplitFirst(h, "?");
    SplitLast(p, "/", tid);
  }
}
