# WeiboCnSpider, modelled in Dafny

A verified model of the deterministic core of `WeiboCnSpider`, the asynchronous crawler
for the weibo.cn mobile site in `aio/weibo_cn_async.py`. It covers:

- The bloom filter of user ids already queued, and `user_id_in_queue`, which gates the
  `user` job queue.
- The three `grab_*` steps:
  - `grab_follow` queues the members of a follow listing.
  - `grab_user_tweet` sends a timeline's tweets.
  - `grab_tweet_comments` sends a tweet's comments and the tweet itself.
- The follow-up page jobs each step pushes when it reads the first page of a listing.
- The filter `crawl_weibo` applies before fetching a tweet job.
- The pure helpers the records are built with:
  - the `来自` split of a time line into time and source;
  - the `X[n];` counters with their fallbacks;
  - user ids from profile links, `/u/` hrefs and home pages;
  - `sourceTid`;
  - `get_time`, with `datetime.now()` passed in as a parameter.

Modules, one per file:

| file | module | models |
|---|---|---|
| `base.dfy` | `Base` | `Option`, `Result`, and the Python exceptions the core can raise |
| `text.dfy` | `Text` | `str.split`, `str.join`, `in`, `startswith`, `\d*`/`\s*` runs, `int()` on digits, `str()` on naturals, and `re.findall(...)[0]` as "the first position where the pattern matches" |
| `clock.dfy` | `Clock` | `datetime.datetime(...)` with its range checks, a minute counter from 0001-01-01, `now - timedelta(minutes=n)`, and `strftime('%Y-%m-%d %H:%M:%S')` |
| `timestamps.dfy` | `Timestamps` | `get_time`: as written, and with the "today" branch corrected |
| `fields.dfy` | `Fields` | the `来自` split, the counters, user ids from hrefs, `sourceTid` |
| `jobs.dfy` | `Jobs` | job URLs, the follow-up page jobs, the `crawl_weibo` page filter, the URL `grab_follow` fetches |
| `records.dfy` | `Records` | the pages as extracted data (the `Site`), and the `tweet_info` and `comment_info` records |
| `spider.dfy` | `Spider` | the class `WeiboCnSpider`: the filter, the job queues, the Kafka log, and the `grab_*` steps |

**Pages.** The HTML a URL yields is replaced by a `Site` value: total functions from a URL
to the data BeautifulSoup extracts from that page (rows, flags, texts, the `pagelist`
number). The model therefore still tracks which URL each step fetches.

**Side effects.** Redis `push_job` appends to one sequence per job kind. Kafka `send`
appends to one log of records.

**Pure specification, imperative implementation.** Each `grab_*` step is first specified
as a pure function over an `Effects` value: the filter, the user queue and the sent log.
The class methods then carry the step out one row, tweet or comment at a time, and are
proved equal to that function. The lemmas about the functions state what the source
promises.

**An exception ends a step.** An exception raised inside a step ends that step: the
effects made before it remain, and the exception is returned. The `crawl_*` loops, which
are not modelled, catch what a `grab_*` step raises. The exception is the `int()` that
`crawl_weibo` applies to a tweet job's page number before its `try` (lines 130-131): a
job URL `https://weibo.cn/123?page=` raises a ValueError that nothing catches, and the
tweet worker ends (`WeiboCnSpider.CrawlTweetJob` returns it).

**Times in records.** Every record is built with the corrected `get_time`, whose "today"
branch reads the minute from the minute capture (see Findings). Where the source sends
HH:HH for "今天 HH:MM", the model sends HH:MM.

## Model

| member | source | states |
|---|---|---|
| Spider.GateOutcomes | aio/weibo_cn_async.py:371-375 | A falsy id (`''` or the `0` of a page without a "资料" link) changes nothing. A truthy id already in the filter changes nothing. A new truthy id is added to the filter and appended to the user queue exactly once, and was not in the queue before. Nothing is ever sent, and the filter only grows. |
| Spider.GateKeepsConsistent | aio/weibo_cn_async.py:371-375 | The filter holds exactly the ids in the user queue, and the queue has no id twice; every call keeps this so. |
| Spider.GateTwice | aio/weibo_cn_async.py:371-375 | Calling `user_id_in_queue` twice with the same id has the effect of calling it once. |
| Spider.WeiboCnSpider.UserIdInQueue | aio/weibo_cn_async.py:371-375 | Moves the spider's filter, user queue and sent log as the gate function says, keeps them consistent, and leaves the page queues alone. |
| Spider.WeiboCnSpider.constructor | aio/weibo_cn_async.py:45-52 | Starts with an empty filter, empty queues and logs, and `weibo_limit` on. |
| Spider.WeiboCnSpider.PushJob | aio/weibo_cn_async.py:108-110 | `push_job` appends the job to its kind's queue and changes nothing else. |
| Spider.WeiboCnSpider.PushPages | aio/weibo_cn_async.py:107-110 | The `for page in range(2, m + 1)` loop appends exactly the jobs of pages 2..m, in order, to the kind's queue, and changes nothing else. |
| Jobs.PageJobs | aio/weibo_cn_async.py:107-110 | There are m - 1 follow-up jobs (none when m < 2). Job i carries the URL of page i + 2 and the listing's key. |
| Jobs.PageJobsDistinct | aio/weibo_cn_async.py:252-255 | The follow-up jobs of one listing have pairwise different URLs, and all carry the listing's uid or tweetId. |
| Jobs.PageUrlInjective | aio/weibo_cn_async.py:254 | Different page numbers give different page URLs. |
| Jobs.PageUrlHasPage | aio/weibo_cn_async.py:102 | Every page URL contains `page=`, so it does not expand. |
| Jobs.NoReExpansion | aio/weibo_cn_async.py:234 | No follow-up job ever expands into further jobs. |
| Jobs.TweetMaxPage | aio/weibo_cn_async.py:249-251 | The last tweet page to push is at most the `pagelist` value, and at most 500 when `weibo_limit` is set. |
| Jobs.TweetPagesCapped | aio/weibo_cn_async.py:247-255 | With the cap on, a tweet listing yields one job per page from 2 to min(value, 500), each with its page URL, and none when the value is below 2. |
| Jobs.TweetAdmission | aio/weibo_cn_async.py:125-134 | The page filter raises nothing but ValueError, and admits every URL without `?page=`. |
| Jobs.TweetAdmissionOfPage | aio/weibo_cn_async.py:129-134 | A tweet page URL of a numeric uid is admitted exactly when its page is at most 200. |
| Jobs.TweetPagesAdmitted | aio/weibo_cn_async.py:129-134 | Of the jobs a tweet listing pushes, `crawl_weibo` fetches those for pages 2..200 and skips the rest. |
| Spider.WeiboCnSpider.CrawlTweetJob | aio/weibo_cn_async.py:127-140 | A tweet job above page 200 is dropped before any fetch. A page match without digits raises ValueError. Any other job runs `grab_user_tweet` on its URL. |
| Jobs.FollowPagesRefetchFirst | aio/weibo_cn_async.py:83 | As written, every follow-up job of a follow listing fetches the first page again instead of its own. |
| Jobs.FollowPagesFetchOwn | aio/weibo_cn_async.py:83 | With the job's own URL fetched, the follow-up jobs read pairwise different pages, none of them the first. |
| Records.MemberId | aio/weibo_cn_async.py:87-92 | A member with a profile-link match gets a digits-only id and never raises. Otherwise its id comes from the home page: 0 without a "资料" link, IndexError exactly when that link has no `/`. |
| Records.MemberIdOfProfileLink | aio/weibo_cn_async.py:87-90 | A member linked by `https://weibo.cn/u/` + digits + a non-digit tail gets those digits, whatever its home page says. |
| Records.MemberIdFromHomepage | aio/weibo_cn_async.py:87-92 | A member whose link has no `cn/u/` gets the id its home page names. |
| Spider.FollowRowsPushes | aio/weibo_cn_async.py:86-101 | The member rows keep the filter and queue consistent and send nothing. They only append to the user queue, and only ids of rows without a marker image. |
| Spider.FollowRowsGateAll | aio/weibo_cn_async.py:86-101 | When no row raises, every row resolved, and every row without a marker image has its truthy id in the filter afterwards. |
| Spider.FollowRowsStop | aio/weibo_cn_async.py:86-92 | Once resolving a row's id has raised, the later rows change nothing. |
| Spider.WeiboCnSpider.QueueMembers | aio/weibo_cn_async.py:86-101 | The member loop has exactly the effects and exception of the member-rows function, and keeps the filter consistent. |
| Spider.WeiboCnSpider.GrabFollow | aio/weibo_cn_async.py:81-110 | `grab_follow`, fetching the job's own URL (the corrected fetch, see Findings), queues the members of that page. Then, when no exception was raised, the job's URL has no `page=`, and the page has a `pagelist`, it appends the jobs of pages 2..value to the follower queue. |
| Spider.SendAllSends | aio/weibo_cn_async.py:173-229 | Sending queues no user. It appends, in order, the records before the first exception, and ends without one exactly when every record was built. Every record is then sent. |
| Spider.SendAllStop | aio/weibo_cn_async.py:173-229 | After an exception, the later tweets send nothing. |
| Spider.TweetDivsSends | aio/weibo_cn_async.py:172-229 | A timeline page queues no user. It sends, in page order, the record of each tweet before the first whose time text cannot be converted. When it raises, it stops at a tweet whose record fails. It ends without an exception exactly when every tweet was sent. |
| Spider.WeiboCnSpider.SendRecords | aio/weibo_cn_async.py:173-229 | The send loop has exactly the effects and exception of sending the records in order. |
| Spider.WeiboCnSpider.GrabUserTweet | aio/weibo_cn_async.py:167-255 | `grab_user_tweet` sends the record of each tweet of the page at the job's URL. Then, on a first page with a `pagelist` and no exception, it appends the jobs of pages 2..min(value, 500) under `weibo_limit`, or 2..value otherwise. Times are those of the corrected `get_time`. |
| Records.TweetRecord | aio/weibo_cn_async.py:173-227 | A tweet's record fails exactly when its time text cannot be converted, with the conversion's exception. Otherwise it carries the div's id, the job's uid, the time converted by the corrected `get_time`, the source after `来自`, and the content of the div's text. Its flag is 转发 for a repost and 原创 for an original. Only a repost has a `sourceTid`, and a repost's is the one read from its comment link. Its counters are read from the footer with fallback -1. |
| Records.RepostParts | aio/weibo_cn_async.py:186-198 | A repost's content is its reason after "转发理由:"; its footer is the `;`-join of the fields after the first no-break space. |
| Fields.TweetTimeSource | aio/weibo_cn_async.py:191-197 | On a tweet, the time never contains `来自`. A time line without `来自` gives itself as the time and 'unknown' as the source. |
| Fields.CommentTimeSource | aio/weibo_cn_async.py:407-412 | On a comment, an empty time line sets neither time nor source. Otherwise the time never contains `来自`, and without `来自` there is no source. |
| Fields.TimeSourceRoundTrip | aio/weibo_cn_async.py:191-197 | Splitting `time + 来自 + source` gives back time and source, on tweets and on comments. |
| Fields.TimeSourceAmbiguous | aio/weibo_cn_async.py:194-197 | With two `来自` marks, the source is 'unknown' on a tweet and absent on a comment. |
| Fields.TimeSourceSitesAgree | aio/weibo_cn_async.py:407-412 | Tweets and comments agree on the time. The comment has a source exactly when the split has two pieces, and it is then the tweet's source; otherwise the tweet's source is 'unknown'. |
| Fields.TweetTimeSourceParts | aio/weibo_cn_async.py:203-210 | The time is a prefix of the time line, ended by the first `来自`. With exactly two pieces, the line is time + `来自` + source. |
| Fields.Counter | aio/weibo_cn_async.py:216-218 | A counter is the non-empty digits of the first `name[digits];` in the text: the pattern matches there and at no earlier position. It is the fallback exactly when the text has no such occurrence. |
| Fields.CounterRoundTrip | aio/weibo_cn_async.py:216-223 | A text whose first `name[n];` follows a prefix without the label's first character yields n's digits. |
| Fields.CounterAbsent | aio/weibo_cn_async.py:223-225 | A text without `name[` yields the fallback. |
| Fields.TweetCounters | aio/weibo_cn_async.py:216-225 | Each of like, transfer and comment falls back to the caller's fallback. |
| Fields.TweetCountersOfFooter | aio/weibo_cn_async.py:216-225 | A footer `赞[a];转发[b];评论[c];…` yields a, b and c. |
| Fields.ViewCounters | aio/weibo_cn_async.py:324-335 | Each of the tweet, fans and follow counts of `grab_view` falls back to -1. |
| Fields.ViewCountersOfTip | aio/weibo_cn_async.py:330-335 | A `tip2` text `微博[a];粉丝[b];关注[c];…` gives a as tweetNum, b as fansNum and c as followNum. |
| Fields.ViewCountersWithoutBlock | aio/weibo_cn_async.py:326-335 | A home page without the `tip2` block reports -1 for all three counts. |
| Records.QuotedCountersDefaultToZero | aio/weibo_cn_async.py:441-447 | The quoted tweet of a comment page falls back to 0 where a timeline tweet falls back to -1. |
| Fields.ProfileLinkId | aio/weibo_cn_async.py:56 | A profile-link match yields only digits. Without one, no position of the href matches. |
| Fields.ProfileLinkRoundTrip | aio/weibo_cn_async.py:88-90 | `https://weibo.cn/u/` + digits + a non-digit tail yields those digits. |
| Fields.ProfileLinkAbsent | aio/weibo_cn_async.py:88-92 | An href without `cn/u/` has no profile-link id, so the home page is asked. |
| Fields.UserIdFromHomepage | aio/weibo_cn_async.py:377-386 | A page without a "资料" link gives 0. A link without `/` raises IndexError. Otherwise the id is the text after the first `/`, up to the next `/` or the end, and contains no `/`. |
| Fields.HomepageRoundTrip | aio/weibo_cn_async.py:383 | A "资料" link `p/id/…` or `p/id`, with no `/` in p or id, yields id. |
| Fields.LinkUserId | aio/weibo_cn_async.py:399-403 | An href starting with `/u/` yields the id that, put after `/u/`, gives the href back, without the home page. Any other href gives 0 without a "资料" link, and raises IndexError exactly when that link has no `/`. |
| Fields.LinkUserIdRoundTrip | aio/weibo_cn_async.py:427-431 | `/u/` + id yields id. |
| Fields.SourceTid | aio/weibo_cn_async.py:179-185 | A repost's `sourceTid` is set exactly when its comment link exists, and contains neither `/` nor `?`. |
| Fields.SourceTidRoundTrip | aio/weibo_cn_async.py:181-182 | `p/tid?query` yields tid when p has no `?` and tid has neither `/` nor `?`. |
| Records.CommentRecord | aio/weibo_cn_async.py:405-415 | A comment's record carries the author, content, id and tweetId. It has a time exactly when its time line is not empty, and that time is the text before `来自` converted by the corrected `get_time`. Its source is the second of exactly two pieces. It fails exactly when the time text cannot be converted. |
| Spider.CommentDivsSend | aio/weibo_cn_async.py:394-416 | The comments keep the filter and queue consistent. Every record sent is a comment of this tweet, whose truthy author is in the filter. Without an exception, exactly the comments with a user link are sent. |
| Spider.CommentDivsRecords | aio/weibo_cn_async.py:394-416 | The comments only append to the user queue, and only their authors' resolved truthy ids. Without an exception, the sent log gains exactly the message of each comment with a user link, in page order. |
| Spider.CommentDivsStop | aio/weibo_cn_async.py:394-416 | After an exception, the later comments change nothing. |
| Spider.WeiboCnSpider.SendComments | aio/weibo_cn_async.py:394-416 | The comment loop has exactly the effects and exception of the comments function, and keeps the filter consistent. |
| Records.QuotedTweetRecord | aio/weibo_cn_async.py:421-459 | Nothing is sent exactly when there is no main tweet or it has no user link. Otherwise the step fails exactly when the author's id raises, the page has no counters line, or an original's time cannot be converted. A failed author id or a missing counters line raises IndexError. A record carries the job's tweetId and the counters of the first counters line, with fallback 0. A repost's record has no content, time, source or uid. An original's has its content, its author's id, and, when its time line is not empty, the time converted by the corrected `get_time` and the source of a two-piece split. |
| Spider.WeiboCnSpider.GrabTweetComments | aio/weibo_cn_async.py:388-468 | `grab_tweet_comments` sends the comments; then, on a first page without an exception, the main tweet's record and the comment jobs of pages 2..value. Times are those of the corrected `get_time`. |
| Timestamps.GetTimeVerbatimIff | aio/weibo_cn_async.py:338-358 | `get_time` returns its input unchanged exactly when none of the three patterns matches anywhere in it. |
| Timestamps.TakesMinutesAgo | aio/weibo_cn_async.py:339-343 | A "N分钟前" match decides the result, whatever else the text holds. |
| Timestamps.TakesToday | aio/weibo_cn_async.py:345-349 | Without a "N分钟前" match, a "今天 HH:MM" match decides the result. |
| Timestamps.TakesMonthDay | aio/weibo_cn_async.py:351-356 | Without either earlier match, a "M月D日 HH:MM" match decides the result. |
| Timestamps.MinutesAgoStamp | aio/weibo_cn_async.py:339-343 | "N分钟前…" is the stamp of the valid datetime N minutes before `now` (same seconds), or OverflowError before year 1. |
| Timestamps.MinutesAgoWithoutNumber | aio/weibo_cn_async.py:342 | "分钟前" without a number raises ValueError. |
| Timestamps.TodayStamp | aio/weibo_cn_async.py:345-349 | Corrected: "今天 HH:MM" is that time on `now`'s date. It fails exactly when a number is missing or out of range: OverflowError when both are present and one exceeds 2147483647 (a C `int`), else ValueError. |
| Timestamps.TodayStampAsWritten | aio/weibo_cn_async.py:347-348 | As written, "今天 HH:MM" is HH:HH on `now`'s date, and fails exactly when HH is missing or at least 24. |
| Timestamps.TodayMinuteLost | aio/weibo_cn_async.py:347-348 | "今天 10:30" comes out as 10:10 as written and 10:30 corrected. |
| Timestamps.MonthDayStamp | aio/weibo_cn_async.py:351-356 | "M月D日 HH:MM" is that date and time in `now`'s year. It fails exactly when a number is missing or the date is invalid: OverflowError when all four are present and one exceeds 2147483647 (a C `int`), else ValueError. |
| Timestamps.MinutesAgoIsStamp | aio/weibo_cn_async.py:342-343 | A successful "N分钟前" branch yields the stamp of a valid datetime. |
| Timestamps.TodayIsStamp | aio/weibo_cn_async.py:347-349 | A successful "today" branch yields the stamp of a valid datetime. |
| Timestamps.MonthDayIsStamp | aio/weibo_cn_async.py:353-356 | A successful "M月D日" branch yields the stamp of a valid datetime. |
| Timestamps.MinutesAgoMatch | aio/weibo_cn_async.py:53 | `(\d*)分钟前` at the start of "d分钟前…" captures d. |
| Timestamps.TodayAtStart | aio/weibo_cn_async.py:54 | `今天\s*(\d*):(\d*)` on "今天 HH:MM…" captures HH and MM. |
| Timestamps.MonthDayAtStart | aio/weibo_cn_async.py:55 | `(\d*)月(\d*)日\s*(\d*):(\d*)` on "M月D日 HH:MM" captures M, D, HH and MM. |
| Clock.Make | aio/weibo_cn_async.py:347-348 | `datetime(...)` succeeds exactly on a valid date and time. It raises OverflowError exactly when a field does not fit a C `int`, and ValueError otherwise. |
| Clock.MinusMinutes | aio/weibo_cn_async.py:342 | Subtracting n minutes fails (OverflowError) exactly when it would fall before 0001-01-01 00:00. Otherwise it gives a valid datetime n minutes earlier, with the same seconds. |
| Clock.MinuteNumberRoundTrip | aio/weibo_cn_async.py:342 | Every valid datetime is the one its minute number names. |
| Clock.MinuteNumberInjective | aio/weibo_cn_async.py:342 | Two valid datetimes with the same minute number and seconds are equal. |
| Clock.Format | aio/weibo_cn_async.py:343 | A stamp holds only digits, `-`, ` ` and `:`. |
| Clock.FormatRoundTrip | aio/weibo_cn_async.py:343 | A stamp reads back as the datetime it was written from: the year before `-`, then month, day, hour, minute and second as two-digit fields in `%Y-%m-%d %H:%M:%S` order. |
| Clock.FormatInjective | aio/weibo_cn_async.py:343 | Different valid datetimes give different stamps. |
| Clock.PadValue | aio/weibo_cn_async.py:343 | Zero-padding a number to a width at least its length gives exactly that width and reads back as the number. |
| Text.SplitJoin | aio/weibo_cn_async.py:191 | Joining the pieces of a split with the separator gives back the text. |
| Text.SplitPiecesFree | aio/weibo_cn_async.py:191 | No piece of a split contains the separator. |
| Text.NatToStringValue | aio/weibo_cn_async.py:109 | `int(str(n)) == n`. |

## Left out

- HTTP fetching and cookie rotation (`grab_html`, `grab_html2`, `RedisCookie`) are I/O. A page is whatever the `Site` parameter gives for the URL.
- BeautifulSoup's parsing and traversal are left out. The model starts from the strings, flags and numbers `find`, `find_all` and `get_text` return. The `AttributeError` of a missing element (`.find(...)` returning `None`) is therefore not modelled. Neither are the errors of `int(page_div.input.get('value'))` at aio/weibo_cn_async.py:106, 249 and 464: AttributeError when the pagelist has no `<input>`, TypeError when the `<input>` has no `value`, and ValueError for a non-numeric value. `pagelist` is an optional integer.
- Redis and Kafka internals are left out. `push_job` appends to one sequence per job kind and `send` appends to one log. Jobs already in Redis from earlier runs are not tracked. Only this process's pushes are modelled, which is what the filter, itself not persistent, describes.
- The bloom filter is an exact set: its false positives and its growth are left out.
- The `crawl_*` `while True` loops, their `try/except`, `sleep(5 * 60)` and the `TimeoutError` swallow are left out. So are `start` and asyncio concurrency, including races between workers on the filter. One call of a step is modelled, and its exception is returned.
- The repost job at line 419 is built but its coroutine is never awaited, so the model pushes no repost job.
- `grab_user_info` (the profile sections and nickname regexes) is outside this model. Only the counters of `grab_view` are modelled (`Fields.ViewCounters`).
- `datetime.now()` is the parameter `now`; microseconds are not modelled because the format drops them.
- `\d` matches ASCII digits only, and `\s` the whitespace of Python's `str.isspace`. Python's `re` also accepts other Unicode digits for `\d`.
- Records are built before any of them is sent. Building a record has no side effect, so the effects and the first exception are the same as in the source, which builds each one just before sending it.
- Text.ParseDigits: `int()` on a digit string of any length gives its value. Python versions that cap `int()` at 4300 digits raise ValueError there instead, which the model does not follow.
- `Clock.Format`: years below 1000 are written without zero padding, as glibc's `%Y` writes them; other C libraries may pad.

## Findings

| source | as written | input that shows it | evidently intended | confidence | as-written member | corrected member |
|---|---|---|---|---|---|---|
| aio/weibo_cn_async.py:347-348 | the "today" branch passes `int(current_result[0][0])`, the hour capture, as both hour and minute | "今天 10:30" gives 10:10 instead of 10:30; "今天 23:05" gives 23:23; "今天 24:00" is refused | `current_result[0][1]` for the minute | high (not executed) | Timestamps.TodayStampAsWritten | Timestamps.TodayStamp |
| aio/weibo_cn_async.py:83 | `grab_follow` fetches `self.follow_url % follow_dict['uid']`, the first page, for every job | the job `{'url': 'https://weibo.cn/123/follow?page=2', 'uid': '123'}` fetches `https://weibo.cn/123/follow` again; pages 2..M are never read | fetch `follow_dict['url']`, as `grab_user_tweet` and `grab_tweet_comments` do | high (not executed) | Jobs.FollowPagesRefetchFirst | Jobs.FollowPagesFetchOwn |
