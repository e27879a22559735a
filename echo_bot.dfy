// The TwitterEchoBot class: the watermark state machine (init,
// processNewTweets) and the per-tweet dispatch to retweet/echoTweet.
// API responses, uploads and the clock are parameters; the requests made
// through the writer account are appended to `sent`.

module EchoBot {
  import opened Tweets
  import opened TextCleaner
  import opened Dispatch
  import opened TimeOrder

  /** `new Date(created_at) > lastTweetTime`. A null watermark compares as
      the number 0, so it admits every tweet created after the epoch. */
  predicate IsNewer(createdAt: int, watermark: Option<int>) {
    match watermark
    case None => createdAt > 0
    case Some(w) => createdAt > w
  }

  /** The tweets of `s` that pass the watermark test, in their order in `s`. */
  function NewTweets(s: seq<Tweet>, watermark: Option<int>): seq<Tweet>
  {
    if s == [] then []
    else
      var last := s[|s| - 1];
      NewTweets(s[..|s| - 1], watermark) + (if IsNewer(last.createdAt, watermark) then [last] else [])
  }

  /** The requests made when the tweets of `s` are processed in order. */
  function Dispatched(s: seq<Tweet>, upload: string -> Option<string>): seq<Action>
  {
    if s == [] then [] else Dispatched(s[..|s| - 1], upload) + TweetActions(s[|s| - 1], upload)
  }

  /** The requests made when the tweets of `s` newer than the watermark
      are processed in order. */
  function Replay(s: seq<Tweet>, watermark: Option<int>, upload: string -> Option<string>): seq<Action>
  {
    Dispatched(NewTweets(s, watermark), upload)
  }

  /** The bot's fields together with the requests it has made so far. */
  datatype BotState = BotState(lastTweetTime: Option<int>, initialized: bool, sent: seq<Action>)

  /** The `init` callback: an error throws before anything changes (None);
      otherwise a single returned tweet sets the watermark, and in every
      case the bot becomes initialized. */
  function InitStep(st: BotState, response: FetchResult): Option<BotState>
  {
    match response
    case FetchFailed => None
    case Fetched(data) =>
      Some(st.(lastTweetTime := if |data| == 1 then Some(data[0].createdAt) else st.lastTweetTime,
               initialized := true))
  }

  /** One `processNewTweets` call, given the reader's response, the clock
      reading `now` taken at its end and the upload endpoint. */
  function Cycle(st: BotState, fetch: FetchResult, now: int, upload: string -> Option<string>): BotState
  {
    if !st.initialized then st
    else
      match fetch
      case FetchFailed => st
      case Fetched(data) =>
        st.(lastTweetTime := Some(now),
            sent := st.sent + Replay(SortByTime(data), st.lastTweetTime, upload))
  }

  class TwitterEchoBot {
    var lastTweetTime: Option<int>
    var initialized: bool
    var sent: seq<Action>

    function State(): BotState
      reads this
    {
      BotState(lastTweetTime, initialized, sent)
    }

    /** The constructor; its call to `init` is the separate method Init,
        whose response arrives later. */
    constructor ()
      ensures State() == BotState(None, false, [])
    {
      lastTweetTime := None;
      initialized := false;
      sent := [];
    }

    method Init(response: FetchResult) returns (ok: bool)
      modifies this
      ensures ok <==> response.Fetched?
      ensures InitStep(old(State()), response) == if ok then Some(State()) else None
      ensures !ok ==> State() == old(State())
    {
      match response
      case FetchFailed =>
        ok := false;
      case Fetched(data) =>
        if |data| == 1 {
          lastTweetTime := Some(data[0].createdAt);
        }
        initialized := true;
        ok := true;
    }

    method Retweet(original: Tweet)
      modifies this
      ensures lastTweetTime == old(lastTweetTime) && initialized == old(initialized)
      ensures sent == old(sent) + [Action.Retweet(original.idStr)]
    {
      sent := sent + [Action.Retweet(original.idStr)];
    }

    /** echoTweet: cleans the text, waits for every upload, then posts. A
        rejected upload abandons the echo. */
    method EchoTweet(tweet: Tweet, upload: string -> Option<string>)
      modifies this
      ensures lastTweetTime == old(lastTweetTime) && initialized == old(initialized)
      ensures PostPhotos(tweet.media, upload).None? ==> sent == old(sent)
      ensures PostPhotos(tweet.media, upload).Some? ==>
        sent == old(sent) + [Echo(CleanText(tweet.fullText, tweet.media), PostPhotos(tweet.media, upload).value)]
    {
      var cleaned := CleanTweetText(tweet);
      var photoIds := PostPhotos(cleaned.media, upload);
      if photoIds.Some? {
        sent := sent + [Echo(cleaned.fullText, photoIds.value)];
      }
    }

    method ProcessTweet(tweet: Tweet, upload: string -> Option<string>)
      modifies this
      ensures lastTweetTime == old(lastTweetTime) && initialized == old(initialized)
      ensures sent == old(sent) + TweetActions(tweet, upload)
    {
      if IsReply(tweet) {
      } else if tweet.retweetedStatus.Some? {
        Retweet(tweet.retweetedStatus.value);
      } else {
        EchoTweet(tweet, upload);
      }
    }

    /** One iteration of the `forEach`: a tweet is processed only when it
        is newer than the watermark. */
    method ProcessIfNewer(tweet: Tweet, upload: string -> Option<string>)
      modifies this
      ensures lastTweetTime == old(lastTweetTime) && initialized == old(initialized)
      ensures sent == old(sent) + (if IsNewer(tweet.createdAt, lastTweetTime) then TweetActions(tweet, upload) else [])
    {
      if IsNewer(tweet.createdAt, lastTweetTime) {
        ProcessTweet(tweet, upload);
      }
    }

    /** The `forEach` body for the tweet at index `i` of the sorted batch:
        the requests made so far grow from those for `sorted[..i]` to those
        for `sorted[..i + 1]`. */
    method ProcessAt(sorted: seq<Tweet>, i: nat, upload: string -> Option<string>, ghost start: seq<Action>)
      requires i < |sorted|
      requires sent == start + Replay(sorted[..i], lastTweetTime, upload)
      modifies this
      ensures lastTweetTime == old(lastTweetTime) && initialized == old(initialized)
      ensures sent == start + Replay(sorted[..i + 1], lastTweetTime, upload)
    {
      ghost var before := sent;
      ProcessIfNewer(sorted[i], upload);
      ReplayStep(sorted[..i], sorted[i], lastTweetTime, upload, start, before, sent);
      assert sorted[..i + 1] == sorted[..i] + [sorted[i]];
    }

    /** The `forEach` over the sorted batch: processes each tweet newer
        than the watermark, in batch order. */
    method ProcessSorted(sorted: seq<Tweet>, upload: string -> Option<string>)
      modifies this
      ensures lastTweetTime == old(lastTweetTime) && initialized == old(initialized)
      ensures sent == old(sent) + Replay(sorted, lastTweetTime, upload)
    {
      var i := 0;
      while i < |sorted|
        invariant 0 <= i <= |sorted|
        invariant lastTweetTime == old(lastTweetTime) && initialized == old(initialized)
        invariant sent == old(sent) + Replay(sorted[..i], lastTweetTime, upload)
      {
        ProcessAt(sorted, i, upload, old(sent));
        i := i + 1;
      }
      assert sorted[..|sorted|] == sorted;
    }

    method ProcessNewTweets(fetch: FetchResult, now: int, upload: string -> Option<string>)
      modifies this
      ensures State() == Cycle(old(State()), fetch, now, upload)
    {
      if !initialized {
        return;
      }
      match fetch
      case FetchFailed =>
        return;
      case Fetched(data) =>
        var sorted := new Tweet[|data|](k requires 0 <= k < |data| => data[k]);
        assert sorted[..] == data;
        SortInPlace(sorted);
        ProcessSorted(sorted[..], upload);
        lastTweetTime := Some(now);
    }
  }

  lemma ReplayStep(prefix: seq<Tweet>, t: Tweet, w: Option<int>, upload: string -> Option<string>,
                   start: seq<Action>, before: seq<Action>, after: seq<Action>)
    requires before == start + Replay(prefix, w, upload)
    requires after == before + (if IsNewer(t.createdAt, w) then TweetActions(t, upload) else [])
    ensures after == start + Replay(prefix + [t], w, upload)
  {
    ReplayAppend(prefix, t, w, upload);
  }

  lemma ReplayAppend(s: seq<Tweet>, t: Tweet, w: Option<int>, upload: string -> Option<string>)
    ensures Replay(s + [t], w, upload) == Replay(s, w, upload) + (if IsNewer(t.createdAt, w) then TweetActions(t, upload) else [])
  {
    NewTweetsAppend(s, t, w);
    if IsNewer(t.createdAt, w) {
      DispatchedAppend(NewTweets(s, w), t, upload);
    } else {
      assert NewTweets(s + [t], w) == NewTweets(s, w);
    }
  }

  lemma NewTweetsAppend(s: seq<Tweet>, t: Tweet, w: Option<int>)
    ensures NewTweets(s + [t], w) == NewTweets(s, w) + (if IsNewer(t.createdAt, w) then [t] else [])
  {
    assert (s + [t])[..|s|] == s;
  }

  lemma DispatchedAppend(s: seq<Tweet>, t: Tweet, upload: string -> Option<string>)
    ensures Dispatched(s + [t], upload) == Dispatched(s, upload) + TweetActions(t, upload)
  {
    assert (s + [t])[..|s|] == s;
  }

  /** A tweet is processed exactly when it is in the batch and newer than
      the watermark. */
  lemma {:induction false} NewTweetsMembers(s: seq<Tweet>, w: Option<int>, t: Tweet)
    ensures t in NewTweets(s, w) <==> t in s && IsNewer(t.createdAt, w)
  {
    if s != [] {
      var init := s[..|s| - 1];
      NewTweetsMembers(init, w, t);
      assert s == init + [s[|s| - 1]];
    }
  }

  /** Filtering keeps the batch's order, so a sorted batch is processed in
      non-decreasing time order. */
  lemma {:induction false} NewTweetsSorted(s: seq<Tweet>, w: Option<int>)
    requires Sorted(s)
    ensures Sorted(NewTweets(s, w))
  {
    if s != [] {
      var init := s[..|s| - 1];
      var last := s[|s| - 1];
      NewTweetsSorted(init, w);
      forall t | t in NewTweets(init, w) ensures t.createdAt <= last.createdAt {
        NewTweetsMembers(init, w, t);
      }
    }
  }

  /** With no watermark, every tweet created after the epoch is processed. */
  lemma {:induction false} UnsetWatermarkAdmitsAll(s: seq<Tweet>)
    requires forall i :: 0 <= i < |s| ==> s[i].createdAt > 0
    ensures NewTweets(s, None) == s
  {
    if s != [] {
      UnsetWatermarkAdmitsAll(s[..|s| - 1]);
    }
  }

  /** Tweets no newer than the watermark are never processed. */
  lemma {:induction false} StaleTweetsIgnored(s: seq<Tweet>, w: int)
    requires forall i :: 0 <= i < |s| ==> s[i].createdAt <= w
    ensures NewTweets(s, Some(w)) == []
  {
    if s != [] {
      StaleTweetsIgnored(s[..|s| - 1], w);
    }
  }

  /** Each processed tweet leads to at most one request. */
  lemma {:induction false} DispatchedBound(s: seq<Tweet>, upload: string -> Option<string>)
    ensures |Dispatched(s, upload)| <= |s|
  {
    if s != [] {
      DispatchedBound(s[..|s| - 1], upload);
      AtMostOneAction(s[|s| - 1], upload);
    }
  }

  /** Every request comes from one of the processed tweets. */
  lemma {:induction false} DispatchedFrom(s: seq<Tweet>, upload: string -> Option<string>, a: Action)
    requires a in Dispatched(s, upload)
    ensures exists t :: t in s && a in TweetActions(t, upload)
  {
    var init := s[..|s| - 1];
    var last := s[|s| - 1];
    assert s == init + [last];
    if a !in TweetActions(last, upload) {
      DispatchedFrom(init, upload, a);
    }
  }

  /** Before `init` has completed, a cycle does nothing. */
  lemma CycleBeforeInit(st: BotState, fetch: FetchResult, now: int, upload: string -> Option<string>)
    requires !st.initialized
    ensures Cycle(st, fetch, now, upload) == st
  {
  }

  /** A failed fetch leaves the watermark and the requests as they were. */
  lemma CycleFetchFailed(st: BotState, now: int, upload: string -> Option<string>)
    ensures Cycle(st, FetchFailed, now, upload) == st
  {
  }

  /** After a successful fetch the watermark is the clock reading, so it
      never moves back when the clock does not; the requests only grow. */
  lemma CycleWatermark(st: BotState, data: seq<Tweet>, now: int, upload: string -> Option<string>)
    requires st.initialized
    ensures Cycle(st, Fetched(data), now, upload).lastTweetTime == Some(now)
    ensures Cycle(st, Fetched(data), now, upload).sent[..|st.sent|] == st.sent
  {
  }

  /** Every request a cycle makes comes from a fetched tweet newer than the
      old watermark, and there are no more of them than fetched tweets. */
  lemma CycleOnlyNewTweets(st: BotState, data: seq<Tweet>, now: int, upload: string -> Option<string>, a: Action)
    requires st.initialized
    requires a in Cycle(st, Fetched(data), now, upload).sent[|st.sent|..]
    ensures exists t :: t in data && IsNewer(t.createdAt, st.lastTweetTime) && a in TweetActions(t, upload)
    ensures |Cycle(st, Fetched(data), now, upload).sent| <= |st.sent| + |data|
  {
    var sorted := SortByTime(data);
    var newer := NewTweets(sorted, st.lastTweetTime);
    var after := Cycle(st, Fetched(data), now, upload).sent;
    assert after[|st.sent|..] == Dispatched(newer, upload);
    DispatchedFrom(newer, upload, a);
    var t :| t in newer && a in TweetActions(t, upload);
    NewTweetsMembers(sorted, st.lastTweetTime, t);
    SortByTimeCorrect(data);
    assert t in multiset(data);
    CycleRequestBound(st, data, now, upload);
  }

  /** A cycle makes no more requests than it fetched tweets. */
  lemma CycleRequestBound(st: BotState, data: seq<Tweet>, now: int, upload: string -> Option<string>)
    ensures |Cycle(st, Fetched(data), now, upload).sent| <= |st.sent| + |data|
  {
    if st.initialized {
      var sorted := SortByTime(data);
      var newer := NewTweets(sorted, st.lastTweetTime);
      assert Cycle(st, Fetched(data), now, upload).sent == st.sent + Dispatched(newer, upload);
      SortByTimeCorrect(data);
      DispatchedBound(newer, upload);
      NewTweetsLength(sorted, st.lastTweetTime);
      assert |sorted| == |multiset(sorted)| == |data|;
    }
  }

  lemma {:induction false} NewTweetsLength(s: seq<Tweet>, w: Option<int>)
    ensures |NewTweets(s, w)| <= |s|
  {
    if s != [] {
      NewTweetsLength(s[..|s| - 1], w);
    }
  }

  /** The tweets a cycle processes are taken in non-decreasing time order. */
  lemma CycleInTimeOrder(data: seq<Tweet>, w: Option<int>)
    ensures Sorted(NewTweets(SortByTime(data), w))
  {
    SortByTimeCorrect(data);
    NewTweetsSorted(SortByTime(data), w);
  }

  /** Running a second cycle over tweets the first already covered (none
      created after the first cycle's clock reading) makes no request. */
  lemma CycleIdempotent(st: BotState, data: seq<Tweet>, now: int, data': seq<Tweet>, now': int,
                        upload: string -> Option<string>)
    requires forall i :: 0 <= i < |data'| ==> data'[i].createdAt <= now
    ensures var st' := Cycle(st, Fetched(data), now, upload);
            Cycle(st', Fetched(data'), now', upload).sent == st'.sent
  {
    var sorted := SortByTime(data');
    SortByTimeCorrect(data');
    forall i | 0 <= i < |sorted| ensures sorted[i].createdAt <= now {
      assert sorted[i] in multiset(data');
    }
    StaleTweetsIgnored(sorted, now);
  }

  /** `init` sets the watermark from a single returned tweet, keeps it
      otherwise, and marks the bot initialized unless the fetch failed. */
  lemma InitSetsWatermark(st: BotState, data: seq<Tweet>)
    ensures InitStep(st, Fetched(data)).Some?
    ensures InitStep(st, Fetched(data)).value.initialized
    ensures |data| == 1 ==> InitStep(st, Fetched(data)).value.lastTweetTime == Some(data[0].createdAt)
    ensures |data| != 1 ==> InitStep(st, Fetched(data)).value.lastTweetTime == st.lastTweetTime
    ensures InitStep(st, Fetched(data)).value.sent == st.sent
  {
  }
}
