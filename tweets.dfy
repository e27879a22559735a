// The values the echo bot reads from the Twitter API and the requests it
// makes through the writer account.

module Tweets {

  datatype Option<T> = None | Some(value: T)

  /** One entry of a tweet's `entities.media`: `url` is the t.co link that
      appears in the tweet's text, `mediaUrl` the address of the image file,
      `kind` the entity's `type` ("photo", "video", ...). */
  datatype Media = Media(url: string, mediaUrl: string, kind: string)

  /** A status as returned by `statuses/user_timeline`. Times are
      milliseconds since the epoch. `inReplyToStatusId` is the numeric
      `in_reply_to_status_id` (None for null); `retweetedStatus` is the
      embedded original of a retweet; `media` is None when the tweet has
      no `entities` or its entities have no `media` array. */
  datatype Tweet = Tweet(
    idStr: string,
    createdAt: int,
    fullText: string,
    inReplyToStatusId: Option<nat>,
    retweetedStatus: Option<Tweet>,
    media: Option<seq<Media>>)

  /** A request the bot makes through the writer account. */
  datatype Action =
    | Retweet(statusId: string)
    | Echo(status: string, mediaIds: seq<string>)

  /** What a `statuses/user_timeline` callback delivers: an error or a batch. */
  datatype FetchResult = FetchFailed | Fetched(tweets: seq<Tweet>)

  /** JavaScript truthiness of `tweet.in_reply_to_status_id`: null and 0 are falsy. */
  predicate IsReply(t: Tweet) {
    t.inReplyToStatusId.Some? && t.inReplyToStatusId.value != 0
  }
}
