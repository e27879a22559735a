// processTweet's three-way dispatch, postPhotos' order-preserving media-id
// assembly, and the writer request echoTweet/retweet make for one tweet.

module Dispatch {
  import opened Tweets
  import opened TextCleaner

  /** What processTweet decides for one status, in priority order. */
  datatype Disposition = IgnoreReply | RetweetOriginal(original: Tweet) | EchoText

  function Classify(t: Tweet): Disposition
  {
    if IsReply(t) then IgnoreReply
    else if t.retweetedStatus.Some? then RetweetOriginal(t.retweetedStatus.value)
    else EchoText
  }

  /** The ids `Promise.all` resolves to when every entry in `entries` is
      uploaded through `upload` (media_url to `media_id_string`, or None when
      the upload fails), or None when any upload rejects. */
  function UploadAll(entries: seq<Media>, upload: string -> Option<string>): (r: Option<seq<string>>)
    ensures r.Some? <==> forall i :: 0 <= i < |entries| ==> upload(entries[i].mediaUrl).Some?
    ensures r.Some? ==> |r.value| == |entries|
    ensures r.Some? ==> forall i :: 0 <= i < |entries| ==> upload(entries[i].mediaUrl) == Some(r.value[i])
  {
    if entries == [] then Some([])
    else
      match upload(entries[0].mediaUrl)
      case None => None
      case Some(id) =>
        match UploadAll(entries[1..], upload)
        case None => None
        case Some(rest) => Some([id] + rest)
  }

  /** postPhotos: no media entities gives the empty list; otherwise one id
      per entry, whatever its `type` (the photo filter's result is dropped). */
  function PostPhotos(media: Option<seq<Media>>, upload: string -> Option<string>): Option<seq<string>>
  {
    match media
    case None => Some([])
    case Some(entries) => UploadAll(entries, upload)
  }

  /** The writer requests processTweet leads to for one status. An echo is
      posted only once every upload has resolved. */
  function TweetActions(t: Tweet, upload: string -> Option<string>): seq<Action>
  {
    match Classify(t)
    case IgnoreReply => []
    case RetweetOriginal(original) => [Retweet(original.idStr)]
    case EchoText =>
      match PostPhotos(t.media, upload)
      case None => []
      case Some(ids) => [Echo(CleanText(t.fullText, t.media), ids)]
  }

  /** A reply produces no request, whether or not it is also a retweet. */
  lemma ReplyIgnored(t: Tweet, upload: string -> Option<string>)
    requires IsReply(t)
    ensures Classify(t) == IgnoreReply && TweetActions(t, upload) == []
  {
  }

  /** A retweet that is not a reply produces exactly one retweet of the
      original status and no echo. */
  lemma RetweetNotEchoed(t: Tweet, upload: string -> Option<string>)
    requires !IsReply(t) && t.retweetedStatus.Some?
    ensures TweetActions(t, upload) == [Retweet(t.retweetedStatus.value.idStr)]
  {
  }

  /** Any other status produces exactly one echo, of its cleaned text with
      its media ids, when every upload succeeds, and nothing otherwise. */
  lemma PlainTweetEchoed(t: Tweet, upload: string -> Option<string>)
    requires !IsReply(t) && t.retweetedStatus.None?
    ensures |TweetActions(t, upload)| <= 1
    ensures PostPhotos(t.media, upload).Some? <==> |TweetActions(t, upload)| == 1
    ensures forall a :: a in TweetActions(t, upload) ==>
              a == Echo(CleanText(t.fullText, t.media), PostPhotos(t.media, upload).value)
  {
  }

  /** Every status leads to at most one request, and a retweet request
      only ever comes from a non-reply retweet. */
  lemma AtMostOneAction(t: Tweet, upload: string -> Option<string>)
    ensures |TweetActions(t, upload)| <= 1
    ensures forall a :: a in TweetActions(t, upload) && a.Retweet? ==>
              !IsReply(t) && t.retweetedStatus.Some? && a.statusId == t.retweetedStatus.value.idStr
    ensures forall a :: a in TweetActions(t, upload) && a.Echo? ==>
              !IsReply(t) && t.retweetedStatus.None?
  {
  }

  /** postPhotos assembles ids in entry order and never looks at an entry's
      `type`: entries that differ only in kind give the same ids. */
  lemma {:induction false} UploadIgnoresKind(e1: seq<Media>, e2: seq<Media>, upload: string -> Option<string>)
    requires |e1| == |e2|
    requires forall i :: 0 <= i < |e1| ==> e1[i].mediaUrl == e2[i].mediaUrl
    ensures UploadAll(e1, upload) == UploadAll(e2, upload)
  {
    if e1 != [] {
      UploadIgnoresKind(e1[1..], e2[1..], upload);
    }
  }

  /** A tweet without media entities echoes with no media ids. */
  lemma NoMediaNoIds(t: Tweet, upload: string -> Option<string>)
    requires !IsReply(t) && t.retweetedStatus.None? && t.media.None?
    ensures TweetActions(t, upload) == [Echo(t.fullText, [])]
  {
  }
}
