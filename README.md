# twitter-echo-bot core in Dafny

This project models the sync cycle of the `TwitterEchoBot` class in `lib/TwitterEchoBot.js`. The bot reads the timeline of one account and replays it on a writer account. It skips replies. It retweets the original of each retweet. It echoes every other tweet as a new status, with the first copy of each media link removed from the text and the media re-uploaded.

The Twitter API, the media download and the clock do not appear as code. They are parameters:
- a `FetchResult` stands for what a `statuses/user_timeline` callback delivers (an error or a batch);
- `upload: string -> Option<string>` maps a `media_url` to the `media_id_string` the upload endpoint returns (None when the upload fails);
- `now` is the `new Date()` reading at the end of a cycle.

The status requests the bot makes through the writer account (`statuses/retweet/:id`, `statuses/update`) are appended to the field `sent` as `Retweet(id)` and `Echo(text, mediaIds)` actions. The `media/upload` requests are not recorded there; only their outcome, through `upload`, decides whether an echo is posted. Times are integers: milliseconds since the epoch.

Modules:
- `Tweets` (tweets.dfy): the tweet, media entity, action and fetch-result values.
- `TextCleaner` (text_cleaner.dfy): `cleanTweetText`, with the first-occurrence-only semantics of `String.prototype.replace` when the pattern is a string.
- `Dispatch` (dispatch.dfy): `processTweet`'s three-way choice and `postPhotos`' order-preserving id list.
- `TimeOrder` (time_order.dfy): the stable ascending sort of the batch by `created_at`, as a function and as an in-place insertion sort on the fetched array.
- `EchoBot` (echo_bot.dfy): the class with its fields `lastTweetTime`, `initialized` and `sent`. Each method is proved against a pure specification (`InitStep`, `Cycle`, `TweetActions`). The lemmas about those specifications state what a cycle does.

Quirks of the code that the model keeps as written:
- A bot whose writer account has never tweeted keeps `lastTweetTime` null (lib/TwitterEchoBot.js:26-30). JavaScript compares `date > null` as `ms > 0`. So an unset watermark (`None`) admits every tweet created after the epoch (`IsNewer`).
- The photo `filter` at lib/TwitterEchoBot.js:118 discards its result. Every media entry is uploaded, whatever its `type` (`UploadIgnoresKind`).
- `replace` removes only the first copy of each link (`RemoveFirst`, `LaterCopySurvives`).
- `in_reply_to_status_id` is tested for truthiness, so a reply id of 0 does not count as a reply (`IsReply`).

The code has no reply threading, no source-to-destination id map and no reordering of parents before replies. Replies are dropped (lib/TwitterEchoBot.js:72-73). When the writer account has never tweeted, `lastTweetTime` stays null, although the log line at lib/TwitterEchoBot.js:29 says it is starting fresh from now.

## Model

| member | source | states |
|---|---|---|
| Tweets.IsReply | lib/TwitterEchoBot.js:72 | the reply test: `in_reply_to_status_id` is truthy, that is present and not 0 |
| TextCleaner.RemoveUrls | lib/TwitterEchoBot.js:157-160 | the `forEach` over the media entries: the text after each entry's link has been removed once, in entry order |
| TextCleaner.CleanText | lib/TwitterEchoBot.js:155-163 | the text cleanTweetText leaves: unchanged without media entities, otherwise the text with every entry's link removed once |
| TextCleaner.IndexFrom | lib/TwitterEchoBot.js:159 | the search that `replace` performs: the result is the first index at or after the start where the link occurs, or None when it occurs nowhere from there |
| TextCleaner.IndexOf | lib/TwitterEchoBot.js:159 | the first occurrence of the link in the text: the text holds the link there and nowhere earlier; None exactly when the link does not occur |
| TextCleaner.RemoveFirst | lib/TwitterEchoBot.js:159 | `replace(url, '')` leaves the text unchanged when the link does not occur; otherwise the result is the text with the link cut out at its first occurrence, and it is shorter by the link's length |
| TextCleaner.RemoveFirstChanges | lib/TwitterEchoBot.js:159 | `replace` changes the text exactly when the link is non-empty and occurs in it |
| TextCleaner.RemoveUrlsShrinks | lib/TwitterEchoBot.js:155-163 | removing the links one entry at a time never lengthens the text, and removes no more characters than the links' total length |
| TextCleaner.RemoveUrlsAbsent | lib/TwitterEchoBot.js:155-163 | when no entry's link occurs in the text, cleaning leaves it unchanged |
| TextCleaner.CleanTextShrinks | lib/TwitterEchoBot.js:155-163 | the cleaned text is never longer than the original, and a tweet without media entities keeps its text |
| TextCleaner.LaterCopySurvives | lib/TwitterEchoBot.js:159 | `replace` removes one copy only: any occurrence of the link that starts after the end of another one is still in the result, moved left by the link's length |
| TextCleaner.CleanTweetText | lib/TwitterEchoBot.js:155-163 | the loop over the media entries leaves the tweet as it was except for `full_text`, which becomes the cleaned text, no longer than before |
| Dispatch.Classify | lib/TwitterEchoBot.js:71-79 | processTweet's choice, in priority order: a reply is ignored, a retweet is retweeted by its original, anything else is echoed |
| Dispatch.PostPhotos | lib/TwitterEchoBot.js:114-133 | postPhotos: the empty id list without media entities, otherwise the `Promise.all` result over every entry |
| Dispatch.TweetActions | lib/TwitterEchoBot.js:71-110 | the status requests processTweet leads to: none for a reply, one retweet of the original for a retweet, one echo of the cleaned text when every upload succeeds and none when one fails |
| Dispatch.UploadAll | lib/TwitterEchoBot.js:119-130 | `Promise.all` over the uploads: it succeeds exactly when every entry's upload does; then there is one id per entry, and the id at position i is the one returned for entry i |
| Dispatch.UploadIgnoresKind | lib/TwitterEchoBot.js:117-119 | entries that differ only in `type` yield the same ids, because the photo filter's result is thrown away |
| Dispatch.ReplyIgnored | lib/TwitterEchoBot.js:71-73 | a reply is classified as ignored and leads to no request, even if it is also a retweet |
| Dispatch.RetweetNotEchoed | lib/TwitterEchoBot.js:74-75 | a retweet that is not a reply leads to exactly one retweet of the original status's `id_str` and no echo |
| Dispatch.PlainTweetEchoed | lib/TwitterEchoBot.js:76-98 | any other tweet leads to at most one request, an echo of its cleaned text with its media ids; the echo is posted exactly when every upload succeeds |
| Dispatch.AtMostOneAction | lib/TwitterEchoBot.js:71-79 | each tweet leads to at most one status request (retweet or update); a retweet request only comes from a non-reply retweet, and an echo only from a tweet that is neither a reply nor a retweet |
| Dispatch.NoMediaNoIds | lib/TwitterEchoBot.js:114-117 | a plain tweet without media entities is echoed unchanged with an empty id list |
| TimeOrder.Insert | lib/TwitterEchoBot.js:53-55 | one step of the stable sort: the tweet goes after every tweet not later than it |
| TimeOrder.SortByTime | lib/TwitterEchoBot.js:53-55 | the batch as `data.sort` with the `created_at` comparator leaves it: each tweet inserted in turn after the earlier ones not later than it |
| TimeOrder.InsertPermutes | lib/TwitterEchoBot.js:53-55 | one insertion step adds exactly the inserted tweet to the batch |
| TimeOrder.InsertSorted | lib/TwitterEchoBot.js:53-55 | inserting into a time-ordered batch keeps it time-ordered |
| TimeOrder.SortByTimeCorrect | lib/TwitterEchoBot.js:53-55 | the sorted batch is in non-decreasing `created_at` order and is a permutation of the fetched batch |
| TimeOrder.InsertStable | lib/TwitterEchoBot.js:53-55 | inserting a tweet appends it after the existing tweets with the same creation time |
| TimeOrder.SortIsStable | lib/TwitterEchoBot.js:53-55 | the sort is stable: the tweets created at any one time appear in the same relative order as in the fetched batch |
| TimeOrder.InsertAt | lib/TwitterEchoBot.js:53-55 | the insertion step places the tweet after the prefix of tweets not later than it and before the later ones |
| TimeOrder.ShiftLater | lib/TwitterEchoBot.js:53-55 | the inner loop of the in-place sort moves the prefix elements created later than the inserted tweet one place right, keeps the others, and returns the gap between the two groups |
| TimeOrder.InsertLast | lib/TwitterEchoBot.js:53-55 | one step of the in-place sort turns the first i+1 array elements into the sorted prefix with element i inserted, and leaves the rest of the array alone |
| TimeOrder.SortInPlace | lib/TwitterEchoBot.js:53-55 | after the in-place sort the array holds the stably sorted batch |
| EchoBot.IsNewer | lib/TwitterEchoBot.js:58 | `date > lastTweetTime`: strictly later than the watermark, and after the epoch when the watermark is null |
| EchoBot.NewTweets | lib/TwitterEchoBot.js:56-61 | the tweets of the sorted batch the `forEach` processes: those newer than the watermark, in batch order |
| EchoBot.Dispatched | lib/TwitterEchoBot.js:56-61 | the requests of processing the tweets of s in order, each through processTweet (lib/TwitterEchoBot.js:71-79) |
| EchoBot.Replay | lib/TwitterEchoBot.js:56-61 | the requests of processing the tweets of s newer than the watermark, in order |
| EchoBot.InitStep | lib/TwitterEchoBot.js:21-33 | `init`'s callback: an error fails; otherwise the bot becomes initialized, and a single returned tweet sets the watermark to its creation time |
| EchoBot.Cycle | lib/TwitterEchoBot.js:37-65 | one `processNewTweets` run: nothing before `init` or on a failed fetch; otherwise the requests for the newer tweets of the sorted batch are appended and the watermark becomes the clock reading |
| EchoBot.TwitterEchoBot.constructor | lib/TwitterEchoBot.js:5-14 | a new bot has no watermark, is not initialized and has made no request |
| EchoBot.TwitterEchoBot.Init | lib/TwitterEchoBot.js:16-34 | on an error nothing changes and the call fails; otherwise the state becomes the one InitStep gives |
| EchoBot.InitSetsWatermark | lib/TwitterEchoBot.js:26-32 | after a successful `init` the bot is initialized; a single returned tweet sets the watermark to its creation time, any other count leaves the watermark as it was, and no request is made |
| EchoBot.TwitterEchoBot.Retweet | lib/TwitterEchoBot.js:101-110 | appends one retweet request for the given status's `id_str` and changes nothing else |
| EchoBot.TwitterEchoBot.EchoTweet | lib/TwitterEchoBot.js:83-98 | posts the cleaned text with the uploaded ids when every upload succeeds, and makes no request otherwise |
| EchoBot.TwitterEchoBot.ProcessTweet | lib/TwitterEchoBot.js:71-79 | appends exactly the requests TweetActions gives for the tweet and keeps the watermark |
| EchoBot.TwitterEchoBot.ProcessIfNewer | lib/TwitterEchoBot.js:57-60 | the `forEach` body: a tweet's requests are appended exactly when it is strictly newer than the watermark, which stays as it was |
| EchoBot.TwitterEchoBot.ProcessAt | lib/TwitterEchoBot.js:56-61 | after the body runs on the tweet at index i, the requests made so far are those for the first i+1 tweets of the sorted batch |
| EchoBot.ReplayStep | lib/TwitterEchoBot.js:56-61 | handling the next tweet of the batch, if and only if it is newer, extends the requests for the prefix to the requests for the longer prefix |
| EchoBot.TwitterEchoBot.ProcessSorted | lib/TwitterEchoBot.js:56-61 | the loop over the sorted batch appends the requests for the tweets newer than the watermark, in batch order, and keeps the watermark |
| EchoBot.TwitterEchoBot.ProcessNewTweets | lib/TwitterEchoBot.js:37-65 | the new state of the bot is the one Cycle gives for the fetch result, the clock reading and the upload endpoint |
| EchoBot.ReplayAppend | lib/TwitterEchoBot.js:56-61 | one more tweet in the walked batch adds its requests exactly when it is newer than the watermark |
| EchoBot.NewTweetsMembers | lib/TwitterEchoBot.js:56-61 | a tweet is processed exactly when it is in the batch and strictly newer than the watermark |
| EchoBot.NewTweetsSorted | lib/TwitterEchoBot.js:56-61 | filtering a time-ordered batch by the watermark keeps it time-ordered |
| EchoBot.NewTweetsLength | lib/TwitterEchoBot.js:56-61 | no more tweets are processed than were fetched |
| EchoBot.UnsetWatermarkAdmitsAll | lib/TwitterEchoBot.js:9 | with an unset watermark, every tweet created after the epoch is processed |
| EchoBot.StaleTweetsIgnored | lib/TwitterEchoBot.js:58 | a batch with no tweet newer than the watermark yields no processed tweet |
| EchoBot.DispatchedBound | lib/TwitterEchoBot.js:56-61 | processing a batch makes at most one status request (retweet or update) per tweet |
| EchoBot.DispatchedFrom | lib/TwitterEchoBot.js:56-61 | every request made while processing a batch comes from one of its tweets |
| EchoBot.CycleBeforeInit | lib/TwitterEchoBot.js:39 | before `init` has completed, a cycle changes nothing |
| EchoBot.CycleFetchFailed | lib/TwitterEchoBot.js:49-51 | a failed fetch leaves the watermark and the requests as they were |
| EchoBot.CycleWatermark | lib/TwitterEchoBot.js:62 | after a successful fetch the watermark is the clock reading, so it does not decrease when the clock has not gone back; earlier requests are kept |
| EchoBot.CycleOnlyNewTweets | lib/TwitterEchoBot.js:53-62 | every request a cycle makes comes from a fetched tweet strictly newer than the old watermark, and a cycle makes no more requests than it fetched tweets |
| EchoBot.CycleRequestBound | lib/TwitterEchoBot.js:37-65 | whatever the state and the fetch result, a cycle adds no more requests than it fetched tweets |
| EchoBot.CycleInTimeOrder | lib/TwitterEchoBot.js:53-61 | the tweets a cycle processes are taken in non-decreasing creation-time order |
| EchoBot.CycleIdempotent | lib/TwitterEchoBot.js:58-62 | a second cycle over tweets created no later than the first cycle's clock reading makes no request |

## Left out

- The Twitter API and HTTP (`twitterWriter.get/post`, `twitterReader.get`, `request.get`) are not modelled as code. Their results are parameters: the fetch result, the upload function and the clock reading. The request options (`count: 200`, `exclude_replies`, `include_rts`, `tweet_mode`) are not modelled, so the fetched batch is arbitrary. Replies that come back anyway are ignored by the classifier.
- `downloadMedia` and its base64 encoding are not modelled. `postPhoto` ignores a download error and uploads anyway. The model folds download and upload into the single `upload` outcome per `media_url`.
- `upload` is a function of the `media_url`. Two entries with the same `media_url` therefore get the same id in the model, whereas the real endpoint returns a fresh id per upload.
- Asynchrony is not modelled. `sent` records requests in the order `processTweet` dispatches them. In the real program `echoTweet` awaits `postPhotos`, so its `statuses/update` request reaches the API after the synchronous `forEach` has already issued the later retweets. The concurrent uploads are modelled only by the order-preserving result of `Promise.all`.
- The success or failure of the `statuses/update` and `statuses/retweet/:id` requests is only logged by the source. The model records each request when it is made, whatever its outcome.
- `options.media_ids` wraps the id list in an extra array (`[photoIds]`). The `Echo` action carries the flat id list.
- The `media/upload` requests (lib/TwitterEchoBot.js:141) go through the writer account but are not recorded in `sent`, including those made for an echo that is then abandoned because another upload failed.
- EchoTweet: a rejected upload leaves `postPhotos`' promise rejected, and nothing catches it (lib/TwitterEchoBot.js:77, :87, :130). Node.js 15 and later ends the process on such an unhandled rejection; earlier versions only print a warning. The model continues like a runtime that only warns: the echo is dropped and the cycle goes on.
- `Date.parse` and `new Date` are not modelled. Times are integers, and invalid dates (NaN) are not modelled.
- The sort is the stable ascending sort that `Array.prototype.sort` performs with this comparator. It is modelled by an insertion sort, not by the engine's own algorithm. `Array.prototype.sort` is guaranteed stable from Node.js 11 on; together with the unhandled-rejection line above, the model assumes a Node.js 11 to 14 runtime.
- `Init` does not model the throw in the `init` callback, which crashes the process. The method reports failure and leaves the bot's state unchanged, as the throw does.
- The constructor's call to `init` is not modelled inside the constructor. `init`'s response arrives later in the source, so the model exposes it as the separate method `Init`.
- `TextCleaner.CleanTweetText` returns the cleaned tweet as a new value. The source overwrites `full_text` on the tweet object inside the fetched array, but that array is not read again afterwards.
- `String.prototype.replace` with an `undefined` media `url` (which JavaScript turns into the string "undefined") is not modelled: links are strings.
- main.js is not part of this model. It holds environment configuration, client construction and the `setInterval` scheduler. Its constructor call also passes one argument more than `constructor(twitterWriter, twitterReader)` takes.
- Console logging is left out.
