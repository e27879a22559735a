// cleanTweetText: strips each media entity's t.co link from the tweet text,
// with the first-occurrence-only semantics of JavaScript's
// `String.prototype.replace` when the pattern is a string.

module TextCleaner {
  import opened Tweets

  /** `p` occurs in `s` starting at index `j`. */
  predicate OccursAt(s: string, p: string, j: int) {
    0 <= j && j + |p| <= |s| && s[j..j + |p|] == p
  }

  ghost predicate Occurs(s: string, p: string) {
    exists j :: OccursAt(s, p, j)
  }

  /** `String.prototype.indexOf(p, k)` for `k <= |s|`: the first index at or
      after `k` where `p` starts, or None (JavaScript's -1). */
  function IndexFrom(s: string, p: string, k: nat): (r: Option<nat>)
    requires k <= |s|
    ensures r.Some? ==> k <= r.value && OccursAt(s, p, r.value)
    ensures r.Some? ==> forall j :: k <= j < r.value ==> !OccursAt(s, p, j)
    ensures r.None? ==> forall j :: k <= j ==> !OccursAt(s, p, j)
    decreases |s| - k
  {
    if k + |p| > |s| then None
    else if s[k..k + |p|] == p then Some(k)
    else IndexFrom(s, p, k + 1)
  }

  /** `s.indexOf(p)`: the first occurrence of `p` in `s`. */
  function IndexOf(s: string, p: string): (r: Option<nat>)
    ensures r.Some? ==> OccursAt(s, p, r.value)
    ensures r.Some? ==> forall j :: 0 <= j < r.value ==> !OccursAt(s, p, j)
    ensures r.None? <==> !Occurs(s, p)
  {
    IndexFrom(s, p, 0)
  }

  /** `s.replace(p, '')`: removes the first occurrence of `p`, if any. */
  function RemoveFirst(s: string, p: string): (r: string)
    ensures !Occurs(s, p) ==> r == s
    ensures Occurs(s, p) ==> |r| == |s| - |p|
    ensures Occurs(s, p) ==>
      exists i :: OccursAt(s, p, i) && (forall j :: 0 <= j < i ==> !OccursAt(s, p, j)) &&
                  s == r[..i] + p + r[i..]
  {
    match IndexOf(s, p)
    case None => s
    case Some(i) =>
      var r := s[..i] + s[i + |p|..];
      assert r[..i] == s[..i] && r[i..] == s[i + |p|..];
      assert s == s[..i] + s[i..i + |p|] + s[i + |p|..];
      r
  }

  /** `replace` changes the text exactly when the link is non-empty and
      occurs in it. */
  lemma RemoveFirstChanges(s: string, p: string)
    ensures RemoveFirst(s, p) == s <==> p == [] || !Occurs(s, p)
  {
    if p == [] {
      assert OccursAt(s, p, 0);
      var i :| OccursAt(s, p, i) && s == RemoveFirst(s, p)[..i] + p + RemoveFirst(s, p)[i..];
    }
  }

  /** The text after the first `|ms|` entries' links have been removed, one
      entry at a time in entry order, as the `forEach` does. */
  function RemoveUrls(text: string, ms: seq<Media>): string
  {
    if ms == [] then text
    else RemoveFirst(RemoveUrls(text, ms[..|ms| - 1]), ms[|ms| - 1].url)
  }

  /** The `full_text` that cleanTweetText leaves: unchanged when the tweet
      has no media entities. */
  function CleanText(text: string, media: Option<seq<Media>>): string
  {
    match media
    case None => text
    case Some(ms) => RemoveUrls(text, ms)
  }

  /** Sum of the lengths of the entries' links. */
  function UrlLength(ms: seq<Media>): nat
  {
    if ms == [] then 0 else UrlLength(ms[..|ms| - 1]) + |ms[|ms| - 1].url|
  }

  /** Cleaning never lengthens the text, and removes at most one copy of
      each link. */
  lemma {:induction false} RemoveUrlsShrinks(text: string, ms: seq<Media>)
    ensures |RemoveUrls(text, ms)| <= |text|
    ensures |text| - |RemoveUrls(text, ms)| <= UrlLength(ms)
  {
    if ms != [] {
      RemoveUrlsShrinks(text, ms[..|ms| - 1]);
    }
  }

  /** When no link of the entries occurs in the text, cleaning changes nothing. */
  lemma {:induction false} RemoveUrlsAbsent(text: string, ms: seq<Media>)
    requires forall i :: 0 <= i < |ms| ==> !Occurs(text, ms[i].url)
    ensures RemoveUrls(text, ms) == text
  {
    if ms != [] {
      RemoveUrlsAbsent(text, ms[..|ms| - 1]);
    }
  }

  lemma CleanTextShrinks(text: string, media: Option<seq<Media>>)
    ensures |CleanText(text, media)| <= |text|
    ensures media.None? ==> CleanText(text, media) == text
  {
    if media.Some? {
      RemoveUrlsShrinks(text, media.value);
    }
  }

  /** A link that occurs twice keeps its later copy: any occurrence that
      does not overlap an earlier one is still there, shifted left by the
      length of the removed copy. */
  lemma LaterCopySurvives(s: string, p: string, i: int, j: int)
    requires OccursAt(s, p, i) && OccursAt(s, p, j) && i + |p| <= j
    ensures OccursAt(RemoveFirst(s, p), p, j - |p|)
  {
    var k := IndexOf(s, p).value;
    assert k <= i;
    var r := RemoveFirst(s, p);
    assert r == s[..k] + s[k + |p|..];
    assert r[j - |p|..j] == s[j..j + |p|];
  }

  /** cleanTweetText: overwrites `full_text` once per media entry, in order. */
  method CleanTweetText(tweet: Tweet) returns (cleaned: Tweet)
    ensures cleaned == tweet.(fullText := CleanText(tweet.fullText, tweet.media))
    ensures |cleaned.fullText| <= |tweet.fullText|
  {
    cleaned := tweet;
    if tweet.media.Some? {
      var ms := tweet.media.value;
      var i := 0;
      while i < |ms|
        invariant 0 <= i <= |ms|
        invariant cleaned == tweet.(fullText := RemoveUrls(tweet.fullText, ms[..i]))
      {
        cleaned := cleaned.(fullText := RemoveFirst(cleaned.fullText, ms[i].url));
        assert ms[..i + 1][..i] == ms[..i];
        i := i + 1;
      }
      assert ms[..|ms|] == ms;
    }
    CleanTextShrinks(tweet.fullText, tweet.media);
  }
}
