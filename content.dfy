/** Content generation: a single post from one of five templates, cut to the
    platform length cap, and a fixed four-part thread. */
module Content {
  import opened Text

  /** Longest text a single post may have. */
  const MaxTweetLength: nat := 270

  /** A template with one `{topic}` replacement field: the text before the
      field and the text after it. The template as written is
      `before + "{topic}" + after`. */
  datatype Template = Template(before: string, after: string)

  /** `str.format(topic=...)` on such a template: the field is replaced by the
      topic, the text around it is copied. */
  function Fill(t: Template, topic: string): (r: string)
    ensures |r| == |t.before| + |topic| + |t.after|
    ensures r[..|t.before|] == t.before && r[|t.before|..|t.before| + |topic|] == topic
    ensures r[|t.before| + |topic|..] == t.after
  {
    t.before + topic + t.after
  }

  const Templates: seq<Template> := [
    Template("", ". This is gaining attention today."),
    Template("A lot of people are discussing: ", ""),
    Template("Trending now: ", ""),
    Template("Seeing increased buzz around ", "."),
    Template("", " is getting a lot of attention recently.")
  ]

  /** `generate_tweet` with the random template pick given as `choice`: the
      chosen template filled with the topic, cut to at most 270 characters. */
  function GenerateTweet(topic: string, choice: nat): (r: string)
    requires choice < |Templates|
    ensures |r| <= MaxTweetLength
    ensures r <= Fill(Templates[choice], topic)
    ensures |r| == Min(MaxTweetLength, |Fill(Templates[choice], topic)|)
  {
    var filled := Fill(Templates[choice], topic);
    filled[..Min(MaxTweetLength, |filled|)]
  }

  /** When the filled template fits the cap, the post is all of it, so it
      mentions the topic verbatim, right after the template's opening text. */
  lemma WholeTweetWhenItFits(topic: string, choice: nat)
    requires choice < |Templates|
    requires |Fill(Templates[choice], topic)| <= MaxTweetLength
    ensures GenerateTweet(topic, choice) == Fill(Templates[choice], topic)
    ensures OccursAt(topic, GenerateTweet(topic, choice), |Templates[choice].before|)
  {
    var t := Templates[choice];
    var r := GenerateTweet(topic, choice);
    assert r == t.before + topic + t.after;
    assert r[|t.before|..|t.before| + |topic|] == topic;
  }

  /** A post longer than the cap allows is cut to exactly 270 characters, all
      taken from the front of the filled template. */
  lemma LongTweetIsCut(topic: string, choice: nat)
    requires choice < |Templates|
    requires |Fill(Templates[choice], topic)| > MaxTweetLength
    ensures GenerateTweet(topic, choice) == Fill(Templates[choice], topic)[..MaxTweetLength]
  {
  }

  /** Every post `generate_tweet(topic)` can return, one per template. */
  function TweetChoices(topic: string): (r: set<string>)
    ensures forall text :: text in r <==> exists c :: 0 <= c < |Templates| && text == GenerateTweet(topic, c)
  {
    set c | 0 <= c < |Templates| :: GenerateTweet(topic, c)
  }

  /** The "k/ " label that opens part k of a thread. */
  function PartLabel(k: nat): string
    requires 1 <= k <= 4
  {
    if k == 1 then "1/ " else if k == 2 then "2/ " else if k == 3 then "3/ " else "4/ "
  }

  /** The fixed text of thread parts 2, 3 and 4, after their labels. */
  const Breakdown: string := "Here\U{2019}s a quick breakdown of why this is trending."
  const Reason: string := "It\U{2019}s gaining attention due to recent developments and growing public interest."
  const Outlook: string := "More updates expected soon. Stay tuned."

  /** `generate_thread`: the topic as the first part, then three fixed parts. */
  function GenerateThread(topic: string): (r: seq<string>)
    ensures |r| == 4
    ensures forall k :: 0 <= k < 4 ==> PartLabel(k + 1) <= r[k]
    ensures |r[0]| == 3 + |topic| && r[0][3..] == topic
  {
    ["1/ " + topic, "2/ " + Breakdown, "3/ " + Reason, "4/ " + Outlook]
  }

  /** Parts 2 to 4 are the same whatever the topic, and different topics give
      different first parts. */
  lemma ThreadIndependentOfTopic(topic: string, other: string)
    ensures GenerateThread(topic)[1..] == GenerateThread(other)[1..]
    ensures GenerateThread(topic)[0] == GenerateThread(other)[0] <==> topic == other
  {
  }
}
