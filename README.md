# Trending-topic posting bot: a verified model

This project models the logic of a small posting bot. The bot reads news
headlines from a feed and drops every headline that contains a blocked keyword,
ignoring case. It keeps up to ten of the remaining ones, in feed order, and
works on the first five. It posts the first longest of those as a four-part
thread, each part replying to the one before. Every copy of that title in the
working set is threaded too, and each other topic becomes a single templated
post cut to 270 characters. It pauses for a random number of seconds after
every post.

All of that logic sits in `main.py`. The model keeps its structure:

- `text.dfy` (module `Text`): ASCII case folding, the model of `str.lower()`.
  Substring search, the model of Python's `in` on strings, proved equal to
  "occurs at some position".
- `safety.dfy` (module `Safety`): the blocklist and `is_safe`.
- `topics.dfy` (module `Topics`): `get_trending_topics`. It is a method with
  the source's loop and early `break`, proved equal to a declarative "filter,
  then take" definition. The lemmas beside it cover safety, order, the count
  bound and completeness.
- `content.dfy` (module `Content`): the five templates, each kept as the text
  before and the text after its one `{topic}` field, with `str.format` as
  filling in the topic between them. Also `generate_tweet` and
  `generate_thread`.
- `publisher.dfy` (module `Publisher`): `main`. The posting client, the random
  source and the clock are one object, `Env`. Posting and sleeping append
  events to its log, post ids come from an id supplier `idOf`, and random
  numbers come from a raw stream `coin`. `RunBot` is proved against `RunLog`,
  a relational description of the whole run: the topics are handled in order,
  and each one gets either a chained four-part thread or one standalone post,
  every post followed by its pause. Lemmas about `RunLog` give the
  post/pause alternation, the pause bounds, the reply linkage and the number
  of events.

Inputs that the program gets from the outside world are parameters here:

- the feed is given as the sequence of its entries' titles, with a missing
  title written as `""`;
- the random template pick is an index `choice < 5`;
- random delays come from `Env.RandInt`, which promises only the range;
- post ids come from `Env.idOf`.

Two behaviours of the code are modelled as written:

- Routing compares by value (`main.py:84`). Every topic in the working set
  equal to the longest one is threaded, not only the one `max` picked.
  `RunLogLength` counts each such copy. So exactly one topic is threaded only
  when the working set holds no repeated title; `DistinctTopicsOneThread`
  states this about the run.
- The count check runs after every entry, kept or not (`main.py:47`). A limit
  of zero or less therefore still looks at the first entry, so the result has
  at most one title.

## Model

| member | source | states |
|---|---|---|
| Text.Lower | main.py:38 | the folded string has the same length and folds each character on its own, ASCII capitals to small letters |
| Text.LowerSlice | main.py:38 | folding a slice gives the same result as slicing the folded string |
| Text.Contains | main.py:38 | the substring test is true exactly when the needle occurs at some position of the haystack |
| Safety.Blocked | main.py:30-35 | the eighteen blocked words, all in lower case |
| Safety.IsSafe | main.py:30-38 | a text is safe exactly when no blocked word is a substring of its lower-cased form |
| Safety.OccursFoldedIffMatches | main.py:38 | a word occurs at a position of the lower-cased text exactly when the text there, once folded, spells it |
| Safety.UnsafeIffBlockedWordIgnoringCase | main.py:30-38 | a text is unsafe exactly when some stretch of it, once folded, spells a blocked word |
| Safety.SafetyIgnoresCase | main.py:38 | two texts with the same lower-cased form get the same verdict, and lower-casing first changes nothing |
| Safety.ElectionHeadlineIsUnsafe | main.py:30-38 | the headline "Election results delayed" is rejected |
| Topics.Keep | main.py:45 | a title is kept exactly when it is non-empty and no blocked word is a substring of its lower-cased form |
| Topics.SafeTitles | main.py:43-46 | the kept titles, in feed order, are exactly the feed's non-empty safe titles |
| Topics.SafeTitlesConcat | main.py:43-46 | filtering two parts of the feed one after the other gives the same result as filtering the joined feed |
| Topics.SafeTitlesIsSubsequence | main.py:43-46 | the kept titles are a subsequence of the feed |
| Topics.SafeTitlesAppendOne | main.py:44-46 | scanning one more entry appends it exactly when it is non-empty and safe |
| Topics.SubsequencePrefix | main.py:47-48 | cutting a subsequence short leaves a subsequence |
| Topics.TrendingTopics | main.py:40-49 | the declarative result of the scan: the first `limit` kept titles for a positive limit, the first entry if kept otherwise; the lemmas below are stated about it |
| Topics.ScanResult | main.py:42-49 | stopping at the end of the feed, at `limit` kept titles, or after the first entry for a limit below one, leaves exactly the declarative result |
| Topics.GetTrendingTopics | main.py:40-49 | the loop with its early break returns the first `limit` kept titles for a positive limit, and the first entry, if kept, otherwise |
| Topics.TopicsAreSafe | main.py:44-46 | every collected topic is non-empty and safe |
| Topics.TopicsFollowFeedOrder | main.py:42-49 | the collected topics are a subsequence of the feed, so feed order is kept |
| Topics.TopicsCount | main.py:47-48 | at most `limit` topics for a positive limit and at most one otherwise; fewer than `limit` only when every kept title was collected |
| Topics.NoTopicsIffNothingKept | main.py:42-49 | for a positive limit the result is empty exactly when the feed has no non-empty safe title |
| Content.Templates | main.py:51-57 | the five templates, each stored as the text before and after its one `{topic}` field |
| Content.Fill | main.py:60 | the filled text is the opening text, then the topic verbatim, then the closing text |
| Content.GenerateTweet | main.py:51-60 | the post is at most 270 characters long, is a prefix of the chosen template with the topic in place of its `{topic}` field, and is as long as that filled text or 270, whichever is less |
| Content.WholeTweetWhenItFits | main.py:59-60 | when the filled template fits in 270 characters, the post is all of it and contains the topic verbatim |
| Content.LongTweetIsCut | main.py:60 | a filled template longer than 270 characters is cut to its first 270 |
| Content.TweetChoices | main.py:59-60 | the possible posts for a topic are exactly the five filled-and-cut templates |
| Content.GenerateThread | main.py:62-69 | four parts numbered "1/ " to "4/ ", and the first part is "1/ " followed by the topic |
| Content.ThreadIndependentOfTopic | main.py:62-69 | parts 2 to 4 are the same for every topic, and the first part determines the topic |
| Publisher.Env.CreateTweet | main.py:89 | logs the post with its text and reply target, and returns the supplier's next id |
| Publisher.Env.RandInt | main.py:92 | returns a whole number within the bounds, both included, and logs nothing |
| Publisher.Env.Sleep | main.py:92 | logs a pause of the given length |
| Publisher.Select | main.py:78 | the working set is a prefix of the topics, of length five or all of them |
| Publisher.LongestIndex | main.py:81 | picks a position of greatest length, and no earlier element has that length |
| Publisher.LongestExample | main.py:81 | of "AI breakthrough announced", "Cats" and "New economic policy update", the third is the longest |
| Publisher.TopicBlockLength | main.py:84-98 | a threaded topic produces eight events and a standalone one produces two |
| Publisher.RunLogAppend | main.py:83-98 | handling one more topic extends the run's log by exactly that topic's block |
| Publisher.ThreadBlockAlternates | main.py:88-92 | within a thread, posts and pauses alternate, pauses are in range, and each reply answers the post two events earlier |
| Publisher.StandaloneBlockAlternates | main.py:95-98 | a standalone block is one post with no reply target followed by one pause in range |
| Publisher.AlternatesConcat | main.py:83-98 | joining two well-formed event runs gives a well-formed run |
| Publisher.RunLogAlternates | main.py:83-98 | over the whole run, posts and pauses alternate starting with a post, every pause lasts 8 to 20 seconds, and every reply answers the post two events earlier |
| Publisher.RunLogLength | main.py:83-98 | the run has 2 events per topic plus 6 more for each copy of the long topic in the working set |
| Publisher.DistinctTopicsThreadOnce | main.py:81-84 | with no repeated title in the working set, the long topic occurs once, so exactly one thread is posted |
| Publisher.DistinctTopicsOneThread | main.py:78-98 | with no repeated title in the working set, only the first longest topic is threaded, and the run has two events per topic plus six |
| Publisher.PostThread | main.py:86-92 | posts the four parts in order, the first with no reply target and each later one replying to the id returned for the part before, each followed by a pause of 8 to 15 seconds |
| Publisher.PostSingle | main.py:95-98 | posts one filled template with no reply target, followed by a pause of 10 to 20 seconds |
| Publisher.PublishTopic | main.py:84-98 | a topic equal to the long topic by value gets the thread block, any other topic a standalone block |
| Publisher.PublishAll | main.py:83-98 | the log grows by blocks for the working set in order, each topic equal to the long topic as a thread and every other as a standalone post |
| Publisher.RunBot | main.py:71-98 | with no safe topic the log is unchanged (no post, no pause); otherwise the log grows by the run described by `RunLog` for the first five topics and their first longest topic |

## Left out

- Credential loading and the exit on missing credentials (`main.py:11-19`): process environment and termination.
- Construction of the tweepy client (`main.py:22-28`): foreign network client; `Env` stands in for it, and its rate-limit waiting is not modelled.
- Fetching and parsing the feed (`main.py:41`): network I/O; the titles are an input sequence.
- Logging (`main.py:9`, `74`, `91`, `97`): side effect only.
- Real randomness and real waiting: `random.choice` becomes the `choice` parameter and `random.randint` becomes `Env.RandInt`, whose only promise is the range; `time.sleep` only records its argument.
- The id read from the client's response (`main.py:90`): the response type is abstracted away, so `Env.CreateTweet` simply returns the new post's id.
- Failures raised by the client or the feed library, and the partial runs they leave behind: not modelled; every post succeeds.
- Text.Lower: folds only ASCII capitals, where Python's `str.lower()` follows full Unicode case mapping; all blocked words are ASCII lower case.
- Content.GenerateTweet: `str.format` is modelled only for templates made of text, one `{topic}` field and text, which is the shape of all five; templates are stored split at that field, so escaped braces and other fields are not modelled.
