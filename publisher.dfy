/** The publishing run (`main`): collect up to ten topics, keep the first
    five, post the first longest one as a four-part reply chain and every
    other one as a standalone post, pausing after each post.

    The posting client, the random source and the clock are one environment
    object: posting and sleeping append events to its log, post ids come from
    an id supplier, and random draws from a stream of raw values. */
module Publisher {
  import opened Text
  import opened Topics
  import opened Content

  datatype Option<T> = None | Some(value: T)

  type PostId = string

  /** One observable effect of the run. */
  datatype Event =
    | Posted(text: string, replyTo: Option<PostId>, id: PostId)
    | Slept(seconds: int)

  /** Number of topics asked of the topic source. */
  const FeedLimit: int := 10

  /** Number of topics the run works on. */
  const WorkingSetSize: nat := 5

  /** Pause after each thread part, in seconds. */
  const ThreadPauseMin: int := 8
  const ThreadPauseMax: int := 15

  /** Pause after each standalone post, in seconds. */
  const SinglePauseMin: int := 10
  const SinglePauseMax: int := 20

  class Env {
    /** Everything posted and slept so far, in order. */
    var log: seq<Event>
    /** Number of posts created so far. */
    var posts: nat
    /** Number of random numbers drawn so far. */
    var draws: nat
    /** The id the platform hands out for the n-th post. */
    const idOf: nat -> PostId
    /** The n-th raw value of the random source. */
    const coin: nat -> nat

    constructor (idOf: nat -> PostId, coin: nat -> nat)
      ensures log == [] && posts == 0 && draws == 0
      ensures this.idOf == idOf && this.coin == coin
    {
      this.idOf := idOf;
      this.coin := coin;
      log, posts, draws := [], 0, 0;
    }

    /** `client.create_tweet`: publish `text`, as a reply when `replyTo` is
        given, and return the new post's id. */
    method CreateTweet(text: string, replyTo: Option<PostId>) returns (id: PostId)
      modifies this
      ensures id == idOf(old(posts))
      ensures log == old(log) + [Posted(text, replyTo, id)]
      ensures posts == old(posts) + 1 && draws == old(draws)
    {
      id := idOf(posts);
      log := log + [Posted(text, replyTo, id)];
      posts := posts + 1;
    }

    /** `random.randint(lo, hi)`: a whole number from `lo` to `hi` inclusive. */
    method RandInt(lo: int, hi: int) returns (n: int)
      requires lo <= hi
      modifies this
      ensures lo <= n <= hi
      ensures log == old(log) && posts == old(posts) && draws == old(draws) + 1
    {
      n := lo + coin(draws) % (hi - lo + 1);
      draws := draws + 1;
    }

    /** `time.sleep(seconds)`. */
    method Sleep(seconds: int)
      modifies this
      ensures log == old(log) + [Slept(seconds)]
      ensures posts == old(posts) && draws == old(draws)
    {
      log := log + [Slept(seconds)];
    }
  }

  /** `topics[:5]`: the working set, the first five topics or all of them. */
  function Select(topics: seq<string>): (r: seq<string>)
    ensures r <= topics
    ensures |r| == Min(WorkingSetSize, |topics|)
  {
    topics[..Min(WorkingSetSize, |topics|)]
  }

  /** `max(s, key=len)`: the position of the first element of greatest length.
      Python's `max` keeps its current best and replaces it only by a strictly
      longer element, which this fold from the left mirrors. */
  function LongestIndex(s: seq<string>): (k: nat)
    requires |s| > 0
    ensures k < |s|
    ensures forall j :: 0 <= j < |s| ==> |s[j]| <= |s[k]|
    ensures forall j :: 0 <= j < k ==> |s[j]| < |s[k]|
    decreases |s|
  {
    if |s| == 1 then 0
    else
      var k := LongestIndex(s[..|s| - 1]);
      if |s[|s| - 1]| > |s[k]| then |s| - 1 else k
  }

  /** Of three sample headlines, the third is the longest. */
  lemma LongestExample()
    ensures LongestIndex(["AI breakthrough announced", "Cats", "New economic policy update"]) == 2
  {
    var s := ["AI breakthrough announced", "Cats", "New economic policy update"];
    assert |s[0]| == 25 && |s[1]| == 4 && |s[2]| == 26;
  }

  /** Part `k` of a thread posted as events `b`: event 2k posts line k, as a
      reply to the post of part k - 1 (no reply for the first part), and event
      2k + 1 is the pause after it. */
  ghost predicate SegmentAt(lines: seq<string>, b: seq<Event>, k: int) {
    && 0 <= k < |lines| && 2 * k + 1 < |b|
    && b[2 * k].Posted? && b[2 * k].text == lines[k]
    && (k == 0 ==> b[2 * k].replyTo == None)
    && (k > 0 ==> b[2 * k - 2].Posted? && b[2 * k].replyTo == Some(b[2 * k - 2].id))
    && b[2 * k + 1].Slept?
    && ThreadPauseMin <= b[2 * k + 1].seconds <= ThreadPauseMax
  }

  /** The events of a whole thread: each line posted, chained, and paused after. */
  ghost predicate ThreadBlock(lines: seq<string>, b: seq<Event>) {
    |b| == 2 * |lines| && forall k :: 0 <= k < |lines| ==> SegmentAt(lines, b, k)
  }

  /** The events of a standalone post: one of the texts `tweets(topic)`,
      posted with no reply target, and the pause after it. */
  ghost predicate StandaloneBlock(topic: string, tweets: string -> set<string>, b: seq<Event>) {
    && |b| == 2
    && b[0].Posted? && b[0].replyTo == None
    && b[0].text in tweets(topic)
    && b[1].Slept?
    && SinglePauseMin <= b[1].seconds <= SinglePauseMax
  }

  /** The texts a run may post: the long topic's thread, and for each topic
      the posts its templates give. */
  datatype Texts = Texts(thread: seq<string>, tweets: string -> set<string>)

  /** Routing is by value: every topic equal to the long topic is posted as
      the thread `texts.thread`, any other as one of `texts.tweets(topic)`. */
  ghost predicate TopicBlock(topic: string, longTopic: string, texts: Texts, b: seq<Event>) {
    if topic == longTopic then ThreadBlock(texts.thread, b) else StandaloneBlock(topic, texts.tweets, b)
  }

  function BlockLength(topic: string, longTopic: string, texts: Texts): nat {
    if topic == longTopic then 2 * |texts.thread| else 2
  }

  /** A block is 8 events long for a threaded topic and 2 for any other. */
  lemma TopicBlockLength(topic: string, longTopic: string, texts: Texts, b: seq<Event>)
    requires TopicBlock(topic, longTopic, texts, b)
    ensures |b| == BlockLength(topic, longTopic, texts)
  {
  }

  /** The events `ev` handle the topics of `selected` one after the other, in
      order, each by its own path. */
  ghost predicate RunLog(selected: seq<string>, longTopic: string, texts: Texts, ev: seq<Event>)
    decreases |selected|
  {
    if selected == [] then ev == []
    else
      var n := BlockLength(selected[0], longTopic, texts);
      n <= |ev| && TopicBlock(selected[0], longTopic, texts, ev[..n]) &&
      RunLog(selected[1..], longTopic, texts, ev[n..])
  }

  /** Handling one more topic extends the run log by that topic's block. */
  lemma {:induction false} RunLogAppend(selected: seq<string>, longTopic: string, texts: Texts, ev: seq<Event>,
                                        topic: string, b: seq<Event>)
    requires RunLog(selected, longTopic, texts, ev) && TopicBlock(topic, longTopic, texts, b)
    ensures RunLog(selected + [topic], longTopic, texts, ev + b)
    decreases |selected|
  {
    TopicBlockLength(topic, longTopic, texts, b);
    if selected == [] {
      assert selected + [topic] == [topic];
      assert ev + b == b;
      assert b[..|b|] == b;
    } else {
      var n := BlockLength(selected[0], longTopic, texts);
      assert (selected + [topic])[1..] == selected[1..] + [topic];
      assert (ev + b)[..n] == ev[..n];
      assert (ev + b)[n..] == ev[n..] + b;
      RunLogAppend(selected[1..], longTopic, texts, ev[n..], topic, b);
    }
  }

  /** Event `j` of `b` is a post exactly when `j` is even, a pause lasts 8 to
      20 seconds, and a reply answers the post two events before it. */
  ghost predicate WellPlacedAt(b: seq<Event>, j: int)
    requires 0 <= j < |b|
  {
    && (b[j].Posted? <==> j % 2 == 0)
    && (b[j].Slept? ==> ThreadPauseMin <= b[j].seconds <= SinglePauseMax)
    && (b[j].Posted? && b[j].replyTo.Some? ==>
          2 <= j && b[j - 2].Posted? && b[j].replyTo.value == b[j - 2].id)
  }

  /** Posts and pauses alternate, starting with a post; every pause lasts 8
      to 20 seconds; every reply answers the post two events before it. */
  ghost predicate Alternates(b: seq<Event>) {
    |b| % 2 == 0 && forall j :: 0 <= j < |b| ==> WellPlacedAt(b, j)
  }

  lemma ThreadBlockAlternates(thread: seq<string>, b: seq<Event>)
    requires ThreadBlock(thread, b)
    ensures Alternates(b)
  {
    forall j | 0 <= j < |b| ensures WellPlacedAt(b, j) {
      var k := j / 2;
      assert j == 2 * k || j == 2 * k + 1;
      assert SegmentAt(thread, b, k);
    }
  }

  lemma StandaloneBlockAlternates(topic: string, tweets: string -> set<string>, b: seq<Event>)
    requires StandaloneBlock(topic, tweets, b)
    ensures Alternates(b)
  {
    assert WellPlacedAt(b, 0) && WellPlacedAt(b, 1);
  }

  /** Over the whole run, posts and pauses alternate, starting with a post,
      every pause lasts 8 to 20 seconds, and every reply answers the post two
      events before it, which is the previous part of the same thread. */
  lemma {:induction false} RunLogAlternates(selected: seq<string>, longTopic: string, texts: Texts, ev: seq<Event>)
    requires RunLog(selected, longTopic, texts, ev)
    ensures Alternates(ev)
    decreases |selected|
  {
    if selected != [] {
      var n := BlockLength(selected[0], longTopic, texts);
      var b, rest := ev[..n], ev[n..];
      if selected[0] == longTopic {
        ThreadBlockAlternates(texts.thread, b);
      } else {
        StandaloneBlockAlternates(selected[0], texts.tweets, b);
      }
      RunLogAlternates(selected[1..], longTopic, texts, rest);
      assert ev == b + rest;
      AlternatesConcat(b, rest);
    }
  }

  lemma AlternatesConcat(a: seq<Event>, b: seq<Event>)
    requires Alternates(a) && Alternates(b)
    ensures Alternates(a + b)
  {
    var ab := a + b;
    forall j | 0 <= j < |ab| ensures WellPlacedAt(ab, j) {
      if j < |a| {
        assert WellPlacedAt(a, j);
        assert ab[j] == a[j];
        if j >= 2 { assert ab[j - 2] == a[j - 2]; }
      } else {
        assert WellPlacedAt(b, j - |a|);
        assert ab[j] == b[j - |a|];
        if j - |a| >= 2 { assert ab[j - 2] == b[j - |a| - 2]; }
      }
    }
  }

  /** A run makes one post per standalone topic and four per threaded topic, so
      every occurrence of the long topic in the working set adds three posts. */
  lemma {:induction false} RunLogLength(selected: seq<string>, longTopic: string, texts: Texts, ev: seq<Event>)
    requires RunLog(selected, longTopic, texts, ev)
    ensures |ev| == 2 * (|selected| + (|texts.thread| - 1) * multiset(selected)[longTopic])
    decreases |selected|
  {
    if selected != [] {
      RunLogLength(selected[1..], longTopic, texts, ev[BlockLength(selected[0], longTopic, texts)..]);
      assert selected == [selected[0]] + selected[1..];
      assert multiset(selected) == multiset([selected[0]]) + multiset(selected[1..]);
    }
  }

  /** With no repeated topic in the working set, the long topic is threaded once. */
  lemma {:induction false} DistinctTopicsThreadOnce(selected: seq<string>, k: nat)
    requires k < |selected|
    requires forall i, j :: 0 <= i < j < |selected| ==> selected[i] != selected[j]
    ensures multiset(selected)[selected[k]] == 1
    decreases |selected|
  {
    var x := selected[k];
    assert selected == [selected[0]] + selected[1..];
    assert multiset(selected) == multiset([selected[0]]) + multiset(selected[1..]);
    if k == 0 {
      assert x !in selected[1..];
      assert multiset(selected[1..])[x] == 0;
    } else {
      DistinctTopicsThreadOnce(selected[1..], k - 1);
    }
  }

  /** With no repeated title in the working set, the first longest topic is
      the only one routed to the thread, so the run posts one four-part thread
      and one standalone post for every other topic. */
  lemma DistinctTopicsOneThread(selected: seq<string>, ev: seq<Event>)
    requires |selected| > 0
    requires forall i, j :: 0 <= i < j < |selected| ==> selected[i] != selected[j]
    requires var longTopic := selected[LongestIndex(selected)];
             RunLog(selected, longTopic, Texts(GenerateThread(longTopic), TweetChoices), ev)
    ensures forall i :: 0 <= i < |selected| ==>
              (selected[i] == selected[LongestIndex(selected)] <==> i == LongestIndex(selected))
    ensures |ev| == 2 * |selected| + 6
  {
    var k := LongestIndex(selected);
    var texts := Texts(GenerateThread(selected[k]), TweetChoices);
    RunLogLength(selected, selected[k], texts, ev);
    DistinctTopicsThreadOnce(selected, k);
  }

  /** The thread branch of `main`: post `lines` in order, each part replying
      to the post of the part before it, pausing 8 to 15 seconds after each. */
  method PostThread(env: Env, lines: seq<string>)
    modifies env
    ensures old(env.log) <= env.log
    ensures ThreadBlock(lines, env.log[|old(env.log)|..])
  {
    ghost var before := env.log;
    ghost var block: seq<Event> := [];
    var replyTo: Option<PostId> := None;
    for j := 0 to |lines|
      invariant env.log == before + block
      invariant |block| == 2 * j
      invariant forall k :: 0 <= k < j ==> SegmentAt(lines, block, k)
      invariant j == 0 ==> replyTo == None
      invariant j > 0 ==> block[2 * j - 2].Posted? && replyTo == Some(block[2 * j - 2].id)
    {
      var id := env.CreateTweet(lines[j], replyTo);
      var pause := env.RandInt(ThreadPauseMin, ThreadPauseMax);
      env.Sleep(pause);
      ghost var step := [Posted(lines[j], replyTo, id), Slept(pause)];
      forall k | 0 <= k < j ensures SegmentAt(lines, block + step, k) {
        assert SegmentAt(lines, block, k);
      }
      block := block + step;
      assert SegmentAt(lines, block, j);
      replyTo := Some(id);
    }
    assert env.log[|before|..] == block;
  }

  /** The standalone branch of `main`: post one templated text for `topic`
      with no reply target, then pause 10 to 20 seconds. */
  method PostSingle(env: Env, topic: string)
    modifies env
    ensures old(env.log) <= env.log
    ensures StandaloneBlock(topic, TweetChoices, env.log[|old(env.log)|..])
  {
    ghost var before := env.log;
    var choice := env.RandInt(0, |Templates| - 1);
    var tweet := GenerateTweet(topic, choice);
    var _ := env.CreateTweet(tweet, None);
    var pause := env.RandInt(SinglePauseMin, SinglePauseMax);
    env.Sleep(pause);
    assert env.log[|before|..] == [Posted(tweet, None, env.log[|before|].id), Slept(pause)];
    assert tweet in TweetChoices(topic);
  }

  /** A log that grew twice: its new part is the first growth followed by the
      second. */
  lemma LogGrowth(a: seq<Event>, b: seq<Event>, c: seq<Event>)
    requires a <= b && b <= c
    ensures a <= c && c[|a|..] == b[|a|..] + c[|b|..]
  {
    assert c == b + c[|b|..];
  }

  /** One pass of the posting loop of `main`: route `topic` by comparing it
      with `longTopic` by value, and post its block. */
  method PublishTopic(env: Env, topic: string, longTopic: string)
    modifies env
    ensures old(env.log) <= env.log
    ensures TopicBlock(topic, longTopic, Texts(GenerateThread(longTopic), TweetChoices),
                       env.log[|old(env.log)|..])
  {
    if topic == longTopic {
      var threadTweets := GenerateThread(topic);
      PostThread(env, threadTweets);
    } else {
      PostSingle(env, topic);
    }
  }

  /** The posting loop of `main` over the working set `selected`, threading
      every topic equal to `longTopic`. */
  method PublishAll(env: Env, selected: seq<string>, longTopic: string)
    modifies env
    ensures old(env.log) <= env.log
    ensures RunLog(selected, longTopic, Texts(GenerateThread(longTopic), TweetChoices),
                   env.log[|old(env.log)|..])
  {
    ghost var texts := Texts(GenerateThread(longTopic), TweetChoices);
    ghost var before := env.log;
    for i := 0 to |selected|
      invariant before <= env.log
      invariant RunLog(selected[..i], longTopic, texts, env.log[|before|..])
    {
      ghost var done := env.log[|before|..];
      ghost var mark := env.log;
      PublishTopic(env, selected[i], longTopic);
      ghost var block := env.log[|mark|..];
      LogGrowth(before, mark, env.log);
      RunLogAppend(selected[..i], longTopic, texts, done, selected[i], block);
      assert selected[..i + 1] == selected[..i] + [selected[i]];
    }
    assert selected[..|selected|] == selected;
  }

  /** `main`: the whole publishing run over the feed's titles. */
  method RunBot(env: Env, titles: seq<string>)
    modifies env
    ensures TrendingTopics(titles, FeedLimit) == [] ==>
              env.log == old(env.log) && env.posts == old(env.posts)
    ensures var topics := TrendingTopics(titles, FeedLimit);
            topics != [] ==>
              var selected := Select(topics);
              var longTopic := selected[LongestIndex(selected)];
              && old(env.log) <= env.log
              && RunLog(selected, longTopic, Texts(GenerateThread(longTopic), TweetChoices),
                        env.log[|old(env.log)|..])
  {
    var topics := GetTrendingTopics(titles, FeedLimit);
    if topics == [] {
      return;
    }
    var selected := Select(topics);
    var longTopic := selected[LongestIndex(selected)];
    PublishAll(env, selected, longTopic);
  }
}
