/** Topic collection: the feed's headlines, in feed order, that are non-empty
    and pass the safety filter, cut off at a requested count. The feed is given
    as the sequence of its entries' titles, an entry without a title as "". */
module Topics {
  import opened Text
  import opened Safety

  /** A title is kept when it is non-empty and safe. */
  function Keep(title: string): (r: bool)
    ensures r <==> title != "" && forall w :: w in Blocked ==> !IsSubstring(w, Lower(title))
  {
    title != "" && IsSafe(title)
  }

  /** All kept titles of `titles`, in their original order. */
  function SafeTitles(titles: seq<string>): (r: seq<string>)
    ensures |r| <= |titles|
    ensures forall x :: x in r <==> x in titles && Keep(x)
  {
    if titles == [] then []
    else (if Keep(titles[0]) then [titles[0]] else []) + SafeTitles(titles[1..])
  }

  lemma {:induction false} SafeTitlesConcat(a: seq<string>, b: seq<string>)
    ensures SafeTitles(a + b) == SafeTitles(a) + SafeTitles(b)
  {
    if a == [] {
      assert a + b == b;
    } else {
      assert (a + b)[1..] == a[1..] + b;
      SafeTitlesConcat(a[1..], b);
    }
  }

  /** `a` can be obtained from `b` by deleting elements. */
  predicate IsSubsequence(a: seq<string>, b: seq<string>)
    decreases |b|
  {
    if a == [] then true
    else if b == [] then false
    else (a[0] == b[0] && IsSubsequence(a[1..], b[1..])) || IsSubsequence(a, b[1..])
  }

  lemma {:induction false} SafeTitlesIsSubsequence(titles: seq<string>)
    ensures IsSubsequence(SafeTitles(titles), titles)
  {
    if titles != [] {
      SafeTitlesIsSubsequence(titles[1..]);
      var rest := SafeTitles(titles[1..]);
      if Keep(titles[0]) {
        assert ([titles[0]] + rest)[1..] == rest;
      } else {
        assert SafeTitles(titles) == rest;
      }
    }
  }

  /** Extending the scanned prefix by one entry adds that entry exactly when it is kept. */
  lemma SafeTitlesAppendOne(titles: seq<string>, i: nat)
    requires i < |titles|
    ensures SafeTitles(titles[..i + 1]) ==
            SafeTitles(titles[..i]) + (if Keep(titles[i]) then [titles[i]] else [])
  {
    assert titles[..i + 1] == titles[..i] + [titles[i]];
    SafeTitlesConcat(titles[..i], [titles[i]]);
    assert [titles[i]][1..] == [];
  }

  /** A prefix of a subsequence is a subsequence. */
  lemma {:induction false} SubsequencePrefix(a: seq<string>, b: seq<string>, k: nat)
    requires k <= |a| && IsSubsequence(a, b)
    ensures IsSubsequence(a[..k], b)
    decreases |b|
  {
    if k > 0 {
      if a[0] == b[0] && IsSubsequence(a[1..], b[1..]) {
        assert a[..k][1..] == a[1..][..k - 1];
        SubsequencePrefix(a[1..], b[1..], k - 1);
      } else {
        SubsequencePrefix(a, b[1..], k);
      }
    }
  }

  /** What `get_trending_topics(limit)` returns: for a positive limit the
      first `limit` kept titles (all of them if there are fewer); otherwise
      the count test after the first entry stops the scan at once, so only
      the first entry can be kept. */
  function TrendingTopics(titles: seq<string>, limit: int): seq<string> {
    if limit >= 1 then
      var kept := SafeTitles(titles);
      kept[..Min(limit, |kept|)]
    else
      SafeTitles(titles[..Min(1, |titles|)])
  }

  /** Where the scan may stop: at the end of the feed, once `limit` titles
      are kept, or, for a limit below one, right after the first entry. The
      titles kept up to there are the declarative result. */
  lemma ScanResult(titles: seq<string>, limit: int, i: nat)
    requires i <= |titles|
    requires limit >= 1 ==> |SafeTitles(titles[..i])| <= limit &&
                            (i == |titles| || |SafeTitles(titles[..i])| == limit)
    requires limit <= 0 ==> i == Min(1, |titles|)
    ensures SafeTitles(titles[..i]) == TrendingTopics(titles, limit)
  {
    if limit >= 1 {
      assert titles == titles[..i] + titles[i..];
      SafeTitlesConcat(titles[..i], titles[i..]);
    }
  }

  /** `get_trending_topics`: scan the feed in order, append each kept title,
      and stop as soon as the list holds `limit` titles. */
  method GetTrendingTopics(titles: seq<string>, limit: int) returns (topics: seq<string>)
    ensures topics == TrendingTopics(titles, limit)
  {
    topics := [];
    var i := 0;
    while i < |titles|
      invariant 0 <= i <= |titles|
      invariant topics == SafeTitles(titles[..i])
      invariant limit >= 1 ==> |topics| < limit
      invariant limit <= 0 ==> i == 0
    {
      var title := titles[i];
      if Keep(title) {
        topics := topics + [title];
      }
      SafeTitlesAppendOne(titles, i);
      i := i + 1;
      if |topics| >= limit {
        break;
      }
    }
    ScanResult(titles, limit, i);
  }

  /** Every collected topic is a non-empty safe title. */
  lemma TopicsAreSafe(titles: seq<string>, limit: int)
    ensures forall x :: x in TrendingTopics(titles, limit) ==> x != "" && IsSafe(x)
  {
    var kept := SafeTitles(titles);
    if limit >= 1 {
      assert forall x :: x in kept[..Min(limit, |kept|)] ==> x in kept;
    }
  }

  /** The collected topics keep the feed's order: they are a subsequence of it. */
  lemma TopicsFollowFeedOrder(titles: seq<string>, limit: int)
    ensures IsSubsequence(TrendingTopics(titles, limit), titles)
  {
    var kept := SafeTitles(titles);
    SafeTitlesIsSubsequence(titles);
    if limit >= 1 {
      SubsequencePrefix(kept, titles, Min(limit, |kept|));
    } else {
      var head := titles[..Min(1, |titles|)];
      SafeTitlesIsSubsequence(head);
      if titles != [] && !Keep(titles[0]) {
        assert SafeTitles(head) == [];
      }
    }
  }

  /** At most `limit` topics for a positive limit, at most one otherwise; and
      for a positive limit, fewer than `limit` topics only when every kept
      title of the feed was collected. */
  lemma TopicsCount(titles: seq<string>, limit: int)
    ensures limit >= 1 ==> |TrendingTopics(titles, limit)| <= limit
    ensures limit <= 0 ==> |TrendingTopics(titles, limit)| <= 1
    ensures limit >= 1 && |TrendingTopics(titles, limit)| < limit ==>
              TrendingTopics(titles, limit) == SafeTitles(titles)
  {
  }

  /** For a positive limit, nothing is collected exactly when the feed has no
      kept title. */
  lemma NoTopicsIffNothingKept(titles: seq<string>, limit: int)
    requires limit >= 1
    ensures TrendingTopics(titles, limit) == [] <==> forall x :: x in titles ==> !Keep(x)
  {
    var kept := SafeTitles(titles);
    if kept != [] {
      assert kept[0] in kept;
      assert kept[..Min(limit, |kept|)] != [];
    }
  }
}
