/** The keyword safety filter: a headline is unsafe when, ignoring case, it
    contains any word of a fixed blocklist. */
module Safety {
  import opened Text

  /** The blocklist, all in lower case. */
  const Blocked: set<string> := {
    "politics", "election", "government", "minister",
    "bjp", "congress", "parliament", "president",
    "religion", "god", "hindu", "islam", "christian",
    "temple", "mosque", "church", "israel", "palestine"
  }

  /** `is_safe`: no blocked word occurs in the lower-cased text. */
  function IsSafe(text: string): (r: bool)
    ensures r <==> forall w :: w in Blocked ==> !IsSubstring(w, Lower(text))
  {
    forall w | w in Blocked :: !Contains(Lower(text), w)
  }

  /** A blocked word matches `text` at position `i` when the folded slice of
      `text` there spells the word. */
  ghost predicate MatchesIgnoringCase(w: string, text: string, i: int) {
    0 <= i && i + |w| <= |text| && Lower(text[i..i + |w|]) == w
  }

  /** A word occurs in the folded text at `i` exactly when it matches the
      text there ignoring case. */
  lemma OccursFoldedIffMatches(w: string, text: string, i: int)
    ensures OccursAt(w, Lower(text), i) <==> MatchesIgnoringCase(w, text, i)
  {
    if 0 <= i && i + |w| <= |text| {
      LowerSlice(text, i, i + |w|);
    }
  }

  /** Case-insensitive reading of the filter: the text is unsafe exactly when
      some stretch of it folds to a blocked word. */
  lemma UnsafeIffBlockedWordIgnoringCase(text: string)
    ensures !IsSafe(text) <==> exists w, i :: w in Blocked && MatchesIgnoringCase(w, text, i)
  {
    if !IsSafe(text) {
      var w :| w in Blocked && IsSubstring(w, Lower(text));
      var i :| OccursAt(w, Lower(text), i);
      OccursFoldedIffMatches(w, text, i);
    }
    if exists w, i :: w in Blocked && MatchesIgnoringCase(w, text, i) {
      var w, i :| w in Blocked && MatchesIgnoringCase(w, text, i);
      OccursFoldedIffMatches(w, text, i);
    }
  }

  /** Changing the case of a headline never changes the verdict. */
  lemma SafetyIgnoresCase(a: string, b: string)
    requires Lower(a) == Lower(b)
    ensures IsSafe(a) == IsSafe(b)
    ensures IsSafe(Lower(a)) == IsSafe(a)
  {
    LowerIdempotent(a);
  }

  /** A headline with "Election" in capitals is rejected. */
  lemma ElectionHeadlineIsUnsafe()
    ensures !IsSafe("Election results delayed")
  {
    var text := "Election results delayed";
    assert Lower(text)[0..8] == "election";
    assert OccursAt("election", Lower(text), 0);
  }
}
