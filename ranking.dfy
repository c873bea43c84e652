/**
 * Rank resolution: the scan at the heart of `get_rank`. The page fetch and
 * the CSS selection of result blocks are replaced by their outcome, a
 * sequence of result entries in page order.
 */
module Ranking {
  import opened Wrappers
  import opened Text

  /** One result block of the page: either it holds no `<a>` tag, or its
      first anchor carries this `href`. */
  datatype Entry = NoAnchor | Anchor(href: string)

  /** The entry links to the tracked page: it has an anchor whose `href`
      contains the target as a case-sensitive substring. */
  predicate Matches(e: Entry, targetUrl: string)
  {
    e.Anchor? && Contains(e.href, targetUrl)
  }

  /** Adds `n` to a present rank; `None` stays `None`. */
  function Shift(r: Option<nat>, n: nat): (shifted: Option<nat>)
  {
    match r
    case None => None
    case Some(k) => Some(k + n)
  }

  /** Shifting twice shifts by the sum. */
  lemma ShiftTwice(r: Option<nat>, m: nat, n: nat)
    ensures Shift(Shift(r, m), n) == Shift(r, m + n)
  {
  }

  /** The reference definition of a rank: the 1-based position of the first
      matching entry, or `None` when no entry matches. */
  function Rank(results: seq<Entry>, targetUrl: string): (r: Option<nat>)
    ensures r.Some? ==> 1 <= r.value <= |results| && Matches(results[r.value - 1], targetUrl)
    ensures r.Some? ==> forall j :: 0 <= j < r.value - 1 ==> !Matches(results[j], targetUrl)
    ensures r.None? <==> forall j :: 0 <= j < |results| ==> !Matches(results[j], targetUrl)
  {
    if results == [] then None
    else if Matches(results[0], targetUrl) then Some(1)
    else Shift(Rank(results[1..], targetUrl), 1)
  }

  /** The scan of `get_rank`: walk the entries with a 1-based counter and
      return at the first match; fall off the end with `None`. */
  method GetRank(results: seq<Entry>, targetUrl: string) returns (rank: Option<nat>)
    ensures rank == Rank(results, targetUrl)
    ensures rank != Some(0)
  {
    var idx := 1;
    while idx <= |results|
      invariant 1 <= idx <= |results| + 1
      invariant forall j :: 0 <= j < idx - 1 ==> !Matches(results[j], targetUrl)
    {
      var res := results[idx - 1];
      if res.Anchor? && Contains(res.href, targetUrl) {
        return Some(idx);
      }
      idx := idx + 1;
    }
    return None;
  }

  /** Entries that do not match, anchored or not, still take up positions:
      putting them in front of a listing moves its rank down by their number. */
  lemma {:induction false} RankAfterMisses(misses: seq<Entry>, rest: seq<Entry>, targetUrl: string)
    requires forall j :: 0 <= j < |misses| ==> !Matches(misses[j], targetUrl)
    ensures Rank(misses + rest, targetUrl) == Shift(Rank(rest, targetUrl), |misses|)
  {
    if misses != [] {
      ConcatTail(misses, rest);
      assert !Matches(misses[0], targetUrl);
      RankAfterMisses(misses[1..], rest, targetUrl);
      assert Rank(misses + rest, targetUrl) == Shift(Rank(misses[1..] + rest, targetUrl), 1);
      ShiftTwice(Rank(rest, targetUrl), |misses| - 1, 1);
    } else {
      assert misses + rest == rest;
    }
  }

  /** A block without an anchor is skipped but counted. */
  lemma NoAnchorShifts(results: seq<Entry>, targetUrl: string)
    ensures Rank([NoAnchor] + results, targetUrl) == Shift(Rank(results, targetUrl), 1)
  {
    RankAfterMisses([NoAnchor], results, targetUrl);
  }

  /** The rank of a listing joined from two parts: the first part's rank if
      it has one, otherwise the second part's rank moved past the first. */
  lemma {:induction false} RankOfConcat(a: seq<Entry>, b: seq<Entry>, targetUrl: string)
    ensures Rank(a + b, targetUrl)
         == if Rank(a, targetUrl).Some? then Rank(a, targetUrl) else Shift(Rank(b, targetUrl), |a|)
  {
    if a == [] {
      assert a + b == b;
      assert Rank(a, targetUrl) == None;
      assert Shift(Rank(b, targetUrl), 0) == Rank(b, targetUrl);
    } else {
      ConcatTail(a, b);
      RankOfConcat(a[1..], b, targetUrl);
      if Matches(a[0], targetUrl) {
        assert Rank(a + b, targetUrl) == Some(1) == Rank(a, targetUrl);
      } else {
        assert Rank(a + b, targetUrl) == Shift(Rank(a[1..] + b, targetUrl), 1);
        assert Rank(a, targetUrl) == Shift(Rank(a[1..], targetUrl), 1);
        if Rank(a[1..], targetUrl).None? {
          ShiftTwice(Rank(b, targetUrl), |a| - 1, 1);
        }
      }
    }
  }

  /** Joining keeps the head of a non-empty first part, and its tail joined. */
  lemma ConcatTail<T>(a: seq<T>, b: seq<T>)
    requires a != []
    ensures (a + b)[0] == a[0] && (a + b)[1..] == a[1..] + b
  {
  }

  /** A pattern longer than the text never occurs in it. */
  lemma {:induction false} LongerNotContained(s: string, pat: string)
    requires |pat| > |s|
    ensures !Contains(s, pat)
  {
    if |s| > 0 {
      LongerNotContained(s[1..], pat);
    }
  }

  /** The rank is fixed by the first match: if entry `k` matches and no
      entry before it does, the rank is `k + 1`, whatever follows. */
  lemma FirstMatchRanks(results: seq<Entry>, targetUrl: string, k: nat)
    requires k < |results| && Matches(results[k], targetUrl)
    requires forall j :: 0 <= j < k ==> !Matches(results[j], targetUrl)
    ensures Rank(results, targetUrl) == Some(k + 1)
  {
  }

  /** A listing none of whose entries links to the target is reported as
      `None`, never as a number: anchorless blocks and anchors whose `href`
      does not contain the target are all passed over. */
  lemma NoMatchIsNone(results: seq<Entry>, targetUrl: string)
    requires forall j :: 0 <= j < |results| ==> results[j].NoAnchor? || !Contains(results[j].href, targetUrl)
    ensures Rank(results, targetUrl) == None
  {
  }

  /** An example page listing `other.com/a`, `example.com/gym`, `x.com/b`:
      the page `example.com` ranks second. */
  lemma SecondResultRanksTwo()
    ensures Rank([Anchor("other.com/a"), Anchor("example.com/gym"), Anchor("x.com/b")], "example.com") == Some(2)
  {
    var t, miss, hit := "example.com", "other.com/a", "example.com/gym";
    var results := [Anchor(miss), Anchor(hit), Anchor("x.com/b")];
    assert miss[1] != t[1];
    assert !(t <= miss);
    LongerNotContained(miss[1..], t);
    assert hit[..|t|] == t;
    assert t <= hit;
    assert Matches(results[1], t);
    forall j | 0 <= j < 1
      ensures !Matches(results[j], t)
    {
      assert results[j] == Anchor(miss);
    }
    FirstMatchRanks(results, t, 1);
  }

  /** An example listing of two anchorless blocks around one short link:
      any target longer than the link is reported as `None`. */
  lemma AbsentTargetIsNone(targetUrl: string)
    requires |targetUrl| > 3
    ensures Rank([NoAnchor, Anchor("a/b"), NoAnchor], targetUrl) == None
  {
    LongerNotContained("a/b", targetUrl);
    NoMatchIsNone([NoAnchor, Anchor("a/b"), NoAnchor], targetUrl);
  }
}
