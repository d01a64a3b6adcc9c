/** The summary figures computed from `totals`: the ranking
    `sorted(totals.items(), key=total, reverse=True)`, the grand total
    `sum(totals.values())` and the leader `max(totals.items(), key=total)`. */
module Ranking {
  import opened OrderedDict
  import opened Extract

  /** Non-increasing by total. */
  predicate SortedDesc(s: Assoc<int>)
  {
    forall i, j :: 0 <= i < j < |s| ==> s[i].1 >= s[j].1
  }

  /** The entries whose total is `t`, in their order in `s`. */
  function WithTotal(s: Assoc<int>, t: int): Assoc<int>
  {
    if s == [] then []
    else (if s[0].1 == t then [s[0]] else []) + WithTotal(s[1..], t)
  }

  lemma {:induction false} WithTotalConcat(a: Assoc<int>, b: Assoc<int>, t: int)
    ensures WithTotal(a + b, t) == WithTotal(a, t) + WithTotal(b, t)
  {
    if a == [] {
      assert a + b == b;
    } else {
      var head := if a[0].1 == t then [a[0]] else [];
      assert (a + b)[0] == a[0];
      assert (a + b)[1..] == a[1..] + b;
      WithTotalConcat(a[1..], b, t);
      calc {
        WithTotal(a + b, t);
        head + WithTotal(a[1..] + b, t);
        head + (WithTotal(a[1..], t) + WithTotal(b, t));
        (head + WithTotal(a[1..], t)) + WithTotal(b, t);
      }
    }
  }

  /** Places `x` after every entry whose total is at least its own. */
  function InsertDesc(s: Assoc<int>, x: (string, int)): Assoc<int>
  {
    if s == [] then [x]
    else if s[0].1 >= x.1 then [s[0]] + InsertDesc(s[1..], x)
    else [x] + s
  }

  /** Python's stable `sorted(..., reverse=True)` by total, as an
      insertion sort over the entries in encounter order. */
  function Rank(s: Assoc<int>): Assoc<int>
  {
    if s == [] then []
    else InsertDesc(Rank(s[..|s| - 1]), s[|s| - 1])
  }

  lemma {:induction false} InsertDescPermutes(s: Assoc<int>, x: (string, int))
    ensures multiset(InsertDesc(s, x)) == multiset(s) + multiset{x}
  {
    if s != [] && s[0].1 >= x.1 {
      InsertDescPermutes(s[1..], x);
      assert s == [s[0]] + s[1..];
    }
  }

  lemma {:induction false} InsertDescSorted(s: Assoc<int>, x: (string, int))
    requires SortedDesc(s)
    ensures SortedDesc(InsertDesc(s, x))
  {
    var r := InsertDesc(s, x);
    if s != [] && s[0].1 >= x.1 {
      var rest := InsertDesc(s[1..], x);
      assert SortedDesc(s[1..]) by {
        forall i, j | 0 <= i < j < |s[1..]| ensures s[1..][i].1 >= s[1..][j].1 {
          assert s[1..][i] == s[i + 1] && s[1..][j] == s[j + 1];
        }
      }
      InsertDescSorted(s[1..], x);
      InsertDescPermutes(s[1..], x);
      assert r == [s[0]] + rest;
      forall j | 1 <= j < |r| ensures r[0].1 >= r[j].1 {
        assert r[j] == rest[j - 1];
        assert rest[j - 1] in multiset(rest);
        HeadBounds(s, x, rest[j - 1]);
      }
    }
  }

  /** Everything inserted behind the head of a sorted list is at most the
      head's total. */
  lemma HeadBounds(s: Assoc<int>, x: (string, int), e: (string, int))
    requires SortedDesc(s) && s != [] && s[0].1 >= x.1
    requires e in multiset(s[1..]) + multiset{x}
    ensures e.1 <= s[0].1
  {
    if e != x {
      assert e in s[1..];
      var k :| 0 <= k < |s[1..]| && s[1..][k] == e;
      assert s[k + 1] == e;
    }
  }

  lemma {:induction false} InsertDescStable(s: Assoc<int>, x: (string, int), t: int)
    requires SortedDesc(s)
    ensures WithTotal(InsertDesc(s, x), t) == WithTotal(s, t) + WithTotal([x], t)
  {
    if s == [] {
      assert InsertDesc(s, x) == [x];
    } else if s[0].1 >= x.1 {
      var rest := InsertDesc(s[1..], x);
      var head := if s[0].1 == t then [s[0]] else [];
      assert SortedDesc(s[1..]) by {
        forall i, j | 0 <= i < j < |s[1..]| ensures s[1..][i].1 >= s[1..][j].1 {
          assert s[1..][i] == s[i + 1] && s[1..][j] == s[j + 1];
        }
      }
      InsertDescStable(s[1..], x, t);
      assert InsertDesc(s, x) == [s[0]] + rest;
      calc {
        WithTotal(InsertDesc(s, x), t);
        WithTotal([s[0]] + rest, t);
        { assert ([s[0]] + rest)[1..] == rest; }
        head + WithTotal(rest, t);
        head + (WithTotal(s[1..], t) + WithTotal([x], t));
        (head + WithTotal(s[1..], t)) + WithTotal([x], t);
        WithTotal(s, t) + WithTotal([x], t);
      }
    } else {
      assert InsertDesc(s, x) == [x] + s;
      WithTotalConcat([x], s, t);
      if t == x.1 {
        NoneWithTotal(s, t);
        assert WithTotal(s, t) == [];
      } else {
        assert WithTotal([x], t) == [];
      }
    }
  }

  /** In a list sorted by total, no entry has a total above the first one's. */
  lemma {:induction false} NoneWithTotal(s: Assoc<int>, t: int)
    requires SortedDesc(s) && s != [] && s[0].1 < t
    ensures WithTotal(s, t) == []
  {
    if |s| > 1 {
      NoneWithTotal(s[1..], t);
    }
  }

  /** The ranking is the users in non-increasing order of total, a
      permutation of `totals`, and stable: the users sharing any one total
      appear in the same order as in `totals`. */
  lemma {:induction false} RankCorrect(s: Assoc<int>)
    ensures SortedDesc(Rank(s))
    ensures multiset(Rank(s)) == multiset(s)
    ensures forall t :: WithTotal(Rank(s), t) == WithTotal(s, t)
  {
    if s != [] {
      var init := s[..|s| - 1];
      var x := s[|s| - 1];
      RankCorrect(init);
      InsertDescSorted(Rank(init), x);
      InsertDescPermutes(Rank(init), x);
      assert s == init + [x];
      forall t ensures WithTotal(Rank(s), t) == WithTotal(s, t) {
        InsertDescStable(Rank(init), x, t);
        WithTotalConcat(init, [x], t);
      }
    }
  }

  /** `sum(totals.values())`. */
  function TotalPomodoros(totals: Assoc<int>): int
  {
    if totals == [] then 0
    else TotalPomodoros(totals[..|totals| - 1]) + totals[|totals| - 1].1
  }

  /** Every score of every user, in encounter order. */
  function AllScores(users: Assoc<seq<int>>): seq<int>
  {
    if users == [] then []
    else AllScores(users[..|users| - 1]) + users[|users| - 1].1
  }

  /** Because each total is the sum of its user's scores, the grand total
      is the sum of all scores. */
  lemma {:induction false} TotalPomodorosIsSumOfScores(users: Assoc<seq<int>>)
    ensures TotalPomodoros(TotalsOf(users)) == Sum(AllScores(users))
  {
    if users != [] {
      var init := users[..|users| - 1];
      TotalPomodorosIsSumOfScores(init);
      assert TotalsOf(users)[..|users| - 1] == TotalsOf(init);
      SumConcat(AllScores(init), users[|users| - 1].1);
    }
  }

  /** The position `max` returns: the first entry with the largest total. */
  function LeaderIndex(s: Assoc<int>): (k: nat)
    requires s != []
    ensures k < |s|
    ensures forall j :: 0 <= j < |s| ==> s[j].1 <= s[k].1
    ensures forall j :: 0 <= j < k ==> s[j].1 < s[k].1
  {
    if |s| == 1 then 0
    else
      var init := s[..|s| - 1];
      var k := LeaderIndex(init);
      assert forall j :: 0 <= j < |init| ==> s[j] == init[j];
      if s[|s| - 1].1 > s[k].1 then |s| - 1 else k
  }

  /** `top_performer`: the leader's name, or "N/A" with no users. */
  function TopPerformer(totals: Assoc<int>): string
  {
    if totals == [] then "N/A" else totals[LeaderIndex(totals)].0
  }

  lemma {:induction false} WithTotalFirst(s: Assoc<int>, k: nat)
    requires k < |s|
    requires forall j :: 0 <= j < k ==> s[j].1 != s[k].1
    ensures WithTotal(s, s[k].1) != [] && WithTotal(s, s[k].1)[0] == s[k]
  {
    if k > 0 {
      WithTotalFirst(s[1..], k - 1);
    }
  }

  /** The leader is the head of the ranking: among users sharing the
      highest total, the one met first. */
  lemma TopPerformerHeadsRanking(totals: Assoc<int>)
    requires totals != []
    ensures Rank(totals) != [] && TopPerformer(totals) == Rank(totals)[0].0
  {
    var r := Rank(totals);
    RankCorrect(totals);
    var k := LeaderIndex(totals);
    var m := totals[k].1;
    assert totals[k] in multiset(r);
    assert r[0] in multiset(totals);
    var j :| 0 <= j < |r| && r[j] == totals[k];
    var i :| 0 <= i < |totals| && totals[i] == r[0];
    assert r[0].1 == m;
    WithTotalFirst(totals, k);
    WithTotalFirst(r, 0);
    assert WithTotal(r, m) == WithTotal(totals, m);
  }
}
