/** The "most valuable player" of each day, as `_calculate_daily_mvp`
    finds it: the highest score of the day, found with a running maximum
    that starts at -1, and every user holding it, in encounter order; a day
    whose highest score is not positive has no winner. */
module Mvp {
  import opened Text
  import opened OrderedDict

  /** A day's outcome: no winner (shown as "-") or the tied winners. */
  datatype MvpResult = NoWinner | Winners(names: seq<string>)

  /** User `i` has a score for day `d` (its list reaches that far). */
  predicate HasDay(users: Assoc<seq<int>>, i: int, d: nat)
  {
    0 <= i < |users| && d < |users[i].1|
  }

  /** The running maximum over the users, starting from -1: at least
      every score of the day. */
  function DayMax(users: Assoc<seq<int>>, d: nat): (m: int)
    ensures m >= -1
    ensures forall i :: HasDay(users, i, d) ==> users[i].1[d] <= m
  {
    if users == [] then -1
    else
      var init := users[..|users| - 1];
      var m := DayMax(init, d);
      var last := users[|users| - 1].1;
      assert forall i :: HasDay(users, i, d) && i < |users| - 1 ==> HasDay(init, i, d) && users[i] == init[i];
      if d < |last| && last[d] > m then last[d] else m
  }

  /** Unless the running maximum is still -1, some user holds it. */
  lemma {:induction false} DayMaxIsMax(users: Assoc<seq<int>>, d: nat)
    ensures DayMax(users, d) != -1 ==>
      exists i :: HasDay(users, i, d) && users[i].1[d] == DayMax(users, d)
  {
    if users != [] {
      var init := users[..|users| - 1];
      DayMaxIsMax(init, d);
      assert forall i :: HasDay(init, i, d) ==> HasDay(users, i, d) && users[i] == init[i];
      if DayMax(users, d) != DayMax(init, d) {
        assert HasDay(users, |users| - 1, d);
      }
    }
  }

  /** The names of the users whose day-`d` score is `m`, in encounter order. */
  function DayWinners(users: Assoc<seq<int>>, d: nat, m: int): seq<string>
  {
    if users == [] then []
    else
      var init := DayWinners(users[..|users| - 1], d, m);
      var last := users[|users| - 1];
      if d < |last.1| && last.1[d] == m then init + [last.0] else init
  }

  /** The outcome of day `d`. */
  function MvpOf(users: Assoc<seq<int>>, d: nat): MvpResult
  {
    var m := DayMax(users, d);
    if m > 0 then Winners(DayWinners(users, d, m)) else NoWinner
  }

  /** The text stored in `mvp_data` for an outcome. */
  function MvpText(r: MvpResult): string
  {
    match r
    case NoWinner => "-"
    case Winners(names) => Join("|", names)
  }

  /** `mvp_data`: one entry for each day index below `n`. */
  function MvpTable(users: Assoc<seq<int>>, n: nat): (t: map<nat, string>)
    ensures forall d: nat :: d in t <==> d < n
  {
    map d | 0 <= d < n :: MvpText(MvpOf(users, d))
  }

  /** `a` is `b` with some elements left out, the rest in the same order. */
  predicate IsSubsequence(a: seq<string>, b: seq<string>)
  {
    if b == [] then a == []
    else
      (a != [] && a[|a| - 1] == b[|b| - 1] && IsSubsequence(a[..|a| - 1], b[..|b| - 1])) ||
      IsSubsequence(a, b[..|b| - 1])
  }

  /** The winners of score `m` are exactly the users scoring `m` that day,
      taken in encounter order. */
  lemma {:induction false} DayWinnersExact(users: Assoc<seq<int>>, d: nat, m: int)
    ensures forall x :: x in DayWinners(users, d, m) <==>
      exists i :: HasDay(users, i, d) && users[i].1[d] == m && users[i].0 == x
    ensures IsSubsequence(DayWinners(users, d, m), Keys(users))
  {
    if users != [] {
      var init := users[..|users| - 1];
      var last := users[|users| - 1];
      DayWinnersExact(init, d, m);
      assert Keys(users)[..|users| - 1] == Keys(init);
      assert forall i :: HasDay(init, i, d) ==> HasDay(users, i, d) && users[i] == init[i];
      var w := DayWinners(users, d, m);
      var w0 := DayWinners(init, d, m);
      if d < |last.1| && last.1[d] == m {
        assert w[..|w| - 1] == w0;
      }
      forall x | x in w ensures exists i :: HasDay(users, i, d) && users[i].1[d] == m && users[i].0 == x {
        if x !in w0 {
          assert HasDay(users, |users| - 1, d);
        }
      }
      forall i | HasDay(users, i, d) && users[i].1[d] == m ensures users[i].0 in w {
        if i < |users| - 1 {
          assert HasDay(init, i, d);
        }
      }
    }
  }

  /** Zero is never a winning score: a day has no winner exactly when no
      user scored above zero on it, and that includes a day where no user
      has a score at all and a day where everyone is tied at 0. */
  lemma NoWinnerIffNoPositive(users: Assoc<seq<int>>, d: nat)
    ensures MvpOf(users, d).NoWinner? <==>
      forall i :: HasDay(users, i, d) ==> users[i].1[d] <= 0
  {
    DayMaxIsMax(users, d);
  }

  /** When someone scored above zero, the winners are exactly the users
      holding the day's highest score, none missing, none extra, in
      encounter order, and there is at least one of them. */
  lemma WinnersAreTopScorers(users: Assoc<seq<int>>, d: nat)
    requires MvpOf(users, d).Winners?
    ensures var names := MvpOf(users, d).names;
      var m := DayMax(users, d);
      m > 0 && names != [] &&
      (forall i :: HasDay(users, i, d) ==> users[i].1[d] <= m) &&
      (forall x :: x in names <==>
        exists i :: HasDay(users, i, d) && users[i].1[d] == m && users[i].0 == x) &&
      IsSubsequence(names, Keys(users))
  {
    var m := DayMax(users, d);
    DayMaxIsMax(users, d);
    DayWinnersExact(users, d, m);
    var i :| HasDay(users, i, d) && users[i].1[d] == m;
    assert users[i].0 in MvpOf(users, d).names;
  }

  /** A unique positive maximum makes its holder the only winner. */
  lemma {:induction false} UniqueTopScorer(users: Assoc<seq<int>>, d: nat, k: nat)
    requires HasDay(users, k, d) && users[k].1[d] > 0
    requires forall i :: HasDay(users, i, d) && i != k ==> users[i].1[d] < users[k].1[d]
    ensures MvpOf(users, d) == Winners([users[k].0])
  {
    var m := users[k].1[d];
    DayMaxIsMax(users, d);
    assert DayMax(users, d) == m;
    DayWinnersSingle(users, d, k);
  }

  lemma {:induction false} DayWinnersSingle(users: Assoc<seq<int>>, d: nat, k: nat)
    requires HasDay(users, k, d)
    requires forall i :: HasDay(users, i, d) && i != k ==> users[i].1[d] != users[k].1[d]
    ensures DayWinners(users, d, users[k].1[d]) == [users[k].0]
  {
    var m := users[k].1[d];
    var init := users[..|users| - 1];
    if k == |users| - 1 {
      DayWinnersNone(init, d, m);
    } else {
      assert HasDay(init, k, d) && init[k] == users[k];
      assert forall i :: HasDay(init, i, d) && i != k ==> HasDay(users, i, d) && init[i] == users[i];
      DayWinnersSingle(init, d, k);
    }
  }

  lemma {:induction false} DayWinnersNone(users: Assoc<seq<int>>, d: nat, m: int)
    requires forall i :: HasDay(users, i, d) ==> users[i].1[d] != m
    ensures DayWinners(users, d, m) == []
  {
    if users != [] {
      var init := users[..|users| - 1];
      assert forall i :: HasDay(init, i, d) ==> HasDay(users, i, d) && init[i] == users[i];
      assert !HasDay(users, |users| - 1, d) || users[|users| - 1].1[d] != m;
      DayWinnersNone(init, d, m);
    }
  }

  /** One more user in the scan: the running maximum and the winners of
      day `d` are those of the users before, updated by the new user's
      score alone. */
  lemma ScanStep(users: Assoc<seq<int>>, u: (string, seq<int>), d: nat, m: int)
    ensures DayMax(users + [u], d) ==
      if d < |u.1| && u.1[d] > DayMax(users, d) then u.1[d] else DayMax(users, d)
    ensures DayWinners(users + [u], d, m) ==
      if d < |u.1| && u.1[d] == m then DayWinners(users, d, m) + [u.0] else DayWinners(users, d, m)
  {
    assert (users + [u])[..|users|] == users;
  }

  /** Adding day `d`'s entry to the table of the days before it gives the
      table of the days up to `d`. */
  lemma MvpTableGrow(users: Assoc<seq<int>>, d: nat)
    ensures (map k: nat | k < d :: MvpText(MvpOf(users, k)))[d := MvpText(MvpOf(users, d))] ==
      map k: nat | k < d + 1 :: MvpText(MvpOf(users, k))
  {
  }

  /** The worked example: Alice scores 3 then 5 and Bob 5 then 5, so Bob
      alone wins the first day and both tie on the second. */
  lemma TwoUserExample()
    ensures MvpOf([("Alice", [3, 5]), ("Bob", [5, 5])], 0) == Winners(["Bob"])
    ensures MvpOf([("Alice", [3, 5]), ("Bob", [5, 5])], 1) == Winners(["Alice", "Bob"])
    ensures MvpOf([("Alice", [0]), ("Bob", [0])], 0) == NoWinner
  {
    var u: Assoc<seq<int>> := [("Alice", [3, 5]), ("Bob", [5, 5])];
    var a: Assoc<seq<int>> := [("Alice", [3, 5])];
    assert u[..1] == a && a[..0] == [];
    assert DayMax(u, 0) == 5 && DayMax(u, 1) == 5;
    assert DayWinners(a, 0, 5) == [] && DayWinners(a, 1, 5) == ["Alice"];
    assert DayWinners(u, 0, 5) == ["Bob"];
    assert DayWinners(u, 1, 5) == ["Alice", "Bob"];
    var z: Assoc<seq<int>> := [("Alice", [0]), ("Bob", [0])];
    assert z[..1] == [("Alice", [0])];
  }
}
