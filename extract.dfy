/** What the table extraction computes, as functions of the rows: the
    header dates, which rows are user rows, each user's score slots, and the
    users in encounter order with the later row winning on a repeated name. */
module Extract {
  import opened Wrappers
  import opened Text
  import opened OrderedDict
  import opened Sheet

  /** A header cell is a date when it has text containing a dot. */
  predicate IsDateCell(c: Cell)
  {
    HasText(c) && '.' in c.value
  }

  /** The dates `_parse_dates` collects from a header row. */
  function HeaderDates(row: Row): (r: seq<string>)
    ensures |r| <= |row|
    ensures forall k :: 0 <= k < |r| ==> '.' in r[k]
  {
    if row == [] then []
    else
      var init := HeaderDates(row[..|row| - 1]);
      var c := row[|row| - 1];
      if IsDateCell(c) then
        TrimKeepsContent(c.value);
        init + [Trim(c.value)]
      else init
  }

  /** The positions of the date cells of a header row, left to right. */
  function DateIndices(row: Row): seq<nat>
  {
    if row == [] then []
    else
      var init := DateIndices(row[..|row| - 1]);
      if IsDateCell(row[|row| - 1]) then init + [|row| - 1] else init
  }

  /** Each date is the trimmed text of the date cell at the matching
      position of `DateIndices`. */
  lemma {:induction false} HeaderDatesAt(row: Row)
    ensures |HeaderDates(row)| == |DateIndices(row)|
    ensures forall k :: 0 <= k < |DateIndices(row)| ==>
      DateIndices(row)[k] < |row| && IsDateCell(row[DateIndices(row)[k]]) &&
      HeaderDates(row)[k] == Trim(row[DateIndices(row)[k]].value)
  {
    if row != [] {
      var init := row[..|row| - 1];
      HeaderDatesAt(init);
      var di, hd := DateIndices(init), HeaderDates(init);
      var di', hd' := DateIndices(row), HeaderDates(row);
      var last := |row| - 1;
      if IsDateCell(row[last]) {
        assert di' == di + [last];
        assert hd' == hd + [Trim(row[last].value)];
      } else {
        assert di' == di && hd' == hd;
      }
      forall k | 0 <= k < |di'|
        ensures di'[k] < |row| && IsDateCell(row[di'[k]]) && hd'[k] == Trim(row[di'[k]].value)
      {
        if k < |di| {
          var j := di[k];
          assert di'[k] == j && hd'[k] == hd[k];
          assert row[j] == init[j];
          assert hd[k] == Trim(init[j].value);
        } else {
          assert di'[k] == last;
        }
      }
    }
  }

  /** The date positions are strictly increasing (header order) and
      include every date cell. */
  lemma {:induction false} DateIndicesComplete(row: Row)
    ensures forall k :: 0 <= k < |DateIndices(row)| ==> DateIndices(row)[k] < |row|
    ensures forall k, l :: 0 <= k < l < |DateIndices(row)| ==>
      DateIndices(row)[k] < DateIndices(row)[l]
    ensures forall j :: 0 <= j < |row| && IsDateCell(row[j]) ==> j in DateIndices(row)
  {
    if row != [] {
      var init := row[..|row| - 1];
      DateIndicesComplete(init);
      forall j | 0 <= j < |row| && IsDateCell(row[j]) ensures j in DateIndices(row) {
        if j < |row| - 1 {
          assert init[j] == row[j];
        }
      }
    }
  }

  /** `_is_user_row`: some cell after the first holds an integer. */
  predicate HasScore(row: Row)
  {
    exists j :: 1 <= j < |row| && ParseCell(row[j]).Some?
  }

  /** The user name of a data row: the stripped text of its first cell,
      when the row has cells and that text is not blank. A name is never
      empty, neither starts nor ends with whitespace and is its own
      stripped form; a row has one exactly when its first cell holds some
      character other than whitespace. */
  function UserName(row: Row): (r: Option<string>)
    ensures r.Some? ==> row != [] && row[0].Some? && r.value == Trim(row[0].value)
    ensures r.Some? ==> r.value != [] && !IsSpace(r.value[0]) && !IsSpace(r.value[|r.value| - 1])
    ensures r.Some? ==> Trim(r.value) == r.value
    ensures r.None? <==> row == [] || row[0].None? || forall c :: c in row[0].value ==> IsSpace(c)
  {
    if row == [] || !HasText(row[0]) then None
    else
      var t := Trim(row[0].value);
      TrimKeepsContent(row[0].value);
      TrimIdempotent(row[0].value);
      if t == [] then None else Some(t)
  }

  /** The score in cell `j`: its integer when it has one, 0 otherwise. */
  function CellScore(row: Row, j: nat): int
  {
    if j < |row| then
      match ParseCell(row[j])
      case Some(v) => v
      case None => 0
    else 0
  }

  /** `_parse_user_row`'s score list for `n` dates: slot `i` is taken from
      cell `i + 1`. */
  function RowScores(row: Row, n: nat): (r: seq<int>)
    ensures |r| == n
  {
    seq(n, i requires 0 <= i < n => CellScore(row, i + 1))
  }

  /** Slot `i` holds the integer of cell `i + 1`; it is 0 when the row
      ends before that cell or the cell holds no integer. */
  lemma RowScoresSlots(row: Row, n: nat, i: nat)
    requires i < n
    ensures i + 1 >= |row| ==> RowScores(row, n)[i] == 0
    ensures i + 1 < |row| && ParseCell(row[i + 1]).None? ==> RowScores(row, n)[i] == 0
    ensures i + 1 < |row| && ParseCell(row[i + 1]).Some? ==>
      RowScores(row, n)[i] == ParseCell(row[i + 1]).value
  {
    assert RowScores(row, n)[i] == CellScore(row, i + 1);
  }

  /** The row a spreadsheet holds for a user: the name, then each score
      as `str(score)` would print it. */
  function UserCells(name: string, scores: seq<int>): (r: Row)
    ensures |r| == |scores| + 1
  {
    [Some(name)] + seq(|scores|, i requires 0 <= i < |scores| => Some(IntToString(scores[i])))
  }

  /** Reading back a user's row written as text yields the same scores. */
  lemma ScoresRoundTrip(name: string, scores: seq<int>)
    ensures RowScores(UserCells(name, scores), |scores|) == scores
  {
    var row := UserCells(name, scores);
    forall i | 0 <= i < |scores| ensures RowScores(row, |scores|)[i] == scores[i] {
      var c := Some(IntToString(scores[i]));
      assert row[i + 1] == c;
      CellRoundTrip(scores[i]);
      RowScoresSlots(row, |scores|, i);
    }
  }

  /** A cell holding `str(n)` holds the integer `n`. */
  lemma CellRoundTrip(n: int)
    ensures ParseCell(Some(IntToString(n))) == Some(n)
  {
    ParseIntRoundTrip(n);
  }

  /** Python's `sum(scores)`. */
  function Sum(s: seq<int>): int
  {
    if s == [] then 0 else Sum(s[..|s| - 1]) + s[|s| - 1]
  }

  lemma {:induction false} SumConcat(a: seq<int>, b: seq<int>)
    ensures Sum(a + b) == Sum(a) + Sum(b)
  {
    if b != [] {
      assert (a + b)[..|a + b| - 1] == a + b[..|b| - 1];
      SumConcat(a, b[..|b| - 1]);
    } else {
      assert a + b == a;
    }
  }

  /** One data row of `_parse_user_data`: a row with a user name and a
      score stores that user's score list; every other row changes nothing. */
  function ApplyRow(users: Assoc<seq<int>>, n: nat, row: Row): Assoc<seq<int>>
  {
    match UserName(row)
    case None => users
    case Some(name) => if HasScore(row) then Put(users, name, RowScores(row, n)) else users
  }

  /** All data rows, in order. */
  function ApplyRows(users: Assoc<seq<int>>, n: nat, rows: seq<Row>): Assoc<seq<int>>
  {
    if rows == [] then users
    else ApplyRow(ApplyRows(users, n, rows[..|rows| - 1]), n, rows[|rows| - 1])
  }

  /** A row without a non-blank first cell, or without any integer after
      the first cell, leaves every user as it was. */
  lemma ApplyRowSkips(users: Assoc<seq<int>>, n: nat, row: Row)
    requires UserName(row).None? || !HasScore(row)
    ensures ApplyRow(users, n, row) == users
  {
  }

  /** A row whose first cell is missing, empty or all whitespace is never
      a user, whatever its other cells hold. */
  lemma BlankNameSkipped(users: Assoc<seq<int>>, n: nat, row: Row)
    requires row == [] || row[0].None? || forall c :: c in row[0].value ==> IsSpace(c)
    ensures ApplyRow(users, n, row) == users
  {
    assert UserName(row).None?;
  }

  /** A user row stores its scores under its name; a name seen before keeps
      its position (last row wins, nothing merged), a new name is appended,
      and no other user changes. */
  lemma ApplyRowStores(users: Assoc<seq<int>>, n: nat, row: Row)
    requires UserName(row).Some? && HasScore(row)
    ensures var name := Trim(row[0].value);
      var r := ApplyRow(users, n, row);
      Lookup(r, name) == Some(RowScores(row, n)) &&
      (name in Keys(users) ==> Keys(r) == Keys(users)) &&
      (name !in Keys(users) ==> Keys(r) == Keys(users) + [name]) &&
      forall k :: k != name ==> Lookup(r, k) == Lookup(users, k)
  {
  }

  /** Every score list has one slot per date. */
  ghost predicate Aligned(users: Assoc<seq<int>>, n: nat)
  {
    forall i :: 0 <= i < |users| ==> |users[i].1| == n
  }

  /** Extraction keeps keys unique and every score list aligned with the
      dates, and users already present keep their place in encounter order. */
  lemma {:induction false} ApplyRowsInvariant(users: Assoc<seq<int>>, n: nat, rows: seq<Row>)
    requires UniqueKeys(users)
    ensures var r := ApplyRows(users, n, rows);
      UniqueKeys(r) && (Aligned(users, n) ==> Aligned(r, n)) &&
      |Keys(users)| <= |Keys(r)| && Keys(r)[..|Keys(users)|] == Keys(users)
  {
    if rows != [] {
      var prev := ApplyRows(users, n, rows[..|rows| - 1]);
      ApplyRowsInvariant(users, n, rows[..|rows| - 1]);
      var row := rows[|rows| - 1];
      if UserName(row).Some? && HasScore(row) {
        var name, v := UserName(row).value, RowScores(row, n);
        assert ApplyRows(users, n, rows) == Put(prev, name, v);
        PutKeepsOrder(prev, n, name, v);
        assert Keys(users) == Keys(prev)[..|users|];
      } else {
        assert ApplyRows(users, n, rows) == prev;
      }
    }
  }

  /** Storing a score list keeps the keys already present where they were,
      and storing an aligned one keeps every list aligned. */
  lemma PutKeepsOrder(users: Assoc<seq<int>>, n: nat, k: string, v: seq<int>)
    ensures |users| <= |Put(users, k, v)|
    ensures Keys(Put(users, k, v))[..|users|] == Keys(users)
    ensures Aligned(users, n) && |v| == n ==> Aligned(Put(users, k, v), n)
  {
    match IndexOf(users, k)
    case Some(i) =>
      assert Put(users, k, v) == users[i := (k, v)];
    case None =>
      assert Put(users, k, v) == users + [(k, v)];
  }

  /** The `totals` dict: each user's key with the sum of its scores. */
  function TotalsOf(users: Assoc<seq<int>>): (t: Assoc<int>)
    ensures Keys(t) == Keys(users)
  {
    var t := seq(|users|, i requires 0 <= i < |users| => (users[i].0, Sum(users[i].1)));
    assert Keys(t) == Keys(users);
    t
  }

  /** Looked up by name, a user's total is the sum of that user's scores,
      and a name without scores has no total. */
  lemma TotalsOfLookup(users: Assoc<seq<int>>)
    ensures forall k :: k in Keys(users) ==>
      Lookup(users, k).Some? && Lookup(TotalsOf(users), k) == Some(Sum(Lookup(users, k).value))
    ensures forall k :: k !in Keys(users) ==> Lookup(TotalsOf(users), k).None?
  {
    var t := TotalsOf(users);
    SameKeysSameIndex(users, t);
    forall k | k in Keys(users)
      ensures Lookup(users, k).Some? && Lookup(t, k) == Some(Sum(Lookup(users, k).value))
    {
      var i := IndexOf(users, k).value;
      assert IndexOf(t, k) == Some(i);
      assert t[i].1 == Sum(users[i].1);
    }
  }

  /** Storing a user's scores and storing its total keep `totals` in step
      with `users_data`. */
  lemma TotalsOfPut(users: Assoc<seq<int>>, k: string, v: seq<int>)
    ensures TotalsOf(Put(users, k, v)) == Put(TotalsOf(users), k, Sum(v))
  {
    var t := TotalsOf(users);
    SameKeysSameIndex(users, t);
    match IndexOf(users, k)
    case Some(i) =>
      assert Put(users, k, v) == users[i := (k, v)];
      assert Put(t, k, Sum(v)) == t[i := (k, Sum(v))];
    case None =>
      assert Put(users, k, v) == users + [(k, v)];
      assert Put(t, k, Sum(v)) == t + [(k, Sum(v))];
  }
}
