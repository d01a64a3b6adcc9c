/** The parser object: the state `parse_xml` fills in (the dates, each
    user's score list, each user's total and each day's MVP text) and the
    methods that fill it, each proved against the functions of the Extract,
    Mvp and Sheet modules. */
module Leaderboard {
  import opened Wrappers
  import opened Text
  import opened OrderedDict
  import opened Sheet
  import opened Extract
  import opened Mvp

  class PomodoroLeaderboardParser {
    var dates: seq<string>
    var usersData: Assoc<seq<int>>
    var totals: Assoc<int>
    var mvpData: map<nat, string>

    /** `users_data` has one entry per name, and `totals` holds the same
        names in the same order, each with the sum of its scores. */
    ghost predicate Valid()
      reads this
    {
      UniqueKeys(usersData) && totals == TotalsOf(usersData)
    }

    constructor ()
      ensures Valid()
      ensures dates == [] && usersData == [] && totals == [] && mvpData == map[]
    {
      dates := [];
      usersData := [];
      mvpData := map[];
      totals := [];
    }

    /** Checks the document's structure and, when it holds, extracts the
        dates from the header row and the users from the rows after it.
        On failure nothing is extracted. */
    method ParseXml(doc: Document) returns (ok: bool)
      requires Valid()
      modifies this
      ensures Valid()
      ensures ok <==> TableRows(doc).Ok?
      ensures !ok ==> dates == old(dates) && usersData == old(usersData) &&
                      totals == old(totals) && mvpData == old(mvpData)
      ensures ok ==>
        var rows := TableRows(doc).value;
        dates == old(dates) + HeaderDates(rows[0]) &&
        usersData == ApplyRows(old(usersData), |dates|, rows[1..]) &&
        mvpData == MvpTable(usersData, |dates|)
      ensures ok && old(usersData) == [] ==> Aligned(usersData, |dates|)
    {
      if doc.worksheet.None? {
        return false;
      }
      var worksheet := doc.worksheet.value;
      if worksheet.table.None? {
        return false;
      }
      var rows := worksheet.table.value.rows;
      if |rows| < 2 {
        return false;
      }
      ParseDates(rows[0]);
      ParseUserData(rows[1..]);
      return true;
    }

    /** Appends the date cells of the header row, trimmed, in order. */
    method ParseDates(row: Row)
      modifies this`dates
      ensures dates == old(dates) + HeaderDates(row)
    {
      for i := 0 to |row|
        invariant dates == old(dates) + HeaderDates(row[..i])
      {
        assert row[..i + 1][..i] == row[..i];
        var cell := row[i];
        if cell.Some? && cell.value != "" {
          if '.' in cell.value {
            dates := dates + [Trim(cell.value)];
          }
        }
      }
      assert row[..|row|] == row;
    }

    /** Stores every user row, then computes the MVP of each day. */
    method ParseUserData(rows: seq<Row>)
      requires Valid()
      modifies this`usersData, this`totals, this`mvpData
      ensures Valid()
      ensures usersData == ApplyRows(old(usersData), |dates|, rows)
      ensures mvpData == MvpTable(usersData, |dates|)
      ensures Aligned(old(usersData), |dates|) ==> Aligned(usersData, |dates|)
    {
      ApplyRowsInvariant(usersData, |dates|, rows);
      for i := 0 to |rows|
        invariant Valid()
        invariant usersData == ApplyRows(old(usersData), |dates|, rows[..i])
      {
        assert rows[..i + 1] == rows[..i] + [rows[i]];
        assert ApplyRows(old(usersData), |dates|, rows[..i + 1]) ==
          ApplyRow(usersData, |dates|, rows[i]);
        var cells := rows[i];
        if |cells| == 0 {
          continue;
        }
        var firstCell := cells[0];
        if firstCell.None? || firstCell.value == "" {
          continue;
        }
        var firstText := Trim(firstCell.value);
        if firstText == "" {
          continue;
        }
        assert UserName(cells) == Some(firstText);
        var isUser := IsUserRow(cells);
        if isUser {
          ParseUserRow(firstText, cells);
        }
      }
      assert rows[..|rows|] == rows;
      CalculateDailyMvp();
    }

    /** Whether some cell after the first holds an integer. */
    method IsUserRow(cells: Row) returns (b: bool)
      ensures b <==> HasScore(cells)
    {
      var j := 1;
      while j < |cells|
        invariant 1 <= j
        invariant forall k :: 1 <= k < j && k < |cells| ==> ParseCell(cells[k]).None?
      {
        var cell := cells[j];
        if cell.Some? && cell.value != "" {
          var v := ParseInt(cell.value);
          if v.Some? {
            return true;
          }
        }
        j := j + 1;
      }
      return false;
    }

    /** Builds the user's score list, one slot per date, and stores it and
        its sum under the user's name. */
    method ParseUserRow(username: string, cells: Row)
      requires Valid()
      modifies this`usersData, this`totals
      ensures Valid()
      ensures usersData == Put(old(usersData), username, RowScores(cells, |dates|))
      ensures totals == Put(old(totals), username, Sum(RowScores(cells, |dates|)))
    {
      var userScores: seq<int> := [];
      ghost var expected := RowScores(cells, |dates|);
      for i := 0 to |dates|
        invariant userScores == expected[..i]
      {
        assert expected[..i + 1] == userScores + [CellScore(cells, i + 1)];
        if i + 1 < |cells| {
          var cell := cells[i + 1];
          if cell.Some? && cell.value != "" {
            match ParseInt(cell.value)
            case Some(score) =>
              userScores := userScores + [score];
            case None =>
              userScores := userScores + [0];
          } else {
            userScores := userScores + [0];
          }
        } else {
          userScores := userScores + [0];
        }
      }
      assert userScores == expected[..|dates|] == expected;
      TotalsOfPut(usersData, username, userScores);
      usersData := Put(usersData, username, userScores);
      totals := Put(totals, username, Sum(userScores));
    }

    /** For each day, a running maximum from -1 over the users in encounter
        order: a higher score restarts the winner list, an equal positive
        score joins it; the day's entry is the joined list when the maximum
        is positive and "-" otherwise. */
    method CalculateDailyMvp()
      modifies this`mvpData
      ensures mvpData == MvpTable(usersData, |dates|)
    {
      mvpData := map[];
      for d := 0 to |dates|
        invariant mvpData == map k: nat | k < d :: MvpText(MvpOf(usersData, k))
      {
        ghost var done := mvpData;
        var maxScore := -1;
        var mvpUsers: seq<string> := [];
        for i := 0 to |usersData|
          invariant mvpData == done
          invariant maxScore == DayMax(usersData[..i], d)
          invariant maxScore > 0 ==> mvpUsers != [] && mvpUsers == DayWinners(usersData[..i], d, maxScore)
        {
          var prefix := usersData[..i];
          assert usersData[..i + 1] == prefix + [usersData[i]];
          var (username, scores) := usersData[i];
          if d < |scores| {
            var score := scores[d];
            if score > maxScore {
              DayMaxIsMax(prefix, d);
              DayWinnersNone(prefix, d, score);
              ScanStep(prefix, usersData[i], d, score);
              maxScore := score;
              mvpUsers := [username];
            } else if score == maxScore && score > 0 {
              ScanStep(prefix, usersData[i], d, maxScore);
              mvpUsers := mvpUsers + [username];
            } else {
              ScanStep(prefix, usersData[i], d, maxScore);
            }
          } else {
            ScanStep(prefix, usersData[i], d, maxScore);
          }
        }
        assert usersData[..|usersData|] == usersData;
        MvpTableGrow(usersData, d);
        if mvpUsers != [] && maxScore > 0 {
          mvpData := mvpData[d := Join("|", mvpUsers)];
        } else {
          mvpData := mvpData[d := "-"];
        }
      }
    }
  }
}
