/**
  Exactly when the text of a migration divides into the statements and definitions
  that were written.
 */
module SqlDivision {
  import opened Catalogue
  import opened SqlLexer
  import opened SqlText

  // ----- the definitions of a table

  lemma {:induction false} KeyTextsWhole(columns: seq<TargetColumn>, t: string)
    requires t in KeyTexts(columns)
    ensures Whole(t)
  {
    hide KeyText, Closed, Lex;
    var n := |columns| - 1;
    if t in KeyTexts(columns[..n]) {
      KeyTextsWhole(columns[..n], t);
    } else {
      var c := columns[n];
      var i :| 0 <= i < |c.keys| && t == KeyText(c.name, c.keys[i]);
      KeyClean(c.name, c.keys[i]);
    }
  }

  lemma {:induction false} WrittenChecksHas(checks: seq<string>, t: string)
    ensures t in WrittenChecks(checks) <==> t in checks && Written(t)
  {
    hide Written;
    if checks != [] {
      var n := |checks| - 1;
      WrittenChecksHas(checks[..n], t);
      assert checks == checks[..n] + [checks[n]];
    }
  }

  lemma {:induction false} CheckTextsHas(columns: seq<TargetColumn>, t: string)
    ensures t in CheckTexts(columns) <==>
            exists i :: 0 <= i < |columns| && t in columns[i].checks && Written(t)
  {
    hide Written, WrittenChecks;
    if columns != [] {
      var n := |columns| - 1;
      CheckTextsHas(columns[..n], t);
      WrittenChecksHas(columns[n].checks, t);
      if i :| 0 <= i < |columns| && t in columns[i].checks && Written(t) {
        if i < n { assert t in columns[..n][i].checks; }
      }
    }
  }

  /** A table's definitions are whole if and only if its columns' defaults and checks are. */
  lemma PartsWholeIff(columns: seq<TargetColumn>)
    ensures (forall t | t in Parts(columns) :: Whole(t)) <==>
            forall i | 0 <= i < |columns| :: WholeColumn(columns[i])
  {
    hide Closed, Written, KeyTexts, CheckTexts, ColumnText, KeptText;
    if forall t | t in Parts(columns) :: Whole(t) {
      forall i | 0 <= i < |columns| ensures WholeColumn(columns[i]) {
        var c := columns[i];
        assert ColumnTexts(columns)[i] == ColumnText(c);
        assert ColumnText(c) in Parts(columns);
        ColumnClosed(Statements, c);
        ColumnClosed(Definitions, c);
        forall check | check in c.checks && Written(check) ensures Whole(check) { CheckTextsHas(columns, check); }
      }
    }
    if forall i | 0 <= i < |columns| :: WholeColumn(columns[i]) {
      forall t | t in Parts(columns) ensures Whole(t) {
        if t in ColumnTexts(columns) {
          var i :| 0 <= i < |columns| && t == ColumnText(columns[i]);
          assert WholeColumn(columns[i]);
          ColumnClosed(Statements, columns[i]);
          ColumnClosed(Definitions, columns[i]);
        } else if t in KeyTexts(columns) {
          KeyTextsWhole(columns, t);
        } else {
          CheckTextsHas(columns, t);
        }
      }
    }
  }

  // ----- the statements of a script

  function Semicolons(n: nat): (r: string)
    ensures |r| == n
  {
    seq(n, i => ';')
  }

  lemma {:induction false} TerminatedRows(lines: seq<string>)
    requires lines != []
    ensures Terminated(lines) == Joined(Rows(lines), Semicolons(|lines|)) + "\n"
  {
    var n := |lines| - 1;
    var rows, front := Rows(lines), lines[..n];
    assert rows[..n] == Rows(front) && Semicolons(n + 1)[..n] == Semicolons(n);
    if n == 0 {
      assert Terminated(front) == "" && Joined(rows[..0], Semicolons(0)) == "";
    } else {
      TerminatedRows(front);
      hide Terminated, Joined, Rows, Semicolons;
      Reordered(Joined(Rows(front), Semicolons(n)), lines[n]);
    }
    LastJoined(rows, Semicolons(n + 1));
  }

  lemma LastJoined(ps: seq<string>, ends: string)
    requires |ends| == |ps| > 0
    ensures Joined(ps, ends) == Joined(ps[..|ps| - 1], ends[..|ps| - 1]) + ps[|ps| - 1] + [ends[|ps| - 1]]
  {
  }

  lemma Reordered(a: string, b: string)
    ensures (a + "\n") + b + ";\n" == a + ("\n" + b) + [';'] + "\n"
  {
  }

  lemma RowClosed(lines: seq<string>, i: nat)
    requires i < |lines|
    ensures Closed(Statements, Rows(lines)[i]) <==> Closed(Statements, lines[i])
  {
    if i > 0 {
      NewlineSteady();
      hide Closed, Steady;
      SteadyTwo("\n", lines[i]);
    }
  }

  lemma NewlineSteady()
    ensures Steady("\n")
  {
    ReadChar(Statements, START, '\n');
    LexChar(Plain, '\n');
  }

  /** The tokenizer finds the statements that were written, if and only if each is closed. */
  lemma LinesFoundIff(lines: seq<string>)
    ensures LinesFound(lines) <==> forall i | 0 <= i < |lines| :: Closed(Statements, lines[i])
  {
    if lines == [] {
      ReadNothing(Statements, START);
      assert Rows(lines) == [];
    } else {
      hide Closed, Rows, LinesFound;
      RowsFoundIff(lines);
      forall i | 0 <= i < |lines| ensures Closed(Statements, Rows(lines)[i]) <==> Closed(Statements, lines[i]) {
        RowClosed(lines, i);
      }
    }
  }

  lemma RowsFoundIff(lines: seq<string>)
    requires lines != []
    ensures LinesFound(lines) <==> forall i | 0 <= i < |lines| :: Closed(Statements, Rows(lines)[i])
  {
    hide Closed, Read, Rows, Step, Joined, Terminated, Sizes;
    var rows, n := Rows(lines), |lines|;
    var text := Joined(rows, Semicolons(n));
    TerminatedRows(lines);
    JoinedReadsIff(Statements, rows, Semicolons(n));
    JoinedSize(rows, Semicolons(n));
    NewlineStep(rows);
    ReadEnd(Statements, START, text, '\n');
    assert text + ['\n'] == text + "\n";
    assert rows[..n] == rows;
    if Read(Statements, START, text + "\n").done == rows { AtBoundary(Statements, rows, n, text, "\n"); }
  }

  lemma NewlineStep(rows: seq<string>)
    ensures Step(Statements, Reader(Plain, 0, rows, ""), '\n') == Reader(Plain, 0, rows, "\n")
  {
  }

  /** A statement is closed, and its definitions are found, if and only if what was copied into it is whole. */
  lemma IntactIff(s: Statement, hex: string)
    ensures Intact(s) <==>
            (forall t | t in Texts(s, hex) :: Closed(Statements, t)) && (s.Create? ==> PartsFound(s.columns))
  {
    hide Closed, PartsFound, CreateText, AddText, MetaText, HashText, SyncLogText, Quoted, KeptText, WholeColumn;
    match s
    case Create(t, columns) => CreateIntact(t, columns);
    case AddColumn(t, c) => AddClosed(t, c);
    case Drop(t) => NamesClosed(t, "");
    case UniqueIndex(t, c) => NamesClosed(t, c);
    case DropColumn(t, c) => NamesClosed(t, c);
    case SyncLog => SyncLogSteady();
    case UpsertHash =>
      MetaSteady();
      HashSteady(hex);
  }

  lemma CreateIntact(table: string, columns: seq<TargetColumn>)
    ensures Intact(Create(table, columns)) <==>
            Closed(Statements, CreateText(table, columns)) && PartsFound(columns)
  {
    hide Closed, PartsFound, CreateText, KeptText, WholeColumn, Parts;
    var parts := Parts(columns);
    PartsFoundIff(columns);
    PartsWholeIff(columns);
    if columns != [] && forall i | 0 <= i < |parts| :: Closed(Definitions, parts[i]) {
      CreateClosed(table, columns);
    }
    assert forall i | 0 <= i < |parts| :: parts[i] in parts;
  }

  lemma {:induction false} LinesHas(sql: seq<Statement>, hex: string)
    ensures (forall i | 0 <= i < |Lines(sql, hex)| :: Closed(Statements, Lines(sql, hex)[i])) <==>
            forall k | 0 <= k < |sql| :: forall t | t in Texts(sql[k], hex) :: Closed(Statements, t)
  {
    hide Closed, Texts;
    if sql != [] {
      var n := |sql| - 1;
      LinesHas(sql[..n], hex);
      var before, last := Lines(sql[..n], hex), Texts(sql[n], hex);
      var lines := before + last;
      assert Lines(sql, hex) == lines;
      assert forall i | 0 <= i < |before| :: lines[i] == before[i];
      assert forall i | 0 <= i < |last| :: lines[|before| + i] == last[i];
      assert forall k | 0 <= k < n :: sql[..n][k] == sql[k];
    }
  }

  /** A script divides into what was written, if and only if everything copied into it is whole. */
  lemma DividedIff(sql: seq<Statement>, hex: string)
    ensures Divided(sql, hex) <==> AllIntact(sql)
  {
    hide Closed, Texts, Intact, PartsFound, LinesFound;
    LinesFoundIff(Lines(sql, hex));
    LinesHas(sql, hex);
    forall k | 0 <= k < |sql|
      ensures Intact(sql[k]) <==>
              (forall t | t in Texts(sql[k], hex) :: Closed(Statements, t))
              && (sql[k].Create? ==> PartsFound(sql[k].columns))
    {
      IntactIff(sql[k], hex);
    }
  }
}
