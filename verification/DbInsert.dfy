/**
 `DBInsert`: rows are gathered into one VALUES text, which `execute` cuts again, by searching for
 "),(", into statements that fit the query limit.
 */
module DbInsert {
  import opened Lists
  import opened Options

  const MAX_QUERY_SIZE: nat := 8 * 1024 * 1024

  // ----- the text and where it can be cut -----

  function Row(r: string): string {
    "(" + r + ")"
  }

  function Join(rows: seq<string>): string {
    if rows == [] then ""
    else if |rows| == 1 then Row(rows[0])
    else Join(rows[..|rows| - 1]) + "," + Row(rows[|rows| - 1])
  }

  predicate CutAt(s: string, i: nat) {
    i + 3 <= |s| && s[i] == ')' && s[i + 1] == ',' && s[i + 2] == '('
  }

  /** `rfind("),(", pos)`. */
  function RFind(s: string, pos: nat): (r: Option<nat>)
    ensures r.Some? ==> r.value <= pos && CutAt(s, r.value) && forall j | r.value < j <= pos :: !CutAt(s, j)
    ensures r.None? ==> forall j | 0 <= j <= pos :: !CutAt(s, j)
  {
    if CutAt(s, pos) then Some(pos)
    else if pos == 0 then None
    else RFind(s, pos - 1)
  }

  function WithoutComma(s: string): string {
    if s != "" && s[|s| - 1] == ',' then s[..|s| - 1] else s
  }

  /** The batches of `execute` for a cut position of `cut`, and whether it gets to the end of the text. */
  function Split(s: string, cut: nat): (seq<string>, bool)
    decreases |s|
  {
    if s == "" then ([], true)
    else if cut < |s| then
      match RFind(s, cut)
      case None => ([], false)
      case Some(i) =>
        var (bs, whole) := Split(s[i + 2..], cut);
        ([WithoutComma(s[..i + 2])] + bs, whole)
    else ([WithoutComma(s)], true)
  }

  /** A batch is at most one byte longer than the cut position. */
  lemma {:induction false} BatchSizes(s: string, cut: nat)
    ensures forall b | b in Split(s, cut).0 :: |b| <= cut + 1
    decreases |s|
  {
    if s != "" && cut < |s| {
      match RFind(s, cut)
      case None =>
      case Some(i) =>
        BatchSizes(s[i + 2..], cut);
        assert s[..i + 2][..i + 1] == s[..i + 1];
    }
  }

  lemma FirstBatchSize(s: string, cut: nat)
    requires cut < |s| && RFind(s, cut).Some?
    ensures |Split(s, cut).0[0]| == RFind(s, cut).value + 1
    ensures |Split(s, cut).0[0]| == cut + 1 <==> CutAt(s, cut)
  {
    var i := RFind(s, cut).value;
    assert s[..i + 2][i + 1] == ',';
  }

  /** A row without "),(" at a place that a search from below `reach` can come to. */
  predicate SafeRow(r: string, reach: nat) {
    forall i | 0 <= i < |r| && 1 + i < reach :: !CutAt(r, i)
  }

  predicate SafeUpTo(rows: seq<string>, reach: nat) {
    forall k | 0 <= k < |rows| :: SafeRow(rows[k], reach)
  }

  /** The cut position lies below the query limit, since there is always a prefix. */
  predicate Safe(rows: seq<string>) {
    SafeUpTo(rows, MAX_QUERY_SIZE)
  }

  lemma SafeUpToLess(rows: seq<string>, reach: nat, less: nat)
    requires SafeUpTo(rows, reach) && less <= reach
    ensures SafeUpTo(rows, less)
  {
    forall k | 0 <= k < |rows|
      ensures SafeRow(rows[k], less)
    {
      assert SafeRow(rows[k], reach);
    }
  }

  lemma JoinEnds(rows: seq<string>)
    requires rows != []
    ensures |Join(rows)| >= 2 && Join(rows)[0] == '(' && Join(rows)[|Join(rows)| - 1] == ')'
  {
    if |rows| > 1 {
      JoinEnds(rows[..|rows| - 1]);
    }
  }

  lemma JoinSnoc(rows: seq<string>, r: string)
    ensures Join(rows + [r]) == if rows == [] then Row(r) else Join(rows) + "," + Row(r)
  {
    assert (rows + [r])[..|rows|] == rows;
  }

  lemma {:induction false} JoinParts(rows: seq<string>, m: nat)
    requires 0 < m < |rows|
    ensures Join(rows) == Join(rows[..m]) + "," + Join(rows[m..])
    decreases |rows|
  {
    var n := |rows| - 1;
    var head, tail := rows[..m], rows[m..];
    if m == n {
      assert tail == [rows[n]];
    } else {
      JoinParts(rows[..n], m);
      assert rows[..n][..m] == head && rows[..n][m..] == tail[..|tail| - 1];
      var left, mid := Join(head) + ",", Join(tail[..|tail| - 1]);
      Assoc(left, mid, "," + Row(rows[n]));
      Assoc(mid, ",", Row(rows[n]));
      Assoc(left + mid, ",", Row(rows[n]));
    }
  }

  /** The pattern within one bracketed row lies inside the row. */
  lemma CutInRow(last: string, i: nat)
    requires CutAt(Row(last), i)
    ensures i > 0 && CutAt(last, i - 1)
  {
    assert Row(last)[1..|last| + 1] == last;
  }

  /** So it does behind another text, unless it is the seam. */
  lemma CutBehind(t: string, last: string, i: nat)
    requires t != "" && CutAt(t + "," + Row(last), i) && i + 3 > |t| && i + 1 != |t|
    ensures i > |t| && CutAt(Row(last), i - |t| - 1)
  {
    var s := t + "," + Row(last);
    assert s[|t|] == ',' && s[|t| + 1] == '(';
    assert forall j | 0 <= j < |Row(last)| :: s[|t| + 1 + j] == Row(last)[j];
  }

  /** In the text of safe rows the pattern occurs only between two rows. */
  lemma {:induction false} CutsBetweenRows(rows: seq<string>, i: nat) returns (m: nat)
    requires SafeUpTo(rows, i + 1) && CutAt(Join(rows), i)
    ensures 0 < m < |rows| && i + 1 == |Join(rows[..m])|
    decreases |rows|
  {
    hide CutAt;
    var n := |rows| - 1;
    if n < 0 {
      NoCutInNothing(i);
      assert false;
    }
    var last := rows[n];
    assert SafeRow(last, i + 1);
    if n == 0 {
      CutInRow(last, i);
      assert false;
    } else {
      var init := rows[..n];
      var s, t := Join(rows), Join(init);
      assert s == t + "," + Row(last);
      JoinEnds(init);
      if i + 3 <= |t| {
        CutBefore(t, s, i);
        m := CutsBetweenRows(init, i);
        assert init[..m] == rows[..m];
      } else if i + 1 == |t| {
        m := n;
      } else {
        CutBehind(t, last, i);
        CutInRow(last, i - |t| - 1);
        assert false;
      }
    }
  }

  lemma NoCutInNothing(i: nat)
    ensures !CutAt("", i)
  {
  }

  lemma CutBefore(t: string, s: string, i: nat)
    requires t <= s && CutAt(s, i) && i + 3 <= |t|
    ensures CutAt(t, i)
  {
  }

  /** The pattern does occur between any two neighbours. */
  lemma BoundaryIsCut(rows: seq<string>, m: nat)
    requires 0 < m < |rows|
    ensures CutAt(Join(rows), |Join(rows[..m])| - 1)
  {
    JoinParts(rows, m);
    JoinEnds(rows[..m]);
    JoinEnds(rows[m..]);
  }

  function Flatten(groups: seq<seq<string>>): seq<string> {
    if groups == [] then [] else groups[0] + Flatten(groups[1..])
  }

  function Texts(groups: seq<seq<string>>): seq<string> {
    seq(|groups|, i requires 0 <= i < |groups| => Join(groups[i]))
  }

  /** The first batch of safe rows is a run of whole rows, and the rest is split in the same way. */
  lemma FirstBatch(rows: seq<string>, cut: nat) returns (m: nat)
    requires SafeUpTo(rows, cut + 1) && cut < |Join(rows)| && RFind(Join(rows), cut).Some?
    ensures 0 < m < |rows|
    ensures var (bs, whole) := Split(Join(rows[m..]), cut);
      Split(Join(rows), cut) == ([Join(rows[..m])] + bs, whole)
  {
    var s := Join(rows);
    var i := RFind(s, cut).value;
    SafeUpToLess(rows, cut + 1, i + 1);
    m := CutsBetweenRows(rows, i);
    hide Join;
    JoinParts(rows, m);
    var head := Join(rows[..m]);
    assert s[..i + 2] == head + "," && s[i + 2..] == Join(rows[m..]);
    assert (head + ",")[..i + 1] == head;
  }

  /** Main result: the batches of safe rows are whole rows, all of them, in order, once each. */
  lemma {:induction false} SplitKeepsRows(rows: seq<string>, cut: nat) returns (groups: seq<seq<string>>)
    requires SafeUpTo(rows, cut + 1) && Split(Join(rows), cut).1
    ensures Split(Join(rows), cut).0 == Texts(groups)
    ensures Flatten(groups) == rows && forall g | g in groups :: g != []
    decreases |rows|
  {
    if rows == [] {
      groups := [];
    } else {
      JoinEnds(rows);
      if cut < |Join(rows)| {
        var m := FirstBatch(rows, cut);
        var more := SplitKeepsRows(rows[m..], cut);
        groups := [rows[..m]] + more;
        GroupsCons(rows[..m], more);
        assert rows[..m] + rows[m..] == rows;
      } else {
        groups := [rows];
        GroupsCons(rows, []);
        assert rows + [] == rows;
      }
    }
  }

  lemma GroupsCons(g: seq<string>, more: seq<seq<string>>)
    ensures Texts([g] + more) == [Join(g)] + Texts(more)
    ensures Flatten([g] + more) == g + Flatten(more)
  {
    assert ([g] + more)[1..] == more;
  }

  /**
   And only for safe rows: with a row that contains "),(" there is a cut position, hence a length of
   the statement prefix, at which the first batch ends inside that row.
   */
  lemma UnsafeRowIsCut(rows: seq<string>, k: nat, i: nat)
    requires k < |rows| && CutAt(rows[k], i)
    ensures var cut := (if k == 0 then 0 else |Join(rows[..k])| + 1) + 1 + i;
      && cut < |Join(rows)| && RFind(Join(rows), cut) == Some(cut)
      && forall m | 0 <= m <= |rows| :: |Join(rows[..m])| != |Split(Join(rows), cut).0[0]|
  {
    hide RFind, CutAt, Join;
    var s := Join(rows);
    var before := |Join(rows[..k])|;
    var from := if k == 0 then 0 else before + 1;
    RowLiesAt(rows, k);
    var cut := from + 1 + i;
    CutInside(s, from, rows[k], i);
    FirstBatchSize(s, cut);
    forall m | 0 <= m <= |rows|
      ensures |Join(rows[..m])| != cut + 1
    {
      NotInside(rows, k, m, 1 + i);
    }
  }

  /** No whole number of rows ends strictly inside row `k`. */
  lemma NotInside(rows: seq<string>, k: nat, m: nat, j: nat)
    requires k < |rows| && m <= |rows| && 0 < j < |rows[k]|
    ensures |Join(rows[..m])| != (if k == 0 then 0 else |Join(rows[..k])| + 1) + j + 1
  {
    if m <= k {
      JoinLonger(rows, m, k);
    } else {
      JoinLonger(rows, k + 1, m);
      RowLiesAt(rows[..k + 1], k);
      assert rows[..k + 1][..k] == rows[..k];
    }
  }

  lemma CutInside(s: string, from: nat, row: string, i: nat)
    requires from + |row| + 2 <= |s| && s[from..from + |row| + 2] == Row(row) && CutAt(row, i)
    ensures CutAt(s, from + 1 + i) && i + 3 <= |row|
  {
    assert CutAt(Row(row), 1 + i);
  }

  lemma {:induction false} JoinLonger(rows: seq<string>, m: nat, k: nat)
    requires m <= k <= |rows|
    ensures |Join(rows[..m])| <= |Join(rows[..k])|
    decreases k - m
  {
    if m < k {
      JoinLonger(rows, m, k - 1);
      JoinSnoc(rows[..k - 1], rows[k - 1]);
      assert rows[..k] == rows[..k - 1] + [rows[k - 1]];
    }
  }

  lemma RowLiesAt(rows: seq<string>, k: nat)
    requires k < |rows|
    ensures var from := if k == 0 then 0 else |Join(rows[..k])| + 1;
      from + |rows[k]| + 2 <= |Join(rows)| && Join(rows)[from..from + |rows[k]| + 2] == Row(rows[k])
  {
    var upTo := Join(rows[..k + 1]);
    JoinSnoc(rows[..k], rows[k]);
    assert rows[..k + 1] == rows[..k] + [rows[k]];
    var from := if k == 0 then 0 else |Join(rows[..k])| + 1;
    assert rows[..0] == [];
    assert upTo[from..] == Row(rows[k]);
    if k + 1 < |rows| {
      JoinParts(rows, k + 1);
    } else {
      assert rows[..k + 1] == rows;
    }
  }

  /** Of the search for a cut: it lands between two rows. */
  ghost predicate LandsBetween(rows: seq<string>, cut: nat) {
    RFind(Join(rows), cut).Some? ==>
      exists m :: 0 < m < |rows| && |Join(rows[..m])| == RFind(Join(rows), cut).value + 1
  }

  /** Whichever rows are still to be sent and however long the prefix is, the search lands between two rows. */
  ghost predicate NeverCutsARow(rows: seq<string>) {
    forall n: nat, cut: nat | n <= |rows| && 0 < cut < MAX_QUERY_SIZE && cut < |Join(rows[n..])| ::
      LandsBetween(rows[n..], cut)
  }

  lemma SafeLands(rows: seq<string>, n: nat, cut: nat)
    requires Safe(rows) && n <= |rows| && cut < MAX_QUERY_SIZE
    ensures LandsBetween(rows[n..], cut)
  {
    hide Join;
    if RFind(Join(rows[n..]), cut).Some? {
      var i := RFind(Join(rows[n..]), cut).value;
      SafeUpToLess(rows, MAX_QUERY_SIZE, i + 1);
      assert SafeUpTo(rows[n..], i + 1);
      var m := CutsBetweenRows(rows[n..], i);
    }
  }

  lemma UnsafeIsCut(rows: seq<string>, k: nat, i: nat)
    requires k < |rows| && CutAt(rows[k], i) && 1 + i < MAX_QUERY_SIZE
    ensures 1 + i < |Join(rows[k..])| && !LandsBetween(rows[k..], 1 + i)
  {
    hide Join, RFind, CutAt;
    UnsafeRowIsCut(rows[k..], 0, i);
    FirstBatchSize(Join(rows[k..]), 1 + i);
  }

  /**
   Exactly when: no cut position below the query limit can cut a row in two if and only if no row contains
   "),(" so early that a cut position can reach it.
   */
  lemma NeverCutsIffSafe(rows: seq<string>)
    ensures NeverCutsARow(rows) <==> Safe(rows)
  {
    hide Join, LandsBetween, CutAt;
    if Safe(rows) {
      forall n: nat, cut: nat | n <= |rows| && 0 < cut < MAX_QUERY_SIZE && cut < |Join(rows[n..])|
        ensures LandsBetween(rows[n..], cut)
      {
        SafeLands(rows, n, cut);
      }
    } else {
      var k :| 0 <= k < |rows| && !SafeRow(rows[k], MAX_QUERY_SIZE);
      var i :| 0 <= i < |rows[k]| && 1 + i < MAX_QUERY_SIZE && CutAt(rows[k], i);
      UnsafeIsCut(rows, k, i);
    }
  }

  // ----- the statements -----

  function UpsertColumn(column: string): string {
    "`" + column + "` = VALUES(`" + column + "`)"
  }

  function UpsertColumns(columns: seq<string>): string {
    if columns == [] then ""
    else
      var n := |columns| - 1;
      UpsertColumns(columns[..n]) + (if n == 0 then "" else ", ") + UpsertColumn(columns[n])
  }

  function Upsert(columns: seq<string>): string {
    if columns == [] then "" else " ON DUPLICATE KEY UPDATE " + UpsertColumns(columns)
  }

  function Separator(query: string): string {
    if query != "" && query[|query| - 1] == ' ' then "" else " "
  }

  function Statement(query: string, batch: string, upsert: string): string {
    query + Separator(query) + batch + upsert
  }

  function Statements(query: string, batches: seq<string>, upsert: string): seq<string> {
    seq(|batches|, i requires 0 <= i < |batches| => Statement(query, batches[i], upsert))
  }

  function PrefixSize(query: string, upsert: string): nat {
    |query| + |Separator(query)| + |upsert|
  }

  lemma PrefixNotEmpty(query: string, upsert: string)
    ensures PrefixSize(query, upsert) == |Statement(query, "", upsert)| > 0
  {
  }

  // ----- what the server reads -----

  /** The parts one after another with `sep` between them. */
  function Joined(parts: seq<string>, sep: string): string {
    if parts == [] then ""
    else if |parts| == 1 then parts[0]
    else Joined(parts[..|parts| - 1], sep) + sep + parts[|parts| - 1]
  }

  /** Nothing without columns; with them, the values of the row take the place of those of a duplicate. */
  ghost predicate Clause(text: string, columns: seq<string>) {
    if columns == [] then text == "" else
      exists parts: seq<string> ::
        && |parts| == |columns|
        && (forall i | 0 <= i < |columns| :: parts[i] == "`" + columns[i] + "` = VALUES(`" + columns[i] + "`)")
        && text == " ON DUPLICATE KEY UPDATE " + Joined(parts, ", ")
  }

  /** The base query, a blank unless it ends with one, the values, the clause. */
  ghost predicate Reads(sql: string, query: string, batch: string, columns: seq<string>) {
    exists clause ::
      && Clause(clause, columns)
      && sql == query + (if query != "" && query[|query| - 1] == ' ' then "" else " ") + batch + clause
  }

  /** The statement inserts exactly `rows`, each in brackets. */
  ghost predicate Inserts(sql: string, query: string, rows: seq<string>, columns: seq<string>) {
    exists tuples: seq<string> ::
      && |tuples| == |rows| && (forall i | 0 <= i < |rows| :: tuples[i] == "(" + rows[i] + ")")
      && Reads(sql, query, Joined(tuples, ","), columns)
  }

  /** Whatever its batch, the statement has its query and clause and keeps to the size limit. */
  ghost predicate Sound(sql: string, query: string, columns: seq<string>) {
    |sql| <= MAX_QUERY_SIZE + 1 && exists batch :: Reads(sql, query, batch, columns)
  }

  /** The statements `stmts` insert exactly `rows`: whole, in order, once each. */
  ghost predicate Carries(stmts: seq<string>, rows: seq<string>, query: string, columns: seq<string>) {
    exists groups: seq<seq<string>> ::
      && Flatten(groups) == rows && |groups| == |stmts|
      && forall i | 0 <= i < |stmts| :: Inserts(stmts[i], query, groups[i], columns)
  }

  function Parts(columns: seq<string>): (parts: seq<string>)
    ensures |parts| == |columns|
    ensures forall i | 0 <= i < |columns| :: parts[i] == "`" + columns[i] + "` = VALUES(`" + columns[i] + "`)"
  {
    seq(|columns|, i requires 0 <= i < |columns| => "`" + columns[i] + "` = VALUES(`" + columns[i] + "`)")
  }

  lemma {:induction false} ColumnsJoined(columns: seq<string>)
    ensures UpsertColumns(columns) == Joined(Parts(columns), ", ")
  {
    if columns != [] {
      var n := |columns| - 1;
      ColumnsJoined(columns[..n]);
      assert Parts(columns)[..n] == Parts(columns[..n]);
    }
  }

  lemma NextColumn(start: string, columns: seq<string>, i: nat)
    requires i < |columns|
    ensures start + UpsertColumns(columns[..i + 1])
         == start + UpsertColumns(columns[..i]) + (if i == 0 then "" else ", ") + UpsertColumn(columns[i])
  {
    hide UpsertColumn;
    assert columns[..i + 1][..i] == columns[..i];
  }

  lemma UpsertStarts(columns: seq<string>)
    ensures UpsertColumns([]) == ""
    ensures columns != [] ==> Upsert(columns) == " ON DUPLICATE KEY UPDATE " + UpsertColumns(columns)
  {
  }

  lemma UpsertIsClause(columns: seq<string>)
    ensures Clause(Upsert(columns), columns)
  {
    hide UpsertColumns, Parts;
    ColumnsJoined(columns);
    if columns != [] {
      assert Upsert(columns) == " ON DUPLICATE KEY UPDATE " + Joined(Parts(columns), ", ");
    }
  }

  function Tuples(rows: seq<string>): (tuples: seq<string>)
    ensures |tuples| == |rows| && forall i | 0 <= i < |rows| :: tuples[i] == "(" + rows[i] + ")"
  {
    seq(|rows|, i requires 0 <= i < |rows| => "(" + rows[i] + ")")
  }

  lemma {:induction false} RowsJoined(rows: seq<string>)
    ensures Join(rows) == Joined(Tuples(rows), ",")
  {
    if |rows| > 1 {
      var n := |rows| - 1;
      RowsJoined(rows[..n]);
      assert Tuples(rows)[..n] == Tuples(rows[..n]);
    }
  }

  lemma StatementReads(query: string, batch: string, columns: seq<string>)
    ensures Reads(Statement(query, batch, Upsert(columns)), query, batch, columns)
  {
    hide Upsert, Clause;
    UpsertIsClause(columns);
  }

  lemma StatementInserts(query: string, rows: seq<string>, columns: seq<string>)
    ensures Inserts(Statement(query, Join(rows), Upsert(columns)), query, rows, columns)
  {
    hide Statement, Join, Joined, Tuples, Reads;
    RowsJoined(rows);
    StatementReads(query, Join(rows), columns);
  }

  lemma CarriesNothing(query: string, columns: seq<string>)
    ensures Carries([], [], query, columns)
  {
    assert Flatten([]) == [];
  }

  lemma {:induction false} FlattenConcat(g: seq<seq<string>>, h: seq<seq<string>>)
    ensures Flatten(g + h) == Flatten(g) + Flatten(h)
  {
    if g == [] {
      assert g + h == h;
    } else {
      assert (g + h)[1..] == g[1..] + h;
      FlattenConcat(g[1..], h);
    }
  }

  lemma CarriesMore(s: seq<string>, rows: seq<string>, t: seq<string>, more: seq<string>,
                    query: string, columns: seq<string>)
    requires Carries(s, rows, query, columns) && Carries(t, more, query, columns)
    ensures Carries(s + t, rows + more, query, columns)
  {
    hide Flatten, Inserts;
    var g :| Flatten(g) == rows && |g| == |s| && forall i | 0 <= i < |s| :: Inserts(s[i], query, g[i], columns);
    var h :| Flatten(h) == more && |h| == |t| && forall i | 0 <= i < |t| :: Inserts(t[i], query, h[i], columns);
    FlattenConcat(g, h);
    forall i | 0 <= i < |s + t|
      ensures Inserts((s + t)[i], query, (g + h)[i], columns)
    {
    }
  }

  lemma CarriesSplit(rows: seq<string>, cut: nat, query: string, columns: seq<string>)
    requires Safe(rows) && cut < MAX_QUERY_SIZE && Split(Join(rows), cut).1
    ensures Carries(Statements(query, Split(Join(rows), cut).0, Upsert(columns)), rows, query, columns)
  {
    hide Flatten, Inserts, Join, Split, Statement, Upsert;
    SafeUpToLess(rows, MAX_QUERY_SIZE, cut + 1);
    var groups := SplitKeepsRows(rows, cut);
    var stmts := Statements(query, Split(Join(rows), cut).0, Upsert(columns));
    forall i | 0 <= i < |stmts|
      ensures Inserts(stmts[i], query, groups[i], columns)
    {
      StatementInserts(query, groups[i], columns);
    }
  }

  lemma StatementsSound(batches: seq<string>, query: string, columns: seq<string>)
    requires PrefixSize(query, Upsert(columns)) < MAX_QUERY_SIZE
    requires forall b | b in batches :: |b| <= MAX_QUERY_SIZE - PrefixSize(query, Upsert(columns)) + 1
    ensures forall sql | sql in Statements(query, batches, Upsert(columns)) :: Sound(sql, query, columns)
  {
    hide Upsert, Reads;
    forall i | 0 <= i < |batches|
      ensures Sound(Statement(query, batches[i], Upsert(columns)), query, columns)
    {
      assert batches[i] in batches;
      StatementReads(query, batches[i], columns);
    }
  }

  /** The server accepts the next `n` queries. */
  predicate Accepts(refusals: seq<bool>, n: nat) {
    forall i | 0 <= i < n && i < |refusals| :: !refusals[i]
  }

  function Drop(answers: seq<bool>, n: nat): seq<bool> {
    if n <= |answers| then answers[n..] else []
  }

  lemma AcceptsNext(answers: seq<bool>, n: nat)
    ensures Accepts(answers, n + 1) <==> Accepts(answers, n) && Accepts(Drop(answers, n), 1)
    ensures Drop(answers, n + 1) == if Drop(answers, n) == [] then [] else Drop(answers, n)[1..]
  {
  }

  lemma AcceptsFewer(answers: seq<bool>, n: nat, m: nat)
    requires n <= m && !Accepts(answers, n)
    ensures !Accepts(answers, m)
  {
  }

  lemma NothingSent(answers: seq<bool>, query: string, upsert: string)
    ensures Statements(query, [], upsert) == []
    ensures Accepts(answers, 0) && Drop(answers, 0) == answers
  {
  }

  /** Between two states of the log a part of `stmts` was sent, in order; all of it when `whole`. */
  predicate SentPrefix(before: seq<string>, after: seq<string>, stmts: seq<string>, whole: bool) {
    && before <= after && after[|before|..] <= stmts
    && (whole ==> after == before + stmts)
  }

  lemma SentNothing(log: seq<string>, stmts: seq<string>)
    ensures SentPrefix(log, log, stmts, false)
  {
    assert log[|log|..] == [];
  }

  /**
   After a failure part way and a success, the server has got the first statements twice: those that
   came before the failure, and then all of them again.
   */
  lemma SentAgain(log0: seq<string>, log1: seq<string>, log2: seq<string>, stmts: seq<string>) returns (n: nat)
    requires SentPrefix(log0, log1, stmts, false) && SentPrefix(log1, log2, stmts, true)
    ensures n <= |stmts| && log2 == log0 + stmts[..n] + stmts
  {
    n := |log1| - |log0|;
    assert log1 == log0 + log1[|log0|..];
    assert log1[|log0|..] == stmts[..n];
  }

  /** The batches `done` were sent, `rest` were not. */
  lemma SentPart(before: seq<string>, after: seq<string>, done: seq<string>, rest: seq<string>,
                 query: string, upsert: string)
    requires after == before + Statements(query, done, upsert)
    ensures SentPrefix(before, after, Statements(query, done + rest, upsert), rest == [])
  {
    var part, all := Statements(query, done, upsert), Statements(query, done + rest, upsert);
    assert after[|before|..] == part;
    assert part <= all;
    assert rest == [] ==> done + rest == done;
  }

  lemma SentFacts(before: seq<string>, after: seq<string>, stmts: seq<string>, whole: bool)
    requires SentPrefix(before, after, stmts, whole)
    ensures SentPrefix(before, after, stmts, false) && before <= after
    ensures whole ==> after[|before|..] == stmts
    ensures forall k | |before| <= k < |after| :: after[k] in stmts
  {
    forall k | |before| <= k < |after|
      ensures after[k] in stmts
    {
      assert after[|before|..][k - |before|] == after[k];
    }
  }

  lemma SentOne(done: seq<string>, b: string, query: string, upsert: string)
    ensures Statements(query, done + [b], upsert) == Statements(query, done, upsert) + [Statement(query, b, upsert)]
  {
  }

  lemma SplitNext(s: string, cut: nat)
    requires s != ""
    ensures cut < |s| && RFind(s, cut).None? ==> Split(s, cut) == ([], false)
    ensures cut < |s| && RFind(s, cut).Some? ==>
      var i := RFind(s, cut).value + 2;
      i <= |s| && Split(s, cut) == ([WithoutComma(s[..i])] + Split(s[i..], cut).0, Split(s[i..], cut).1)
    ensures cut >= |s| ==> Split(s, cut) == ([WithoutComma(s[..|s|])] + Split(s[|s|..], cut).0, Split(s[|s|..], cut).1)
  {
    assert s[..|s|] == s && s[|s|..] == "";
    assert [WithoutComma(s)] + [] == [WithoutComma(s)];
  }

  lemma SplitDone(cut: nat)
    ensures Split("", cut) == ([], true)
  {
  }

  lemma JoinNothing()
    ensures Join([]) == ""
  {
  }

  lemma TextEmpty(rows: seq<string>)
    ensures Join(rows) == "" <==> rows == []
  {
    if rows != [] {
      JoinEnds(rows);
    }
  }

  lemma NothingSplit(log: seq<string>, query: string, upsert: string)
    ensures SentPrefix(log, log, Statements(query, [], upsert), true)
    ensures forall cut: nat :: Split("", cut) == ([], true)
  {
    assert Statements(query, [], upsert) == [] && log[|log|..] == [] && log + [] == log;
  }

  lemma NothingPending(rows: seq<string>, query: string, columns: seq<string>)
    requires Join(rows) == ""
    ensures rows == [] && Carries([], rows, query, columns)
  {
    if rows != [] {
      JoinEnds(rows);
    }
    CarriesNothing(query, columns);
  }

  /** The connection: it records what is asked of it and may refuse. */
  class Database {
    const maxPacketSize: nat
    var log: seq<string>
    var refusals: seq<bool>    // what the server will answer, in order; it accepts after that

    constructor (maxPacket: nat, answers: seq<bool>)
      ensures maxPacketSize == maxPacket && log == []
    {
      maxPacketSize, log, refusals := maxPacket, [], answers;
    }

    method ExecuteQuery(sql: string) returns (ok: bool)
      modifies this
      ensures log == old(log) + [sql]
      ensures ok <==> Accepts(old(refusals), 1)
      ensures refusals == if old(refusals) == [] then [] else old(refusals)[1..]
    {
      log := log + [sql];
      ok := true;
      if refusals != [] {
        ok := !refusals[0];
        refusals := refusals[1..];
      }
    }
  }

  class DBInsert {
    const db: Database
    const query: string
    var values: string
    var length: nat
    var upsertColumns: seq<string>

    ghost var pending: seq<string>    // the rows in `values`
    ghost var sent: seq<string>       // the rows of successful executions

    ghost predicate Valid()
      reads this
    {
      length == |query| + |values| && values == Join(pending)
    }

    ghost function Upserts(): string
      reads this
    {
      Upsert(upsertColumns)
    }

    /** The batches that the text will be cut into, and whether the cutting gets to its end. */
    ghost function Batches(): (seq<string>, bool)
      reads this
    {
      if PrefixSize(query, Upserts()) >= MAX_QUERY_SIZE then ([], false)
      else Split(values, MAX_QUERY_SIZE - PrefixSize(query, Upserts()))
    }

    /** `execute` will succeed. */
    ghost predicate Flushes()
      reads this, db
    {
      values == "" || (Batches().1 && Accepts(db.refusals, |Batches().0|))
    }

    constructor (database: Database, insertQuery: string)
      ensures Valid() && db == database && query == insertQuery
      ensures pending == [] && sent == [] && upsertColumns == []
    {
      db, query, values, upsertColumns := database, insertQuery, "", [];
      length := |insertQuery|;
      pending, sent := [], [];
    }

    method SetUpsert(columns: seq<string>)
      modifies this`upsertColumns
      ensures upsertColumns == columns
    {
      upsertColumns := columns;
    }

    /** The clause as `execute` builds it, column by column. */
    method UpsertQuery() returns (upsertQuery: string)
      ensures upsertQuery == Upsert(upsertColumns)
    {
      hide UpsertColumns, UpsertColumn;
      upsertQuery := "";
      UpsertStarts(upsertColumns);
      if upsertColumns != [] {
        var start := " ON DUPLICATE KEY UPDATE ";
        upsertQuery := start;
        assert upsertColumns[..0] == [] && start + "" == start;
        for i := 0 to |upsertColumns|
          invariant upsertQuery == start + UpsertColumns(upsertColumns[..i])
                                   + if 0 < i < |upsertColumns| then ", " else ""
        {
          NextColumn(start, upsertColumns, i);
          upsertQuery := upsertQuery + UpsertColumn(upsertColumns[i]);
          if i + 1 < |upsertColumns| {
            upsertQuery := upsertQuery + ", ";
          }
        }
        assert upsertColumns[..|upsertColumns|] == upsertColumns;
      }
    }

    /** The loop of `execute`: cut, send, and go on with the rest. */
    method SendBatches(limit: nat, upsertQuery: string) returns (ok: bool)
      modifies db
      ensures var (bs, whole) := Split(values, limit);
        && (ok <==> whole && Accepts(old(db.refusals), |bs|))
        && SentPrefix(old(db.log), db.log, Statements(query, bs, upsertQuery), ok)
    {
      hide Split, Statements, WithoutComma, RFind, Accepts, Drop, SentPrefix, Separator;
      ghost var log0, answers, all := db.log, db.refusals, Split(values, limit);
      ghost var done: seq<string> := [];
      var currentBatch := values;
      NothingSent(answers, query, upsertQuery);
      assert [] + all.0 == all.0 && log0 + [] == log0;
      while currentBatch != ""
        invariant all.0 == done + Split(currentBatch, limit).0 && all.1 == Split(currentBatch, limit).1
        invariant db.log == log0 + Statements(query, done, upsertQuery)
        invariant Accepts(answers, |done|) && db.refusals == Drop(answers, |done|)
        decreases |currentBatch|
      {
        ghost var before := currentBatch;
        var cutPos := limit;
        if cutPos < |currentBatch| {
          var found := RFind(currentBatch, cutPos);
          SplitNext(currentBatch, limit);
          if found.None? {
            SentPart(log0, db.log, done, Split(currentBatch, limit).0, query, upsertQuery);
            SentFacts(log0, db.log, Statements(query, all.0, upsertQuery), Split(currentBatch, limit).0 == []);
            return false;
          }
          cutPos := found.value + 2;
        } else {
          SplitNext(currentBatch, limit);
          cutPos := |currentBatch|;
        }
        var batchValues := WithoutComma(currentBatch[..cutPos]);
        currentBatch := currentBatch[cutPos..];
        var sql := query + Separator(query) + batchValues + upsertQuery;
        SentOne(done, batchValues, query, upsertQuery);
        AcceptsNext(answers, |done|);
        Assoc(done, [batchValues], Split(currentBatch, limit).0);
        done := done + [batchValues];
        ok := db.ExecuteQuery(sql);
        if !ok {
          SentPart(log0, db.log, done, Split(currentBatch, limit).0, query, upsertQuery);
          SentFacts(log0, db.log, Statements(query, all.0, upsertQuery), Split(currentBatch, limit).0 == []);
          AcceptsFewer(answers, |done|, |all.0|);
          return;
        }
      }
      SplitDone(limit);
      assert done + [] == done;
      SentPart(log0, db.log, done, [], query, upsertQuery);
      ok := true;
    }

    /** Everything pending is sent, in statements of at most one byte over the limit, or nothing is forgotten. */
    method Execute() returns (ok: bool)
      requires Valid()
      modifies this`values, this`length, this`pending, this`sent, db
      ensures Valid()
      ensures ok <==> old(Flushes())
      ensures ok ==> pending == [] && sent == old(sent + pending)
      ensures !ok ==> pending == old(pending) && sent == old(sent) && Batches() == old(Batches())
      ensures SentPrefix(old(db.log), db.log, Statements(query, old(Batches().0), Upserts()), ok)
      ensures old(db.log) <= db.log && (old(pending) == [] ==> db.log == old(db.log))
      ensures ok && Safe(old(pending)) ==> Carries(db.log[|old(db.log)|..], old(pending), query, upsertColumns)
      ensures forall k | |old(db.log)| <= k < |db.log| :: Sound(db.log[k], query, upsertColumns)
    {
      hide Split, Statements, Join, Carries, Sound, Safe, SentPrefix, Accepts, PrefixSize, Upsert;
      ghost var upsert, log0 := Upserts(), db.log;
      TextEmpty(pending);
      if values == "" {
        NothingPending(pending, query, upsertColumns);
        NothingSplit(log0, query, upsert);
        return true;
      }
      SentNothing(log0, Statements(query, Batches().0, upsert));
      PrefixNotEmpty(query, upsert);
      var upsertQuery := UpsertQuery();
      var queryPrefixSize := PrefixSize(query, upsertQuery);
      if queryPrefixSize >= MAX_QUERY_SIZE {
        return false;
      }
      ghost var bs := Split(values, MAX_QUERY_SIZE - queryPrefixSize).0;
      BatchSizes(values, MAX_QUERY_SIZE - queryPrefixSize);
      StatementsSound(bs, query, upsertColumns);
      ok := SendBatches(MAX_QUERY_SIZE - queryPrefixSize, upsertQuery);
      SentFacts(log0, db.log, Statements(query, bs, upsert), ok);
      if !ok {
        return;
      }
      if Safe(pending) {
        CarriesSplit(pending, MAX_QUERY_SIZE - queryPrefixSize, query, upsertColumns);
      }
      values := "";
      length := |query|;
      pending, sent := [], sent + pending;
      JoinNothing();
    }

    /** The row still fits the packet with what is pending. */
    ghost predicate Fits(row: string)
      reads this
    {
      length + |row| + (if values == "" then 2 else 3) <= db.maxPacketSize
    }

    /**
     The row joins the text; if it would not fit the packet, what is pending is sent first. No row is
     lost or reordered, also when the row itself is refused.
     */
    method AddRow(row: string) returns (ok: bool)
      requires Valid()
      modifies this`values, this`length, this`pending, this`sent, db
      ensures Valid()
      ensures ok <==>
        || old(Fits(row))
        || (old(values) != "" && old(Flushes()) && |query| + |row| + 2 <= db.maxPacketSize)
      ensures sent + pending == old(sent + pending) + if ok then [row] else []
      ensures ok ==> length <= db.maxPacketSize
      ensures old(Fits(row)) ==> sent == old(sent)
      ensures ok && sent == old(sent) ==> db.log == old(db.log)
      ensures sent == old(sent) || sent == old(sent + pending)
      ensures old(db.log) <= db.log
      ensures sent != old(sent) && Safe(old(pending)) ==>
        Carries(db.log[|old(db.log)|..], old(pending), query, upsertColumns)
      ensures SentPrefix(old(db.log), db.log, Statements(query, old(Batches().0), Upserts()), sent != old(sent))
      ensures forall k | |old(db.log)| <= k < |db.log| :: Sound(db.log[k], query, upsertColumns)
    {
      hide Split, Statements, Join, Carries, Sound, Safe, Batches, Flushes, SentPrefix;
      SentNothing(db.log, Statements(query, Batches().0, Upserts()));
      var rowLength := |row|;
      var addedLength := if values == "" then rowLength + 2 else rowLength + 3;
      TextEmpty(pending);
      if length + addedLength > db.maxPacketSize {
        if values == "" {
          return false;
        }
        ok := Execute();
        if !ok {
          return;
        }
        TextEmpty(pending);
        addedLength := rowLength + 2;
        if length + addedLength > db.maxPacketSize {
          return false;
        }
      }
      length := length + addedLength;
      JoinSnoc(pending, row);
      if values == "" {
        values := "(" + row + ")";
      } else {
        values := values + "," + "(" + row + ")";
      }
      pending := pending + [row];
      ok := true;
    }
  }

  lemma SafeParts(a: seq<string>, b: seq<string>, rows: seq<string>)
    requires a + b <= rows && Safe(rows)
    ensures Safe(a) && Safe(b)
  {
    forall k | 0 <= k < |b|
      ensures SafeRow(b[k], MAX_QUERY_SIZE)
    {
      assert (a + b)[|a| + k] == b[k];
    }
    forall k | 0 <= k < |a|
      ensures SafeRow(a[k], MAX_QUERY_SIZE)
    {
      assert (a + b)[k] == a[k];
    }
  }

  /** Statements sent since `log0` carry the rows sent since then, and still do after a flush. */
  lemma Delivered(log0: seq<string>, log1: seq<string>, log2: seq<string>, sent1: seq<string>, pending1: seq<string>,
                  sent2: seq<string>, rows: seq<string>, query: string, columns: seq<string>)
    requires log0 <= log1 <= log2 && sent1 + pending1 <= rows
    requires sent2 == sent1 ==> log2 == log1
    requires sent2 != sent1 ==>
      sent2 == sent1 + pending1 && (Safe(pending1) ==> Carries(log2[|log1|..], pending1, query, columns))
    requires Safe(rows) ==> Carries(log1[|log0|..], sent1, query, columns)
    ensures Safe(rows) ==> Carries(log2[|log0|..], sent2, query, columns)
  {
    hide Carries, Safe;
    if Safe(rows) && sent2 != sent1 {
      SafeParts(sent1, pending1, rows);
      CarriesMore(log1[|log0|..], sent1, log2[|log1|..], pending1, query, columns);
      assert log1[|log0|..] + log2[|log1|..] == log2[|log0|..];
    }
  }

  /** The way the callers use it: columns set, all rows added, then the rest sent. */
  method InsertAll(db: Database, query: string, columns: seq<string>, rows: seq<string>) returns (ok: bool)
    modifies db
    ensures old(db.log) <= db.log
    ensures ok && Safe(rows) ==> Carries(db.log[|old(db.log)|..], rows, query, columns)
    ensures forall k | |old(db.log)| <= k < |db.log| :: Sound(db.log[k], query, columns)
  {
    hide Split, Statements, Join, Carries, Sound, Safe, Upsert, SentPrefix,
      DBInsert.Flushes, DBInsert.Fits, DBInsert.Batches;
    var stmt := new DBInsert(db, query);
    stmt.SetUpsert(columns);
    ghost var log0 := db.log;
    CarriesNothing(query, columns);
    assert log0[|log0|..] == [];
    for i := 0 to |rows|
      invariant stmt.Valid() && stmt.db == db && stmt.query == query && stmt.upsertColumns == columns
      invariant fresh(stmt) && log0 <= db.log
      invariant stmt.sent + stmt.pending == rows[..i]
      invariant forall k | |log0| <= k < |db.log| :: Sound(db.log[k], query, columns)
      invariant Safe(rows) ==> Carries(db.log[|log0|..], stmt.sent, query, columns)
    {
      ghost var log1, sent1, pending1 := db.log, stmt.sent, stmt.pending;
      assert rows[..i] <= rows;
      ok := stmt.AddRow(rows[i]);
      if !ok {
        return;
      }
      assert rows[..i + 1] == rows[..i] + [rows[i]];
      Delivered(log0, log1, db.log, sent1, pending1, stmt.sent, rows, query, columns);
    }
    ghost var log1, sent1, pending1 := db.log, stmt.sent, stmt.pending;
    assert rows[..|rows|] == rows;
    ok := stmt.Execute();
    if ok {
      Delivered(log0, log1, db.log, sent1, pending1, stmt.sent, rows, query, columns);
    }
  }
}
