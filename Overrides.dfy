/**
 * The two override tables read from names.csv and editions.csv, and the
 * two scans the normaliser runs over them.
 *
 * Both files have four columns and no header. The first column is a set
 * code; the other three are kept as one entry, in file order, under that
 * set code. In names.csv an entry is (collector number, name, edition);
 * in editions.csv it is (lowest collector number, highest collector
 * number, edition).
 */
module Overrides {
  import opened Wrappers
  import opened Text

  /** The three columns after the set code, kept as strings. */
  datatype Entry = Entry(first: string, second: string, third: string)

  /** Set code to the entries listed under it, in file order. */
  type Table = map<string, seq<Entry>>

  /** Every row has the four columns the loader indexes. */
  predicate WellFormed(rows: seq<seq<string>>) {
    forall j :: 0 <= j < |rows| ==> |rows[j]| >= 4
  }

  /** The set codes that occur in the first column. */
  function SetCodes(rows: seq<seq<string>>): set<string>
    requires WellFormed(rows)
  {
    set j | 0 <= j < |rows| :: rows[j][0]
  }

  /** The entries of the rows whose set code is `code`, in file order. */
  function EntriesFor(rows: seq<seq<string>>, code: string): seq<Entry>
    requires WellFormed(rows)
    decreases |rows|
  {
    if rows == [] then []
    else
      var last := rows[|rows| - 1];
      EntriesFor(rows[..|rows| - 1], code) + (if last[0] == code then [Entry(last[1], last[2], last[3])] else [])
  }

  /**
   * The table a file yields: every set code of the file mapped to its
   * entries. `None` is the IndexError a row with fewer than four columns
   * (a blank line included) raises.
   */
  function Group(rows: seq<seq<string>>): Option<Table> {
    if WellFormed(rows) then Some(Grouped(rows)) else None
  }

  /** Every set code of a well-formed file mapped to its entries. */
  function Grouped(rows: seq<seq<string>>): Table
    requires WellFormed(rows)
  {
    map code | code in SetCodes(rows) :: EntriesFor(rows, code)
  }

  /** A set code is in the table exactly when it lists at least one entry. */
  lemma {:induction false} EntriesForNonEmpty(rows: seq<seq<string>>, code: string)
    requires WellFormed(rows)
    ensures |EntriesFor(rows, code)| > 0 <==> code in SetCodes(rows)
    decreases |rows|
  {
    if rows != [] {
      var init := rows[..|rows| - 1];
      EntriesForNonEmpty(init, code);
      assert SetCodes(rows) == SetCodes(init) + {rows[|rows| - 1][0]} by {
        forall c | c in SetCodes(rows) ensures c in SetCodes(init) + {rows[|rows| - 1][0]} {
          var j :| 0 <= j < |rows| && rows[j][0] == c;
          if j < |rows| - 1 { assert init[j][0] == c; }
        }
        forall c | c in SetCodes(init) ensures c in SetCodes(rows) {
          var j :| 0 <= j < |init| && init[j][0] == c;
          assert rows[j][0] == c;
        }
      }
    }
  }

  /** Every entry listed under a set code comes from a row of the file with that set code. */
  lemma {:induction false} EntriesForFromRows(rows: seq<seq<string>>, code: string, k: nat)
    requires WellFormed(rows) && k < |EntriesFor(rows, code)|
    ensures exists j :: 0 <= j < |rows| && rows[j][0] == code && EntriesFor(rows, code)[k] == Entry(rows[j][1], rows[j][2], rows[j][3])
    decreases |rows|
  {
    var init := rows[..|rows| - 1];
    var last := rows[|rows| - 1];
    if k < |EntriesFor(init, code)| {
      EntriesForFromRows(init, code, k);
      var j :| 0 <= j < |init| && init[j][0] == code && EntriesFor(init, code)[k] == Entry(init[j][1], init[j][2], init[j][3]);
      assert rows[j] == init[j];
    } else {
      assert last[0] == code;
      assert EntriesFor(rows, code)[k] == Entry(last[1], last[2], last[3]);
    }
  }

  /** Appending one row adds its entry to the end of its set code's list. */
  lemma GroupAppend(before: seq<seq<string>>, row: seq<string>)
    requires WellFormed(before) && |row| >= 4
    ensures WellFormed(before + [row])
    ensures Grouped(before + [row]) ==
      Grouped(before)[row[0] := (if row[0] in Grouped(before) then Grouped(before)[row[0]] else []) + [Entry(row[1], row[2], row[3])]]
  {
    var after := before + [row];
    assert after[..|before|] == before;
    assert SetCodes(after) == SetCodes(before) + {row[0]} by {
      forall c | c in SetCodes(after) ensures c in SetCodes(before) + {row[0]} {
        var j :| 0 <= j < |after| && after[j][0] == c;
        if j < |before| { assert before[j][0] == c; }
      }
      forall c | c in SetCodes(before) ensures c in SetCodes(after) {
        var j :| 0 <= j < |before| && before[j][0] == c;
        assert after[j][0] == c;
      }
    }
    if row[0] !in Grouped(before) {
      EntriesForNonEmpty(before, row[0]);
    }
    var m := Grouped(before)[row[0] := (if row[0] in Grouped(before) then Grouped(before)[row[0]] else []) + [Entry(row[1], row[2], row[3])]];
    assert Grouped(after).Keys == m.Keys;
    forall code | code in m ensures Grouped(after)[code] == m[code] {
    }
  }

  /** The loader loop: grows the table row by row, as the source's `+=` does. */
  method LoadTable(rows: seq<seq<string>>) returns (t: Option<Table>)
    ensures t == Group(rows)
  {
    var table: Table := map[];
    var i := 0;
    while i < |rows|
      invariant 0 <= i <= |rows|
      invariant WellFormed(rows[..i])
      invariant table == Grouped(rows[..i])
    {
      var row := rows[i];
      if |row| < 4 {
        assert !WellFormed(rows);
        return None;
      }
      GroupAppend(rows[..i], row);
      assert rows[..i + 1] == rows[..i] + [row];
      if row[0] !in table {
        table := table[row[0] := []];
      }
      table := table[row[0] := table[row[0]] + [Entry(row[1], row[2], row[3])]];
      i := i + 1;
    }
    assert rows[..i] == rows;
    return Some(table);
  }

  /**
   * The names.csv scan: the entry that matches the collector number sets
   * both name and edition, and a later match overwrites an earlier one.
   */
  function NameOverride(entries: seq<Entry>, number: string, name: string, edition: string): (string, string)
    decreases |entries|
  {
    if entries == [] then (name, edition)
    else
      var e := entries[|entries| - 1];
      if e.first == number then (e.second, e.third)
      else NameOverride(entries[..|entries| - 1], number, name, edition)
  }

  /** No entry with the collector number leaves name and edition alone; otherwise the last one decides. */
  lemma {:induction false} NameOverrideLastMatch(entries: seq<Entry>, number: string, name: string, edition: string)
    ensures (forall j :: 0 <= j < |entries| ==> entries[j].first != number) ==>
      NameOverride(entries, number, name, edition) == (name, edition)
    ensures forall j :: (0 <= j < |entries| && entries[j].first == number &&
                         (forall k :: j < k < |entries| ==> entries[k].first != number)) ==>
      NameOverride(entries, number, name, edition) == (entries[j].second, entries[j].third)
    decreases |entries|
  {
    if entries != [] {
      var init := entries[..|entries| - 1];
      NameOverrideLastMatch(init, number, name, edition);
      assert forall j :: 0 <= j < |init| ==> init[j] == entries[j];
    }
  }

  /** The source's loop over the names.csv entries of one set code. */
  method ScanNames(entries: seq<Entry>, number: string, name0: string, edition0: string) returns (name: string, edition: string)
    ensures (name, edition) == NameOverride(entries, number, name0, edition0)
  {
    name, edition := name0, edition0;
    for i := 0 to |entries|
      invariant (name, edition) == NameOverride(entries[..i], number, name0, edition0)
    {
      assert entries[..i + 1][..i] == entries[..i];
      if number == entries[i].first {
        name, edition := entries[i].second, entries[i].third;
      }
    }
    assert entries[..|entries|] == entries;
  }

  /**
   * `int(collectornumber) >= int(lo) and int(collectornumber) <= int(hi)`,
   * evaluated left to right with short-circuit: `None` is the ValueError
   * of the first `int()` that fails.
   */
  function InRange(number: string, e: Entry): Option<bool> {
    match ParseInt(number)
    case None => None
    case Some(n) =>
      match ParseInt(e.first)
      case None => None
      case Some(lo) =>
        if n < lo then Some(false)
        else
          match ParseInt(e.second)
          case None => None
          case Some(hi) => Some(n <= hi)
  }

  /**
   * The range test is `lo <= n <= hi` on the parsed values with Python's
   * short-circuit: a number below the range is out of it whatever the upper
   * bound holds, and only a number at or above the lower bound needs the
   * upper bound to parse.
   */
  lemma InRangeShortCircuit(number: string, e: Entry)
    ensures InRange(number, e).Some? <==>
      ParseInt(number).Some? && ParseInt(e.first).Some? &&
      (ParseInt(number).value < ParseInt(e.first).value || ParseInt(e.second).Some?)
    ensures InRange(number, e) == Some(true) <==>
      ParseInt(number).Some? && ParseInt(e.first).Some? && ParseInt(e.second).Some? &&
      ParseInt(e.first).value <= ParseInt(number).value <= ParseInt(e.second).value
  {
  }

  /**
   * The editions.csv scan: every range containing the collector number
   * sets the edition, so the last one decides. `None` is the ValueError of
   * the first entry whose `int()` fails.
   */
  function RangeOverride(entries: seq<Entry>, number: string, edition: string): Option<string>
    decreases |entries|
  {
    if entries == [] then Some(edition)
    else
      match RangeOverride(entries[..|entries| - 1], number, edition)
      case None => None
      case Some(ed) =>
        var e := entries[|entries| - 1];
        match InRange(number, e)
        case None => None
        case Some(hit) => Some(if hit then e.third else ed)
  }

  /**
   * The scan fails exactly when some entry's test fails; otherwise the
   * edition is that of the last range containing the number, or unchanged.
   */
  lemma {:induction false} RangeOverrideLastMatch(entries: seq<Entry>, number: string, edition: string)
    ensures RangeOverride(entries, number, edition).None? <==> exists j :: 0 <= j < |entries| && InRange(number, entries[j]).None?
    ensures (forall j :: 0 <= j < |entries| ==> InRange(number, entries[j]) == Some(false)) ==>
      RangeOverride(entries, number, edition) == Some(edition)
    ensures forall j :: (0 <= j < |entries| && InRange(number, entries[j]) == Some(true) &&
                         (forall k :: 0 <= k < |entries| ==> InRange(number, entries[k]).Some?) &&
                         (forall k :: j < k < |entries| ==> InRange(number, entries[k]) == Some(false))) ==>
      RangeOverride(entries, number, edition) == Some(entries[j].third)
    decreases |entries|
  {
    if entries != [] {
      var init := entries[..|entries| - 1];
      RangeOverrideLastMatch(init, number, edition);
      assert forall j :: 0 <= j < |init| ==> init[j] == entries[j];
    }
  }

  /** The source's loop over the editions.csv entries of one set code. */
  method ScanRanges(entries: seq<Entry>, number: string, edition0: string) returns (edition: Option<string>)
    ensures edition == RangeOverride(entries, number, edition0)
  {
    var ed := edition0;
    for i := 0 to |entries|
      invariant RangeOverride(entries[..i], number, edition0) == Some(ed)
    {
      assert entries[..i + 1][..i] == entries[..i];
      var hit := InRange(number, entries[i]);
      if hit.None? {
        assert RangeOverride(entries[..i + 1], number, edition0).None?;
        RangeOverrideFailureSticks(entries, number, edition0, i + 1);
        return None;
      }
      if hit.value {
        ed := entries[i].third;
      }
    }
    assert entries[..|entries|] == entries;
    return Some(ed);
  }

  /** Once a prefix of the scan fails, the whole scan fails. */
  lemma {:induction false} RangeOverrideFailureSticks(entries: seq<Entry>, number: string, edition: string, n: nat)
    requires n <= |entries| && RangeOverride(entries[..n], number, edition).None?
    ensures RangeOverride(entries, number, edition).None?
    decreases |entries| - n
  {
    if n < |entries| {
      assert entries[..n + 1][..n] == entries[..n];
      RangeOverrideFailureSticks(entries, number, edition, n + 1);
    } else {
      assert entries[..n] == entries;
    }
  }
}
