/**
 * The Manabox-to-Cardsphere converter: the per-row normaliser that chains
 * the stages of module Rules in the source's order, and the run over all
 * rows that keeps the row number, the lookup counter, the output lines and
 * the error log.
 *
 * Files are sequences of rows, a row a sequence of column strings. The
 * Multiverse Bridge reply for data row i (0-based) is `replies[i]`, an
 * absent index meaning an empty reply.
 */
module Converter {
  import opened Wrappers
  import opened Text
  import opened Overrides
  import opened Rules

  const Languages: map<string, string> :=
    map["en" := "English", "ja" := "Japanese", "ru" := "Russian", "ko" := "Korean", "it" := "Italian"]

  /** The first line of cardsphere.csv. */
  const Header: string := "Count,Tradelist Count,Name,Edition,Condition,Language,Foil,Tags\n"

  /** The fields of one cardsphere.csv line; condition and tags are fixed. */
  datatype OutRow = OutRow(count: string, name: string, edition: string, language: string, foil: string)

  /** One cardsphere.csv line: the quantity twice, quoted name, edition, "Near Mint" and language, foil, empty tags. */
  function Render(o: OutRow): string {
    o.count + "," + o.count + ",\"" + o.name + "\",\"" + o.edition + "\",\"Near Mint\",\"" + o.language + "\"," + o.foil + ",\"\"\n"
  }

  /**
   * A line starts with the quantity twice and ends the line; when no field
   * holds a line break it is exactly one line of the output file.
   */
  lemma RenderIsOneLine(o: OutRow)
    ensures |Render(o)| > 2 * |o.count| + 1 && Render(o)[|Render(o)| - 1] == '\n'
    ensures Render(o)[..|o.count|] == o.count && Render(o)[|o.count|] == ','
    ensures Render(o)[|o.count| + 1..2 * |o.count| + 1] == o.count
    ensures '\n' !in o.count && '\n' !in o.name && '\n' !in o.edition && '\n' !in o.language && '\n' !in o.foil ==>
      '\n' !in Render(o)[..|Render(o)| - 1]
  {
    var body := o.count + "," + o.count + ",\"" + o.name + "\",\"" + o.edition + "\",\"Near Mint\",\"" + o.language + "\"," + o.foil + ",\"\"";
    assert Render(o) == body + "\n";
    assert Render(o)[..|Render(o)| - 1] == body;
    assert body[..|o.count|] == o.count;
    assert body[|o.count| + 1..2 * |o.count| + 1] == o.count;
  }

  function Foil(marker: string): string {
    if marker == "normal" then "normal" else "foil"
  }

  /**
   * The three lookup tables of the normaliser: the built-in synonym table
   * of set names, and the names.csv and editions.csv override tables.
   */
  datatype Tables = Tables(synonyms: map<string, string>, names: Table, editions: Table)

  /** How one row ends: a line, a silent drop, a logged skip, or a crash that ends the run. */
  datatype Outcome = Emit(row: OutRow) | Drop | Skipped | Crashed(crash: Crash)

  /** Whether the row queried the service, what it appended to error.log, and how it ended. */
  datatype RowResult = RowResult(looked: bool, log: seq<LogEntry>, outcome: Outcome)

  /** The rules before the lookup: ASCII name, edition synonyms and substring rules. */
  function Prepare(mb: seq<string>, synonyms: map<string, string>): Card
    requires |mb| >= 14
  {
    Card(AsciiOnly(mb[0]), RewriteEdition(synonyms, mb[2]), mb[3], mb[1])
  }

  /** The rules after the lookup, from the suffix resolver to the range overrides. */
  function Resolve(c: Card, names: Table, editions: Table): Step {
    match ResolveSuffix(c)
    case Next(c1) =>
      (match BasicLand(c1)
       case Next(c2) => RangeStage(editions, NameStage(names, Cosmetic(SplitName(Reprint(c2)))))
       case other => other)
    case other => other
  }

  /** The rest of a row whose lookup is done: the rules, the token filter and the output line. */
  function Finish(mb: seq<string>, c: Card, looked: bool, log: seq<LogEntry>, t: Tables): RowResult
    requires |mb| >= 14 && mb[13] in Languages
  {
    match Resolve(c, t.names, t.editions)
    case Fault(x) => RowResult(looked, log, Crashed(x))
    case Skip(e) => RowResult(looked, log + [e], Skipped)
    case Next(d) =>
      RowResult(looked, log, if Keep(d) then Emit(OutRow(mb[6], d.name, d.edition, Languages[mb[13]], Foil(mb[4]))) else Drop)
  }

  /** The whole normaliser for row number `row` (1-based) with the service's `reply`. */
  function Normalize(mb: seq<string>, row: nat, reply: seq<MvbCard>, t: Tables): RowResult {
    if |mb| < 14 then RowResult(false, [], Crashed(IndexError))
    else if mb[13] !in Languages then RowResult(false, [], Crashed(KeyError))
    else
      var c := Prepare(mb, t.synonyms);
      match LookupDue(c)
      case None => RowResult(false, [], Crashed(IndexError))
      case Some(due) =>
        if !due then Finish(mb, c, false, [], t)
        else if reply == [] then Finish(mb, c, true, [LookupFailed(row, c.name, c.edition, mb[8])], t)
        else Finish(mb, ApplyLookup(c, reply[0]), true, [], t)
  }

  /** The service is queried exactly when the prepared row meets one of the four lookup tests. */
  lemma LookupExactlyWhenDue(mb: seq<string>, row: nat, reply: seq<MvbCard>, t: Tables)
    ensures Normalize(mb, row, reply, t).looked <==>
      |mb| >= 14 && mb[13] in Languages && LookupDue(Prepare(mb, t.synonyms)) == Some(true)
  {
  }

  /**
   * An empty reply is logged once and does not skip the row: the rest of
   * the chain sees name, edition, number and set code unchanged.
   */
  lemma EmptyReplyFallsThrough(mb: seq<string>, row: nat, t: Tables)
    requires |mb| >= 14 && mb[13] in Languages && LookupDue(Prepare(mb, t.synonyms)) == Some(true)
    ensures var c := Prepare(mb, t.synonyms);
      Normalize(mb, row, [], t) ==
      Finish(mb, c, true, [LookupFailed(row, c.name, c.edition, mb[8])], t)
    ensures Normalize(mb, row, [], t).log[0] == LookupFailed(row, Prepare(mb, t.synonyms).name, Prepare(mb, t.synonyms).edition, mb[8])
    ensures Normalize(mb, row, [], t).outcome == Finish(mb, Prepare(mb, t.synonyms), false, [], t).outcome
  {
  }

  /**
   * A non-empty reply: edition and number come from its first element, the
   * name too unless it is a split name, and the set code is cut to three
   * characters when the new number has a hyphen.
   */
  lemma ReplyReplacesFromFirst(mb: seq<string>, row: nat, reply: seq<MvbCard>, t: Tables)
    requires |mb| >= 14 && mb[13] in Languages && LookupDue(Prepare(mb, t.synonyms)) == Some(true) && reply != []
    ensures var c := Prepare(mb, t.synonyms);
      var d := ApplyLookup(c, reply[0]);
      Normalize(mb, row, reply, t) == Finish(mb, d, true, [], t) &&
      d.edition == reply[0].edition && d.number == reply[0].collectorNumber &&
      d.name == (if Contains(c.name, "//") then c.name else reply[0].name) &&
      d.setCode == (if Contains(reply[0].collectorNumber, "-") then Take(c.setCode, 3) else c.setCode)
  {
  }

  /**
   * How the rest of the row may end a row that arrives with log `pre`: a line
   * for a kept card with the row's quantity, language and foil flag, or a
   * drop or crash that adds nothing, or a skip that adds one entry which is
   * not a lookup failure.
   */
  predicate EndsAfter(mb: seq<string>, pre: seq<LogEntry>, r: RowResult)
    requires |mb| >= 14 && mb[13] in Languages
  {
    match r.outcome
    case Emit(o) =>
      r.log == pre && !Contains(o.name, "Token") && !Contains(o.edition, "Tokens") &&
      !Contains(o.edition, "Unfinity Sticker Sheets") &&
      o.count == mb[6] && o.language == Languages[mb[13]] && o.foil == Foil(mb[4])
    case Drop => r.log == pre
    case Crashed(_) => r.log == pre
    case Skipped => |r.log| == |pre| + 1 && r.log[..|pre|] == pre && !r.log[|pre|].LookupFailed?
  }

  /** The rules after the lookup keep the lookup flag and end the row as `EndsAfter` says. */
  lemma FinishFacts(mb: seq<string>, c: Card, looked: bool, log: seq<LogEntry>, t: Tables)
    requires |mb| >= 14 && mb[13] in Languages
    ensures Finish(mb, c, looked, log, t).looked == looked
    ensures EndsAfter(mb, log, Finish(mb, c, looked, log, t))
  {
    var step := Resolve(c, t.names, t.editions);
    if step.Skip? {
      assert !step.entry.LookupFailed?;
      assert (log + [step.entry])[..|log|] == log;
    }
  }

  /**
   * A line is written only for a row that is not a token or sticker sheet;
   * it carries the row's quantity, full language name and foil flag.
   */
  lemma EmittedRowsAreKept(mb: seq<string>, row: nat, reply: seq<MvbCard>, t: Tables)
    requires Normalize(mb, row, reply, t).outcome.Emit?
    ensures var o := Normalize(mb, row, reply, t).outcome.row;
      !Contains(o.name, "Token") && !Contains(o.edition, "Tokens") && !Contains(o.edition, "Unfinity Sticker Sheets") &&
      |mb| >= 14 && o.count == mb[6] && mb[13] in Languages && o.language == Languages[mb[13]] &&
      (o.foil == "normal" <==> mb[4] == "normal") && (o.foil == "foil" <==> mb[4] != "normal")
  {
    NormalizeFinishes(mb, row, reply, t);
  }

  /** Tokens and sticker sheets vanish silently: the only log entry such a row can leave is a failed lookup. */
  lemma DroppedRowsAreSilent(mb: seq<string>, row: nat, reply: seq<MvbCard>, t: Tables)
    requires Normalize(mb, row, reply, t).outcome.Drop?
    ensures forall e :: e in Normalize(mb, row, reply, t).log ==> e.LookupFailed?
  {
    NormalizeFinishes(mb, row, reply, t);
  }

  /** A skipped row leaves exactly one entry for the suffix-resolver branch that refused it, after any lookup failure. */
  lemma SkippedRowsAreLogged(mb: seq<string>, row: nat, reply: seq<MvbCard>, t: Tables)
    requires Normalize(mb, row, reply, t).outcome.Skipped?
    ensures var log := Normalize(mb, row, reply, t).log;
      1 <= |log| <= 2 && !log[|log| - 1].LookupFailed? && (|log| == 2 ==> log[0].LookupFailed?)
  {
    NormalizeFinishes(mb, row, reply, t);
  }

  /** Every row either crashes with an empty log or ends as `EndsAfter` says, after at most one lookup failure. */
  lemma NormalizeFinishes(mb: seq<string>, row: nat, reply: seq<MvbCard>, t: Tables)
    ensures var r := Normalize(mb, row, reply, t);
      (r.outcome.Crashed? && r.log == []) ||
      (|mb| >= 14 && mb[13] in Languages &&
       exists pre: seq<LogEntry> :: |pre| <= 1 && (forall e :: e in pre ==> e.LookupFailed?) && EndsAfter(mb, pre, r))
  {
    if |mb| >= 14 && mb[13] in Languages {
      var c := Prepare(mb, t.synonyms);
      var due := LookupDue(c);
      if due.Some? {
        if !due.value {
          FinishFacts(mb, c, false, [], t);
        } else if reply == [] {
          FinishFacts(mb, c, true, [LookupFailed(row, c.name, c.edition, mb[8])], t);
        } else {
          FinishFacts(mb, ApplyLookup(c, reply[0]), true, [], t);
        }
      }
    }
  }

  /** The per-row loop body of the source, with its two inner override loops. */
  method NormalizeRow(mb: seq<string>, row: nat, reply: seq<MvbCard>, t: Tables) returns (r: RowResult)
    ensures r == Normalize(mb, row, reply, t)
  {
    if |mb| < 14 {
      return RowResult(false, [], Crashed(IndexError));
    }
    if mb[13] !in Languages {
      return RowResult(false, [], Crashed(KeyError));
    }
    var card := Prepare(mb, t.synonyms);
    var looked := false;
    var log: seq<LogEntry> := [];
    var due := LookupDue(card);
    if due.None? {
      return RowResult(false, [], Crashed(IndexError));
    }
    if due.value {
      looked := true;
      if |reply| > 0 {
        card := ApplyLookup(card, reply[0]);
      } else {
        log := [LookupFailed(row, card.name, card.edition, mb[8])];
      }
    }
    var step := ResolveSuffix(card);
    if step.Next? {
      step := BasicLand(step.card);
    }
    if step.Skip? {
      return RowResult(looked, log + [step.entry], Skipped);
    }
    if step.Fault? {
      return RowResult(looked, log, Crashed(step.crash));
    }
    card := Cosmetic(SplitName(Reprint(step.card)));
    if card.setCode in t.names {
      var name, edition := ScanNames(t.names[card.setCode], card.number, card.name, card.edition);
      card := card.(name := name, edition := edition);
    }
    if card.setCode in t.editions {
      var edition := ScanRanges(t.editions[card.setCode], card.number, card.edition);
      if edition.None? {
        return RowResult(looked, log, Crashed(ValueError));
      }
      card := card.(edition := edition.value);
    }
    if Keep(card) {
      return RowResult(looked, log, Emit(OutRow(mb[6], card.name, card.edition, Languages[mb[13]], Foil(mb[4]))));
    }
    return RowResult(looked, log, Drop);
  }

  // ------------------------------------------------------------------ the run

  /** What the run has produced so far; `pauses` counts the 60-second sleeps. */
  datatype Run = Run(lines: seq<string>, log: seq<LogEntry>, lookups: nat, pauses: nat, crashed: bool)

  /** One more row: the counter rises per lookup and a pause is due on every hundredth. */
  function Advance(st: Run, r: RowResult): Run {
    var lookups := if r.looked then st.lookups + 1 else st.lookups;
    Run(st.lines + (if r.outcome.Emit? then [Render(r.outcome.row)] else []),
        st.log + r.log,
        lookups,
        if r.looked && lookups % 100 == 0 then st.pauses + 1 else st.pauses,
        r.outcome.Crashed?)
  }

  function ReplyFor(replies: seq<seq<MvbCard>>, i: nat): seq<MvbCard> {
    if i < |replies| then replies[i] else []
  }

  /** What the normaliser makes of each data row taken on its own; row numbers are 1-based. */
  function Results(rows: seq<seq<string>>, replies: seq<seq<MvbCard>>, t: Tables): (rs: seq<RowResult>)
    ensures |rs| == |rows|
    ensures forall i :: 0 <= i < |rows| ==> rs[i] == Normalize(rows[i], i + 1, ReplyFor(replies, i), t)
  {
    seq(|rows|, i requires 0 <= i < |rows| => Normalize(rows[i], i + 1, ReplyFor(replies, i), t))
  }

  /** The row results applied in order; the first crash ends the run. */
  function Fold(rs: seq<RowResult>): Run
    decreases |rs|
  {
    if rs == [] then Run([Header], [], 0, 0, false)
    else
      var st := Fold(rs[..|rs| - 1]);
      if st.crashed then st else Advance(st, rs[|rs| - 1])
  }

  /** The whole program: header, both override files, then every data row after the CSV header. */
  function Program(nameRows: seq<seq<string>>, editionRows: seq<seq<string>>, input: seq<seq<string>>,
                   replies: seq<seq<MvbCard>>): Run
  {
    match Group(nameRows)
    case None => Run([Header], [], 0, 0, true)
    case Some(names) =>
      match Group(editionRows)
      case None => Run([Header], [], 0, 0, true)
      case Some(editions) => Fold(Results(if input == [] then [] else input[1..], replies, Tables(SetReplace, names, editions)))
  }

  /**
   * A loader crash ends the program with only the header. Otherwise the
   * CSV header row is passed over and input row `i` (from 1) is normalised
   * as row number `i` with the service's reply for it: the program crashes
   * exactly when one of those rows does.
   */
  lemma ProgramRunsDataRows(nameRows: seq<seq<string>>, editionRows: seq<seq<string>>, input: seq<seq<string>>,
                            replies: seq<seq<MvbCard>>)
    ensures Group(nameRows).None? || Group(editionRows).None? ==>
      Program(nameRows, editionRows, input, replies) == Run([Header], [], 0, 0, true)
    ensures Group(nameRows).Some? && Group(editionRows).Some? ==>
      var t := Tables(SetReplace, Group(nameRows).value, Group(editionRows).value);
      (Program(nameRows, editionRows, input, replies).crashed <==>
       exists i :: 1 <= i < |input| && Normalize(input[i], i, ReplyFor(replies, i - 1), t).outcome.Crashed?)
  {
    if Group(nameRows).Some? && Group(editionRows).Some? {
      var t := Tables(SetReplace, Group(nameRows).value, Group(editionRows).value);
      var data := if input == [] then [] else input[1..];
      RowsAreIndependent(data, replies, t);
      if Program(nameRows, editionRows, input, replies).crashed {
        var j :| 0 <= j < |data| && Normalize(data[j], j + 1, ReplyFor(replies, j), t).outcome.Crashed?;
        assert data[j] == input[j + 1];
      }
      if exists i :: 1 <= i < |input| && Normalize(input[i], i, ReplyFor(replies, i - 1), t).outcome.Crashed? {
        var i :| 1 <= i < |input| && Normalize(input[i], i, ReplyFor(replies, i - 1), t).outcome.Crashed?;
        assert data[i - 1] == input[i];
      }
    }
  }

  /** A pause is taken after the 100th, 200th, ... lookup: exactly lookups / 100 of them. */
  lemma {:induction false} PausesPerHundredLookups(rs: seq<RowResult>)
    ensures Fold(rs).pauses == Fold(rs).lookups / 100
    decreases |rs|
  {
    if rs != [] {
      PausesPerHundredLookups(rs[..|rs| - 1]);
      var st := Fold(rs[..|rs| - 1]);
      if !st.crashed {
        AdvanceKeepsPauses(st, rs[|rs| - 1]);
      }
    }
  }

  /** One row keeps the pause count at lookups / 100. */
  lemma AdvanceKeepsPauses(st: Run, r: RowResult)
    requires st.pauses == st.lookups / 100
    ensures Advance(st, r).pauses == Advance(st, r).lookups / 100
  {
  }

  /** The lines the row results contribute each on its own, in order. */
  function EmittedLines(rs: seq<RowResult>): seq<string>
    decreases |rs|
  {
    if rs == [] then []
    else
      var r := rs[|rs| - 1];
      EmittedLines(rs[..|rs| - 1]) + (if r.outcome.Emit? then [Render(r.outcome.row)] else [])
  }

  /** The log entries the row results write each on their own, in order. */
  function Logs(rs: seq<RowResult>): seq<LogEntry>
    decreases |rs|
  {
    if rs == [] then [] else Logs(rs[..|rs| - 1]) + rs[|rs| - 1].log
  }

  /** How many of the rows queried the service. */
  function Looked(rs: seq<RowResult>): nat
    decreases |rs|
  {
    if rs == [] then 0 else Looked(rs[..|rs| - 1]) + (if rs[|rs| - 1].looked then 1 else 0)
  }

  /**
   * The run crashes exactly when some row crashes. Without a crash no row
   * disturbs another: the output is the header followed by every row's
   * own line, in input order, skipped and dropped rows leaving none; the
   * log is every row's own entries in order; and the lookup counter is the
   * number of rows that queried the service.
   */
  lemma {:induction false} FoldIndependent(rs: seq<RowResult>)
    ensures Fold(rs).crashed <==> exists i :: 0 <= i < |rs| && rs[i].outcome.Crashed?
    ensures !Fold(rs).crashed ==> Fold(rs).lines == [Header] + EmittedLines(rs)
    ensures !Fold(rs).crashed ==> Fold(rs).log == Logs(rs) && Fold(rs).lookups == Looked(rs)
    decreases |rs|
  {
    if rs != [] {
      var init := rs[..|rs| - 1];
      FoldIndependent(init);
      assert forall i :: 0 <= i < |init| ==> init[i] == rs[i];
    }
  }

  /** `FoldIndependent` for the normaliser's results on the data rows. */
  lemma RowsAreIndependent(rows: seq<seq<string>>, replies: seq<seq<MvbCard>>, t: Tables)
    ensures Fold(Results(rows, replies, t)).crashed <==>
      exists i :: 0 <= i < |rows| && Normalize(rows[i], i + 1, ReplyFor(replies, i), t).outcome.Crashed?
    ensures !Fold(Results(rows, replies, t)).crashed ==>
      Fold(Results(rows, replies, t)).lines == [Header] + EmittedLines(Results(rows, replies, t))
    ensures !Fold(Results(rows, replies, t)).crashed ==>
      Fold(Results(rows, replies, t)).log == Logs(Results(rows, replies, t)) &&
      Fold(Results(rows, replies, t)).lookups == Looked(Results(rows, replies, t))
  {
    var rs := Results(rows, replies, t);
    FoldIndependent(rs);
    if Fold(rs).crashed {
      var i :| 0 <= i < |rs| && rs[i].outcome.Crashed?;
      assert Normalize(rows[i], i + 1, ReplyFor(replies, i), t).outcome.Crashed?;
    }
  }

  /** The whole program: load both override files, then run the main loop. */
  method Convert(nameRows: seq<seq<string>>, editionRows: seq<seq<string>>, input: seq<seq<string>>,
                 replies: seq<seq<MvbCard>>) returns (run: Run)
    ensures run == Program(nameRows, editionRows, input, replies)
    ensures |run.lines| > 0 && run.lines[0] == Header
    ensures run.pauses == run.lookups / 100
  {
    var names := LoadTable(nameRows);
    if names.None? {
      return Run([Header], [], 0, 0, true);
    }
    var editions := LoadTable(editionRows);
    if editions.None? {
      return Run([Header], [], 0, 0, true);
    }
    var data := if input == [] then [] else input[1..];
    run := ConvertRows(data, replies, Tables(SetReplace, names.value, editions.value));
  }

  /**
   * The source's main loop over the data rows, with its row number and
   * lookup counter: the run over the rows' results, stopping at the first
   * crash, with one pause per hundred lookups.
   */
  method ConvertRows(data: seq<seq<string>>, replies: seq<seq<MvbCard>>, tables: Tables) returns (run: Run)
    ensures run == Fold(Results(data, replies, tables))
    ensures |run.lines| > 0 && run.lines[0] == Header
    ensures run.pauses == run.lookups / 100
  {
    ghost var all := Results(data, replies, tables);
    PausesPerHundredLookups(all);
    ghost var done: seq<RowResult> := [];
    var lines := [Header];
    var log: seq<LogEntry> := [];
    var row := 0;
    var mvbcount := 0;
    var pauses := 0;
    while row < |data|
      invariant 0 <= row <= |data| && done == all[..row]
      invariant Fold(done) == Run(lines, log, mvbcount, pauses, false)
      invariant |lines| > 0 && lines[0] == Header
    {
      var r := NormalizeRow(data[row], row + 1, ReplyFor(replies, row), tables);
      assert r == all[row];
      PrefixStep(all, row);
      FoldStep(done, r);
      done := done + [r];
      lines, log, mvbcount, pauses := Tally(lines, log, mvbcount, pauses, r);
      if r.outcome.Crashed? {
        FoldAfterCrash(all, row + 1);
        return Run(lines, log, mvbcount, pauses, true);
      }
      row := row + 1;
    }
    assert done == all;
    return Run(lines, log, mvbcount, pauses, false);
  }

  /**
   * What one row leaves behind: the lookup counter rises when the service
   * was queried and every hundredth lookup costs a pause; the row's log
   * entries and output line, if any, are appended.
   */
  method Tally(lines0: seq<string>, log0: seq<LogEntry>, mvbcount0: nat, pauses0: nat, r: RowResult)
    returns (lines: seq<string>, log: seq<LogEntry>, mvbcount: nat, pauses: nat)
    ensures Run(lines, log, mvbcount, pauses, r.outcome.Crashed?) == Advance(Run(lines0, log0, mvbcount0, pauses0, false), r)
  {
    lines, log, mvbcount, pauses := lines0, log0, mvbcount0, pauses0;
    if r.looked {
      mvbcount := mvbcount + 1;
      if mvbcount % 100 == 0 {
        pauses := pauses + 1;
      }
    }
    log := log + r.log;
    if r.outcome.Emit? {
      lines := lines + [Render(r.outcome.row)];
    }
  }

  lemma PrefixStep<T>(s: seq<T>, i: nat)
    requires i < |s|
    ensures s[..i + 1] == s[..i] + [s[i]]
  {
  }

  /** The run over one more row result. */
  lemma FoldStep(rs: seq<RowResult>, r: RowResult)
    requires !Fold(rs).crashed
    ensures Fold(rs + [r]) == Advance(Fold(rs), r)
  {
    assert (rs + [r])[..|rs|] == rs;
  }

  /** Rows after a crash change nothing. */
  lemma {:induction false} FoldAfterCrash(rs: seq<RowResult>, n: nat)
    requires n <= |rs| && Fold(rs[..n]).crashed
    ensures Fold(rs) == Fold(rs[..n])
    decreases |rs| - n
  {
    if n < |rs| {
      assert rs[..n + 1][..n] == rs[..n];
      FoldAfterCrash(rs, n + 1);
    } else {
      assert rs[..n] == rs;
    }
  }
}
