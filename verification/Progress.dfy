/** The monotone ledger of solved problems and its append-only journal. */
module Progress {

  import opened Basics
  import opened Budget
  import opened JournalText

  /** One journal line: blank, not a record of two strings, or such a record. */
  datatype Line = Blank | Broken | Solution(id: string, evidence: string)

  predicate LineOk(line: Line) {
    line.Blank? || (line.Solution? && line.id != "" && line.evidence != "")
  }

  ghost predicate Loads(lines: seq<Line>) {
    forall i :: 0 <= i < |lines| ==> LineOk(lines[i])
  }

  /** The ledger a journal describes: a later line about a problem replaces an earlier one. */
  function Replay(lines: seq<Line>): map<string, string> {
    if lines == [] then map[]
    else
      var before := Replay(lines[..|lines| - 1]);
      match lines[|lines| - 1]
      case Solution(id, evidence) => before[id := evidence]
      case _ => before
  }

  lemma ReplayAppend(lines: seq<Line>, line: Line)
    ensures Replay(lines + [line]) == if line.Solution? then Replay(lines)[line.id := line.evidence] else Replay(lines)
  {
    assert (lines + [line])[..|lines|] == lines;
  }

  predicate About(line: Line, id: string) {
    line.Solution? && line.id == id
  }

  /** Line `at` is the last one about `id`. */
  ghost predicate LastAbout(lines: seq<Line>, id: string, at: nat) {
    && at < |lines| && About(lines[at], id)
    && forall j :: at < j < |lines| ==> !About(lines[j], id)
  }

  /** Reloading finds the evidence of the last line about a problem, and no problem without a line. */
  lemma {:induction false} ReplayIsLast(lines: seq<Line>, id: string)
    ensures id in Replay(lines) <==> exists at: nat :: LastAbout(lines, id, at)
    ensures forall at: nat :: LastAbout(lines, id, at) ==> id in Replay(lines) && Replay(lines)[id] == lines[at].evidence
  {
    if lines != [] {
      var n := |lines| - 1;
      var front := lines[..n];
      ReplayIsLast(front, id);
      if About(lines[n], id) {
        assert LastAbout(lines, id, n);
        assert forall at: nat :: LastAbout(lines, id, at) ==> at == n;
      } else {
        assert forall at: nat :: LastAbout(lines, id, at) ==> LastAbout(front, id, at);
        if id in Replay(front) {
          var at: nat :| LastAbout(front, id, at);
          assert LastAbout(lines, id, at);
        }
      }
    }
  }

  /** No problem has two lines. */
  ghost predicate Once(lines: seq<Line>) {
    forall i, j :: 0 <= i < j < |lines| && lines[i].Solution? ==> !About(lines[j], lines[i].id)
  }

  /** In such a journal every line survives reloading. */
  lemma OnceKeepsEvery(lines: seq<Line>, i: nat)
    requires Once(lines) && i < |lines| && lines[i].Solution?
    ensures lines[i].id in Replay(lines) && Replay(lines)[lines[i].id] == lines[i].evidence
  {
    assert LastAbout(lines, lines[i].id, i);
    ReplayIsLast(lines, lines[i].id);
  }

  /** Line `at` is the first one about `id`. */
  ghost predicate FirstAbout(lines: seq<Line>, id: string, at: nat) {
    && at < |lines| && About(lines[at], id)
    && forall j :: 0 <= j < at ==> !About(lines[j], id)
  }

  /** The first evidence of a problem survives reloading exactly when the last line about it carries the same evidence. */
  lemma FirstEvidenceSurvivesIff(lines: seq<Line>, id: string, first: nat, last: nat)
    requires FirstAbout(lines, id, first) && LastAbout(lines, id, last)
    ensures id in Replay(lines)
    ensures Replay(lines)[id] == lines[first].evidence <==> lines[last].evidence == lines[first].evidence
  {
    ReplayIsLast(lines, id);
  }

  /** Any two lines about one problem carry the same evidence. */
  ghost predicate Agree(lines: seq<Line>) {
    forall i, j :: 0 <= i < j < |lines| && lines[i].Solution? && About(lines[j], lines[i].id) ==> lines[i].evidence == lines[j].evidence
  }

  ghost predicate Survives(lines: seq<Line>, i: nat)
    requires i < |lines|
  {
    lines[i].Solution? ==> lines[i].id in Replay(lines) && Replay(lines)[lines[i].id] == lines[i].evidence
  }

  /** Every line survives reloading exactly when the lines agree. */
  lemma EveryLineSurvivesIff(lines: seq<Line>)
    ensures (forall i: nat :: i < |lines| ==> Survives(lines, i)) <==> Agree(lines)
  {
    forall i: nat | i < |lines| && lines[i].Solution? ensures exists at: nat :: LastAbout(lines, lines[i].id, at) {
      var _ := LastLine(lines, i, lines[i].id);
    }
    if forall i: nat :: i < |lines| ==> Survives(lines, i) {
      forall i: nat, j: nat | i < j < |lines| && lines[i].Solution? && About(lines[j], lines[i].id)
        ensures lines[i].evidence == lines[j].evidence
      {
        assert Survives(lines, i) && Survives(lines, j);
      }
    }
    if Agree(lines) {
      forall i: nat | i < |lines| ensures Survives(lines, i) {
        if lines[i].Solution? {
          var at := LastLine(lines, i, lines[i].id);
          ReplayIsLast(lines, lines[i].id);
        }
      }
    }
  }

  /** From a line about a problem on there is a last one. */
  lemma {:induction false} LastLine(lines: seq<Line>, i: nat, id: string) returns (at: nat)
    requires i < |lines| && About(lines[i], id)
    ensures i <= at && LastAbout(lines, id, at)
    decreases |lines| - i
  {
    if later: nat :| i < later < |lines| && About(lines[later], id) {
      at := LastLine(lines, later, id);
    } else {
      at := i;
    }
  }

  /** Two writers that both record a problem: the one that wrote last wins, the first evidence is lost. */
  lemma TwoWritersOverwrite(id: string, first: string, second: string)
    requires first != second
    ensures Replay([Solution(id, first)])[id] == first
    ensures Replay([Solution(id, first), Solution(id, second)])[id] == second
  {
    ReplayAppend([], Solution(id, first));
    ReplayAppend([Solution(id, first)], Solution(id, second));
    assert [Solution(id, first), Solution(id, second)] == [Solution(id, first)] + [Solution(id, second)];
    assert [Solution(id, first)] == [] + [Solution(id, first)];
  }

  // ---------------------------------------------------------------- the text of the journal

  /** The record of a solution, as `mark_solved` prints it. */
  function RecordPieces(id: string, evidence: string): seq<Piece> {
    Enclosed("{", [Member("evidence", [Quoted(evidence)]), Member("problem_id", [Quoted(id)])], "}")
  }

  function RecordText(id: string, evidence: string): string {
    TextOf(RecordPieces(id, evidence))
  }

  /** A line that is not blank goes to a decoder, which answers None where it is not a record of two strings. */
  function ReadLine(decode: string -> Option<(string, string)>, text: string): Line {
    if BlankText(text) then Blank
    else
      match decode(text)
      case None => Broken
      case Some((id, evidence)) => Solution(id, evidence)
  }

  function Reader(decode: string -> Option<(string, string)>): string -> Line {
    text => ReadLine(decode, text)
  }

  /** The lines of a file as the next session reads them. */
  function Reads(decode: string -> Option<(string, string)>, file: string): seq<Line> {
    ReadFile(Reader(decode), file)
  }

  /** What is asked of the decoder: it reads back what is printed, and a text that ends inside a string is no record. */
  ghost predicate Faithful(decode: string -> Option<(string, string)>) {
    && (forall id, evidence :: decode(RecordText(id, evidence)) == Some((id, evidence)))
    && (forall text :: !Closed(text) ==> decode(text) == None)
  }

  ghost predicate AllSolutions(lines: seq<Line>) {
    forall i :: 0 <= i < |lines| ==> lines[i].Solution?
  }

  function RecordsOf(written: seq<Line>): (r: seq<seq<Piece>>)
    requires AllSolutions(written)
    ensures |r| == |written| && forall i :: 0 <= i < |r| ==> r[i] == RecordPieces(written[i].id, written[i].evidence)
  {
    seq(|written|, i requires 0 <= i < |written| => RecordPieces(written[i].id, written[i].evidence))
  }

  /** The text these solutions add to the file. */
  function WrittenText(written: seq<Line>): string
    requires AllSolutions(written)
  {
    FileOf(TextsOf(RecordsOf(written)))
  }

  lemma WrittenAppend(written: seq<Line>, id: string, evidence: string)
    requires AllSolutions(written)
    ensures AllSolutions(written + [Solution(id, evidence)])
    ensures WrittenText(written + [Solution(id, evidence)]) == WrittenText(written) + (RecordText(id, evidence) + "\n")
  {
    var all := written + [Solution(id, evidence)];
    assert TextsOf(RecordsOf(all)) == TextsOf(RecordsOf(written)) + [RecordText(id, evidence)];
    FileAppend(TextsOf(RecordsOf(written)), RecordText(id, evidence));
  }

  /** No id and no evidence holds a line separator that JSON keeps as it is. */
  ghost predicate Clean(written: seq<Line>)
    requires AllSolutions(written)
  {
    forall i :: 0 <= i < |written| ==> !HasSeparator(written[i].id) && !HasSeparator(written[i].evidence)
  }

  lemma RecordShape(id: string, evidence: string)
    ensures RecordOk(RecordPieces(id, evidence)) && !BlankText(RecordText(id, evidence))
    ensures CleanPieces(RecordPieces(id, evidence)) <==> !HasSeparator(id) && !HasSeparator(evidence)
  {
    var parts := [Member("evidence", [Quoted(evidence)]), Member("problem_id", [Quoted(id)])];
    StringShape(id);
    StringShape(evidence);
    MemberShape("evidence", [Quoted(evidence)]);
    MemberShape("problem_id", [Quoted(id)]);
    EnclosedShape("{", parts, "}");
    assert RecordText(id, evidence)[0] == '{' by {
      hide Separated;
    }
    hide HasSeparator, Member, RecordOk;
    assert AllClean(parts) <==> CleanPieces(parts[0]) && CleanPieces(parts[1]);
  }

  /** What the printer and the decoder make of a list of solutions. */
  lemma RecordsShape(decode: string -> Option<(string, string)>, written: seq<Line>)
    requires Faithful(decode) && AllSolutions(written)
    ensures var records := RecordsOf(written);
      && (forall i :: 0 <= i < |records| ==> RecordOk(records[i]))
      && (AllClean(records) <==> Clean(written))
      && forall i :: 0 <= i < |records| ==> Reader(decode)(TextsOf(records)[i]) == written[i]
  {
    var records := RecordsOf(written);
    forall i | 0 <= i < |records|
      ensures RecordOk(records[i]) && ReadLine(decode, TextsOf(records)[i]) == written[i]
      ensures CleanPieces(records[i]) <==> !HasSeparator(written[i].id) && !HasSeparator(written[i].evidence)
    {
      RecordShape(written[i].id, written[i].evidence);
      assert TextOf(records[i]) == RecordText(written[i].id, written[i].evidence);
    }
    hide RecordOk, CleanPieces, HasSeparator, ReadLine, TextOf, Faithful, RecordPieces;
  }

  /** A text that ends inside a string has a quote, so it is not blank. */
  lemma TornDoesNotLoad(decode: string -> Option<(string, string)>)
    requires Faithful(decode)
    ensures RefusesTorn(Reader(decode), Broken)
  {
    forall text | !Closed(text) ensures ReadLine(decode, text) == Broken {
      if BlankText(text) {
        StaysOutside(text);
      }
    }
  }

  /** Solutions written behind complete lines that load: the file loads again, and then to those lines and these
      solutions, exactly when no id and no evidence written holds one of the three separators. */
  lemma ReloadsIff(decode: string -> Option<(string, string)>, start: string, written: seq<Line>)
    requires Faithful(decode) && EndsLine(start) && Loads(Reads(decode, start)) && AllSolutions(written) && Loads(written)
    ensures Loads(Reads(decode, start + WrittenText(written))) <==> Clean(written)
    ensures Clean(written) ==> Reads(decode, start + WrittenText(written)) == Reads(decode, start) + written
    ensures EndsLine(start + WrittenText(written))
  {
    var records := RecordsOf(written);
    RecordsShape(decode, written);
    TornDoesNotLoad(decode);
    NothingBroken(Reads(decode, start));
    NothingBroken(written);
    hide Faithful, RecordOk, ReadLine, RefusesTorn, TextsOf, FileOf, EndsLine, AllClean, Clean;
    ReadsBackIff(Reader(decode), Broken, start, records, written);
    hide ReadFile, Reader;
    if Clean(written) {
      LoadsAppend(Reads(decode, start), written);
    } else {
      assert !Loads(Reads(decode, start + WrittenText(written)));
    }
  }

  lemma NothingBroken(lines: seq<Line>)
    requires Loads(lines)
    ensures Broken !in lines
  {
  }

  lemma LoadsAppend(a: seq<Line>, b: seq<Line>)
    requires Loads(a) && Loads(b)
    ensures Loads(a + b)
  {
  }

  /** A solution whose evidence holds U+2028: it is stored, and the file it is written to does not load any more. */
  lemma SeparatorBreaksJournal(decode: string -> Option<(string, string)>)
    requires Faithful(decode)
    ensures var written := [Solution("p", "a\U{2028}b")];
      Loads(written) && !Loads(Reads(decode, WrittenText(written)))
  {
    var written := [Solution("p", "a\U{2028}b")];
    assert Separator(written[0].evidence[1]);
    ReloadsIff(decode, "", written);
    assert "" + WrittenText(written) == WrittenText(written);
  }

  // ---------------------------------------------------------------- a decoder as asked for

  /** Accepts two strings behind these texts and before that one, and nothing else; the second comes first. */
  function DecodeTwo(before: string, between: string, after: string, text: string): Option<(string, string)> {
    if !(before <= text) then None
    else
      match ReadString(text[|before|..])
      case None => None
      case Some((evidence, rest)) =>
        if !(between <= rest) then None
        else
          match ReadString(rest[|between|..])
          case None => None
          case Some((id, end)) => if end == after then Some((id, evidence)) else None
  }

  lemma DecodesTwo(before: string, between: string, after: string, id: string, evidence: string)
    ensures DecodeTwo(before, between, after, TwoText(before, between, after, id, evidence)) == Some((id, evidence))
  {
    var rest := between + (Escape(id) + ("\"" + after));
    ReadEscaped(evidence, rest);
    ReadEscaped(id, after);
    hide Escape, ReadString;
    assert (before + (Escape(evidence) + ("\"" + rest)))[|before|..] == Escape(evidence) + ("\"" + rest);
    assert rest[|between|..] == Escape(id) + ("\"" + after);
  }

  function TwoText(before: string, between: string, after: string, id: string, evidence: string): string {
    before + (Escape(evidence) + ("\"" + (between + (Escape(id) + ("\"" + after)))))
  }

  lemma DecodedTwoCloses(before: string, between: string, after: string, text: string)
    requires Scan(Outside, before) == Inside && Scan(Outside, between) == Inside && Closed(after)
    requires DecodeTwo(before, between, after, text).Some?
    ensures Closed(text)
  {
    hide ReadString, Scan;
    var first := text[|before|..];
    var rest := ReadString(first).value.1;
    var second := rest[|between|..];
    assert text == before + first && rest == between + second;
    ScanAppend(Outside, before, first);
    ReadStringCloses(first);
    ScanAppend(Outside, between, second);
    ReadStringCloses(second);
  }

  /** The text of a record of two strings, taken apart. */
  lemma TextAround(head: seq<Piece>, middle: seq<Piece>, tail: seq<Piece>, id: string, evidence: string)
    ensures TextOf(head + ([Quoted(evidence)] + (middle + ([Quoted(id)] + tail))))
         == TwoText(TextOf(head) + "\"", TextOf(middle) + "\"", TextOf(tail), id, evidence)
  {
    var e, i := Quoted(evidence), Quoted(id);
    TextAppend(head, [e] + (middle + ([i] + tail)));
    TextAppend([e], middle + ([i] + tail));
    TextAppend(middle, [i] + tail);
    TextAppend([i], tail);
    assert TextOf([e]) == PieceText(e) + TextOf([e][1..]) && TextOf([i]) == PieceText(i) + TextOf([i][1..]);
    hide Escape, TextOf;
    Regroup(TextOf(head), Escape(evidence), TextOf(middle), Escape(id), TextOf(tail));
  }

  lemma Regroup(h: string, e: string, m: string, i: string, t: string)
    ensures h + (("\"" + e + "\"") + (m + (("\"" + i + "\"") + t))) == (h + "\"") + (e + ("\"" + ((m + "\"") + (i + ("\"" + t)))))
  {
  }

  const BEFORE_EVIDENCE: seq<Piece> := [Plain("{"), Quoted("evidence"), Plain(": ")]
  const BEFORE_ID: seq<Piece> := [Plain(", "), Quoted("problem_id"), Plain(": ")]
  const AFTER_ID: seq<Piece> := [Plain("}")]

  /** Reads the printed form of a record. */
  function StrictDecode(text: string): Option<(string, string)> {
    DecodeTwo(TextOf(BEFORE_EVIDENCE) + "\"", TextOf(BEFORE_ID) + "\"", TextOf(AFTER_ID), text)
  }

  lemma RecordAround(id: string, evidence: string)
    ensures RecordPieces(id, evidence) == BEFORE_EVIDENCE + ([Quoted(evidence)] + (BEFORE_ID + ([Quoted(id)] + AFTER_ID)))
  {
    var parts := [Member("evidence", [Quoted(evidence)]), Member("problem_id", [Quoted(id)])];
    assert parts[1..] == [parts[1]];
    assert Separated(parts) == parts[0] + ([Plain(", ")] + parts[1]);
  }

  /** So what is asked of a decoder can be had. */
  lemma StrictIsFaithful()
    ensures Faithful(StrictDecode)
  {
    hide TextOf, DecodeTwo, TwoText;
    forall id, evidence ensures StrictDecode(RecordText(id, evidence)) == Some((id, evidence)) {
      RecordAround(id, evidence);
      TextAround(BEFORE_EVIDENCE, BEFORE_ID, AFTER_ID, id, evidence);
      DecodesTwo(TextOf(BEFORE_EVIDENCE) + "\"", TextOf(BEFORE_ID) + "\"", TextOf(AFTER_ID), id, evidence);
    }
    TextScan(AFTER_ID);
    OpensString(BEFORE_EVIDENCE);
    OpensString(BEFORE_ID);
    forall text | StrictDecode(text).Some? ensures Closed(text) {
      DecodedTwoCloses(TextOf(BEFORE_EVIDENCE) + "\"", TextOf(BEFORE_ID) + "\"", TextOf(AFTER_ID), text);
    }
  }

  lemma OpensString(ps: seq<Piece>)
    requires PiecesOk(ps)
    ensures Scan(Outside, TextOf(ps) + "\"") == Inside
  {
    TextScan(ps);
    ScanAppend(Outside, TextOf(ps), "\"");
    ScanOne(Outside, '\"');
  }

  // ---------------------------------------------------------------- the ledger

  lemma {:induction false} ReplayNonEmpty(lines: seq<Line>, id: string)
    requires Loads(lines) && id in Replay(lines)
    ensures id != "" && Replay(lines)[id] != ""
  {
    ReplayIsLast(lines, id);
    var at: nat :| LastAbout(lines, id, at);
  }

  /** `_load` and `_parse_line`. */
  method Load(decode: string -> Option<(string, string)>, file: string) returns (r: Result<map<string, string>>)
    ensures r.Ok? <==> Loads(Reads(decode, file))
    ensures r.Ok? ==> r.value == Replay(Reads(decode, file))
  {
    hide SplitLines;
    var lines := Reads(decode, file);
    var solved: map<string, string> := map[];
    for i := 0 to |lines|
      invariant Loads(lines[..i]) && solved == Replay(lines[..i])
    {
      assert lines[..i + 1] == lines[..i] + [lines[i]];
      ReplayAppend(lines[..i], lines[i]);
      match lines[i]
      case Blank =>
      case Broken => return ValueError;
      case Solution(id, evidence) =>
        if id == "" || evidence == "" {
          return ValueError;
        }
        solved := solved[id := evidence];
    }
    assert lines[..|lines|] == lines;
    return Ok(solved);
  }

  /** What was found and what was written make up the file, all of it loads, and lines read and records written replay
      to what is in memory. */
  ghost predicate Recorded(decode: string -> Option<(string, string)>, start: string, written: seq<Line>, file: string,
                           solved: map<string, string>)
  {
    && AllSolutions(written) && Loads(written) && Loads(Reads(decode, start))
    && file == start + WrittenText(written) && solved == Replay(Reads(decode, start) + written)
  }

  lemma RecordMore(decode: string -> Option<(string, string)>, start: string, written: seq<Line>, file: string,
                   solved: map<string, string>, id: string, evidence: string)
    requires Recorded(decode, start, written, file, solved) && id != "" && evidence != "" && id !in solved
    ensures var more := written + [Solution(id, evidence)];
      && Recorded(decode, start, more, file + (RecordText(id, evidence) + "\n"), solved[id := evidence])
      && (Once(Reads(decode, start) + written) ==> Once(Reads(decode, start) + more))
  {
    var lines, line := Reads(decode, start), Solution(id, evidence);
    WrittenAppend(written, id, evidence);
    ReplayAppend(lines + written, line);
    NewLineOnce(lines + written, id, evidence);
    hide Reads, WrittenText, RecordText, Once, AllSolutions;
    AppendAssociative(lines, written, [line]);
    AppendAssociative(start, WrittenText(written), RecordText(id, evidence) + "\n");
  }

  class ProgressLedger {
    const decode: string -> Option<(string, string)>
    const hasFile: bool
    var solved: map<string, string>
    var file: string
    /** The file as this session found it, and the solutions it has added since. */
    ghost const start: string
    ghost var written: seq<Line>

    /** The lines this session has read and the records it has written. */
    ghost function Journal(): seq<Line>
      reads this
    {
      Reads(decode, start) + written
    }

    /** Lines read and records written replay to memory. What the next session makes of them is said at `NextSession`. */
    ghost predicate Valid()
      reads this
    {
      && "" !in solved
      && (hasFile ==> Recorded(decode, start, written, file, solved))
      && (!hasFile ==> file == start == "" && written == [])
    }

    constructor (decode: string -> Option<(string, string)>, hasFile: bool, file: string)
      requires hasFile ==> Loads(Reads(decode, file))
      ensures Valid() && this.decode == decode && this.hasFile == hasFile && written == []
      ensures hasFile ==> this.file == start == file && solved == Replay(Reads(decode, file))
      ensures !hasFile ==> solved == map[]
    {
      this.decode, this.hasFile := decode, hasFile;
      solved, written := map[], [];
      this.file, start := if hasFile then file else "", if hasFile then file else "";
      new;
      if hasFile {
        var loaded := Load(decode, file);
        solved := loaded.value;
        if "" in solved {
          ReplayNonEmpty(Reads(decode, file), "");
        }
        assert Reads(decode, file) + [] == Reads(decode, file);
        assert this.file + WrittenText([]) == this.file;
      }
    }

    /** `__init__` with or without a file: a journal that does not load raises. */
    static method OpenLedger(decode: string -> Option<(string, string)>, hasFile: bool, file: string)
      returns (r: Result<ProgressLedger>)
      ensures r.ValueError? <==> hasFile && !Loads(Reads(decode, file))
      ensures r.Ok? ==> fresh(r.value) && r.value.Valid()
      ensures r.Ok? ==> r.value.decode == decode && r.value.hasFile == hasFile && r.value.written == []
      ensures r.Ok? && hasFile ==> r.value.file == r.value.start == file
      ensures r.Ok? ==> r.value.solved == if hasFile then Replay(Reads(decode, file)) else map[]
    {
      if hasFile {
        var loaded := Load(decode, file);
        if loaded.ValueError? {
          return ValueError;
        }
      }
      var ledger := new ProgressLedger(decode, hasFile, file);
      return Ok(ledger);
    }

    /** `mark_solved`: the first evidence of a problem stays; only a first solution is journaled. */
    method MarkSolved(id: string, evidence: string) returns (r: Result<bool>)
      requires Valid()
      modifies this
      ensures Valid()
      ensures r.ValueError? <==> id == "" || evidence == ""
      ensures r.Ok? ==> (r.value <==> id !in old(solved))
      ensures solved == if r == Ok(true) then old(solved)[id := evidence] else old(solved)
      ensures file == if r == Ok(true) && hasFile then old(file) + (RecordText(id, evidence) + "\n") else old(file)
      ensures written == if r == Ok(true) && hasFile then old(written) + [Solution(id, evidence)] else old(written)
      ensures old(Once(Journal())) ==> Once(Journal())
    {
      hide Recorded, Reads, Once, RecordText;
      if id == "" || evidence == "" {
        return ValueError;
      }
      if id in solved {
        return Ok(false);
      }
      if hasFile {
        RecordMore(decode, start, written, file, solved, id, evidence);
        file := file + (RecordText(id, evidence) + "\n");
        written := written + [Solution(id, evidence)];
      }
      solved := solved[id := evidence];
      return Ok(true);
    }
  }

  /** The next session on the file of this one: it opens exactly when no id or evidence written holds a separator, then
      with everything solved so far, and the same can be said of the session after it. */
  method NextSession(ledger: ProgressLedger) returns (r: Result<ProgressLedger>)
    requires ledger.Valid() && ledger.hasFile && Faithful(ledger.decode) && EndsLine(ledger.start)
    ensures r.Ok? <==> Clean(ledger.written)
    ensures r.Ok? ==> fresh(r.value) && r.value.Valid() && r.value.hasFile && r.value.solved == ledger.solved
    ensures r.Ok? ==> r.value.decode == ledger.decode && r.value.start == ledger.file && EndsLine(r.value.start)
    ensures r.Ok? ==> r.value.Journal() == ledger.Journal()
  {
    ReloadsIff(ledger.decode, ledger.start, ledger.written);
    r := ProgressLedger.OpenLedger(ledger.decode, true, ledger.file);
    if r.Ok? {
      assert r.value.Journal() == Reads(ledger.decode, ledger.file);
    }
  }

  lemma NewLineOnce(lines: seq<Line>, id: string, evidence: string)
    requires id !in Replay(lines)
    ensures Once(lines) ==> Once(lines + [Solution(id, evidence)])
  {
    if Once(lines) {
      forall i | 0 <= i < |lines| && lines[i].Solution? ensures lines[i].id != id {
        OnceKeepsEvery(lines, i);
      }
    }
  }
}
