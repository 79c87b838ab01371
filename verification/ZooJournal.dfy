/** The zoo's journal as text: what a record is printed as, what the next session reads, and when it reads the same. */
module ZooJournal {

  import opened Basics
  import opened FactorDsl
  import opened Formula
  import opened TopSelection
  import opened AlphaZoo
  import opened MiningHooks
  import opened JournalText

  // ---------------------------------------------------------------- printing

  /** JSON text of a value; `show` prints a finite number. */
  function JsonPieces(show: real -> string, j: Json): seq<Piece>
    decreases j, 1
  {
    match j
    case JNull => [Plain("null")]
    case JBool(b) => [Plain(if b then "true" else "false")]
    case JInt(n) => [Plain(IntText(n))]
    case JReal(r) => [Plain(show(r))]
    case JInfinite => [Plain("Infinity")]
    case JNaN => [Plain("NaN")]
    case JStr(s) => [Quoted(s)]
    case JList(items) => Enclosed("[", ItemPieces(show, items), "]")
    case JObj(field, op, children, window) =>
      Enclosed("{", MemberPieces(show, "field", field) + MemberPieces(show, "op", op)
                    + MemberPieces(show, "children", children) + MemberPieces(show, "window", window), "}")
  }

  function ItemPieces(show: real -> string, items: seq<Json>): seq<seq<Piece>>
    decreases items, 0
  {
    if items == [] then [] else [JsonPieces(show, items[0])] + ItemPieces(show, items[1..])
  }

  function MemberPieces(show: real -> string, key: string, value: Option<Json>): seq<seq<Piece>>
    decreases value, 0
  {
    if value.None? then [] else [Member(key, JsonPieces(show, value.value))]
  }

  function FamilyName(f: FactorFamily): string {
    match f
    case Trend => "trend"
    case MeanReversion => "mean_reversion"
    case Volatility => "volatility"
    case Range => "range"
    case LiquidityVolume => "liquidity_volume"
    case PriceVolume => "price_volume"
    case Other => "other"
  }

  /** The object `_append` prints. */
  function RecordPieces(show: real -> string, r: Record): seq<Piece> {
    Enclosed("{", RecordMembers(show, r), "}")
  }

  function RecordMembers(show: real -> string, r: Record): seq<seq<Piece>> {
    match r
    case FailureRecord(mode, formula) =>
      [Member("kind", [Quoted("failure")]), Member("mode", [Quoted(mode)]), Member("formula", [Quoted(formula)])]
    case FactorRecord(entry) =>
      [Member("kind", [Quoted("factor")]), Member("formula", [Quoted(entry.formula)]), Member("tree", JsonPieces(show, entry.tree)),
       Member("family", [Quoted(FamilyName(entry.family))]), Member("score", [Plain(show(entry.score))]),
       Member("rank_ic", [Plain(show(entry.rankIc))]), Member("round_index", [Plain(IntText(entry.roundIndex))])]
  }

  /** Numbers are printed without quotes and on one line. */
  ghost predicate ShowOk(show: real -> string) {
    forall r :: PlainOk(show(r))
  }

  // ---------------------------------------------------------------- which records are clean

  /** No string in the value holds a line separator that JSON keeps as it is. */
  predicate CleanJson(j: Json)
    decreases j
  {
    match j
    case JStr(s) => !HasSeparator(s)
    case JList(items) => forall c | c in items :: CleanJson(c)
    case JObj(field, op, children, window) =>
      && (field.Some? ==> CleanJson(field.value)) && (op.Some? ==> CleanJson(op.value))
      && (children.Some? ==> CleanJson(children.value)) && (window.Some? ==> CleanJson(window.value))
    case _ => true
  }

  /** No string in the record does. */
  predicate CleanRecord(r: Record) {
    match r
    case FailureRecord(mode, formula) => !HasSeparator(mode) && !HasSeparator(formula)
    case FactorRecord(entry) => !HasSeparator(entry.formula) && CleanJson(entry.tree)
  }

  predicate Ascii(text: string) {
    forall i :: 0 <= i < |text| ==> text[i] < '\U{80}'
  }

  lemma AsciiClean(text: string)
    requires Ascii(text)
    ensures !HasSeparator(text)
  {
  }

  lemma NameShape(name: string)
    requires IsName(name)
    ensures Ascii(name) && PlainOk(name) && !HasSeparator(name)
  {
    forall i | 0 <= i < |name| ensures NameChar(name[i]) {
      assert name[i] in name;
    }
  }

  lemma NumberShape(n: int)
    ensures PlainOk(IntText(n)) && Ascii(IntText(n))
  {
    NameShape(Digits(if n < 0 then -n else n));
  }

  /** A part and what is asked of it: printable, and clean exactly when `clean`. */
  ghost predicate Shaped(ps: seq<Piece>, clean: bool) {
    PiecesOk(ps) && (CleanPieces(ps) <==> clean)
  }

  lemma {:induction false} JsonShape(show: real -> string, j: Json)
    requires ShowOk(show)
    ensures Shaped(JsonPieces(show, j), CleanJson(j))
    decreases j, 1
  {
    match j
    case JNull => PunctuationShape("null");
    case JBool(b) => PunctuationShape(if b then "true" else "false");
    case JInt(n) =>
      NumberShape(n);
      PunctuationShape(IntText(n));
    case JReal(r) => PunctuationShape(show(r));
    case JInfinite => PunctuationShape("Infinity");
    case JNaN => PunctuationShape("NaN");
    case JStr(s) => StringShape(s);
    case JList(items) =>
      ItemsShape(show, items);
      EnclosedShape("[", ItemPieces(show, items), "]");
    case JObj(field, op, children, window) =>
      MemberOf(show, "field", field);
      MemberOf(show, "op", op);
      MemberOf(show, "children", children);
      MemberOf(show, "window", window);
      FourParts(MemberPieces(show, "field", field), MemberPieces(show, "op", op),
                MemberPieces(show, "children", children), MemberPieces(show, "window", window));
  }

  lemma PartsAppend(a: seq<seq<Piece>>, b: seq<seq<Piece>>)
    ensures AllOk(a + b) <==> AllOk(a) && AllOk(b)
    ensures AllClean(a + b) <==> AllClean(a) && AllClean(b)
  {
    hide PiecesOk, CleanPieces;
    assert forall i :: 0 <= i < |a| ==> (a + b)[i] == a[i];
    assert forall i :: 0 <= i < |b| ==> (a + b)[|a| + i] == b[i];
  }

  lemma FourParts(a: seq<seq<Piece>>, b: seq<seq<Piece>>, c: seq<seq<Piece>>, d: seq<seq<Piece>>)
    requires AllOk(a) && AllOk(b) && AllOk(c) && AllOk(d)
    ensures Shaped(Enclosed("{", a + b + c + d, "}"), AllClean(a) && AllClean(b) && AllClean(c) && AllClean(d))
  {
    hide AllOk, AllClean, PiecesOk, CleanPieces;
    PartsAppend(a, b);
    PartsAppend(a + b, c);
    PartsAppend(a + b + c, d);
    EnclosedShape("{", a + b + c + d, "}");
  }

  lemma CleanFirst(items: seq<Json>)
    requires items != []
    ensures (forall c | c in items :: CleanJson(c)) <==> CleanJson(items[0]) && forall c | c in items[1..] :: CleanJson(c)
  {
    hide CleanJson;
    assert forall c :: c in items <==> c == items[0] || c in items[1..];
  }

  lemma {:induction false} ItemsShape(show: real -> string, items: seq<Json>)
    requires ShowOk(show)
    ensures AllOk(ItemPieces(show, items)) && (AllClean(ItemPieces(show, items)) <==> forall c | c in items :: CleanJson(c))
    decreases items, 0
  {
    if items != [] {
      JsonShape(show, items[0]);
      ItemsShape(show, items[1..]);
      AllFirst(ItemPieces(show, items));
      assert ItemPieces(show, items)[1..] == ItemPieces(show, items[1..]);
      hide JsonPieces, PiecesOk, CleanPieces, AllOk, AllClean;
      CleanFirst(items);
    }
  }

  lemma {:induction false} MemberOf(show: real -> string, key: string, value: Option<Json>)
    requires ShowOk(show) && key in ["field", "op", "children", "window"]
    ensures AllOk(MemberPieces(show, key, value))
    ensures AllClean(MemberPieces(show, key, value)) <==> (value.Some? ==> CleanJson(value.value))
    decreases value, 0
  {
    if value.Some? {
      JsonShape(show, value.value);
      AsciiClean(key);
      MemberShape(key, JsonPieces(show, value.value));
      AllFirst(MemberPieces(show, key, value));
    }
  }

  lemma KeysAscii()
    ensures Ascii("kind") && Ascii("mode") && Ascii("formula") && Ascii("tree") && Ascii("family") && Ascii("score")
    ensures Ascii("rank_ic") && Ascii("round_index") && Ascii("failure") && Ascii("factor")
  {
  }

  lemma FamilyAscii(f: FactorFamily)
    ensures Ascii(FamilyName(f))
  {
  }

  ghost predicate AllShaped(parts: seq<seq<Piece>>, clean: bool) {
    AllOk(parts) && (AllClean(parts) <==> clean)
  }

  /** One more part in front of those from k + 1 on. */
  lemma PartShaped(parts: seq<seq<Piece>>, k: nat, clean: bool, rest: bool)
    requires k < |parts| && Shaped(parts[k], clean) && AllShaped(parts[k + 1..], rest)
    ensures AllShaped(parts[k..], clean && rest)
  {
    AllFirst(parts[k..]);
    assert parts[k..][1..] == parts[k + 1..];
  }

  lemma MemberShaped(key: string, value: seq<Piece>, clean: bool)
    requires Shaped(value, clean) && Ascii(key)
    ensures Shaped(Member(key, value), clean)
  {
    AsciiClean(key);
    MemberShape(key, value);
  }

  lemma StringMember(key: string, content: string)
    requires Ascii(key)
    ensures Shaped(Member(key, [Quoted(content)]), !HasSeparator(content))
  {
    StringShape(content);
    MemberShaped(key, [Quoted(content)], !HasSeparator(content));
  }

  lemma PlainMember(key: string, text: string)
    requires Ascii(key) && PlainOk(text)
    ensures Shaped(Member(key, [Plain(text)]), true)
  {
    PunctuationShape(text);
    MemberShaped(key, [Plain(text)], true);
  }

  lemma FailureShape(show: real -> string, mode: string, formula: string)
    ensures AllShaped(RecordMembers(show, FailureRecord(mode, formula)), !HasSeparator(mode) && !HasSeparator(formula))
  {
    var parts := RecordMembers(show, FailureRecord(mode, formula));
    KeysAscii();
    hide Ascii, HasSeparator, Member;
    AsciiClean("failure");
    StringMember("kind", "failure");
    StringMember("mode", mode);
    StringMember("formula", formula);
    assert AllShaped(parts[3..], true);
    hide Shaped, AllShaped;
    PartShaped(parts, 2, !HasSeparator(formula), true);
    PartShaped(parts, 1, !HasSeparator(mode), !HasSeparator(formula));
    PartShaped(parts, 0, true, !HasSeparator(mode) && !HasSeparator(formula));
    assert parts[0..] == parts;
  }

  lemma NumbersShape(show: real -> string, entry: ZooEntry)
    requires ShowOk(show)
    ensures AllShaped(RecordMembers(show, FactorRecord(entry))[4..], true)
  {
    var parts := RecordMembers(show, FactorRecord(entry));
    KeysAscii();
    NumberShape(entry.roundIndex);
    hide Ascii, Member, IntText, JsonPieces, FamilyName;
    PlainMember("score", show(entry.score));
    PlainMember("rank_ic", show(entry.rankIc));
    PlainMember("round_index", IntText(entry.roundIndex));
    assert AllShaped(parts[7..], true);
    hide Shaped, AllShaped;
    PartShaped(parts, 6, true, true);
    PartShaped(parts, 5, true, true);
    PartShaped(parts, 4, true, true);
  }

  lemma FactorShape(show: real -> string, entry: ZooEntry)
    requires ShowOk(show)
    ensures AllShaped(RecordMembers(show, FactorRecord(entry)), !HasSeparator(entry.formula) && CleanJson(entry.tree))
  {
    var parts := RecordMembers(show, FactorRecord(entry));
    var cleanFormula, cleanTree := !HasSeparator(entry.formula), CleanJson(entry.tree);
    KeysAscii();
    FamilyAscii(entry.family);
    hide Ascii, HasSeparator, Member, CleanJson, JsonPieces, FamilyName, IntText;
    AsciiClean("factor");
    AsciiClean(FamilyName(entry.family));
    StringMember("kind", "factor");
    StringMember("formula", entry.formula);
    JsonShape(show, entry.tree);
    MemberShaped("tree", JsonPieces(show, entry.tree), cleanTree);
    StringMember("family", FamilyName(entry.family));
    NumbersShape(show, entry);
    hide Shaped, AllShaped;
    PartShaped(parts, 3, true, true);
    PartShaped(parts, 2, cleanTree, true);
    PartShaped(parts, 1, cleanFormula, cleanTree);
    PartShaped(parts, 0, true, cleanFormula && cleanTree);
    assert parts[0..] == parts;
  }

  /** A printed record is an object, and clean exactly when the record is. */
  lemma RecordShape(show: real -> string, r: Record)
    requires ShowOk(show)
    ensures RecordOk(RecordPieces(show, r)) && (CleanPieces(RecordPieces(show, r)) <==> CleanRecord(r))
  {
    match r {
      case FailureRecord(mode, formula) => FailureShape(show, mode, formula);
      case FactorRecord(entry) => FactorShape(show, entry);
    }
    hide RecordMembers, HasSeparator, CleanJson, AllOk, AllClean, RecordOk, CleanPieces;
    EnclosedShape("{", RecordMembers(show, r), "}");
  }

  // ---------------------------------------------------------------- reading

  /** A line of the journal as `_load` sees it. */
  datatype Line = Blank | Broken | Recorded(record: Record)

  /** A line that is not blank goes to a decoder, which answers None where `json.loads` or `_ingest` raises. */
  function ReadLine(decode: string -> Option<Record>, text: string): Line {
    if BlankText(text) then Blank
    else
      match decode(text)
      case None => Broken
      case Some(record) => Recorded(record)
  }

  function Reader(decode: string -> Option<Record>): string -> Line {
    text => ReadLine(decode, text)
  }

  function Reads(decode: string -> Option<Record>, file: string): seq<Line> {
    ReadFile(Reader(decode), file)
  }

  function RecordsIn(lines: seq<Line>): seq<Record> {
    if lines == [] then []
    else RecordsIn(lines[..|lines| - 1]) + if lines[|lines| - 1].Recorded? then [lines[|lines| - 1].record] else []
  }

  /** The journal a file holds, unless a line in it is broken. */
  function JournalIn(decode: string -> Option<Record>, file: string): Option<seq<Record>> {
    if Broken in Reads(decode, file) then None else Some(RecordsIn(Reads(decode, file)))
  }

  /** The text these records add to the file. */
  function WrittenText(show: real -> string, written: seq<Record>): string {
    FileOf(TextsOf(PrintedRecords(show, written)))
  }

  function PrintedRecords(show: real -> string, written: seq<Record>): (r: seq<seq<Piece>>)
    ensures |r| == |written| && forall i :: 0 <= i < |r| ==> r[i] == RecordPieces(show, written[i])
  {
    seq(|written|, i requires 0 <= i < |written| => RecordPieces(show, written[i]))
  }

  /** What is asked of printer and decoder: numbers are plain, these records are read back, and a text that ends inside a
      string is no record. */
  ghost predicate Faithful(show: real -> string, decode: string -> Option<Record>, written: seq<Record>) {
    && ShowOk(show)
    && (forall r | r in written :: decode(TextOf(RecordPieces(show, r))) == Some(r))
    && (forall text :: !Closed(text) ==> decode(text) == None)
  }

  ghost predicate Clean(written: seq<Record>) {
    forall i :: 0 <= i < |written| ==> CleanRecord(written[i])
  }

  function LinesOf(written: seq<Record>): (r: seq<Line>)
    ensures |r| == |written| && forall i :: 0 <= i < |r| ==> r[i] == Recorded(written[i])
  {
    seq(|written|, i requires 0 <= i < |written| => Recorded(written[i]))
  }

  lemma {:induction false} RecordsAppended(lines: seq<Line>, written: seq<Record>)
    ensures RecordsIn(lines + LinesOf(written)) == RecordsIn(lines) + written
  {
    if written == [] {
      assert lines + LinesOf(written) == lines;
    } else {
      var n := |written| - 1;
      var all := lines + LinesOf(written);
      RecordsAppended(lines, written[..n]);
      assert all[..|all| - 1] == lines + LinesOf(written[..n]);
      assert written == written[..n] + [written[n]];
    }
  }

  lemma RecordsShape(show: real -> string, decode: string -> Option<Record>, written: seq<Record>)
    requires Faithful(show, decode, written)
    ensures var records := PrintedRecords(show, written);
      && (forall i :: 0 <= i < |records| ==> RecordOk(records[i]))
      && (AllClean(records) <==> Clean(written))
      && forall i :: 0 <= i < |records| ==> Reader(decode)(TextsOf(records)[i]) == LinesOf(written)[i]
  {
    var records := PrintedRecords(show, written);
    forall i | 0 <= i < |records|
      ensures RecordOk(records[i]) && (CleanPieces(records[i]) <==> CleanRecord(written[i]))
      ensures ReadLine(decode, TextsOf(records)[i]) == Recorded(written[i])
    {
      RecordShape(show, written[i]);
      assert written[i] in written;
      assert TextOf(records[i])[0] == '{';
    }
    hide RecordOk, CleanPieces, CleanRecord, ReadLine, TextOf, Faithful, RecordPieces;
  }

  lemma TornIsNoRecord(show: real -> string, decode: string -> Option<Record>, written: seq<Record>)
    requires Faithful(show, decode, written)
    ensures RefusesTorn(Reader(decode), Broken)
  {
    forall text | !Closed(text) ensures ReadLine(decode, text) == Broken {
      if BlankText(text) {
        StaysOutside(text);
      }
    }
  }

  /** Records written behind a journal that loads: the file loads again, and then to the old records and these, exactly
      when no string in them holds one of the three separators. */
  lemma ReloadsIff(show: real -> string, decode: string -> Option<Record>, start: string, journal: seq<Record>, written: seq<Record>)
    requires EndsLine(start) && JournalIn(decode, start) == Some(journal) && Faithful(show, decode, written)
    ensures JournalIn(decode, start + WrittenText(show, written)) == if Clean(written) then Some(journal + written) else None
    ensures EndsLine(start + WrittenText(show, written))
  {
    var records := PrintedRecords(show, written);
    RecordsShape(show, decode, written);
    TornIsNoRecord(show, decode, written);
    hide Faithful, RecordOk, ReadLine, RefusesTorn, TextsOf, FileOf, EndsLine, AllClean, Clean, PrintedRecords;
    assert Broken !in LinesOf(written);
    ReadsBackIff(Reader(decode), Broken, start, records, LinesOf(written));
    hide ReadFile, Reader, LinesOf;
    RecordsAppended(Reads(decode, start), written);
  }

  /** A decoder that knows these records: the first whose text it is. */
  function Knowing(show: real -> string, written: seq<Record>, text: string): Option<Record> {
    if written == [] then None
    else if TextOf(RecordPieces(show, written[0])) == text then Some(written[0])
    else Knowing(show, written[1..], text)
  }

  lemma {:induction false} KnowsAll(show: real -> string, written: seq<Record>, text: string)
    requires ShowOk(show)
    ensures forall r | r in written && TextOf(RecordPieces(show, r)) == text :: Knowing(show, written, text).Some?
    ensures var known := Knowing(show, written, text);
      known.Some? ==> known.value in written && TextOf(RecordPieces(show, known.value)) == text && Closed(text)
  {
    if written != [] {
      KnowsAll(show, written[1..], text);
      RecordShape(show, written[0]);
      TextScan(RecordPieces(show, written[0]));
      hide RecordPieces, TextOf;
      assert forall r :: r in written <==> r == written[0] || r in written[1..];
    }
  }

  /** What is asked of a decoder can be had for any records of which no two print alike. */
  lemma KnowingIsFaithful(show: real -> string, written: seq<Record>)
    requires ShowOk(show)
    requires forall a, b | a in written && b in written :: TextOf(RecordPieces(show, a)) == TextOf(RecordPieces(show, b)) ==> a == b
    ensures Faithful(show, text => Knowing(show, written, text), written)
  {
    hide Knowing, RecordPieces, TextOf;
    forall text ensures Knowing(show, written, text).Some? ==> Closed(text) {
      KnowsAll(show, written, text);
    }
    forall r | r in written ensures Knowing(show, written, TextOf(RecordPieces(show, r))) == Some(r) {
      KnowsAll(show, written, TextOf(RecordPieces(show, r)));
    }
  }

  /** Opening the zoo on a file: a line that is broken raises, otherwise the zoo is the replay of the records. */
  method OpenZoo(intOf: string -> Option<int>, decode: string -> Option<Record>, file: string) returns (r: Option<Zoo>)
    ensures r.None? <==> JournalIn(decode, file).None?
    ensures r.Some? ==> fresh(r.value) && r.value.Loaded() && r.value.intOf == intOf
    ensures r.Some? ==> r.value.State() == Replay(JournalIn(decode, file).value)
  {
    var lines := Reads(decode, file);
    var records := [];
    hide Reads, Replay;
    for i := 0 to |lines|
      invariant Broken !in lines[..i] && records == RecordsIn(lines[..i])
    {
      assert lines[..i + 1] == lines[..i] + [lines[i]];
      assert lines[..i + 1][..i] == lines[..i];
      match lines[i] {
        case Blank =>
        case Broken => return None;
        case Recorded(record) => records := records + [record];
      }
    }
    assert lines[..|lines|] == lines;
    var zoo := new Zoo(intOf, records);
    r := Some(zoo);
  }

  // ---------------------------------------------------------------- runs

  /** What the journal has gained. */
  function Written(s: Store, t: Store): seq<Record> {
    if |s.journal| <= |t.journal| then t.journal[|s.journal|..] else []
  }

  function RecordOf(op: Operation): Record {
    match op
    case AddEntry(entry) => FactorRecord(entry)
    case RecordFailure(mode, formula) => FailureRecord(mode, formula)
  }

  /** The journal has grown by records that satisfy the predicate. */
  ghost predicate Grown(s: Store, t: Store, p: Record -> bool) {
    s.journal <= t.journal && forall r | r in Written(s, t) :: p(r)
  }

  lemma GrownMore(s: Store, t: Store, u: Store, p: Record -> bool)
    requires Grown(s, t, p) && Grown(t, u, p)
    ensures Grown(s, u, p)
  {
    assert Written(s, u) == Written(s, t) + Written(t, u);
  }

  lemma GrownByOne(s: Store, t: Store, record: Record, p: Record -> bool)
    requires t.journal == s.journal || (t.journal == s.journal + [record] && p(record))
    ensures Grown(s, t, p)
  {
  }

  lemma {:induction false} RunGrows(intOf: string -> Option<int>, s: Store, ops: seq<Operation>, threshold: real, p: Record -> bool)
    requires AllConsistent(intOf, s.entries) && forall op :: op in ops ==> OperationOk(intOf, op) && p(RecordOf(op))
    ensures Grown(s, Run(intOf, s, ops, threshold), p)
    decreases |ops|
  {
    if ops != [] {
      assert OperationOk(intOf, ops[0]) && p(RecordOf(ops[0]));
      var t := Step(intOf, s, ops[0], threshold);
      GrownByOne(s, t, RecordOf(ops[0]), p);
      StepConsistent(intOf, s, ops[0], threshold);
      RunGrows(intOf, t, ops[1..], threshold, p);
      hide Grown, Step, Crowded, AllConsistent;
      GrownMore(s, t, Run(intOf, t, ops[1..], threshold), p);
    }
  }

  /** The file holds the journal of s, and printer and decoder fit what is written on the way to t. */
  ghost predicate OnFile(show: real -> string, decode: string -> Option<Record>, file: string, s: Store, t: Store) {
    EndsLine(file) && JournalIn(decode, file) == Some(s.journal) && Faithful(show, decode, Written(s, t))
  }

  /** With what has been written since s the file opens again, with what t has in memory. */
  ghost predicate Reopens(show: real -> string, decode: string -> Option<Record>, file: string, s: Store, t: Store) {
    var journal := JournalIn(decode, file + WrittenText(show, Written(s, t)));
    journal == Some(t.journal) && Replay(journal.value) == t
  }

  lemma ReopensIff(intOf: string -> Option<int>, s: Store, t: Store, threshold: real,
                   show: real -> string, decode: string -> Option<Record>, file: string)
    requires Sound(intOf, t, threshold) && s.journal <= t.journal && OnFile(show, decode, file, s, t)
    ensures Reopens(show, decode, file, s, t) <==> Clean(Written(s, t))
    ensures !Clean(Written(s, t)) ==> JournalIn(decode, file + WrittenText(show, Written(s, t))) == None
    ensures EndsLine(file + WrittenText(show, Written(s, t)))
  {
    hide JournalIn, WrittenText, Faithful, CleanRecord, AllConsistent, Original;
    ReloadsIff(show, decode, file, s.journal, Written(s, t));
    assert s.journal + Written(s, t) == t.journal;
  }

  /** A zoo opened from a file and used in any way: the file then opens again, with what is in memory, exactly when no
      string in the new records holds a separator; otherwise opening it raises. Clean operations write clean records. */
  lemma RunReopensIff(intOf: string -> Option<int>, s: Store, ops: seq<Operation>, threshold: real,
                      show: real -> string, decode: string -> Option<Record>, file: string)
    requires Sound(intOf, s, threshold) && forall op :: op in ops ==> OperationOk(intOf, op)
    requires OnFile(show, decode, file, s, Run(intOf, s, ops, threshold))
    ensures var t := Run(intOf, s, ops, threshold);
      && (Reopens(show, decode, file, s, t) <==> Clean(Written(s, t)))
      && (!Clean(Written(s, t)) ==> JournalIn(decode, file + WrittenText(show, Written(s, t))) == None)
      && ((forall op | op in ops :: CleanRecord(RecordOf(op))) ==> Clean(Written(s, t)))
  {
    var t := Run(intOf, s, ops, threshold);
    RunGrows(intOf, s, ops, threshold, r => true);
    if forall op | op in ops :: CleanRecord(RecordOf(op)) {
      RunGrows(intOf, s, ops, threshold, CleanRecord);
    }
    RunSound(intOf, s, ops, threshold);
    hide Run, JournalIn, WrittenText, OnFile, Reopens, CleanRecord, OperationOk, Sound;
    ReopensIff(intOf, s, t, threshold, show, decode, file);
  }

  /** A failure mode with U+2028 in it: recorded, and the journal does not open any more. */
  lemma SeparatorBreaksZoo(show: real -> string, decode: string -> Option<Record>)
    requires Faithful(show, decode, [FailureRecord("a\U{2028}b", "close")])
    ensures JournalIn(decode, WrittenText(show, [FailureRecord("a\U{2028}b", "close")])) == None
  {
    var written := [FailureRecord("a\U{2028}b", "close")];
    assert Separator(written[0].mode[1]);
    assert Reads(decode, "") == [];
    ReloadsIff(show, decode, "", [], written);
    assert "" + WrittenText(show, written) == WrittenText(show, written);
  }

  // ---------------------------------------------------------------- what the mining code writes is clean

  lemma AsciiAppend(a: string, b: string)
    requires Ascii(a) && Ascii(b)
    ensures Ascii(a + b)
  {
  }

  lemma {:induction false} RenderAscii(t: Term)
    requires WellNamed(t)
    ensures Ascii(Render(t))
    decreases t, 1
  {
    NameShape(t.name);
    if t.Call? {
      JoinAscii(t.args);
      hide Ascii;
      assert Ascii("(") && Ascii(")") by { BracketsAscii(); }
      AsciiAppend(t.name, "(");
      AsciiAppend(t.name + "(", Join(t.args));
      AsciiAppend(t.name + "(" + Join(t.args), ")");
    }
  }

  lemma BracketsAscii()
    ensures Ascii("(") && Ascii(")") && Ascii(", ") && Ascii("")
  {
  }

  lemma {:induction false} JoinAscii(ts: seq<Term>)
    requires forall t | t in ts :: WellNamed(t)
    ensures Ascii(Join(ts))
    decreases ts, 0
  {
    BracketsAscii();
    if ts != [] {
      RenderAscii(ts[0]);
      JoinAscii(ts[1..]);
      hide Ascii, Render;
      AsciiAppend(Render(ts[0]), ", ");
      AsciiAppend(Render(ts[0]) + ", ", Join(ts[1..]));
    }
  }

  lemma FormulaClean(e: Expr)
    requires Valid(e)
    ensures !HasSeparator(ToFormula(e))
  {
    FormulaIsRender(e);
    TermWellNamed(e, true);
    RenderAscii(TermOf(e, true));
    AsciiClean(ToFormula(e));
  }

  lemma {:induction false} ToDictClean(e: Expr)
    requires Valid(e)
    ensures CleanJson(ToDict(e))
    decreases e, 1
  {
    if e.op.None? {
      FieldNamesAreNames(e.field.value);
      NameShape(FieldName(e.field.value));
    } else {
      OperatorNamesAreNames(e.op.value);
      NameShape(OperatorName(e.op.value));
      ToDictsClean(e.children);
    }
  }

  lemma {:induction false} ToDictsClean(es: seq<Expr>)
    requires forall c | c in es :: Valid(c)
    ensures forall c | c in ToDicts(es) :: CleanJson(c)
    decreases es, 0
  {
    if es != [] {
      ToDictClean(es[0]);
      ToDictsClean(es[1..]);
      hide CleanJson, ToDict;
    }
  }

  /** The entry stored for a tree is clean. */
  lemma EntryClean(e: Expr, v: Verdict, round: int)
    requires Valid(e)
    ensures CleanRecord(FactorRecord(EntryFor(e, v, round)))
  {
    FormulaClean(e);
    ToDictClean(e);
  }

  /** A sound zoo whose journal has gained only clean records opens again from its file, with what is in memory. */
  lemma CleanReopens(intOf: string -> Option<int>, s: Store, t: Store, threshold: real,
                     show: real -> string, decode: string -> Option<Record>, file: string)
    requires Sound(intOf, t, threshold) && Grown(s, t, CleanRecord) && OnFile(show, decode, file, s, t)
    ensures Reopens(show, decode, file, s, t)
  {
    hide Sound, OnFile, Reopens, CleanRecord;
    ReopensIff(intOf, s, t, threshold, show, decode, file);
  }
}
