/** The text of a JSONL journal: how a record is printed, how the file is cut into lines, and when the two agree. */
module JournalText {

  import opened Basics

  // ---------------------------------------------------------------- lines

  /** The characters that end a line for `splitlines` and that JSON text keeps as they are. */
  predicate Separator(c: char) {
    c == '\U{85}' || c == '\U{2028}' || c == '\U{2029}'
  }

  /** The characters that end a line for `splitlines`. */
  predicate Boundary(c: char) {
    '\n' <= c <= '\r' || '\U{1C}' <= c <= '\U{1E}' || Separator(c)
  }

  /** What `strip` takes off: the boundaries and the other white space. */
  predicate Space(c: char) {
    || Boundary(c) || c == '\t' || c == '\U{1F}' || c == ' ' || c == '\U{A0}' || c == '\U{1680}'
    || '\U{2000}' <= c <= '\U{200A}' || c == '\U{202F}' || c == '\U{205F}' || c == '\U{3000}'
  }

  /** `not line.strip()`. */
  predicate BlankText(text: string) {
    forall i :: 0 <= i < |text| ==> Space(text[i])
  }

  predicate HasSeparator(text: string) {
    exists i :: 0 <= i < |text| && Separator(text[i])
  }

  predicate OneLine(text: string) {
    forall i :: 0 <= i < |text| ==> !Boundary(text[i])
  }

  /** Where the first line ends. */
  function Cut(text: string): (n: nat)
    ensures n <= |text| && OneLine(text[..n])
    ensures n < |text| ==> Boundary(text[n])
  {
    if text == "" || Boundary(text[0]) then 0
    else
      var n := 1 + Cut(text[1..]);
      assert text[..n] == [text[0]] + text[1..][..n - 1];
      n
  }

  /** Where the next one begins: a carriage return and a newline end a line together. */
  function NextLine(text: string): (n: nat)
    requires Cut(text) < |text|
    ensures Cut(text) < n <= |text|
  {
    var n := Cut(text);
    if text[n] == '\r' && n + 1 < |text| && text[n + 1] == '\n' then n + 2 else n + 1
  }

  /** `text.splitlines()`. */
  function SplitLines(text: string): seq<string>
    decreases |text|
  {
    if text == "" then []
    else if Cut(text) == |text| then [text]
    else [text[..Cut(text)]] + SplitLines(text[NextLine(text)..])
  }

  /** What appending the lines one after the other leaves in an empty file. */
  function FileOf(lines: seq<string>): string {
    if lines == [] then "" else lines[0] + "\n" + FileOf(lines[1..])
  }

  lemma {:induction false} FileAppend(lines: seq<string>, line: string)
    ensures FileOf(lines + [line]) == FileOf(lines) + (line + "\n")
  {
    if lines != [] {
      FileAppend(lines[1..], line);
      assert (lines + [line])[1..] == lines[1..] + [line];
      assert (lines + [line])[0] == lines[0];
    } else {
      assert ([] + [line])[1..] == [];
    }
  }

  /** The text is empty or its last line is complete. */
  predicate EndsLine(text: string) {
    text == "" || Boundary(text[|text| - 1])
  }

  lemma {:induction false} CutAppend(a: string, b: string)
    ensures Cut(a) < |a| ==> Cut(a + b) == Cut(a)
    ensures OneLine(a) ==> Cut(a + b) == |a| + Cut(b)
  {
    if a == "" {
      assert a + b == b;
    } else {
      CutAppend(a[1..], b);
      assert (a + b)[1..] == a[1..] + b && (a + b)[0] == a[0];
    }
  }

  lemma CompleteIsCut(base: string)
    requires base != "" && EndsLine(base)
    ensures Cut(base) < |base|
  {
    assert base[..|base|] == base;
  }

  /** What follows complete lines does not change how the first of them is cut. */
  lemma FirstOfMany(base: string, more: string)
    requires base != "" && EndsLine(base) && (more == "" || more[0] != '\n')
    ensures Cut(base) < |base| && Cut(base + more) == Cut(base) && NextLine(base + more) == NextLine(base)
    ensures EndsLine(base[NextLine(base)..])
  {
    hide Cut, Boundary, OneLine;
    CompleteIsCut(base);
    CutAppend(base, more);
    var n := Cut(base);
    assert (base + more)[n] == base[n];
    if n + 1 < |base| {
      assert (base + more)[n + 1] == base[n + 1];
    } else if more != "" {
      assert (base + more)[n + 1] == more[0];
    }
  }

  lemma SplitStep(text: string)
    requires text != "" && Cut(text) < |text|
    ensures SplitLines(text) == [text[..Cut(text)]] + SplitLines(text[NextLine(text)..])
  {
  }

  lemma DropAppend<T>(a: seq<T>, b: seq<T>, c: nat, n: nat)
    requires c <= n <= |a|
    ensures (a + b)[..c] == a[..c] && (a + b)[n..] == a[n..] + b
  {
  }

  /** Complete lines and what follows them are split apart from each other. */
  lemma {:induction false} SplitAppend(base: string, more: string)
    requires EndsLine(base) && (more == "" || more[0] != '\n')
    ensures SplitLines(base + more) == SplitLines(base) + SplitLines(more)
    decreases |base|
  {
    if base == "" {
      assert base + more == more;
    } else {
      FirstOfMany(base, more);
      hide EndsLine, Cut, NextLine, SplitLines;
      SplitStep(base);
      SplitStep(base + more);
      var c, n := Cut(base), NextLine(base);
      SplitAppend(base[n..], more);
      DropAppend(base, more, c, n);
      AppendAssociative([base[..c]], SplitLines(base[n..]), SplitLines(more));
    }
  }

  /** A text without a boundary, once ended by a newline, is a line. */
  lemma SplitFirst(line: string, more: string)
    requires OneLine(line)
    ensures SplitLines(line + "\n" + more) == [line] + SplitLines(more)
  {
    var text := line + ("\n" + more);
    assert text == line + "\n" + more;
    CutAppend(line, "\n" + more);
    assert text[|line|] == '\n' && text[..|line|] == line && text[|line| + 1..] == more;
  }

  // ---------------------------------------------------------------- JSON strings

  function HexDigit(d: nat): char
    requires d < 16
  {
    if d < 10 then '0' + d as char else 'a' + (d - 10) as char
  }

  /** `json.dumps(..., ensure_ascii=False)` of one character of a string. */
  function EscapeChar(c: char): string {
    if c == '\"' then "\\\""
    else if c == '\\' then "\\\\"
    else if c == '\n' then "\\n"
    else if c == '\r' then "\\r"
    else if c == '\t' then "\\t"
    else if c == '\U{8}' then "\\b"
    else if c == '\U{C}' then "\\f"
    else if c < ' ' then ['\\', 'u', '0', '0', HexDigit(c as int / 16), HexDigit(c as int % 16)]
    else [c]
  }

  function Escape(s: string): string {
    if s == "" then "" else EscapeChar(s[0]) + Escape(s[1..])
  }

  lemma EscapedCharBoundary(c: char)
    ensures if Separator(c) then EscapeChar(c) == [c] else OneLine(EscapeChar(c))
  {
  }

  /** Escaping removes every boundary but the three separators. */
  lemma {:induction false} EscapeOneLine(s: string)
    ensures OneLine(Escape(s)) <==> !HasSeparator(s)
  {
    if s != "" {
      var first, rest := EscapeChar(s[0]), Escape(s[1..]);
      EscapedCharBoundary(s[0]);
      EscapeOneLine(s[1..]);
      OneLineAppend(first, rest);
      SeparatorFirst(s);
      assert OneLine(first) <==> !Separator(s[0]) by {
        if Separator(s[0]) { assert first[0] == s[0]; }
      }
    }
  }

  lemma OneLineAppend(a: string, b: string)
    ensures OneLine(a + b) <==> OneLine(a) && OneLine(b)
  {
    assert forall i :: 0 <= i < |a| ==> (a + b)[i] == a[i];
    assert forall i :: 0 <= i < |b| ==> (a + b)[|a| + i] == b[i];
  }

  lemma SeparatorFirst(s: string)
    requires s != ""
    ensures HasSeparator(s) <==> Separator(s[0]) || HasSeparator(s[1..])
  {
    assert forall i :: 0 <= i < |s| - 1 ==> s[1..][i] == s[i + 1];
  }

  /** Where a reader of JSON stands: between strings, in one, or behind a backslash in one. */
  datatype Mode = Outside | Inside | Escaped

  function ScanChar(m: Mode, c: char): Mode {
    match m
    case Outside => if c == '\"' then Inside else Outside
    case Inside => if c == '\"' then Outside else if c == '\\' then Escaped else Inside
    case Escaped => Inside
  }

  function Scan(m: Mode, text: string): Mode
    decreases |text|
  {
    if text == "" then m else Scan(ScanChar(m, text[0]), text[1..])
  }

  /** Every string that is opened is closed, as in any JSON document. */
  predicate Closed(text: string) {
    Scan(Outside, text).Outside?
  }

  lemma {:induction false} ScanAppend(m: Mode, a: string, b: string)
    ensures Scan(m, a + b) == Scan(Scan(m, a), b)
    decreases |a|
  {
    if a == "" {
      assert a + b == b;
    } else {
      assert (a + b)[0] == a[0] && (a + b)[1..] == a[1..] + b;
      ScanAppend(ScanChar(m, a[0]), a[1..], b);
    }
  }

  lemma ScanOne(m: Mode, c: char)
    ensures Scan(m, [c]) == ScanChar(m, c)
  {
    assert [c][1..] == "";
  }

  lemma EscapedCharInside(c: char)
    ensures Scan(Inside, EscapeChar(c)) == Inside
  {
    var e := EscapeChar(c);
    if |e| == 1 {
      ScanOne(Inside, c);
    } else if |e| == 2 {
      assert e == [e[0]] + [e[1]];
      ScanAppend(Inside, [e[0]], [e[1]]);
      ScanOne(Inside, e[0]);
      ScanOne(Escaped, e[1]);
    } else {
      ScanSix(e);
    }
  }

  lemma ScanSix(e: string)
    requires |e| == 6 && e[0] == '\\' && forall i :: 2 <= i < 6 ==> e[i] != '\"' && e[i] != '\\'
    ensures Scan(Inside, e) == Inside
  {
    assert e == [e[0]] + ([e[1]] + e[2..]);
    ScanAppend(Inside, [e[0]], [e[1]] + e[2..]);
    ScanAppend(Escaped, [e[1]], e[2..]);
    ScanOne(Inside, e[0]);
    ScanOne(Escaped, e[1]);
    StaysInside(e[2..]);
  }

  lemma {:induction false} StaysInside(text: string)
    requires forall i :: 0 <= i < |text| ==> text[i] != '\"' && text[i] != '\\'
    ensures Scan(Inside, text) == Inside
    decreases |text|
  {
    if text != "" {
      assert forall i :: 0 <= i < |text[1..]| ==> text[1..][i] == text[i + 1];
      StaysInside(text[1..]);
    }
  }

  /** The text of a string's content never closes the string. */
  lemma {:induction false} EscapeStaysInside(s: string)
    ensures Scan(Inside, Escape(s)) == Inside
  {
    if s != "" {
      EscapedCharInside(s[0]);
      EscapeStaysInside(s[1..]);
      ScanAppend(Inside, EscapeChar(s[0]), Escape(s[1..]));
    }
  }

  lemma TakeAppend<T>(a: seq<T>, b: seq<T>, n: nat)
    requires n <= |b|
    ensures (a + b)[..|a| + n] == a + b[..n]
  {
  }

  /** The first boundary of the text leaves a reader that began inside a string inside it. */
  predicate CutInside(text: string) {
    Cut(text) < |text| && Scan(Inside, text[..Cut(text)]) == Inside
  }

  lemma CutLater(first: string, rest: string)
    requires OneLine(first) && Scan(Inside, first) == Inside && CutInside(rest)
    ensures CutInside(first + rest)
  {
    CutAppend(first, rest);
    hide Cut, Scan, OneLine;
    TakeAppend(first, rest, Cut(rest));
    ScanAppend(Inside, first, rest[..Cut(rest)]);
  }

  /** Nor does what is left of it when its first separator cuts it. */
  lemma {:induction false} CutStaysInside(s: string)
    requires HasSeparator(s)
    ensures CutInside(Escape(s))
  {
    EscapedCharBoundary(s[0]);
    if Separator(s[0]) {
      assert Cut(Escape(s)) == 0;
    } else {
      SeparatorFirst(s);
      EscapedCharInside(s[0]);
      CutStaysInside(s[1..]);
      hide EscapeChar, HasSeparator, CutInside, OneLine, Scan;
      CutLater(EscapeChar(s[0]), Escape(s[1..]));
    }
  }

  // ---------------------------------------------------------------- records

  /** A record's text: punctuation and numbers as they are, and strings in quotes. */
  datatype Piece = Plain(text: string) | Quoted(content: string)

  function PieceText(p: Piece): string {
    match p
    case Plain(text) => text
    case Quoted(content) => "\"" + Escape(content) + "\""
  }

  function TextOf(ps: seq<Piece>): string {
    if ps == [] then "" else PieceText(ps[0]) + TextOf(ps[1..])
  }

  lemma {:induction false} TextAppend(ps: seq<Piece>, qs: seq<Piece>)
    ensures TextOf(ps + qs) == TextOf(ps) + TextOf(qs)
  {
    if ps == [] {
      assert ps + qs == qs;
    } else {
      assert (ps + qs)[1..] == ps[1..] + qs && (ps + qs)[0] == ps[0];
      TextAppend(ps[1..], qs);
    }
  }

  /** The text between strings has neither quotes nor boundaries. */
  predicate PlainOk(text: string) {
    forall i :: 0 <= i < |text| ==> text[i] != '\"' && !Boundary(text[i])
  }

  predicate PieceOk(p: Piece) {
    p.Plain? ==> PlainOk(p.text)
  }

  predicate PiecesOk(ps: seq<Piece>) {
    forall i :: 0 <= i < |ps| ==> PieceOk(ps[i])
  }

  /** A string without separators. */
  predicate CleanPiece(p: Piece) {
    p.Quoted? ==> !HasSeparator(p.content)
  }

  predicate CleanPieces(ps: seq<Piece>) {
    forall i :: 0 <= i < |ps| ==> CleanPiece(ps[i])
  }

  /** Without quotes no string is opened. */
  lemma {:induction false} StaysOutside(text: string)
    requires forall i :: 0 <= i < |text| ==> text[i] != '\"'
    ensures Closed(text)
    decreases |text|
  {
    if text != "" {
      assert forall i :: 0 <= i < |text[1..]| ==> text[1..][i] == text[i + 1];
      StaysOutside(text[1..]);
    }
  }

  lemma QuoteOneLine()
    ensures OneLine("\"")
  {
  }

  /** A piece is closed; it is one line exactly when clean, and otherwise its first line ends inside a string. */
  lemma PieceScan(p: Piece)
    requires PieceOk(p)
    ensures Scan(Outside, PieceText(p)) == Outside
    ensures OneLine(PieceText(p)) <==> CleanPiece(p)
    ensures !CleanPiece(p) ==> OpenCut(PieceText(p))
  {
    match p
    case Plain(text) => StaysOutside(text);
    case Quoted(content) =>
      var e := Escape(content);
      EscapeOneLine(content);
      EscapeStaysInside(content);
      QuoteOneLine();
      ScanOne(Outside, '\"');
      ScanOne(Inside, '\"');
      if HasSeparator(content) {
        CutStaysInside(content);
      }
      hide Escape, Scan, Cut, OneLine, HasSeparator;
      ScanAppend(Outside, "\"", e);
      ScanAppend(Outside, "\"" + e, "\"");
      OneLineAppend("\"", e);
      OneLineAppend("\"" + e, "\"");
      if HasSeparator(content) {
        OpensInside(e);
      }
  }

  /** The first boundary of the text cuts it inside a string. */
  predicate OpenCut(text: string) {
    Cut(text) < |text| && Scan(Outside, text[..Cut(text)]) == Inside
  }

  lemma OpensInside(e: string)
    requires CutInside(e)
    ensures OpenCut("\"" + e + "\"")
  {
    QuoteOneLine();
    ScanOne(Outside, '\"');
    CutAppend("\"", e);
    CutAppend("\"" + e, "\"");
    hide Cut, Scan, OneLine;
    TakeAppend("\"", e, Cut(e));
    DropAppend("\"" + e, "\"", 1 + Cut(e), 1 + Cut(e));
    ScanAppend(Outside, "\"", e[..Cut(e)]);
  }

  /** So is a record. */
  lemma {:induction false} TextScan(ps: seq<Piece>)
    requires PiecesOk(ps)
    ensures Closed(TextOf(ps))
    ensures OneLine(TextOf(ps)) <==> CleanPieces(ps)
    ensures !CleanPieces(ps) ==> OpenCut(TextOf(ps))
  {
    if ps != [] {
      var first, rest := PieceText(ps[0]), TextOf(ps[1..]);
      PieceScan(ps[0]);
      TextScan(ps[1..]);
      assert CleanPieces(ps) <==> CleanPiece(ps[0]) && CleanPieces(ps[1..]) by {
        assert forall i :: 0 <= i < |ps| - 1 ==> ps[1..][i] == ps[i + 1];
      }
      hide PieceText, Scan, OneLine, CleanPiece, CleanPieces, OpenCut;
      ScanAppend(Outside, first, rest);
      OneLineAppend(first, rest);
      if !CleanPiece(ps[0]) {
        CutHere(first, rest);
      } else if !CleanPieces(ps[1..]) {
        CutThere(first, rest);
      }
    }
  }

  lemma CutHere(first: string, rest: string)
    requires OpenCut(first)
    ensures OpenCut(first + rest)
  {
    CutAppend(first, rest);
    hide Cut, Scan;
    DropAppend(first, rest, Cut(first), Cut(first));
  }

  lemma CutThere(first: string, rest: string)
    requires OneLine(first) && Scan(Outside, first) == Outside && OpenCut(rest)
    ensures OpenCut(first + rest)
  {
    CutAppend(first, rest);
    hide Cut, Scan, OneLine;
    TakeAppend(first, rest, Cut(rest));
    ScanAppend(Outside, first, rest[..Cut(rest)]);
  }

  // ---------------------------------------------------------------- objects

  lemma PiecesAppend(a: seq<Piece>, b: seq<Piece>)
    ensures PiecesOk(a + b) <==> PiecesOk(a) && PiecesOk(b)
    ensures CleanPieces(a + b) <==> CleanPieces(a) && CleanPieces(b)
  {
    hide PieceOk, CleanPiece;
    assert forall i :: 0 <= i < |a| ==> (a + b)[i] == a[i];
    assert forall i :: 0 <= i < |b| ==> (a + b)[|a| + i] == b[i];
  }

  lemma PunctuationShape(text: string)
    requires PlainOk(text)
    ensures PiecesOk([Plain(text)]) && CleanPieces([Plain(text)])
  {
  }

  lemma StringShape(content: string)
    ensures PiecesOk([Quoted(content)]) && (CleanPieces([Quoted(content)]) <==> !HasSeparator(content))
  {
    assert CleanPieces([Quoted(content)]) <==> CleanPiece([Quoted(content)][0]);
  }

  /** `"key": value`. */
  function Member(key: string, value: seq<Piece>): seq<Piece> {
    [Quoted(key), Plain(": ")] + value
  }

  /** The parts with commas between them. */
  function Separated(parts: seq<seq<Piece>>): seq<Piece> {
    if parts == [] then []
    else if |parts| == 1 then parts[0]
    else parts[0] + ([Plain(", ")] + Separated(parts[1..]))
  }

  function Enclosed(open: string, parts: seq<seq<Piece>>, close: string): seq<Piece> {
    [Plain(open)] + (Separated(parts) + [Plain(close)])
  }

  lemma MemberShape(key: string, value: seq<Piece>)
    requires PiecesOk(value) && !HasSeparator(key)
    ensures PiecesOk(Member(key, value)) && (CleanPieces(Member(key, value)) <==> CleanPieces(value))
  {
    PiecesAppend([Quoted(key), Plain(": ")], value);
    hide HasSeparator;
    assert PiecesOk([Quoted(key), Plain(": ")]) && CleanPieces([Quoted(key), Plain(": ")]);
  }

  predicate AllOk(parts: seq<seq<Piece>>) {
    forall i :: 0 <= i < |parts| ==> PiecesOk(parts[i])
  }

  predicate AllClean(parts: seq<seq<Piece>>) {
    forall i :: 0 <= i < |parts| ==> CleanPieces(parts[i])
  }

  lemma AllFirst(parts: seq<seq<Piece>>)
    requires parts != []
    ensures AllOk(parts) <==> PiecesOk(parts[0]) && AllOk(parts[1..])
    ensures AllClean(parts) <==> CleanPieces(parts[0]) && AllClean(parts[1..])
  {
    hide PiecesOk, CleanPieces;
    assert forall i :: 0 <= i < |parts| - 1 ==> parts[1..][i] == parts[i + 1];
  }

  lemma {:induction false} SeparatedShape(parts: seq<seq<Piece>>)
    requires AllOk(parts)
    ensures PiecesOk(Separated(parts)) && (CleanPieces(Separated(parts)) <==> AllClean(parts))
  {
    if |parts| > 1 {
      AllFirst(parts);
      SeparatedShape(parts[1..]);
      PunctuationShape(", ");
      hide PiecesOk, CleanPieces, AllOk, AllClean;
      PiecesAppend([Plain(", ")], Separated(parts[1..]));
      PiecesAppend(parts[0], [Plain(", ")] + Separated(parts[1..]));
    }
  }

  /** What is between the brackets decides. */
  lemma EnclosedShape(open: string, parts: seq<seq<Piece>>, close: string)
    requires AllOk(parts) && PlainOk(open) && open != "" && PlainOk(close)
    ensures RecordOk(Enclosed(open, parts, close)) && (CleanPieces(Enclosed(open, parts, close)) <==> AllClean(parts))
  {
    SeparatedShape(parts);
    PunctuationShape(open);
    PunctuationShape(close);
    hide PiecesOk, CleanPieces, AllOk, AllClean, PlainOk;
    PiecesAppend(Separated(parts), [Plain(close)]);
    PiecesAppend([Plain(open)], Separated(parts) + [Plain(close)]);
  }

  /** A record starts with punctuation, as an object does. */
  predicate RecordOk(ps: seq<Piece>) {
    PiecesOk(ps) && ps != [] && ps[0].Plain? && ps[0].text != ""
  }

  // ---------------------------------------------------------------- journals

  function TextsOf(records: seq<seq<Piece>>): (texts: seq<string>)
    ensures |texts| == |records| && forall i :: 0 <= i < |texts| ==> texts[i] == TextOf(records[i])
  {
    seq(|records|, i requires 0 <= i < |records| => TextOf(records[i]))
  }

  /** Some line ends inside a string. */
  ghost predicate Torn(lines: seq<string>) {
    exists i :: 0 <= i < |lines| && !Closed(lines[i])
  }

  lemma TornFirst(first: string, more: string)
    requires OpenCut(first)
    ensures Torn(SplitLines(first + "\n" + more))
  {
    var text := first + ("\n" + more);
    assert text == first + "\n" + more;
    CutHere(first, "\n" + more);
    SplitStep(text);
    hide SplitLines, Cut, Scan;
    assert !Closed(SplitLines(text)[0]);
  }

  lemma TornLater(first: string, lines: seq<string>)
    requires Torn(lines)
    ensures Torn([first] + lines)
  {
    var i :| 0 <= i < |lines| && !Closed(lines[i]);
    assert ([first] + lines)[i + 1] == lines[i];
  }

  lemma FileFirst(records: seq<seq<Piece>>)
    requires records != []
    ensures TextsOf(records) == [TextOf(records[0])] + TextsOf(records[1..])
    ensures FileOf(TextsOf(records)) == TextOf(records[0]) + "\n" + FileOf(TextsOf(records[1..]))
  {
    hide TextOf;
    var texts := TextsOf(records);
    assert texts[1..] == TextsOf(records[1..]);
    assert texts == [texts[0]] + texts[1..];
  }

  /** If clean, the file splits into these texts; if not, one of its lines is torn. */
  ghost predicate SplitsInto(file: string, texts: seq<string>, clean: bool) {
    (clean ==> SplitLines(file) == texts) && (!clean ==> Torn(SplitLines(file)))
  }

  lemma SplitsMore(first: string, file: string, texts: seq<string>, clean: bool)
    requires SplitsInto(file, texts, clean) && (OneLine(first) || OpenCut(first))
    ensures SplitsInto(first + "\n" + file, [first] + texts, OneLine(first) && clean)
  {
    hide OneLine, OpenCut, SplitLines, Torn;
    if OneLine(first) {
      SplitFirst(first, file);
      if !clean {
        TornLater(first, SplitLines(file));
      }
    } else {
      TornFirst(first, file);
    }
  }

  /** Written records come back as lines if they are clean; otherwise one comes back torn. */
  lemma {:induction false} WrittenLines(records: seq<seq<Piece>>)
    requires AllOk(records)
    ensures SplitsInto(FileOf(TextsOf(records)), TextsOf(records), AllClean(records))
  {
    if records != [] {
      var first, rest := TextOf(records[0]), records[1..];
      TextScan(records[0]);
      AllFirst(records);
      WrittenLines(rest);
      FileFirst(records);
      hide TextsOf, TextOf, CleanPieces, PiecesOk, AllOk, AllClean, FileOf, OneLine, OpenCut, SplitsInto;
      SplitsMore(first, FileOf(TextsOf(rest)), TextsOf(rest), AllClean(rest));
    }
  }

  lemma LineStart(first: string, file: string)
    requires first != "" && !Boundary(first[0]) && EndsLine(file)
    ensures (first + "\n" + file)[0] != '\n' && EndsLine(first + "\n" + file)
  {
    var text := first + "\n" + file;
    assert text[0] == first[0];
    assert text[|text| - 1] == if file == "" then '\n' else file[|file| - 1];
  }

  lemma {:induction false} FileStart(records: seq<seq<Piece>>)
    requires forall i :: 0 <= i < |records| ==> RecordOk(records[i])
    ensures var file := FileOf(TextsOf(records)); file == "" || file[0] != '\n'
    ensures EndsLine(FileOf(TextsOf(records)))
  {
    if records != [] {
      var first := records[0][0].text;
      FileStart(records[1..]);
      FileFirst(records);
      assert RecordOk(records[0]) && PieceOk(records[0][0]);
      assert TextOf(records[0])[0] == first[0];
      hide TextsOf, TextOf, FileOf, EndsLine, RecordOk;
      LineStart(TextOf(records[0]), FileOf(TextsOf(records[1..])));
    }
  }

  lemma TextsClosed(records: seq<seq<Piece>>)
    requires AllOk(records)
    ensures !Torn(TextsOf(records))
  {
    forall i | 0 <= i < |records| ensures Closed(TextsOf(records)[i]) {
      TextScan(records[i]);
    }
  }

  /** Records appended to a file of complete lines are its further lines exactly when no string in them holds a separator;
      otherwise the file has a line that ends inside a string. */
  lemma SplitsIff(base: string, records: seq<seq<Piece>>)
    requires EndsLine(base) && forall i :: 0 <= i < |records| ==> RecordOk(records[i])
    ensures SplitLines(base + FileOf(TextsOf(records))) == SplitLines(base) + TextsOf(records) <==> AllClean(records)
    ensures Torn(SplitLines(base + FileOf(TextsOf(records)))) <==> Torn(SplitLines(base)) || !AllClean(records)
  {
    FileStart(records);
    WrittenLines(records);
    TextsClosed(records);
    var before, more := SplitLines(base), FileOf(TextsOf(records));
    SplitAppend(base, more);
    hide *;
    TornAppend(before, SplitLines(more));
    AppendCancels(before, SplitLines(more), TextsOf(records));
  }

  lemma TornAppend(a: seq<string>, b: seq<string>)
    ensures Torn(a + b) <==> Torn(a) || Torn(b)
  {
    forall i | 0 <= i < |a| ensures (a + b)[i] == a[i] {}
    forall i | 0 <= i < |b| ensures (a + b)[|a| + i] == b[i] {}
    hide Closed;
  }

  lemma AppendCancels<T>(a: seq<T>, b: seq<T>, c: seq<T>)
    ensures a + b == a + c <==> b == c
  {
    if a + b == a + c {
      assert b == (a + b)[|a|..] && c == (a + c)[|a|..];
    }
  }

  // ---------------------------------------------------------------- reading a journal

  /** What a reader makes of each line of a file. */
  function ReadFile<L>(read: string -> L, file: string): (r: seq<L>)
    ensures |r| == |SplitLines(file)| && forall i :: 0 <= i < |r| ==> r[i] == read(SplitLines(file)[i])
  {
    var lines := SplitLines(file);
    seq(|lines|, i requires 0 <= i < |lines| => read(lines[i]))
  }

  /** A text that ends inside a string is not read. */
  ghost predicate RefusesTorn<L>(read: string -> L, broken: L) {
    forall text :: !Closed(text) ==> read(text) == broken
  }

  lemma TornIsBroken<L>(read: string -> L, broken: L, file: string)
    requires RefusesTorn(read, broken) && Torn(SplitLines(file))
    ensures broken in ReadFile(read, file)
  {
    hide SplitLines, Closed;
    var i :| 0 <= i < |SplitLines(file)| && !Closed(SplitLines(file)[i]);
    assert ReadFile(read, file)[i] == broken;
  }

  lemma ReadAppended<L>(read: string -> L, start: string, file: string, texts: seq<string>, written: seq<L>)
    requires SplitLines(file) == SplitLines(start) + texts && |texts| == |written|
    requires forall i :: 0 <= i < |texts| ==> read(texts[i]) == written[i]
    ensures ReadFile(read, file) == ReadFile(read, start) + written
  {
    hide SplitLines;
  }

  /** Records the reader knows, appended to a file of complete lines it can read: it can read the file again, and then it
      reads those lines and these records, exactly when no string in the records holds a separator. */
  lemma ReadsBackIff<L>(read: string -> L, broken: L, start: string, records: seq<seq<Piece>>, written: seq<L>)
    requires RefusesTorn(read, broken) && EndsLine(start) && broken !in ReadFile(read, start)
    requires |records| == |written| && broken !in written && forall i :: 0 <= i < |records| ==> RecordOk(records[i])
    requires forall i :: 0 <= i < |records| ==> read(TextsOf(records)[i]) == written[i]
    ensures broken !in ReadFile(read, start + FileOf(TextsOf(records))) <==> AllClean(records)
    ensures AllClean(records) ==> ReadFile(read, start + FileOf(TextsOf(records))) == ReadFile(read, start) + written
    ensures EndsLine(start + FileOf(TextsOf(records)))
  {
    var texts := TextsOf(records);
    var file := start + FileOf(texts);
    SplitsIff(start, records);
    FileStart(records);
    hide RecordOk, AllClean, SplitLines, ReadFile, TextsOf, FileOf, Torn, RefusesTorn;
    if Torn(SplitLines(start)) {
      TornIsBroken(read, broken, start);
    }
    if AllClean(records) {
      ReadAppended(read, start, file, texts, written);
    } else {
      TornIsBroken(read, broken, file);
    }
  }

  // ---------------------------------------------------------------- reading a string back

  function HexValue(c: char): Option<nat> {
    if '0' <= c <= '9' then Some(c as int - '0' as int)
    else if 'a' <= c <= 'f' then Some(c as int - 'a' as int + 10)
    else None
  }

  /** The next character of a string and the text behind it; only the escapes the printer uses are known. */
  function ReadChar(text: string): (r: Option<(char, string)>)
    ensures r.Some? ==> |r.value.1| < |text|
  {
    if text == "" || text[0] == '\"' || text[0] < ' ' then None
    else if text[0] != '\\' then Some((text[0], text[1..]))
    else if |text| < 2 then None
    else if text[1] == '\"' then Some(('\"', text[2..]))
    else if text[1] == '\\' then Some(('\\', text[2..]))
    else if text[1] == 'n' then Some(('\n', text[2..]))
    else if text[1] == 'r' then Some(('\r', text[2..]))
    else if text[1] == 't' then Some(('\t', text[2..]))
    else if text[1] == 'b' then Some(('\U{8}', text[2..]))
    else if text[1] == 'f' then Some(('\U{C}', text[2..]))
    else if |text| >= 6 && text[1] == 'u' && text[2] == '0' && text[3] == '0' && HexValue(text[4]).Some? && HexValue(text[5]).Some? then
      Some(((16 * HexValue(text[4]).value + HexValue(text[5]).value) as char, text[6..]))
    else None
  }

  /** The content of a string up to its closing quote, and the text behind that. */
  function ReadString(text: string): Option<(string, string)>
    decreases |text|
  {
    if text == "" then None
    else if text[0] == '\"' then Some(("", text[1..]))
    else
      match ReadChar(text)
      case None => None
      case Some((c, more)) =>
        match ReadString(more)
        case None => None
        case Some((content, rest)) => Some(([c] + content, rest))
  }

  lemma ReadEscapedChar(c: char, more: string)
    ensures ReadChar(EscapeChar(c) + more) == Some((c, more))
    ensures (EscapeChar(c) + more)[0] != '\"'
  {
    var e := EscapeChar(c);
    assert (e + more)[|e|..] == more;
  }

  lemma ReadStep(text: string, c: char, more: string, content: string, rest: string)
    requires text != "" && text[0] != '\"' && ReadChar(text) == Some((c, more)) && ReadString(more) == Some((content, rest))
    ensures ReadString(text) == Some(([c] + content, rest))
  {
    hide ReadChar;
  }

  /** Reading takes back exactly what escaping wrote. */
  lemma {:induction false} ReadEscaped(s: string, more: string)
    ensures ReadString(Escape(s) + ("\"" + more)) == Some((s, more))
  {
    var rest := "\"" + more;
    if s == "" {
      assert Escape(s) + rest == rest && rest[1..] == more;
    } else {
      var e, tail := EscapeChar(s[0]), Escape(s[1..]);
      assert Escape(s) == e + tail;
      ReadEscapedChar(s[0], tail + rest);
      ReadEscaped(s[1..], more);
      hide EscapeChar, Escape, ReadChar, ReadString;
      AppendAssociative(e, tail, rest);
      ReadStep(e + (tail + rest), s[0], tail + rest, s[1..], more);
      assert [s[0]] + s[1..] == s;
    }
  }

  lemma ReadCharInside(text: string)
    requires ReadChar(text).Some?
    ensures Scan(Inside, text) == Scan(Inside, ReadChar(text).value.1)
  {
    var more := ReadChar(text).value.1;
    var head := text[..|text| - |more|];
    assert text == head + more;
    ScanAppend(Inside, head, more);
    if |head| == 1 {
      assert head == [text[0]];
      ScanOne(Inside, text[0]);
    } else if |head| == 2 {
      assert head == [head[0]] + [head[1]];
      ScanAppend(Inside, [head[0]], [head[1]]);
      ScanOne(Inside, head[0]);
      ScanOne(Escaped, head[1]);
    } else {
      ScanSix(head);
    }
  }

  /** A string that can be read is closed where reading ends. */
  lemma {:induction false} ReadStringCloses(text: string)
    requires ReadString(text).Some?
    ensures Scan(Inside, text) == Scan(Outside, ReadString(text).value.1)
    decreases |text|
  {
    if text[0] != '\"' {
      ReadCharInside(text);
      ReadStringCloses(ReadChar(text).value.1);
      hide ReadChar;
    }
  }
}
