/** What the cross-track check sees in a document the renderer writes: its tables are rows of
    cells and separator rules, and a table is caught for what its cells name. */
module RenderedTables {
  import opened Tables

  // ---------------------------------------------------------------------------
  // Splitting at bars
  // ---------------------------------------------------------------------------

  lemma OntoAppend(c: char, a: seq<string>, b: seq<string>)
    requires a != []
    ensures Onto(c, a + b) == Onto(c, a) + b
  {
  }

  lemma {:induction false} SplitAtBar(left: string, rest: string)
    ensures Split(left + "|" + rest) == Split(left) + Split(rest)
  {
    hide Onto;
    var s := left + "|" + rest;
    if left == [] {
      assert s[1..] == rest;
      assert Split(s) == [""] + Split(rest) by { BarFirst(Split(rest)); }
    } else {
      SplitAtBar(left[1..], rest);
      assert s[1..] == left[1..] + "|" + rest;
      OntoAppend(left[0], Split(left[1..]), Split(rest));
    }
  }

  lemma BarFirst(parts: seq<string>)
    requires parts != []
    ensures Onto('|', parts) == [""] + parts
  {
  }

  lemma {:induction false} SplitBarFree(s: string)
    requires '|' !in s
    ensures Split(s) == [s]
  {
    if s == [] {
    } else {
      SplitBarFree(s[1..]);
      assert s == [s[0]] + s[1..];
    }
  }

  /** The pieces, with a space after the last. */
  function SpacedLast(parts: seq<string>): seq<string>
    requires parts != []
  {
    parts[..|parts| - 1] + [parts[|parts| - 1] + " "]
  }

  lemma OntoSpacedLast(c: char, parts: seq<string>)
    requires parts != []
    ensures Onto(c, SpacedLast(parts)) == SpacedLast(Onto(c, parts))
  {
    if c == '|' {
      assert [""] + SpacedLast(parts) == SpacedLast([""] + parts);
    } else if |parts| == 1 {
      assert [c] + (parts[0] + " ") == [c] + parts[0] + " ";
    }
  }

  lemma {:induction false} SplitSpaceAfter(s: string)
    ensures Split(s + " ") == SpacedLast(Split(s))
  {
    if s == [] {
      assert s + " " == " ";
      SplitBarFree(" ");
    } else {
      hide Onto, SpacedLast;
      SplitSpaceAfter(s[1..]);
      assert (s + " ")[1..] == s[1..] + " ";
      OntoSpacedLast(s[0], Split(s[1..]));
    }
  }

  // ---------------------------------------------------------------------------
  // What a cell names
  // ---------------------------------------------------------------------------

  /** One of these pieces, blanks and backticks aside, is `name`. */
  ghost predicate NamedIn(parts: seq<string>, name: string) {
    exists k :: 0 <= k < |parts| && Token(parts[k]) == name
  }

  lemma {:induction false} StripSpaceAfter(s: string)
    ensures LStrip(s + " ", Blank) == if LStrip(s, Blank) == "" then "" else LStrip(s, Blank) + " "
  {
    if s == [] {
      assert (s + " ")[1..] == "";
    } else if Blank(s[0]) {
      assert (s + " ")[1..] == s[1..] + " ";
      StripSpaceAfter(s[1..]);
    }
  }

  lemma TokenOfSpaced(s: string)
    ensures Token(" " + s) == Token(s) && Token(s + " ") == Token(s)
  {
    assert (" " + s)[1..] == s;
    StripSpaceAfter(s);
    var t := LStrip(s, Blank);
    assert t != "" ==> (t + " ")[..|t|] == t;
  }

  lemma OntoSpaceAt(parts: seq<string>, k: nat)
    requires k < |parts|
    ensures |Onto(' ', parts)| == |parts|
    ensures Onto(' ', parts)[k] == if k == 0 then " " + parts[0] else parts[k]
  {
  }

  lemma SpacedLastAt(parts: seq<string>, k: nat)
    requires k < |parts|
    ensures |SpacedLast(parts)| == |parts|
    ensures SpacedLast(parts)[k] == if k == |parts| - 1 then parts[k] + " " else parts[k]
  {
  }

  lemma TokensOfSpaced(c: string, k: nat)
    requires k < |Split(c)|
    ensures |Split(" " + c + " ")| == |Split(c)|
    ensures Token(Split(" " + c + " ")[k]) == Token(Split(c)[k])
  {
    var p, q := Split(c), Split(" " + c);
    assert (" " + c)[1..] == c;
    assert q == Onto(' ', p);
    SplitSpaceAfter(" " + c);
    hide Split, Token, Onto, SpacedLast;
    OntoSpaceAt(p, k);
    SpacedLastAt(q, k);
    TokenOfSpaced(p[k]);
    TokenOfSpaced(q[k]);
  }

  /** The spaces around a cell change none of the names in it. */
  lemma NamedInSpaced(c: string, name: string)
    ensures NamedIn(Split(" " + c + " "), name) <==> NamedIn(Split(c), name)
  {
    TokensOfSpaced(c, 0);
    hide Split, Token;
    forall k | 0 <= k < |Split(c)|
      ensures Token(Split(" " + c + " ")[k]) == Token(Split(c)[k])
    {
      TokensOfSpaced(c, k);
    }
  }

  // ---------------------------------------------------------------------------
  // Table lines
  // ---------------------------------------------------------------------------

  /** A line of a report: a row of cells, the rule under a table's header, or anything else. */
  datatype Line =
    | Row(cells: seq<string>)
    | Rule(widths: seq<nat>)
    | Prose(text: string)

  ghost predicate Unbroken(s: string) {
    forall k :: 0 <= k < |s| ==> !Breaks(s[k])
  }

  /** A row or a rule has at least one column and a rule's columns are not empty; no text has a
      line break of its own; and prose does not look like a row. */
  ghost predicate Renderable(line: Line) {
    match line
    case Row(cells) => cells != [] && forall k :: 0 <= k < |cells| ==> Unbroken(cells[k])
    case Rule(widths) => widths != [] && forall k :: 0 <= k < |widths| ==> widths[k] > 0
    case Prose(text) => Unbroken(text) && !IsRow(text)
  }

  /** `" | ".join(cells)`. */
  function Joined(cells: seq<string>): string
    requires cells != []
  {
    if |cells| == 1 then cells[0] else cells[0] + " | " + Joined(cells[1..])
  }

  function Dashes(width: nat): string {
    seq(width, i => '-')
  }

  /** `"|".join` of the dashes of each column. */
  function Ruled(widths: seq<nat>): string
    requires widths != []
  {
    if |widths| == 1 then Dashes(widths[0]) else Dashes(widths[0]) + "|" + Ruled(widths[1..])
  }

  function Rendered(line: Line): string
    requires Renderable(line)
  {
    match line
    case Row(cells) => "| " + Joined(cells) + " |"
    case Rule(widths) => "|" + Ruled(widths) + "|"
    case Prose(text) => text
  }

  /** A cell of this line names `name`: one of the pieces its bars cut it into, or a rule's dashes. */
  ghost predicate Names(line: Line, name: string) {
    match line
    case Row(cells) => exists k :: 0 <= k < |cells| && NamedIn(Split(cells[k]), name)
    case Rule(widths) => exists k :: 0 <= k < |widths| && Dashes(widths[k]) == name
    case Prose(_) => false
  }

  /** The pieces of a row's cells, spaces included. */
  function Pieces(cells: seq<string>): seq<string> {
    if cells == [] then [] else Split(" " + cells[0] + " ") + Pieces(cells[1..])
  }

  lemma {:induction false} SplitJoined(cells: seq<string>)
    requires cells != []
    ensures Split(" " + Joined(cells) + " ") == Pieces(cells)
  {
    var first := " " + cells[0] + " ";
    if |cells| == 1 {
      assert Pieces(cells[1..]) == [];
    } else {
      var rest := " " + Joined(cells[1..]) + " ";
      SplitAtBar(first, rest);
      SplitJoined(cells[1..]);
      assert " " + Joined(cells) + " " == first + "|" + rest;
    }
  }

  lemma BarsAround(inner: string)
    requires inner != [] && inner[0] != '|' && inner[|inner| - 1] != '|'
    ensures IsRow("|" + inner + "|") && Cells("|" + inner + "|") == Split(inner)
  {
    var row := "|" + inner + "|";
    hide Split;
    assert LStrip(row, Blank) == row && RStrip(row, Blank) == row;
    assert row[1..] == inner + "|";
    assert LStrip(row, IsBar) == inner + "|";
    assert (inner + "|")[..|inner|] == inner;
    assert RStrip(inner + "|", IsBar) == inner;
  }

  /** A rendered row splits back into the pieces of its cells; a cell without a bar is one. */
  lemma CellsOfRow(cells: seq<string>)
    requires Renderable(Row(cells))
    ensures IsRow(Rendered(Row(cells))) && Cells(Rendered(Row(cells))) == Pieces(cells)
    ensures (forall k :: 0 <= k < |cells| ==> '|' !in cells[k]) ==>
              |Pieces(cells)| == |cells| && forall k :: 0 <= k < |cells| ==> Pieces(cells)[k] == " " + cells[k] + " "
  {
    var inner := " " + Joined(cells) + " ";
    assert Rendered(Row(cells)) == "|" + inner + "|";
    BarsAround(inner);
    SplitJoined(cells);
    if forall k :: 0 <= k < |cells| ==> '|' !in cells[k] {
      BarFreePieces(cells);
    }
  }

  lemma {:induction false} BarFreePieces(cells: seq<string>)
    requires forall k :: 0 <= k < |cells| ==> '|' !in cells[k]
    ensures |Pieces(cells)| == |cells| && forall k :: 0 <= k < |cells| ==> Pieces(cells)[k] == " " + cells[k] + " "
  {
    if cells == [] {
    } else {
      SplitBarFree(" " + cells[0] + " ");
      BarFreePieces(cells[1..]);
    }
  }

  lemma {:induction false} NamedInPieces(cells: seq<string>, name: string)
    ensures NamedIn(Pieces(cells), name) <==> exists k :: 0 <= k < |cells| && NamedIn(Split(cells[k]), name)
  {
    hide Split, Token;
    if cells == [] {
    } else {
      var first, rest := Split(" " + cells[0] + " "), Pieces(cells[1..]);
      NamedInSpaced(cells[0], name);
      NamedInPieces(cells[1..], name);
      NamedInEither(first, rest, name);
    }
  }

  lemma NamedInEither(a: seq<string>, b: seq<string>, name: string)
    ensures NamedIn(a + b, name) <==> NamedIn(a, name) || NamedIn(b, name)
  {
    hide Token;
    if k :| 0 <= k < |a| && Token(a[k]) == name {
      assert (a + b)[k] == a[k];
    }
    if k :| 0 <= k < |b| && Token(b[k]) == name {
      assert (a + b)[|a| + k] == b[k];
    }
  }

  lemma {:induction false} SplitRuled(widths: seq<nat>)
    requires widths != [] && forall k :: 0 <= k < |widths| ==> widths[k] > 0
    ensures Split(Ruled(widths)) == seq(|widths|, k requires 0 <= k < |widths| => Dashes(widths[k]))
    ensures Ruled(widths) != [] && Ruled(widths)[0] == '-' && Ruled(widths)[|Ruled(widths)| - 1] == '-'
  {
    SplitBarFree(Dashes(widths[0]));
    if |widths| > 1 {
      SplitAtBar(Dashes(widths[0]), Ruled(widths[1..]));
      SplitRuled(widths[1..]);
    }
  }

  lemma TokenOfDashes(width: nat)
    requires width > 0
    ensures Token(Dashes(width)) == Dashes(width)
  {
  }

  /** The check reads a rendered line as a row exactly when it is one, and finds in its cells
      exactly the names the line was given. */
  lemma LineNames(line: Line, name: string)
    requires Renderable(line)
    ensures IsRow(Rendered(line)) <==> !line.Prose?
    ensures !line.Prose? ==> (NamedIn(Cells(Rendered(line)), name) <==> Names(line, name))
  {
    match line
    case Row(cells) =>
      CellsOfRow(cells);
      NamedInPieces(cells, name);
    case Rule(widths) =>
      RuleNames(widths, name);
    case Prose(_) =>
  }

  lemma RuleNames(widths: seq<nat>, name: string)
    requires Renderable(Rule(widths))
    ensures IsRow(Rendered(Rule(widths)))
    ensures NamedIn(Cells(Rendered(Rule(widths))), name) <==> Names(Rule(widths), name)
  {
    SplitRuled(widths);
    BarsAround(Ruled(widths));
    var parts := Split(Ruled(widths));
    hide Split, Token, Dashes, Ruled, Cells;
    forall k | 0 <= k < |widths|
      ensures Token(parts[k]) == Dashes(widths[k])
    {
      TokenOfDashes(widths[k]);
    }
  }

  // ---------------------------------------------------------------------------
  // Documents
  // ---------------------------------------------------------------------------

  /** `"\n".join(lines + [""])`. */
  function Terminated(lines: seq<string>): string {
    if lines == [] then "" else lines[0] + "\n" + Terminated(lines[1..])
  }

  lemma {:induction false} FirstBreakAt(line: string, rest: string)
    requires Unbroken(line)
    ensures FirstBreak(line + "\n" + rest) == |line|
  {
    if line == [] {
    } else {
      FirstBreakAt(line[1..], rest);
      assert (line + "\n" + rest)[1..] == line[1..] + "\n" + rest;
    }
  }

  /** Splitting a document gives back the lines it was joined from. */
  lemma {:induction false} LinesOfDocument(lines: seq<string>)
    requires forall i :: 0 <= i < |lines| ==> Unbroken(lines[i])
    ensures SplitLines(Terminated(lines)) == lines
  {
    if lines == [] {
    } else {
      var s := Terminated(lines);
      FirstBreakAt(lines[0], Terminated(lines[1..]));
      LinesOfDocument(lines[1..]);
      assert s[..|lines[0]|] == lines[0];
      assert s[|lines[0]|] == '\n' && s[|lines[0]| + 1..] == Terminated(lines[1..]);
    }
  }

  ghost predicate Report(lines: seq<Line>) {
    forall i :: 0 <= i < |lines| ==> Renderable(lines[i])
  }

  function Texts(lines: seq<Line>): (r: seq<string>)
    requires Report(lines)
  {
    seq(|lines|, i requires 0 <= i < |lines| => Rendered(lines[i]))
  }

  lemma {:induction false} JoinedUnbroken(cells: seq<string>)
    requires Renderable(Row(cells))
    ensures Unbroken(Joined(cells))
  {
    if |cells| > 1 {
      JoinedUnbroken(cells[1..]);
    }
  }

  lemma {:induction false} RuledUnbroken(widths: seq<nat>)
    requires Renderable(Rule(widths))
    ensures Unbroken(Ruled(widths))
  {
    if |widths| > 1 {
      RuledUnbroken(widths[1..]);
    }
  }

  lemma TextsUnbroken(lines: seq<Line>)
    requires Report(lines)
    ensures forall i :: 0 <= i < |lines| ==> Unbroken(Texts(lines)[i])
  {
    hide Joined, Ruled;
    forall i | 0 <= i < |lines|
      ensures Unbroken(Rendered(lines[i]))
    {
      match lines[i]
      case Row(cells) => JoinedUnbroken(cells);
      case Rule(widths) => RuledUnbroken(widths);
      case Prose(_) =>
    }
  }

  /** The document a report renders to. */
  function Document(lines: seq<Line>): string
    requires Report(lines)
  {
    Terminated(Texts(lines))
  }

  /** Lines i to j of a report are one of its tables. */
  ghost predicate Block(lines: seq<Line>, i: nat, j: nat) {
    && i < j <= |lines|
    && (forall k :: i <= k < j ==> !lines[k].Prose?)
    && (i == 0 || lines[i - 1].Prose?)
    && (j == |lines| || lines[j].Prose?)
  }

  ghost predicate BlockNames(lines: seq<Line>, i: nat, j: nat, name: string)
    requires i <= j <= |lines|
  {
    exists k :: i <= k < j && Names(lines[k], name)
  }

  /** Some table of the report names executed systems of two tracks. */
  ghost predicate MixesTracks(lines: seq<Line>, tracks: map<string, string>) {
    exists i: nat, j: nat, a, b ::
      && Block(lines, i, j) && a in tracks && b in tracks && tracks[a] != tracks[b]
      && BlockNames(lines, i, j, a) && BlockNames(lines, i, j, b)
  }

  lemma LinesAreRows(lines: seq<Line>)
    requires Report(lines)
    ensures forall k :: 0 <= k < |lines| ==> (IsRow(Texts(lines)[k]) <==> !lines[k].Prose?)
  {
    forall k | 0 <= k < |lines|
      ensures IsRow(Texts(lines)[k]) <==> !lines[k].Prose?
    {
      LineNames(lines[k], "");
    }
  }

  lemma TablesAreBlocks(lines: seq<Line>, i: nat, j: nat)
    requires Report(lines)
    ensures IsTable(Texts(lines), i, j) <==> Block(lines, i, j)
  {
    LinesAreRows(lines);
    hide IsRow, Rendered, Report;
  }

  lemma TracksInLine(line: Line, tracks: map<string, string>, t: string)
    requires Renderable(line) && !line.Prose?
    ensures t in TracksIn(Cells(Rendered(line)), tracks)
       <==> exists a :: a in tracks && tracks[a] == t && Names(line, a)
  {
    hide Cells, Token, Rendered, Renderable, Names;
    var cells := Cells(Rendered(line));
    if t in TracksIn(cells, tracks) {
      var l :| 0 <= l < |cells| && Token(cells[l]) in tracks && tracks[Token(cells[l])] == t;
      LineNames(line, Token(cells[l]));
    }
    if a :| a in tracks && tracks[a] == t && Names(line, a) {
      LineNames(line, a);
      var l :| 0 <= l < |cells| && Token(cells[l]) == a;
    }
  }

  /** The tracks seen in a table are those of the executed systems its lines name. */
  lemma SeenInBlock(lines: seq<Line>, i: nat, j: nat, tracks: map<string, string>, t: string)
    requires Report(lines) && Block(lines, i, j)
    ensures t in Seen(Texts(lines)[i..j], tracks)
       <==> exists a :: a in tracks && tracks[a] == t && BlockNames(lines, i, j, a)
  {
    hide Cells, TracksIn, Rendered, Renderable, Names;
    var rows := Texts(lines)[i..j];
    if t in Seen(rows, tracks) {
      var k :| 0 <= k < |rows| && t in TracksIn(Cells(rows[k]), tracks);
      TracksInLine(lines[i + k], tracks, t);
      var a :| a in tracks && tracks[a] == t && Names(lines[i + k], a);
      assert BlockNames(lines, i, j, a);
    }
    if a :| a in tracks && tracks[a] == t && BlockNames(lines, i, j, a) {
      var k :| i <= k < j && Names(lines[k], a);
      TracksInLine(lines[k], tracks, t);
      assert rows[k - i] == Rendered(lines[k]);
    }
  }

  lemma BadBlocks(lines: seq<Line>, i: nat, j: nat, tracks: map<string, string>)
    requires Report(lines) && Block(lines, i, j)
    ensures Mixed(Texts(lines)[i..j], tracks)
       <==> exists a, b :: && a in tracks && b in tracks && tracks[a] != tracks[b]
                           && BlockNames(lines, i, j, a) && BlockNames(lines, i, j, b)
  {
    hide Seen, BlockNames, Report;
    var seen := Seen(Texts(lines)[i..j], tracks);
    forall t
      ensures t in seen <==> exists a :: a in tracks && tracks[a] == t && BlockNames(lines, i, j, a)
    {
      SeenInBlock(lines, i, j, tracks, t);
    }
    if Mixed(Texts(lines)[i..j], tracks) {
      var t, t' :| t in seen && t' in seen && t != t';
      var a :| a in tracks && tracks[a] == t && BlockNames(lines, i, j, a);
      var b :| b in tracks && tracks[b] == t' && BlockNames(lines, i, j, b);
    }
    if a, b :| a in tracks && b in tracks && tracks[a] != tracks[b]
               && BlockNames(lines, i, j, a) && BlockNames(lines, i, j, b) {
      assert tracks[a] in seen && tracks[b] in seen;
    }
  }

  /** The check on a rendered report: it raises (it finds a bad table in the document's lines)
      exactly when some table of the report, rules and all, names executed systems of two
      tracks. */
  lemma ReportIsCaught(lines: seq<Line>, systems: map<string, Entry>)
    requires Report(lines)
    ensures HasBadTable(SplitLines(Document(lines)), TracksOf(systems)) <==> MixesTracks(lines, TracksOf(systems))
  {
    var texts, tracks := Texts(lines), TracksOf(systems);
    TextsUnbroken(lines);
    LinesOfDocument(texts);
    hide SplitLines, TracksOf, Report, Texts, Terminated, Block, BlockNames, Mixed, IsTable;
    if HasBadTable(texts, tracks) {
      var i: nat, j: nat :| BadTable(texts, i, j, tracks);
      TablesAreBlocks(lines, i, j);
      BadBlocks(lines, i, j, tracks);
    }
    if i: nat, j: nat, a, b :| && Block(lines, i, j) && a in tracks && b in tracks && tracks[a] != tracks[b]
                               && BlockNames(lines, i, j, a) && BlockNames(lines, i, j, b) {
      TablesAreBlocks(lines, i, j);
      BadBlocks(lines, i, j, tracks);
      assert BadTable(texts, i, j, tracks);
    }
  }

  // ---------------------------------------------------------------------------
  // Any document
  // ---------------------------------------------------------------------------

  /** The text of pieces set end to end, each with its terminator. */
  function Rejoined(pieces: seq<string>, ends: seq<string>): string
    requires |pieces| == |ends|
  {
    if pieces == [] then "" else pieces[0] + ends[0] + Rejoined(pieces[1..], ends[1..])
  }

  /** A line break: a carriage return and line feed together, or one breaking character. */
  predicate IsBreak(end: string) {
    || end == "\r\n"
    || (&& |end| == 1
        && (|| end[0] in {'\U{A}', '\U{B}', '\U{C}', '\U{D}', '\U{1C}', '\U{1D}', '\U{1E}', '\U{85}'}
            || end[0] in {'\U{2028}', '\U{2029}'}))
  }

  /** These are the lines of the text with their breaks: the last may have none, a carriage return
      is never split from a line feed, and no line holds a break. */
  ghost predicate LinesOf(s: string, lines: seq<string>, ends: seq<string>) {
    && |lines| == |ends| && s == Rejoined(lines, ends)
    && forall i :: 0 <= i < |lines| ==>
         && Unbroken(lines[i])
         && (IsBreak(ends[i]) || (ends[i] == "" && i == |lines| - 1 && lines[i] != ""))
         && (ends[i] == "\r" && i + 1 < |lines| && lines[i + 1] == "" ==> ends[i + 1] != "\n")
  }

  lemma FirstBreakUnbroken(s: string)
    ensures Unbroken(s[..FirstBreak(s)])
  {
    if s == [] || Breaks(s[0]) {
    } else {
      FirstBreakUnbroken(s[1..]);
      assert forall k :: 1 <= k < FirstBreak(s) ==> s[k] == s[1..][..FirstBreak(s[1..])][k - 1];
    }
  }

  lemma FirstLine(s: string)
    requires FirstBreak(s) < |s|
    ensures var k := FirstBreak(s);
            var n := if s[k] == '\r' && k + 1 < |s| && s[k + 1] == '\n' then 2 else 1;
            SplitLines(s) == [s[..k]] + SplitLines(s[k + n..])
  {
    hide FirstBreak, Breaks;
  }

  lemma {:induction false} SplitLinesExactly(s: string) returns (ends: seq<string>)
    ensures LinesOf(s, SplitLines(s), ends)
    decreases |s|
  {
    var k := FirstBreak(s);
    FirstBreakUnbroken(s);
    if s == [] {
      ends := [];
    } else if k == |s| {
      ends := [""];
      assert s[..k] == s;
      assert Rejoined([s], [""]) == s + "" + Rejoined([], []) == s;
    } else {
      var n := if s[k] == '\r' && k + 1 < |s| && s[k + 1] == '\n' then 2 else 1;
      FirstLine(s);
      hide SplitLines, FirstBreak, LinesOf, Unbroken;
      var rest := SplitLinesExactly(s[k + n..]);
      ends := [s[k..k + n]] + rest;
      OneMoreLine(s, k, n, SplitLines(s[k + n..]), rest);
    }
  }

  lemma OneMoreLine(s: string, k: nat, n: nat, lines: seq<string>, ends: seq<string>)
    requires k < |s| && Unbroken(s[..k]) && Breaks(s[k])
    requires n == if s[k] == '\r' && k + 1 < |s| && s[k + 1] == '\n' then 2 else 1
    requires k + n <= |s| && LinesOf(s[k + n..], lines, ends)
    ensures LinesOf(s, [s[..k]] + lines, [s[k..k + n]] + ends)
  {
    hide Unbroken;
    assert s == s[..k] + s[k..k + n] + s[k + n..];
    var all, marks, end := [s[..k]] + lines, [s[k..k + n]] + ends, s[k..k + n];
    assert all[1..] == lines && marks[1..] == ends;
    assert Rejoined(all, marks) == s[..k] + end + s[k + n..] == s;
    assert IsBreak(end) by {
      if n == 2 {
        assert end == [s[k], s[k + 1]] == "\r\n";
      } else {
        assert end == [s[k]];
      }
    }
    forall i | 1 <= i < |all|
      ensures all[i] == lines[i - 1] && marks[i] == ends[i - 1]
    {
    }
  }

  /** Cells cut a stripped row at every bar: put bars between them and the row is back. */
  function Barred(pieces: seq<string>): string
    requires pieces != []
  {
    if |pieces| == 1 then pieces[0] else pieces[0] + "|" + Barred(pieces[1..])
  }

  lemma {:induction false} SplitExactly(s: string)
    ensures Barred(Split(s)) == s && forall k :: 0 <= k < |Split(s)| ==> '|' !in Split(s)[k]
  {
    if s == [] {
    } else {
      SplitExactly(s[1..]);
      hide Onto, Barred;
      OntoBarred(s[0], Split(s[1..]));
      assert s == [s[0]] + s[1..];
    }
  }

  lemma OntoBarred(c: char, parts: seq<string>)
    requires parts != [] && forall k :: 0 <= k < |parts| ==> '|' !in parts[k]
    ensures Barred(Onto(c, parts)) == [c] + Barred(parts)
    ensures forall k :: 0 <= k < |Onto(c, parts)| ==> '|' !in Onto(c, parts)[k]
  {
    var all := Onto(c, parts);
    if c == '|' {
      assert all[1..] == parts;
      assert "" + "|" + Barred(parts) == [c] + Barred(parts);
    } else if |parts| > 1 {
      assert all[1..] == parts[1..];
      assert [c] + parts[0] + "|" + Barred(parts[1..]) == [c] + (parts[0] + "|" + Barred(parts[1..]));
    }
  }

  /** A line is a row exactly when its first character that is no blank is a bar. */
  lemma {:induction false} IsRowExactly(line: string)
    ensures IsRow(line) <==> exists i :: 0 <= i < |line| && line[i] == '|' && forall k :: 0 <= k < i ==> Blank(line[k])
  {
    if line == [] {
    } else if Blank(line[0]) {
      var rest := line[1..];
      IsRowExactly(rest);
      assert IsRow(line) <==> IsRow(rest);
      hide IsRow;
      if i :| 0 <= i < |rest| && rest[i] == '|' && forall k :: 0 <= k < i ==> Blank(rest[k]) {
        assert line[i + 1] == '|' && forall k :: 0 <= k < i + 1 ==> Blank(line[k]);
      }
      if i :| 0 <= i < |line| && line[i] == '|' && forall k :: 0 <= k < i ==> Blank(line[k]) {
        assert rest[i - 1] == '|' && forall k :: 0 <= k < i - 1 ==> Blank(rest[k]);
      }
    } else {
    }
  }
}
