/** The streaming check that no rendered table mixes comparison tracks. */
module Tables {
  import opened Wrappers
  import opened Ordering

  // ---------------------------------------------------------------------------
  // Tracks
  // ---------------------------------------------------------------------------

  const MEMORY_STORE := "memory-store"
  const AGENT_MEMORY := "agent-memory"

  /** A system's entry in a report; a field may be missing. */
  datatype Entry = Entry(status: Option<string>, track: Option<string>, interface: Option<string>)

  function TrackForInterface(interface: string): string {
    if interface == "agent-loop" then AGENT_MEMORY else MEMORY_STORE
  }

  predicate Executed(e: Entry) {
    e.status == Some("executed")
  }

  /** The track stamped on an entry, or else the one its interface implies. */
  function TrackOf(e: Entry): string {
    match e.track
    case Some(track) => track
    case None => TrackForInterface(if e.interface.Some? then e.interface.value else "direct-api")
  }

  /** The executed systems of a report, each with its track. */
  function TracksOf(systems: map<string, Entry>): map<string, string> {
    map name | name in systems && Executed(systems[name]) :: TrackOf(systems[name])
  }

  /** A system has a track exactly when it was executed: the one stamped on it, or else
      agent-memory when it was driven by an agent loop and memory-store in any other case. */
  lemma TracksExactly(systems: map<string, Entry>, name: string)
    ensures name in TracksOf(systems) <==> name in systems && systems[name].status == Some("executed")
    ensures name in TracksOf(systems) ==>
              var e := systems[name];
              TracksOf(systems)[name]
              == if e.track.Some? then e.track.value
                 else if e.interface == Some("agent-loop") then "agent-memory"
                 else "memory-store"
  {
  }

  method SystemTracks(systems: map<string, Entry>) returns (tracks: map<string, string>)
    ensures tracks == TracksOf(systems)
  {
    tracks := map[];
    var left := systems.Keys;
    while left != {}
      invariant left <= systems.Keys
      invariant forall name :: name in tracks <==> name in systems && name !in left && Executed(systems[name])
      invariant forall name :: name in tracks ==> tracks[name] == TrackOf(systems[name])
      decreases left
    {
      var name :| name in left;
      if Executed(systems[name]) {
        tracks := tracks[name := TrackOf(systems[name])];
      }
      left := left - {name};
    }
  }

  // ---------------------------------------------------------------------------
  // Lines
  // ---------------------------------------------------------------------------

  /** The characters at which `splitlines` breaks. */
  predicate Breaks(c: char) {
    '\U{A}' <= c <= '\U{D}' || '\U{1C}' <= c <= '\U{1E}' || c in {'\U{85}', '\U{2028}', '\U{2029}'}
  }

  function FirstBreak(s: string): (k: nat)
    ensures k <= |s| && (k < |s| ==> Breaks(s[k]))
  {
    if s == [] || Breaks(s[0]) then 0 else 1 + FirstBreak(s[1..])
  }

  /** `s.splitlines()`. */
  function SplitLines(s: string): seq<string>
    decreases |s|
  {
    var k := FirstBreak(s);
    if s == [] then []
    else if k == |s| then [s]
    else [s[..k]] + SplitLines(s[k + (if s[k] == '\r' && k + 1 < |s| && s[k + 1] == '\n' then 2 else 1)..])
  }

  // ---------------------------------------------------------------------------
  // Rows and cells
  // ---------------------------------------------------------------------------

  predicate Blank(c: char) {
    '\U{9}' <= c <= '\U{D}' || '\U{1C}' <= c <= ' '
    || c in {'\U{85}', '\U{A0}', '\U{1680}', '\U{2028}', '\U{2029}', '\U{202F}', '\U{205F}', '\U{3000}'}
    || '\U{2000}' <= c <= '\U{200A}'
  }

  function LStrip(s: string, drop: char -> bool): string {
    if s != [] && drop(s[0]) then LStrip(s[1..], drop) else s
  }

  function RStrip(s: string, drop: char -> bool): string {
    if s != [] && drop(s[|s| - 1]) then RStrip(s[..|s| - 1], drop) else s
  }

  function Strip(s: string, drop: char -> bool): string {
    RStrip(LStrip(s, drop), drop)
  }

  predicate IsBar(c: char) {
    c == '|'
  }

  predicate IsTick(c: char) {
    c == '`'
  }

  /** The pieces of a text that starts with `c`, from those of the rest. */
  function Onto(c: char, parts: seq<string>): (r: seq<string>)
    requires parts != []
    ensures r != []
  {
    if c == '|' then [""] + parts else [[c] + parts[0]] + parts[1..]
  }

  /** `s.split("|")`. */
  function Split(s: string): (parts: seq<string>)
    ensures parts != []
  {
    if s == [] then [""] else Onto(s[0], Split(s[1..]))
  }

  predicate IsRow(line: string) {
    var s := LStrip(line, Blank);
    s != [] && s[0] == '|'
  }

  function Token(raw: string): string {
    Strip(Strip(raw, Blank), IsTick)
  }

  function Cells(row: string): seq<string> {
    Split(Strip(Strip(row, Blank), IsBar))
  }

  /** The tracks of the executed systems that cells name. */
  function TracksIn(cells: seq<string>, tracks: map<string, string>): set<string> {
    set k | 0 <= k < |cells| && Token(cells[k]) in tracks :: tracks[Token(cells[k])]
  }

  function Seen(rows: seq<string>, tracks: map<string, string>): set<string> {
    set i, t | 0 <= i < |rows| && t in TracksIn(Cells(rows[i]), tracks) :: t
  }

  lemma TracksInNext(cells: seq<string>, k: nat, tracks: map<string, string>)
    requires k < |cells|
    ensures TracksIn(cells[..k + 1], tracks)
         == TracksIn(cells[..k], tracks) + if Token(cells[k]) in tracks then {tracks[Token(cells[k])]} else {}
  {
  }

  lemma SeenNext(rows: seq<string>, i: nat, tracks: map<string, string>)
    requires i < |rows|
    ensures Seen(rows[..i + 1], tracks) == Seen(rows[..i], tracks) + TracksIn(Cells(rows[i]), tracks)
  {
    hide TracksIn, Cells;
    var more := rows[..i + 1];
    assert more[i] == rows[i] && forall j :: 0 <= j < i ==> more[j] == rows[..i][j];
  }

  method SeenIn(rows: seq<string>, tracks: map<string, string>) returns (seen: set<string>)
    ensures seen == Seen(rows, tracks)
  {
    hide Cells, Token;
    seen := {};
    for i := 0 to |rows|
      invariant seen == Seen(rows[..i], tracks)
    {
      var cells := Cells(rows[i]);
      for k := 0 to |cells|
        invariant seen == Seen(rows[..i], tracks) + TracksIn(cells[..k], tracks)
      {
        var token := Token(cells[k]);
        TracksInNext(cells, k, tracks);
        if token in tracks {
          seen := seen + {tracks[token]};
        }
      }
      assert cells[..|cells|] == cells;
      SeenNext(rows, i, tracks);
    }
    assert rows[..|rows|] == rows;
  }

  // ---------------------------------------------------------------------------
  // The check
  // ---------------------------------------------------------------------------

  /** The check passes, or raises naming the mixed tracks in order. */
  datatype Verdict = Passed | Raised(tracks: seq<string>)

  /** Lines i to j are a table: a maximal run of rows. */
  ghost predicate IsTable(lines: seq<string>, i: nat, j: nat) {
    && i < j <= |lines|
    && (forall k :: i <= k < j ==> IsRow(lines[k]))
    && (i == 0 || !IsRow(lines[i - 1]))
    && (j == |lines| || !IsRow(lines[j]))
  }

  /** Two cells of these rows name executed systems of different tracks. */
  ghost predicate Mixed(rows: seq<string>, tracks: map<string, string>) {
    exists t, t' :: t in Seen(rows, tracks) && t' in Seen(rows, tracks) && t != t'
  }

  lemma MixedIsSeveral(rows: seq<string>, tracks: map<string, string>)
    ensures Mixed(rows, tracks) <==> |Seen(rows, tracks)| > 1
  {
    var seen := Seen(rows, tracks);
    if seen != {} {
      var t :| t in seen;
      assert |seen - {t}| == |seen| - 1;
      if |seen| > 1 {
        var t' :| t' in seen - {t};
      } else {
        assert seen - {t} == {};
        assert forall t' :: t' in seen ==> t' == t || t' in seen - {t};
      }
    }
  }

  /** Lines i to j are a table naming systems of two tracks. */
  ghost predicate BadTable(lines: seq<string>, i: nat, j: nat, tracks: map<string, string>) {
    IsTable(lines, i, j) && Mixed(lines[i..j], tracks)
  }

  /** What the check raises about: the tracks, in order, of the first such table. */
  ghost predicate NamesFirst(lines: seq<string>, i: nat, j: nat, tracks: map<string, string>, named: seq<string>) {
    && BadTable(lines, i, j, tracks)
    && (forall i': nat, j': nat :: BadTable(lines, i', j', tracks) ==> j <= j')
    && Sorted(LexLeq, named) && |named| == |Seen(lines[i..j], tracks)|
    && forall t :: t in named <==> t in Seen(lines[i..j], tracks)
  }

  ghost predicate HasBadTable(lines: seq<string>, tracks: map<string, string>) {
    exists i: nat, j: nat :: BadTable(lines, i, j, tracks)
  }

  ghost predicate NamesFirstBad(lines: seq<string>, tracks: map<string, string>, named: seq<string>) {
    exists i: nat, j: nat :: NamesFirst(lines, i, j, tracks, named)
  }

  /** The run of rows still open when line `n` comes starts at `start`. */
  ghost predicate Open(lines: seq<string>, start: nat, n: nat) {
    && start <= n <= |lines|
    && (forall k :: start <= k < n ==> IsRow(lines[k]))
    && (start == 0 || !IsRow(lines[start - 1]))
  }

  lemma OpenEnds(lines: seq<string>, start: nat, n: nat)
    requires Open(lines, start, n) && start < n && (n == |lines| || !IsRow(lines[n]))
    ensures IsTable(lines, start, n)
  {
  }

  /** No table but the open run can end at line `n`. */
  lemma PastLine(lines: seq<string>, start: nat, n: nat, tracks: map<string, string>)
    requires Open(lines, start, n)
    requires start < n && (n == |lines| || !IsRow(lines[n])) ==> !Mixed(lines[start..n], tracks)
    ensures forall i: nat :: !BadTable(lines, i, n, tracks)
  {
  }

  lemma Caught(lines: seq<string>, i: nat, j: nat, tracks: map<string, string>, named: seq<string>)
    requires NamesFirst(lines, i, j, tracks, named)
    ensures HasBadTable(lines, tracks) && NamesFirstBad(lines, tracks, named)
  {
  }

  lemma NoneCaught(lines: seq<string>, tracks: map<string, string>)
    requires forall i: nat, j: nat :: BadTable(lines, i, j, tracks) ==> |lines| < j
    ensures !HasBadTable(lines, tracks)
  {
    hide IsRow, Mixed;
  }

  /** The streaming check raises exactly when some maximal block of table rows, one that ends
      with the document included, names executed systems of two tracks; and what it names is
      the tracks of the first such block. */
  method AssertNoCrossTrackTable(markdown: string, systems: map<string, Entry>) returns (v: Verdict)
    ensures v.Raised? <==> HasBadTable(SplitLines(markdown), TracksOf(systems))
    ensures v.Raised? ==> NamesFirstBad(SplitLines(markdown), TracksOf(systems), v.tracks)
  {
    LexIsTotalOrder();
    hide IsRow, Seen, SplitLines, LexLeq, TotalOrder, Mixed, TracksOf, HasBadTable, NamesFirstBad;
    var tracks := SystemTracks(systems);
    var lines := SplitLines(markdown);
    var table: seq<string> := [];
    ghost var start := 0;
    for n := 0 to |lines| + 1
      invariant n <= |lines| ==> Open(lines, start, n) && table == lines[start..n]
      invariant forall i: nat, j: nat :: BadTable(lines, i, j, tracks) ==> n <= j
    {
      if n < |lines| && IsRow(lines[n]) {
        PastLine(lines, start, n, tracks);
        table := table + [lines[n]];
      } else {
        if table != [] {
          var seen := SeenIn(table, tracks);
          MixedIsSeveral(table, tracks);
          if |seen| > 1 {
            OpenEnds(lines, start, n);
            ElementsAreSorted(LexLeq, seen);
            v := Raised(SortedElements(LexLeq, seen));
            Caught(lines, start, n, tracks, v.tracks);
            return;
          }
        }
        PastLine(lines, start, n, tracks);
        table := [];
        start := n + 1;
      }
    }
    NoneCaught(lines, tracks);
    v := Passed;
  }
}
