/** Reading the distance matrix out of the text that `numactl -H` prints. */
module Numactl {
  import opened Options
  import opened Text
  import opened NumaClusters

  const HEADING: string := "node distances:"
  const COLUMNS: string := "node "

  // ----- Words -----------------------------------------------------------------------------------------

  /** How far the leading non-space characters reach. */
  function WordEnd(s: string): (k: nat)
    ensures k <= |s|
  {
    if s == "" || IsSpace(s[0]) then 0 else 1 + WordEnd(s[1..])
  }

  lemma StripLeftShrinks(s: string)
    ensures |StripLeft(s)| <= |s|
    ensures StripLeft(s) != "" ==> !IsSpace(StripLeft(s)[0]) && WordEnd(StripLeft(s)) > 0
  {
  }

  /** `split()`: the pieces between runs of white space. */
  function Words(s: string): seq<string>
    decreases |s|
  {
    StripLeftShrinks(s);
    var t := StripLeft(s);
    if t == "" then [] else [t[..WordEnd(t)]] + Words(t[WordEnd(t)..])
  }

  function StripColons(s: string): string {
    if s != "" && s[|s| - 1] == ':' then StripColons(s[..|s| - 1]) else s
  }

  function ParseInts(words: seq<string>): Option<seq<int>> {
    if words == [] then Some([])
    else
      match (ParseInts(words[..|words| - 1]), ParseInt(words[|words| - 1]))
      case (Some(xs), Some(x)) => Some(xs + [x])
      case _ => None
  }

  // ----- The matrix --------------------------------------------------------------------------------------

  /** What one line of the matrix says: nothing, an error, or a row. */
  datatype Line = Short | Malformed | Row(row: MatrixRow)

  function ParseRow(line: string): Line {
    var parts := Words(line);
    if |parts| < 2 then Short
    else
      match (ParseInt(StripColons(parts[0])), ParseInts(parts[1..]))
      case (Some(id), Some(dists)) => Row(MatrixRow(id, dists))
      case _ => Malformed
  }

  function Joined(rows: seq<MatrixRow>, more: Option<seq<MatrixRow>>): Option<seq<MatrixRow>> {
    if more.None? then None else Some(rows + more.value)
  }

  /** The rows of the lines from here on; `started` once the heading has been seen. */
  function Rows(lines: seq<string>, started: bool): Option<seq<MatrixRow>> {
    if lines == [] then Some([])
    else
      var line, rest := lines[0], lines[1..];
      if StartsWith(line, HEADING) then Rows(rest, true)
      else if !started || StartsWith(line, COLUMNS) then Rows(rest, started)
      else if Strip(line) == "" then Some([])
      else
        match ParseRow(line)
        case Short => Rows(rest, true)
        case Malformed => None
        case Row(row) => Joined([row], Rows(rest, true))
  }

  method ReadInts(words: seq<string>) returns (r: Option<seq<int>>)
    ensures r == ParseInts(words)
  {
    var xs: seq<int> := [];
    for i := 0 to |words|
      invariant ParseInts(words[..i]) == Some(xs)
    {
      assert words[..i + 1][..i] == words[..i];
      var x := ParseInt(words[i]);
      if x.None? {
        IntsStop(words, i + 1);
        return None;
      }
      xs := xs + [x.value];
    }
    assert words[..|words|] == words;
    return Some(xs);
  }

  lemma {:induction false} IntsStop(words: seq<string>, i: nat)
    requires i <= |words| && ParseInts(words[..i]).None?
    ensures ParseInts(words).None?
    decreases |words| - i
  {
    if i == |words| {
      assert words[..i] == words;
    } else {
      assert words[..i + 1][..i] == words[..i];
      IntsStop(words, i + 1);
    }
  }

  lemma RowsStep(lines: seq<string>, i: nat, started: bool)
    requires i < |lines|
    ensures var line := lines[i];
            Rows(lines[i..], started) ==
            if StartsWith(line, HEADING) then Rows(lines[i + 1..], true)
            else if !started || StartsWith(line, COLUMNS) then Rows(lines[i + 1..], started)
            else if Strip(line) == "" then Some([])
            else
              var parsed := ParseRow(line);
              if parsed.Short? then Rows(lines[i + 1..], true)
              else if parsed.Malformed? then None
              else Joined([parsed.row], Rows(lines[i + 1..], true))
  {
    assert lines[i..][0] == lines[i] && lines[i..][1..] == lines[i + 1..];
  }

  lemma JoinedTwice(rows: seq<MatrixRow>, row: MatrixRow, more: Option<seq<MatrixRow>>)
    ensures Joined(rows + [row], more) == Joined(rows, Joined([row], more))
    ensures Joined([], more) == more && Joined(rows, Some([])) == Some(rows)
  {
    assert rows + [] == rows;
    if more.Some? {
      assert rows + [row] + more.value == rows + ([row] + more.value);
      assert [] + more.value == more.value;
    }
  }

  /** The loop over the lines; a number that does not parse is an error. */
  method ReadRows(lines: seq<string>) returns (r: Option<seq<MatrixRow>>)
    ensures r == Rows(lines, false)
  {
    hide ParseRow, Strip, Words, StripColons, ParseInt, ParseInts, StartsWith, Rows;
    var rows: seq<MatrixRow> := [];
    var started := false;
    assert lines[0..] == lines;
    JoinedTwice([], MatrixRow(0, []), Rows(lines, false));
    for i := 0 to |lines|
      invariant Joined(rows, Rows(lines[i..], started)) == Rows(lines, false)
    {
      var line := lines[i];
      RowsStep(lines, i, started);
      if StartsWith(line, HEADING) {
        started := true;
      } else if started && !StartsWith(line, COLUMNS) {
        if Strip(line) == "" {
          JoinedTwice(rows, MatrixRow(0, []), None);
          return Some(rows);
        }
        var parts := Words(line);
        RowMeans(line);
        if |parts| >= 2 {
          var id := ParseInt(StripColons(parts[0]));
          var dists := ReadInts(parts[1..]);
          if id.None? || dists.None? {
            return None;
          }
          var row := MatrixRow(id.value, dists.value);
          JoinedTwice(rows, row, Rows(lines[i + 1..], true));
          rows := rows + [row];
        }
      }
    }
    RowsEnd();
    assert lines[|lines|..] == [];
    JoinedTwice(rows, MatrixRow(0, []), None);
    return Some(rows);
  }

  lemma RowsEnd()
    ensures forall started :: Rows([], started) == Some([])
  {
  }

  lemma RowMeans(line: string)
    ensures var parts := Words(line);
            if |parts| < 2 then ParseRow(line) == Short
            else
              var id, dists := ParseInt(StripColons(parts[0])), ParseInts(parts[1..]);
              ParseRow(line) == if id.Some? && dists.Some? then Row(MatrixRow(id.value, dists.value)) else Malformed
  {
  }

  /** `_parse_numa_distances` on the printed lines: an error, or the table of the rows found. */
  method ParseNumaDistancesText(lines: seq<string>) returns (d: Option<Distances>)
    ensures d.Some? <==> Rows(lines, false).Some?
    ensures d.Some? ==> Symmetric(d.value) && Holds(d.value, Entries(Rows(lines, false).value))
  {
    var rows := ReadRows(lines);
    if rows.None? {
      return None;
    }
    var table := ParseNumaDistances(rows.value);
    return Some(table);
  }

  // ----- A printed matrix is read back -------------------------------------------------------------------

  function Spaces(k: nat): string {
    seq(k, _ => ' ')
  }

  /** A row as it is printed, with some spaces before the id and at least one before each distance. */
  datatype Printed = Printed(indent: nat, id: nat, cells: seq<(nat, nat)>)

  function Cells(cells: seq<(nat, nat)>): string {
    if cells == [] then "" else Spaces(cells[0].0 + 1) + Itoa(cells[0].1) + Cells(cells[1..])
  }

  function RowText(p: Printed): string {
    Spaces(p.indent) + (Itoa(p.id) + ":") + Cells(p.cells)
  }

  function Numbers(cells: seq<(nat, nat)>): seq<int> {
    if cells == [] then [] else [cells[0].1] + Numbers(cells[1..])
  }

  function Digits(cells: seq<(nat, nat)>): seq<string> {
    if cells == [] then [] else [Itoa(cells[0].1)] + Digits(cells[1..])
  }

  predicate Solid(w: string) {
    w != "" && forall i | 0 <= i < |w| :: !IsSpace(w[i])
  }

  lemma {:induction false} WordEnds(w: string, rest: string)
    requires (forall i | 0 <= i < |w| :: !IsSpace(w[i])) && (rest == "" || IsSpace(rest[0]))
    ensures WordEnd(w + rest) == |w|
  {
    if w == "" {
      assert w + rest == rest;
    } else {
      assert (w + rest)[1..] == w[1..] + rest;
      WordEnds(w[1..], rest);
    }
  }

  lemma {:induction false} SpacesStrip(k: nat, t: string)
    requires t != "" && !IsSpace(t[0])
    ensures StripLeft(Spaces(k) + t) == t
  {
    if k == 0 {
      assert Spaces(0) + t == t;
    } else {
      assert (Spaces(k) + t)[1..] == Spaces(k - 1) + t;
      SpacesStrip(k - 1, t);
    }
  }

  /** Any spaces, a word, and then the end or a space: the word comes off. */
  lemma WordOff(k: nat, w: string, rest: string)
    requires Solid(w) && (rest == "" || IsSpace(rest[0]))
    ensures Words(Spaces(k) + w + rest) == [w] + Words(rest)
  {
    var t := w + rest;
    assert Spaces(k) + w + rest == Spaces(k) + t;
    SpacesStrip(k, t);
    WordEnds(w, rest);
    assert t[..|w|] == w && t[|w|..] == rest;
  }

  lemma ItoaSolid(n: nat)
    ensures Solid(Itoa(n)) && Solid(Itoa(n) + ":") && Itoa(n)[|Itoa(n)| - 1] != ':'
  {
    ItoaValue(n);
    forall i | 0 <= i < |Itoa(n)|
      ensures !IsSpace(Itoa(n)[i]) && Itoa(n)[i] != ':'
    {
      assert IsDigit(Itoa(n)[i]);
    }
  }

  lemma {:induction false} CellWords(cells: seq<(nat, nat)>)
    ensures Words(Cells(cells)) == Digits(cells) && (Cells(cells) == "" || IsSpace(Cells(cells)[0]))
  {
    if cells == [] {
    } else {
      CellWords(cells[1..]);
      ItoaSolid(cells[0].1);
      WordOff(cells[0].0 + 1, Itoa(cells[0].1), Cells(cells[1..]));
    }
  }

  lemma {:induction false} DigitsParse(cells: seq<(nat, nat)>)
    ensures ParseInts(Digits(cells)) == Some(Numbers(cells)) && |Digits(cells)| == |cells|
  {
    if cells == [] {
    } else {
      var last, init := cells[|cells| - 1], cells[..|cells| - 1];
      DigitsParse(init);
      ItoaRoundTrip(last.1);
      DigitsLast(cells);
    }
  }

  lemma {:induction false} DigitsLast(cells: seq<(nat, nat)>)
    requires cells != []
    ensures Digits(cells) == Digits(cells[..|cells| - 1]) + [Itoa(cells[|cells| - 1].1)]
    ensures Numbers(cells) == Numbers(cells[..|cells| - 1]) + [cells[|cells| - 1].1]
  {
    if |cells| == 1 {
    } else {
      DigitsLast(cells[1..]);
      assert cells[1..][..|cells| - 2] == cells[..|cells| - 1][1..];
    }
  }

  /** A printed row is one row of the matrix ... */
  lemma RowRead(p: Printed)
    requires p.cells != []
    ensures ParseRow(RowText(p)) == Row(MatrixRow(p.id, Numbers(p.cells)))
  {
    hide Words, StripColons, ParseInt, ParseInts, Numbers, Digits, Cells, Itoa;
    var head, cells := Itoa(p.id) + ":", Cells(p.cells);
    ItoaSolid(p.id);
    CellWords(p.cells);
    WordOff(p.indent, head, cells);
    DigitsParse(p.cells);
    assert ([head] + Digits(p.cells))[1..] == Digits(p.cells);
    ColonOff(Itoa(p.id));
    ItoaRoundTrip(p.id);
    RowMeans(RowText(p));
  }

  /** ... and no heading, column line or blank. */
  lemma RowIsBody(p: Printed)
    ensures !StartsWith(RowText(p), HEADING) && !StartsWith(RowText(p), COLUMNS) && Strip(RowText(p)) != ""
  {
    hide Cells, Itoa;
    var head, cells := Itoa(p.id) + ":", Cells(p.cells);
    RowStarts(p);
    ItoaSolid(p.id);
    assert Spaces(p.indent) + head + cells == Spaces(p.indent) + (head + cells);
    SpacesStrip(p.indent, head + cells);
    StripSolid(head + cells);
  }

  lemma ColonOff(s: string)
    requires s != "" && s[|s| - 1] != ':'
    ensures StripColons(s + ":") == s
  {
    assert ":" == seq(1, _ => ':');
    ColonsOff(s, 1);
  }

  /** All colons at the end come off, and nothing else. */
  lemma {:induction false} ColonsOff(s: string, k: nat)
    requires s == "" || s[|s| - 1] != ':'
    ensures StripColons(s + seq(k, _ => ':')) == s
  {
    if k == 0 {
      assert s + seq(0, _ => ':') == s;
    } else {
      ColonsOff(s, k - 1);
      assert (s + seq(k, _ => ':'))[..|s| + k - 1] == s + seq(k - 1, _ => ':');
    }
  }

  lemma RowStarts(p: Printed)
    ensures RowText(p) != "" && RowText(p)[0] != 'n'
  {
    ItoaValue(p.id);
    assert IsDigit(Itoa(p.id)[0]);
    assert p.indent == 0 ==> RowText(p)[0] == Itoa(p.id)[0];
    assert p.indent > 0 ==> RowText(p)[0] == Spaces(p.indent)[0] == ' ';
  }

  lemma {:induction false} StripSolid(t: string)
    requires t != "" && !IsSpace(t[0])
    ensures StripRight(t) != ""
  {
    if |t| == 1 || !IsSpace(t[|t| - 1]) {
    } else {
      StripSolid(t[..|t| - 1]);
    }
  }

  function Lines(ps: seq<Printed>): seq<string> {
    if ps == [] then [] else [RowText(ps[0])] + Lines(ps[1..])
  }

  function RowsOf(ps: seq<Printed>): seq<MatrixRow> {
    if ps == [] then [] else [MatrixRow(ps[0].id, Numbers(ps[0].cells))] + RowsOf(ps[1..])
  }

  lemma {:induction false} BodyRead(ps: seq<Printed>, tail: seq<string>)
    requires forall i | 0 <= i < |ps| :: ps[i].cells != []
    requires tail == [] || (Strip(tail[0]) == "" && !StartsWith(tail[0], HEADING) && !StartsWith(tail[0], COLUMNS))
    ensures Rows(Lines(ps) + tail, true) == Some(RowsOf(ps))
  {
    hide ParseRow, Strip, RowText, StartsWith;
    if ps == [] {
      assert Lines(ps) + tail == tail;
    } else {
      RowRead(ps[0]);
      RowIsBody(ps[0]);
      BodyRead(ps[1..], tail);
      assert (Lines(ps) + tail)[1..] == Lines(ps[1..]) + tail;
    }
  }

  /**
   Whatever comes before the heading and after the blank line that ends the matrix, a printed matrix
   is read back row by row, however it is aligned.
   */
  lemma {:induction false} MatrixRead(before: seq<string>, columns: string, ps: seq<Printed>, tail: seq<string>)
    requires forall i | 0 <= i < |before| :: !StartsWith(before[i], "node distances:")
    requires StartsWith(columns, "node ") && !StartsWith(columns, "node distances:")
    requires forall i | 0 <= i < |ps| :: ps[i].cells != []
    requires tail == [] || (Strip(tail[0]) == "" && !StartsWith(tail[0], HEADING) && !StartsWith(tail[0], COLUMNS))
    ensures Rows(before + (["node distances:", columns] + (Lines(ps) + tail)), false) == Some(RowsOf(ps))
  {
    hide ParseRow, Strip, RowText, Lines, RowsOf, StartsWith;
    var rest := Lines(ps) + tail;
    var body := [HEADING, columns] + rest;
    if before == [] {
      BodyRead(ps, tail);
      assert before + body == body;
      HeadingRead(columns, rest);
    } else {
      MatrixRead(before[1..], columns, ps, tail);
      assert (before + body)[1..] == before[1..] + body;
    }
  }

  lemma HeadingRead(columns: string, rest: seq<string>)
    requires StartsWith(columns, COLUMNS) && !StartsWith(columns, HEADING)
    ensures Rows([HEADING, columns] + rest, false) == Rows(rest, true)
  {
    hide ParseRow, Strip;
    var lines := [HEADING, columns] + rest;
    assert lines[1..] == [columns] + rest && lines[1..][1..] == rest;
    assert StartsWith(HEADING, HEADING);
  }

  // ----- What else the lines may be ----------------------------------------------------------------------

  /** A row is a node id, colons and all, and one number or more; other words make it an error. */
  lemma RowParsesIff(line: string)
    ensures var parts := Words(line);
            && (ParseRow(line) == Short <==> |parts| < 2)
            && (ParseRow(line).Row? <==>
                |parts| >= 2 && ParseInt(StripColons(parts[0])).Some?
                && forall i | 1 <= i < |parts| :: ParseInt(parts[i]).Some?)
            && (ParseRow(line).Row? ==>
                && ParseRow(line).row.id == ParseInt(StripColons(parts[0])).value
                && |ParseRow(line).row.dists| == |parts| - 1
                && forall i | 1 <= i < |parts| :: ParseRow(line).row.dists[i - 1] == ParseInt(parts[i]).value)
  {
    hide Words, StripColons, ParseInt;
    var parts := Words(line);
    if |parts| >= 2 {
      IntsMean(parts[1..]);
      assert forall i | 1 <= i < |parts| :: parts[i] == parts[1..][i - 1];
    }
  }

  lemma {:induction false} IntsMean(words: seq<string>)
    ensures ParseInts(words).Some? <==> forall i | 0 <= i < |words| :: ParseInt(words[i]).Some?
    ensures ParseInts(words).Some? ==>
              && |ParseInts(words).value| == |words|
              && forall i | 0 <= i < |words| :: ParseInts(words).value[i] == ParseInt(words[i]).value
  {
    hide ParseInt;
    if words == [] {
    } else {
      IntsMean(words[..|words| - 1]);
    }
  }

  /** Whether a line within the matrix is one of its rows, or at least no heading, column line or blank. */
  predicate Body(line: string) {
    !("node distances:" <= line) && !("node " <= line) && Strip(line) != ""
  }

  /**
   Once the heading has been seen, the lines up to the first blank one decide: an error if one of them is
   malformed, else the rows of those long enough, in order.
   */
  lemma {:induction false} BodyMeans(lines: seq<string>, tail: seq<string>)
    requires forall i | 0 <= i < |lines| :: Body(lines[i])
    requires tail == [] || (Strip(tail[0]) == "" && !("node distances:" <= tail[0]) && !("node " <= tail[0]))
    ensures Rows(lines + tail, true).None? <==> exists i | 0 <= i < |lines| :: ParseRow(lines[i]).Malformed?
    ensures Rows(lines + tail, true).Some? ==> Rows(lines + tail, true).value == Kept(lines)
  {
    hide ParseRow, Strip;
    if lines == [] {
      assert lines + tail == tail;
    } else {
      BodyMeans(lines[1..], tail);
      assert (lines + tail)[1..] == lines[1..] + tail;
    }
  }

  function Kept(lines: seq<string>): seq<MatrixRow> {
    if lines == [] then []
    else (match ParseRow(lines[0]) case Row(row) => [row] case _ => []) + Kept(lines[1..])
  }

  /** Without the heading nothing is read, and nothing can go wrong. */
  lemma {:induction false} NoHeadingNoRows(lines: seq<string>)
    requires forall i | 0 <= i < |lines| :: !("node distances:" <= lines[i])
    ensures Rows(lines, false) == Some([])
  {
    hide ParseRow, Strip;
    if lines == [] {
    } else {
      NoHeadingNoRows(lines[1..]);
    }
  }

  /** A second heading or column line within the matrix changes nothing. */
  lemma HeadingsSkipped(line: string, rest: seq<string>)
    ensures "node distances:" <= line || "node " <= line ==> Rows([line] + rest, true) == Rows(rest, true)
    ensures "node distances:" <= line ==> Rows([line] + rest, false) == Rows(rest, true)
  {
    hide ParseRow, Strip;
    assert ([line] + rest)[1..] == rest;
  }
}
