/** CPU and NUMA sets as range strings such as "1-3,5": printing, parsing, and the canonical form. */
module RangeString {
  import opened Options
  import opened Text
  import opened Sequences
  import opened Sorting

  datatype Range = Range(lo: nat, hi: nat)

  predicate NonNegative(s: seq<int>) {
    forall i | 0 <= i < |s| :: s[i] >= 0
  }

  // ----- Printing ------------------------------------------------------------------------------------

  function PrintRange(r: Range): string {
    if r.lo != r.hi then Itoa(r.lo) + "-" + Itoa(r.hi) else Itoa(r.lo)
  }

  function PrintAll(rs: seq<Range>): seq<string> {
    seq(|rs|, i requires 0 <= i < |rs| => PrintRange(rs[i]))
  }

  /** The scan over a sorted list: the finished ranges and the current one. */
  datatype Scan = Scan(done: seq<Range>, last: Range)

  function Advance(s: Scan, cpu: nat): Scan {
    if cpu > s.last.hi + 1 then Scan(s.done + [s.last], Range(cpu, cpu)) else s.(last := s.last.(hi := cpu))
  }

  function ScanOf(xs: seq<int>): Scan
    requires xs != [] && NonNegative(xs)
  {
    if |xs| == 1 then Scan([], Range(xs[0], xs[0])) else Advance(ScanOf(xs[..|xs| - 1]), xs[|xs| - 1])
  }

  function RangesOf(xs: seq<int>): seq<Range>
    requires NonNegative(xs)
  {
    if xs == [] then [] else ScanOf(xs).done + [ScanOf(xs).last]
  }

  function Print(list: seq<int>): string
    requires NonNegative(Sort(list))
  {
    Join(PrintAll(RangesOf(Sort(list))), ',')
  }

  lemma SortNonNegative(list: seq<int>)
    requires NonNegative(list)
    ensures NonNegative(Sort(list))
  {
    SortFacts(list);
    forall i | 0 <= i < |Sort(list)|
      ensures Sort(list)[i] >= 0
    {
      assert Sort(list)[i] in Sort(list);
    }
  }

  method ListToRangeStr(list: seq<int>) returns (text: string)
    requires NonNegative(list)
    ensures NonNegative(Sort(list)) && text == Print(list)
  {
    SortNonNegative(list);
    var sorted := Sort(list);
    if |sorted| == 0 {
      return "";
    }
    var ranges: seq<Range> := [];
    var lastStart, lastEnd := sorted[0], sorted[0];
    for i := 0 to |sorted|
      invariant i == 0 ==> ranges == [] && lastStart == lastEnd == sorted[0]
      invariant i > 0 ==> NonNegative(sorted[..i]) && lastStart >= 0 && lastEnd >= 0
      invariant i > 0 ==> ScanOf(sorted[..i]) == Scan(ranges, Range(lastStart, lastEnd))
    {
      var cpu := sorted[i];
      assert i > 0 ==> sorted[..i + 1][..i] == sorted[..i];
      if cpu > lastEnd + 1 {
        ranges := ranges + [Range(lastStart, lastEnd)];
        lastStart, lastEnd := cpu, cpu;
      } else {
        lastEnd := cpu;
      }
    }
    assert sorted[..|sorted|] == sorted;
    ranges := ranges + [Range(lastStart, lastEnd)];
    text := Join(PrintAll(ranges), ',');
  }

  // ----- Parsing -------------------------------------------------------------------------------------

  function Between(lo: int, hi: int): (r: set<int>)
    ensures forall x :: x in r <==> lo <= x <= hi
    decreases hi - lo
  {
    if lo > hi then {} else Between(lo, hi - 1) + {hi}
  }

  /** One piece between commas; an empty one adds nothing, a malformed one is an error. */
  function ParsePiece(piece: string): Option<set<int>> {
    var ends := Split(Strip(piece), '-');
    if |ends| == 1 then
      if ends[0] == "" then Some({})
      else match ParseInt(ends[0])
        case None => None
        case Some(x) => Some({x})
    else if |ends| == 2 then
      match (ParseInt(ends[0]), ParseInt(ends[1]))
      case (Some(lo), Some(hi)) => Some(Between(lo, hi))
      case _ => None
    else None
  }

  function ParsePieces(pieces: seq<string>): Option<set<int>> {
    if pieces == [] then Some({})
    else match (ParsePieces(pieces[..|pieces| - 1]), ParsePiece(pieces[|pieces| - 1]))
      case (Some(a), Some(b)) => Some(a + b)
      case _ => None
  }

  function Parse(s: string): Option<set<int>> {
    ParsePieces(Split(s, ','))
  }

  lemma {:induction false} ParseStops(pieces: seq<string>, i: nat)
    requires i <= |pieces| && ParsePieces(pieces[..i]).None?
    ensures ParsePieces(pieces).None?
    decreases |pieces| - i
  {
    if i < |pieces| {
      assert pieces[..i + 1][..i] == pieces[..i];
      ParseStops(pieces, i + 1);
    } else {
      assert pieces[..i] == pieces;
    }
  }

  method RangeStrToList(s: string) returns (result: Option<set<int>>)
    ensures result == Parse(s)
  {
    hide ParsePiece;
    var ans: set<int> := {};
    var pieces := Split(s, ',');
    for i := 0 to |pieces|
      invariant ParsePieces(pieces[..i]) == Some(ans)
    {
      assert pieces[..i + 1][..i] == pieces[..i];
      var piece := ParsePiece(pieces[i]);
      if piece.None? {
        ParseStops(pieces, i + 1);
        return None;
      }
      ans := ans + piece.value;
    }
    assert pieces[..|pieces|] == pieces;
    return Some(ans);
  }

  // ----- The ranges are maximal and cover exactly the list ---------------------------------------------

  predicate Covers(rs: seq<Range>, x: int) {
    exists i :: 0 <= i < |rs| && rs[i].lo <= x <= rs[i].hi
  }

  /** Ascending ranges with a gap between neighbours: none could be joined. */
  predicate Canonical(rs: seq<Range>) {
    && (forall i | 0 <= i < |rs| :: rs[i].lo <= rs[i].hi)
    && (forall i, j | 0 <= i < j < |rs| :: rs[i].hi + 1 < rs[j].lo)
  }

  lemma CoversAppend(rs: seq<Range>, r: Range, x: int)
    ensures Covers(rs + [r], x) <==> Covers(rs, x) || r.lo <= x <= r.hi
  {
    if Covers(rs, x) {
      var i :| 0 <= i < |rs| && rs[i].lo <= x <= rs[i].hi;
      assert (rs + [r])[i] == rs[i];
    }
    if r.lo <= x <= r.hi {
      assert (rs + [r])[|rs|] == r;
    }
  }

  lemma {:induction false} ScanFacts(xs: seq<int>, x: int)
    requires xs != [] && NonNegative(xs) && Sorted(xs)
    ensures var s := ScanOf(xs);
            && Canonical(s.done + [s.last]) && s.last.hi == xs[|xs| - 1]
            && (Covers(s.done + [s.last], x) <==> x in xs)
  {
    var n := |xs| - 1;
    if n == 0 {
      assert Covers([], x) == false;
      CoversAppend([], Range(xs[0], xs[0]), x);
    } else {
      ScanFacts(xs[..n], x);
      var s, s' := ScanOf(xs[..n]), ScanOf(xs);
      assert xs[n - 1] <= xs[n] && xs == xs[..n] + [xs[n]];
      CoversAppend(s.done, s.last, x);
      CoversAppend(s'.done, s'.last, x);
      if xs[n] > s.last.hi + 1 {
        assert s'.done == s.done + [s.last];
        StartsLater(s.done, s.last, Range(xs[n], xs[n]));
      } else {
        SameStart(s.done, s.last, s'.last);
        assert s.last.lo <= s.last.hi by {
          assert (s.done + [s.last])[|s.done|] == s.last;
        }
        LastIn(xs[..n]);
      }
    }
  }

  lemma LastIn(xs: seq<int>)
    requires xs != []
    ensures xs[|xs| - 1] in xs
  {
  }

  lemma StartsLater(done: seq<Range>, last: Range, r: Range)
    requires Canonical(done + [last]) && last.hi + 1 < r.lo <= r.hi
    ensures Canonical(done + [last] + [r])
  {
    var rs, all := done + [last], done + [last] + [r];
    assert rs[|done|] == last && rs[|done|].lo <= rs[|done|].hi;
    forall i, j | 0 <= i < j < |all|
      ensures all[i].hi + 1 < all[j].lo
    {
      if j < |rs| {
        assert all[i] == rs[i] && all[j] == rs[j];
      } else if i < |done| {
        assert all[i] == rs[i] && rs[i].hi + 1 < rs[|done|].lo;
      }
    }
    assert forall i | 0 <= i < |rs| :: all[i] == rs[i];
  }

  lemma SameStart(done: seq<Range>, last: Range, last': Range)
    requires Canonical(done + [last]) && last'.lo == last.lo && last.hi <= last'.hi
    ensures Canonical(done + [last'])
  {
    var a, b := done + [last], done + [last'];
    assert a[|done|] == last && b[|done|] == last';
    assert forall i | 0 <= i < |done| :: a[i] == b[i] == done[i];
    assert forall i | 0 <= i < |b| :: b[i].lo == a[i].lo;
    assert forall i | 0 <= i < |done| :: b[i].hi == a[i].hi;
  }

  lemma RangesCover(list: seq<int>, x: int)
    requires NonNegative(list)
    ensures NonNegative(Sort(list)) && Canonical(RangesOf(Sort(list)))
    ensures Covers(RangesOf(Sort(list)), x) <==> x in list
  {
    SortNonNegative(list);
    SortFacts(list);
    if Sort(list) != [] {
      ScanFacts(Sort(list), x);
    }
  }

  // ----- Canonical ranges are determined by what they cover ----------------------------------------------

  lemma FirstIsLeast(rs: seq<Range>, x: int)
    requires Canonical(rs) && rs != [] && Covers(rs, x)
    ensures rs[0].lo <= x
  {
    var i :| 0 <= i < |rs| && rs[i].lo <= x <= rs[i].hi;
    if i > 0 {
      assert rs[0].hi + 1 < rs[i].lo && rs[0].lo <= rs[0].hi;
    }
  }

  lemma GapAfterFirst(rs: seq<Range>)
    requires Canonical(rs) && rs != []
    ensures !Covers(rs, rs[0].hi + 1)
  {
    forall i | 0 <= i < |rs|
      ensures !(rs[i].lo <= rs[0].hi + 1 <= rs[i].hi)
    {
      if i > 0 {
        assert rs[0].hi + 1 < rs[i].lo;
      }
    }
  }

  lemma TailCovers(rs: seq<Range>, x: int)
    requires Canonical(rs) && rs != []
    ensures Canonical(rs[1..])
    ensures Covers(rs[1..], x) <==> Covers(rs, x) && x > rs[0].hi
  {
    if Covers(rs[1..], x) {
      var i :| 0 <= i < |rs[1..]| && rs[1..][i].lo <= x <= rs[1..][i].hi;
      assert rs[i + 1] == rs[1..][i] && rs[0].hi + 1 < rs[i + 1].lo;
    }
    if Covers(rs, x) && x > rs[0].hi {
      var i :| 0 <= i < |rs| && rs[i].lo <= x <= rs[i].hi;
      assert rs[1..][i - 1] == rs[i];
    }
  }

  lemma HeadCovered(rs: seq<Range>)
    requires Canonical(rs) && rs != []
    ensures Covers(rs, rs[0].lo) && Covers(rs, rs[0].hi)
  {
    assert rs[0].lo <= rs[0].hi;
  }

  lemma InFirst(rs: seq<Range>, x: int)
    requires rs != []
    ensures rs[0].lo <= x <= rs[0].hi ==> Covers(rs, x)
  {
  }

  lemma SameHead(a: seq<Range>, b: seq<Range>)
    requires Canonical(a) && Canonical(b) && a != [] && b != []
    requires forall x :: Covers(a, x) <==> Covers(b, x)
    ensures a[0] == b[0]
  {
    HeadCovered(a);
    HeadCovered(b);
    FirstIsLeast(a, b[0].lo);
    FirstIsLeast(b, a[0].lo);
    GapAfterFirst(a);
    GapAfterFirst(b);
    InFirst(b, a[0].hi + 1);
    InFirst(a, b[0].hi + 1);
    assert a[0].lo <= a[0].hi && b[0].lo <= b[0].hi;
  }

  lemma {:induction false} CanonicalUnique(a: seq<Range>, b: seq<Range>)
    requires Canonical(a) && Canonical(b)
    requires forall x :: Covers(a, x) <==> Covers(b, x)
    ensures a == b
    decreases |a|
  {
    if a == [] {
      if b != [] {
        HeadCovered(b);
        assert false;
      }
    } else {
      HeadCovered(a);
      assert b != [];
      SameHead(a, b);
      forall x
        ensures Covers(a[1..], x) <==> Covers(b[1..], x)
      {
        TailCovers(a, x);
        TailCovers(b, x);
      }
      TailCovers(a, 0);
      TailCovers(b, 0);
      CanonicalUnique(a[1..], b[1..]);
      assert a == [a[0]] + a[1..] && b == [b[0]] + b[1..];
    }
  }

  // ----- Round trip ------------------------------------------------------------------------------------

  lemma ItoaPlain(n: nat)
    ensures Itoa(n) != "" && ',' !in Itoa(n) && '-' !in Itoa(n)
    ensures !IsSpace(Itoa(n)[0]) && !IsSpace(Itoa(n)[|Itoa(n)| - 1])
  {
    ItoaValue(n);
    assert forall c | c in Itoa(n) :: IsDigit(c);
    assert IsDigit(Itoa(n)[0]) && IsDigit(Itoa(n)[|Itoa(n)| - 1]);
  }

  lemma BetweenOne(x: int)
    ensures Between(x, x) == {x}
  {
  }

  lemma RangeRoundTrip(r: Range)
    requires r.lo <= r.hi
    ensures ',' !in PrintRange(r)
    ensures ParsePiece(PrintRange(r)) == Some(Between(r.lo, r.hi))
  {
    hide Itoa, ParseInt, Split, Strip, Between;
    ItoaPlain(r.lo);
    ItoaPlain(r.hi);
    ItoaRoundTrip(r.lo);
    ItoaRoundTrip(r.hi);
    StripDigits(PrintRange(r));
    if r.lo == r.hi {
      SplitPlain(Itoa(r.lo), '-');
      BetweenOne(r.lo);
    } else {
      assert PrintRange(r) == Itoa(r.lo) + ['-'] + Itoa(r.hi);
      SplitFirst(Itoa(r.lo), '-', Itoa(r.hi));
      SplitPlain(Itoa(r.hi), '-');
    }
  }

  lemma NothingCovered()
    ensures forall x :: !Covers([], x)
  {
  }

  lemma {:induction false} PiecesRoundTrip(rs: seq<Range>)
    requires forall i | 0 <= i < |rs| :: rs[i].lo <= rs[i].hi
    ensures ParsePieces(PrintAll(rs)).Some?
    ensures forall x :: x in ParsePieces(PrintAll(rs)).value <==> Covers(rs, x)
  {
    hide ParsePiece, PrintRange, Covers;
    if rs == [] {
      NothingCovered();
    } else {
      var init, r := rs[..|rs| - 1], rs[|rs| - 1];
      PiecesRoundTrip(init);
      RangeRoundTrip(r);
      assert PrintAll(rs)[..|rs| - 1] == PrintAll(init);
      assert rs == init + [r];
      forall x
        ensures x in ParsePieces(PrintAll(rs)).value <==> Covers(rs, x)
      {
        CoversAppend(init, r, x);
      }
    }
  }

  lemma EmptyParses()
    ensures Parse("") == Some({})
  {
    var pieces := [""];
    assert Split("", ',') == pieces && Strip("") == "" && Split("", '-') == [""];
    assert ParsePiece("") == Some({});
    assert pieces[..|pieces| - 1] == [] && pieces[|pieces| - 1] == "";
    assert ParsePieces([]) == Some({});
    var none: set<int> := {};
    assert none + none == none;
  }

  /** The printed pieces are what the parser splits the text into. */
  lemma PrintedSplits(rs: seq<Range>)
    requires rs != [] && forall i | 0 <= i < |rs| :: rs[i].lo <= rs[i].hi
    ensures Split(Join(PrintAll(rs), ','), ',') == PrintAll(rs)
  {
    forall i | 0 <= i < |rs|
      ensures ',' !in PrintAll(rs)[i]
    {
      RangeRoundTrip(rs[i]);
    }
    SplitJoin(PrintAll(rs), ',');
  }

  lemma RangesRoundTrip(rs: seq<Range>)
    requires forall i | 0 <= i < |rs| :: rs[i].lo <= rs[i].hi
    ensures Parse(Join(PrintAll(rs), ',')).Some?
    ensures forall x :: x in Parse(Join(PrintAll(rs), ',')).value <==> Covers(rs, x)
  {
    hide PrintAll, Join, ParsePieces;
    if rs == [] {
      EmptyParses();
      NothingPrinted();
    } else {
      PrintedSplits(rs);
      PiecesRoundTrip(rs);
    }
  }

  lemma NothingPrinted()
    ensures Join(PrintAll([]), ',') == ""
  {
  }

  /** Printing a list and parsing it back gives the same set. */
  lemma RoundTrip(list: seq<int>)
    requires NonNegative(list)
    ensures NonNegative(Sort(list)) && Parse(Print(list)) == Some(Elements(list))
  {
    hide PrintAll, Join, Parse, RangesOf;
    SortNonNegative(list);
    var rs := RangesOf(Sort(list));
    RangesCover(list, 0);
    RangesRoundTrip(rs);
    forall x
      ensures x in Parse(Print(list)).value <==> x in Elements(list)
    {
      RangesCover(list, x);
    }
    assert Parse(Print(list)).value == Elements(list);
  }

  lemma SameSetSameRanges(a: seq<int>, b: seq<int>)
    requires NonNegative(a) && NonNegative(b) && Elements(a) == Elements(b)
    ensures NonNegative(Sort(a)) && NonNegative(Sort(b)) && RangesOf(Sort(a)) == RangesOf(Sort(b))
  {
    hide RangesOf, Canonical, Covers;
    RangesCover(a, 0);
    RangesCover(b, 0);
    forall x
      ensures Covers(RangesOf(Sort(a)), x) <==> Covers(RangesOf(Sort(b)), x)
    {
      RangesCover(a, x);
      RangesCover(b, x);
      assert x in Elements(a) <==> x in Elements(b);
    }
    CanonicalUnique(RangesOf(Sort(a)), RangesOf(Sort(b)));
  }

  /** Two lists print alike exactly when they hold the same numbers: the text identifies the set. */
  lemma PrintIdentifiesSet(a: seq<int>, b: seq<int>)
    requires NonNegative(a) && NonNegative(b)
    ensures NonNegative(Sort(a)) && NonNegative(Sort(b))
    ensures Print(a) == Print(b) <==> Elements(a) == Elements(b)
  {
    hide Parse, RangesOf, PrintAll, Join, Elements;
    RoundTrip(a);
    RoundTrip(b);
    if Elements(a) == Elements(b) {
      SameSetSameRanges(a, b);
    }
  }

  // ----- What the text looks like ----------------------------------------------------------------------

  lemma TextsAppend(r: Range, rest: seq<Range>)
    ensures Join(PrintAll([r]), ',') == PrintRange(r)
    ensures rest != [] ==> Join(PrintAll([r] + rest), ',') == PrintRange(r) + "," + Join(PrintAll(rest), ',')
  {
    assert PrintAll([r]) == [PrintRange(r)];
    assert PrintAll([r] + rest) == [PrintRange(r)] + PrintAll(rest);
    JoinMeans(PrintRange(r), PrintAll(rest), ',');
  }

  /** The list holds the numbers from `lo` to `hi` and those of `rest`, with a gap between the two. */
  ghost predicate StartsWithRun(list: seq<int>, lo: nat, hi: nat, rest: seq<int>) {
    && lo <= hi && NonNegative(list) && NonNegative(rest)
    && (forall x :: x in list <==> lo <= x <= hi || x in rest)
    && (forall x | x in rest :: x > hi + 1)
  }

  lemma RunFirst(list: seq<int>, lo: nat, hi: nat, rest: seq<int>)
    requires StartsWithRun(list, lo, hi, rest)
    ensures NonNegative(Sort(list)) && NonNegative(Sort(rest))
    ensures RangesOf(Sort(list)) == [Range(lo, hi)] + RangesOf(Sort(rest))
  {
    hide RangesOf;
    RangesCover(list, 0);
    RangesCover(rest, 0);
    var more := RangesOf(Sort(rest));
    var rs := [Range(lo, hi)] + more;
    forall i | 0 <= i < |more|
      ensures hi + 1 < more[i].lo
    {
      assert more[i].lo <= more[i].hi;
      RangesCover(rest, more[i].lo);
    }
    assert forall i | 1 <= i < |rs| :: rs[i] == more[i - 1];
    forall x
      ensures Covers(rs, x) <==> Covers(RangesOf(Sort(list)), x)
    {
      CoversFirst(Range(lo, hi), more, x);
      RangesCover(list, x);
      RangesCover(rest, x);
    }
    CanonicalUnique(RangesOf(Sort(list)), rs);
  }

  lemma CoversFirst(r: Range, rest: seq<Range>, x: int)
    ensures Covers([r] + rest, x) <==> r.lo <= x <= r.hi || Covers(rest, x)
  {
    var all := [r] + rest;
    if r.lo <= x <= r.hi {
      assert all[0] == r;
    }
    if Covers(rest, x) {
      var i :| 0 <= i < |rest| && rest[i].lo <= x <= rest[i].hi;
      assert all[i + 1] == rest[i];
    }
  }

  /**
   The text run by run: a single number as itself, two or more in a row as "lo-hi", whatever stands in
   the list how often and in which order, then a comma and the rest if there is any.
   */
  lemma PrintRunByRun(list: seq<int>, lo: nat, hi: nat, rest: seq<int>)
    requires StartsWithRun(list, lo, hi, rest)
    ensures NonNegative(Sort(list)) && NonNegative(Sort(rest))
    ensures var run := if lo == hi then Itoa(lo) else Itoa(lo) + "-" + Itoa(hi);
            Print(list) == if rest == [] then run else run + "," + Print(rest)
  {
    hide Covers, Canonical, PrintAll, Join;
    RunFirst(list, lo, hi, rest);
    RangesCover(rest, 0);
    TextsAppend(Range(lo, hi), RangesOf(Sort(rest)));
    SortFacts(rest);
    if rest == [] {
      NoRanges();
      assert [Range(lo, hi)] + [] == [Range(lo, hi)];
    } else {
      assert rest[0] in Sort(rest);
    }
  }

  lemma NoRanges()
    ensures Sort([]) == [] && NonNegative([]) && RangesOf([]) == [] && Print([]) == ""
  {
    SortSorted([]);
  }

  /** A piece is nothing, a number, or two numbers with a dash between them; anything else is an error. */
  lemma PieceMeans(piece: string, a: string, b: string, c: string)
    ensures Strip(piece) == "" ==> ParsePiece(piece) == Some({})
    ensures '-' !in a && a != "" && Strip(piece) == a ==>
              ParsePiece(piece) == if ParseInt(a).Some? then Some({ParseInt(a).value}) else None
    ensures '-' !in a && '-' !in b && Strip(piece) == a + "-" + b ==>
              (ParsePiece(piece).Some? <==> ParseInt(a).Some? && ParseInt(b).Some?)
              && (ParsePiece(piece).Some? ==>
                  forall x :: x in ParsePiece(piece).value <==> ParseInt(a).value <= x <= ParseInt(b).value)
    ensures '-' !in a && '-' !in b && Strip(piece) == a + "-" + b + "-" + c ==> ParsePiece(piece) == None
  {
    hide ParseInt, Strip, Between;
    if '-' !in a {
      SplitPlain(a, '-');
      SplitFirst(a, '-', b);
      SplitFirst(a, '-', b + ['-'] + c);
      assert a + ['-'] + (b + ['-'] + c) == a + "-" + b + "-" + c;
    }
    if '-' !in b {
      SplitPlain(b, '-');
      SplitFirst(b, '-', c);
    }
    SplitPlain("", '-');
  }

  predicate SomeFails(pieces: seq<string>) {
    exists i | 0 <= i < |pieces| :: ParsePiece(pieces[i]).None?
  }

  predicate InSome(pieces: seq<string>, x: int) {
    exists i | 0 <= i < |pieces| :: ParsePiece(pieces[i]).Some? && x in ParsePiece(pieces[i]).value
  }

  lemma {:induction false} PiecesUnion(pieces: seq<string>)
    ensures ParsePieces(pieces).None? <==> SomeFails(pieces)
    ensures ParsePieces(pieces).Some? ==> forall x :: x in ParsePieces(pieces).value <==> InSome(pieces, x)
  {
    hide ParsePiece;
    if pieces == [] {
    } else {
      PiecesUnion(pieces[..|pieces| - 1]);
    }
  }

  /** The text is an error exactly when one of its pieces is, and else it stands for the union of the pieces. */
  lemma ParseMeans(s: string)
    ensures Parse(s).None? <==> SomeFails(Split(s, ','))
    ensures Parse(s).Some? ==> forall x :: x in Parse(s).value <==> InSome(Split(s, ','), x)
  {
    hide ParsePieces, SomeFails, InSome, Split;
    PiecesUnion(Split(s, ','));
  }
}
