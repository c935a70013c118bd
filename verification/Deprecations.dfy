/** The table of deprecated API calls (tools/scandeprecation/scan_deprecations.go): parsed log
    lines, sorted, compacted and written out. */
module Deprecations {
  import opened Picking
  import opened SliceSorting
  import opened Sorting
  import opened Text

  datatype Response = Response(kind: string, date: string, javaMethod: string)

  /** The three-field comparator. */
  function CompareResponses(a: Response, b: Response): int {
    if a.javaMethod != b.javaMethod then Compare(a.javaMethod, b.javaMethod)
    else if a.kind != b.kind then Compare(a.kind, b.kind)
    else Compare(a.date, b.date)
  }

  predicate Leq(a: Response, b: Response) {
    CompareResponses(a, b) <= 0
  }

  /** The order of the rows: by Java method, then by type, then by date, each in the order of bytes. */
  ghost predicate Before(a: Response, b: Response) {
    || Precedes(a.javaMethod, b.javaMethod)
    || (a.javaMethod == b.javaMethod && Precedes(a.kind, b.kind))
    || (a.javaMethod == b.javaMethod && a.kind == b.kind && Precedes(a.date, b.date))
  }

  lemma BeforeIsCompare(a: Response, b: Response)
    ensures CompareResponses(a, b) < 0 <==> Before(a, b)
  {
    CompareIsByteOrder(a.javaMethod, b.javaMethod);
    CompareIsByteOrder(a.kind, b.kind);
    CompareIsByteOrder(a.date, b.date);
  }

  /** The comparator is a total order whose ties are equality, and it is the order of the rows. */
  lemma ComparatorIsTotalOrder()
    ensures TotalPreorder(Leq)
    ensures forall a, b :: CompareResponses(a, b) == 0 <==> a == b
    ensures forall a, b :: Before(a, b) <==> CompareResponses(a, b) < 0
    ensures forall a, b :: Before(a, b) <==> !Leq(b, a)
  {
    forall a, b ensures Leq(a, b) || Leq(b, a) ensures Before(a, b) <==> !Leq(b, a) ensures Before(a, b) <==> CompareResponses(a, b) < 0 {
      Antisymmetric(a, b);
      BeforeIsCompare(a, b);
    }
    forall a, b, c | Leq(a, b) && Leq(b, c) ensures Leq(a, c) {
      Transitive(a, b, c);
    }
  }

  lemma Antisymmetric(a: Response, b: Response)
    ensures CompareResponses(a, b) == -CompareResponses(b, a)
  {
    CompareAntisymmetric(a.javaMethod, b.javaMethod);
    CompareAntisymmetric(a.kind, b.kind);
    CompareAntisymmetric(a.date, b.date);
  }

  /** A strict step of one field followed by another is strict. */
  lemma StrictSteps(a: string, b: string, c: string)
    requires Compare(a, b) <= 0 && Compare(b, c) <= 0
    ensures Compare(a, c) <= 0 && (a == c ==> a == b)
  {
    CompareTransitive(a, b, c);
    CompareAntisymmetric(b, c);
  }

  lemma Transitive(a: Response, b: Response, c: Response)
    requires Leq(a, b) && Leq(b, c)
    ensures Leq(a, c)
  {
    StrictSteps(a.javaMethod, b.javaMethod, c.javaMethod);
    if a.javaMethod == b.javaMethod == c.javaMethod {
      StrictSteps(a.kind, b.kind, c.kind);
      if a.kind == b.kind == c.kind {
        StrictSteps(a.date, b.date, c.date);
      }
    }
  }

  // ---- Compacting ----

  /** Every run of equal elements cut to one. */
  function Compacted<T(==)>(s: seq<T>): seq<T> {
    if |s| < 2 then s
    else
      var n := |s| - 1;
      Compacted(s[..n]) + if s[n] == s[n - 1] then [] else [s[n]]
  }

  lemma {:induction false} CompactedFacts<T>(s: seq<T>)
    ensures |Compacted(s)| <= |s|
    ensures s != [] ==> Compacted(s) != [] && Compacted(s)[|Compacted(s)| - 1] == s[|s| - 1]
    ensures forall x :: x in Compacted(s) <==> x in s
  {
    if |s| >= 2 {
      var n := |s| - 1;
      CompactedFacts(s[..n]);
      assert s == s[..n] + [s[n]];
      assert s[..n][n - 1] == s[n - 1];
    }
  }

  /** `slices.Compact` in place: the first `k` elements are the compacted slice. */
  method Compact<T(==)>(a: array<T>) returns (k: nat)
    modifies a
    ensures k <= a.Length && a[..k] == Compacted(old(a[..]))
  {
    ghost var was := a[..];
    if a.Length < 2 {
      assert a[..a.Length] == was;
      return a.Length;
    }
    k := 1;
    var i := 1;
    assert was[..1] == [was[0]];
    while i < a.Length
      invariant 1 <= k <= i <= a.Length == |was|
      invariant a[..k] == Compacted(was[..i])
      invariant a[k - 1] == was[i - 1]
      invariant forall j :: i <= j < a.Length ==> a[j] == was[j]
    {
      assert was[..i + 1][..i] == was[..i];
      if a[i] != a[k - 1] {
        a[k] := a[i];
        k := k + 1;
        assert a[..k] == a[..k - 1] + [was[i]];
      }
      i := i + 1;
    }
    assert was[..i] == was;
  }

  // ---- The table ----

  ghost predicate Increasing(s: seq<Response>) {
    forall i, j :: 0 <= i < j < |s| ==> Before(s[i], s[j])
  }

  lemma {:induction false} SortedCompactsToIncreasing(s: seq<Response>)
    requires Sorted(Leq, s)
    ensures Increasing(Compacted(s))
  {
    if |s| >= 2 {
      var n := |s| - 1;
      SortedCompactsToIncreasing(s[..n]);
      CompactedFacts(s[..n]);
      if s[n] != s[n - 1] {
        LastIsGreatest(s[..n], s[n]);
        var c := Compacted(s[..n]);
        assert forall x :: x in c ==> Before(x, s[n]);
      }
    }
  }

  lemma LastIsGreatest(s: seq<Response>, last: Response)
    requires s != [] && Sorted(Leq, s) && Leq(s[|s| - 1], last) && s[|s| - 1] != last
    ensures forall x :: x in s ==> Before(x, last)
  {
    var n := |s| - 1;
    ComparatorIsTotalOrder();
    forall x | x in s ensures Before(x, last) {
      var p :| 0 <= p <= n && s[p] == x;
      assert p < n ==> Leq(s[p], s[n]);
      BetweenEqual(x, s[n], last);
    }
  }

  lemma BetweenEqual(a: Response, b: Response, c: Response)
    requires Leq(a, b) && Leq(b, c) && b != c
    ensures Before(a, c)
  {
    ComparatorIsTotalOrder();
    Transitive(a, b, c);
    Antisymmetric(a, b);
    Antisymmetric(b, c);
  }

  lemma TailOfIncreasing(s: seq<Response>)
    requires Increasing(s) && s != []
    ensures Increasing(s[1..])
    ensures forall x :: x in s[1..] <==> x in s && x != s[0]
    ensures forall x :: x in s ==> x == s[0] || Before(s[0], x)
  {
    ComparatorIsTotalOrder();
    assert s == [s[0]] + s[1..];
    forall x | x in s[1..] ensures Before(s[0], x) && x != s[0] {
      var i :| 0 <= i < |s[1..]| && s[1..][i] == x;
      assert Before(s[0], s[i + 1]);
    }
  }

  /** Each distinct response once, in increasing order: there is only one such list. */
  lemma {:induction false} IncreasingUnique(s: seq<Response>, t: seq<Response>)
    requires Increasing(s) && Increasing(t)
    requires forall x :: x in s <==> x in t
    ensures s == t
  {
    if s != [] { assert s[0] in t; }
    if t != [] { assert t[0] in s; }
    if s != [] && t != [] {
      TailOfIncreasing(s);
      TailOfIncreasing(t);
      assert s[0] in t && t[0] in s;
      Antisymmetric(s[0], t[0]);
      BeforeIsCompare(s[0], t[0]);
      BeforeIsCompare(t[0], s[0]);
      assert s[0] == t[0];
      IncreasingUnique(s[1..], t[1..]);
      assert s == [s[0]] + s[1..] && t == [t[0]] + t[1..];
    }
  }

  /** A line of the log: how its tab-separated pieces print, and what its last piece parses to. */
  datatype LogLine = LogLine(pieces: string, parsed: Option<Response>)

  ghost predicate Parses(line: LogLine) {
    line.parsed.Some?
  }

  ghost predicate ParsesTo(line: LogLine, r: Response) {
    line.parsed == Some(r)
  }

  /** Some line of the log parses to the response. */
  ghost predicate Logged(lines: seq<LogLine>, r: Response) {
    exists i :: 0 <= i < |lines| && lines[i].parsed == Some(r)
  }

  lemma ParsedIff(lines: seq<LogLine>, responses: seq<Response>)
    requires Picks(Parses, ParsesTo, lines, responses)
    ensures forall r :: r in responses <==> Logged(lines, r)
  {
    forall r ensures r in responses <==> Logged(lines, r) {
      if r in responses {
        var k :| 0 <= k < |responses| && responses[k] == r;
        var i := HasSource(Parses, ParsesTo, lines, responses, k);
      }
      if i :| 0 <= i < |lines| && lines[i].parsed == Some(r) {
        var k := HasElement(Parses, ParsesTo, lines, responses, i);
      }
    }
  }

  const HEADER := "|Type|Java Method|Date|\n|------|------|------|\n"

  /** The text is the header and then one line for each row: its type, Java method and date. */
  ghost predicate IsTable(rows: seq<Response>, out: string) {
    exists lines, at :: TableLines(rows, lines) && InPieces(out, lines, at)
  }

  ghost predicate TableLines(rows: seq<Response>, lines: seq<string>) {
    && |lines| == |rows| + 1
    && lines[0] == "|Type|Java Method|Date|\n|------|------|------|\n"
    && forall i :: 0 <= i < |rows| ==> lines[i + 1] == rows[i].kind + "|" + rows[i].javaMethod + "|" + rows[i].date + "|\n"
  }

  lemma OneMoreRow(rows: seq<Response>, out: string, row: Response, line: string)
    requires IsTable(rows, out) && line == row.kind + "|" + row.javaMethod + "|" + row.date + "|\n"
    ensures IsTable(rows + [row], out + line)
  {
    var lines, at :| TableLines(rows, lines) && InPieces(out, lines, at);
    OneMorePiece(out, lines, at, line);
    assert TableLines(rows + [row], lines + [line]);
  }

  /** The distinct responses of a log, in increasing order. */
  ghost predicate Distinct(lines: seq<LogLine>, rows: seq<Response>) {
    Increasing(rows) && forall r :: r in rows <==> Logged(lines, r)
  }

  /** The scanning loop: parsing prints the pieces of every line, and a line that does not parse is
      skipped. */
  method Scan(lines: seq<LogLine>) returns (responses: seq<Response>, printed: seq<string>)
    ensures Picks(Parses, ParsesTo, lines, responses)
    ensures |printed| == |lines| && forall i :: 0 <= i < |lines| ==> printed[i] == lines[i].pieces
  {
    responses, printed := [], [];
    PicksNothing(Parses, ParsesTo);
    for i := 0 to |lines|
      invariant Picks(Parses, ParsesTo, lines[..i], responses)
      invariant |printed| == i && forall j :: 0 <= j < i ==> printed[j] == lines[j].pieces
    {
      assert lines[..i + 1] == lines[..i] + [lines[i]];
      printed := printed + [lines[i].pieces];
      if lines[i].parsed.Some? {
        PicksLast(Parses, ParsesTo, lines[..i], responses, lines[i], lines[i].parsed.value);
        responses := responses + [lines[i].parsed.value];
      } else {
        SkipsLast(Parses, ParsesTo, lines[..i], responses, lines[i]);
      }
    }
    assert lines[..|lines|] == lines;
  }

  method WriteRows(rows: seq<Response>) returns (out: string)
    ensures IsTable(rows, out)
  {
    out := HEADER;
    assert TableLines([], [out]) && Stands(out, 0, out) && InPieces(out, [out], [0]);
    for i := 0 to |rows|
      invariant IsTable(rows[..i], out)
    {
      var res := rows[i];
      var line := res.kind + "|" + res.javaMethod + "|" + res.date + "|\n";
      OneMoreRow(rows[..i], out, res, line);
      assert rows[..i + 1] == rows[..i] + [res];
      out := out + line;
    }
    assert rows[..|rows|] == rows;
  }

  lemma SortedAndCompacted(responses: seq<Response>, sorted: seq<Response>)
    requires Permutation(sorted, responses) && Sorted(Leq, sorted)
    ensures Increasing(Compacted(sorted))
    ensures forall r :: r in Compacted(sorted) <==> r in responses
  {
    PermutationFacts(sorted, responses);
    SortedCompactsToIncreasing(sorted);
    CompactedFacts(sorted);
  }

  /** The program's standard output: the pieces of every line, and then, unless no line parses, the
      table with one row for each distinct response, in order. */
  method ScanDeprecations(lines: seq<LogLine>) returns (rows: seq<Response>, printed: seq<string>)
    ensures Distinct(lines, rows)
    ensures |printed| == |lines| + (if rows == [] then 0 else 1)
    ensures forall i :: 0 <= i < |lines| ==> printed[i] == lines[i].pieces
    ensures rows != [] ==> IsTable(rows, printed[|lines|])
  {
    var responses;
    responses, printed := Scan(lines);
    ParsedIff(lines, responses);
    if |responses| == 0 {
      return [], printed;
    }
    var slice := new Response[|responses|](i requires 0 <= i < |responses| => responses[i]);
    assert slice[..] == responses;
    ComparatorIsTotalOrder();
    SortInPlace(slice, Leq);
    SortedAndCompacted(responses, slice[..]);
    var k := Compact(slice);
    rows := slice[..k];
    assert responses[0] in rows;
    var out := WriteRows(rows);
    printed := printed + [out];
  }

  /** The rows depend only on which responses were logged, not on their order or number. */
  lemma RowsDetermined(lines: seq<LogLine>, lines': seq<LogLine>, rows: seq<Response>, rows': seq<Response>)
    requires Distinct(lines, rows) && Distinct(lines', rows')
    ensures rows == rows' <==> forall r :: Logged(lines, r) <==> Logged(lines', r)
  {
    if forall r :: Logged(lines, r) <==> Logged(lines', r) {
      IncreasingUnique(rows, rows');
    }
  }
}
