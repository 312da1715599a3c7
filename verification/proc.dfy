/** The process-list utilities (proc.ts): reading the text of a
    `ps -A -o comm,ppid,pid,stat` (or `wmic`) listing into records, looking a
    record up by pid, nesting records into a tree by parent pid, and
    building the argument vector of the command that kills a process. The
    commands themselves are not run here: the listing is a parameter and
    the argument vector is the result. */
module Proc {
  import opened Base

  // ----- Whitespace, lines and columns -----

  /** JavaScript's whitespace and line terminators: the characters `trim`
      removes and the regex class `\s` matches. */
  predicate IsSpace(c: char) {
    || c == ' ' || c == '\t' || c == '\n' || c == '\r'
    || c == 11 as char || c == 12 as char
    || c == 0xA0 as char || c == 0x1680 as char
    || (0x2000 as char <= c <= 0x200A as char)
    || c == 0x2028 as char || c == 0x2029 as char
    || c == 0x202F as char || c == 0x205F as char
    || c == 0x3000 as char || c == 0xFEFF as char
  }

  predicate NoSpace(s: string) {
    forall i | 0 <= i < |s| :: !IsSpace(s[i])
  }

  /** A string with something other than whitespace in it. */
  predicate NotBlank(s: string) {
    exists i | 0 <= i < |s| :: !IsSpace(s[i])
  }

  function TrimStart(s: string): (r: string)
    ensures |r| <= |s| && r == s[|s| - |r|..]
    ensures r == [] || !IsSpace(r[0])
    decreases |s|
  {
    if s != [] && IsSpace(s[0]) then TrimStart(s[1..]) else s
  }

  function TrimEnd(s: string): (r: string)
    ensures |r| <= |s| && r == s[..|r|]
    ensures r == [] || !IsSpace(r[|r| - 1])
    decreases |s|
  {
    if s != [] && IsSpace(s[|s| - 1]) then TrimEnd(s[..|s| - 1]) else s
  }

  /** `String.prototype.trim`. */
  function Trim(s: string): (r: string)
    ensures r == [] || (!IsSpace(r[0]) && !IsSpace(r[|r| - 1]))
  {
    var t := TrimStart(s);
    assert TrimEnd(t) == [] || TrimEnd(t)[0] == t[0];
    TrimEnd(t)
  }

  /** `s.split(c)` for a one-character separator: always at least one
      piece, the pieces between the occurrences of `c`. */
  function Split(s: string, c: char): (r: seq<string>)
    ensures |r| >= 1
    decreases |s|
  {
    if s == [] then [""]
    else if s[0] == c then [""] + Split(s[1..], c)
    else
      var rest := Split(s[1..], c);
      [[s[0]] + rest[0]] + rest[1..]
  }

  /** The string with its leading whitespace run removed. */
  function SkipSpace(s: string): (r: string)
    ensures |r| <= |s|
    decreases |s|
  {
    if s != [] && IsSpace(s[0]) then SkipSpace(s[1..]) else s
  }

  /** `s.split(/\s+/)`: the pieces between maximal runs of whitespace. */
  function SplitSpace(s: string): (r: seq<string>)
    ensures |r| >= 1
    decreases |s|
  {
    if s == [] then [""]
    else if IsSpace(s[0]) then [""] + SplitSpace(SkipSpace(s[1..]))
    else
      var rest := SplitSpace(s[1..]);
      [[s[0]] + rest[0]] + rest[1..]
  }

  // ----- Records -----

  /** A process record. A column that is missing, or a number column whose
      text is not a decimal integer, is absent (JavaScript would give
      `undefined` or `NaN`). */
  datatype Process = Process(
    command: string,
    ppid: Option<int>,
    pid: Option<int>,
    stat: Option<string>,
    children: Option<seq<Process>>)

  /** Two records with the same four columns, whatever their children. */
  predicate SameRecord(a: Process, b: Process) {
    a.command == b.command && a.ppid == b.ppid && a.pid == b.pid && a.stat == b.stat
  }

  function Column(cols: seq<string>, i: nat): Option<string> {
    if i < |cols| then Some(cols[i]) else None
  }

  function NumberColumn(cols: seq<string>, i: nat): Option<int> {
    if i < |cols| then ParseInt(cols[i]) else None
  }

  /** One row (proc.ts:55-63): the trimmed line split on whitespace runs;
      columns 0 to 3 are the command, the parent pid, the pid and the
      status. */
  function ParseLine(line: string): (p: Process)
    ensures p.children.None?
  {
    var cols := SplitSpace(Trim(line));
    Process(cols[0], NumberColumn(cols, 1), NumberColumn(cols, 2), Column(cols, 3), None)
  }

  /** `lines.filter((v) => v.trim())`: the lines whose trimmed text is not
      empty, in order. */
  function NonBlankLines(lines: seq<string>): (r: seq<string>)
    ensures |r| <= |lines|
    ensures forall i | 0 <= i < |r| :: r[i] in lines && Trim(r[i]) != ""
    decreases |lines|
  {
    if lines == [] then []
    else (if Trim(lines[0]) != "" then [lines[0]] else []) + NonBlankLines(lines[1..])
  }

  /** The filter on a line in front of others. */
  lemma NonBlankCons(l: string, rest: seq<string>)
    ensures NonBlankLines([l] + rest) == (if Trim(l) != "" then [l] else []) + NonBlankLines(rest)
  {
    assert ([l] + rest)[0] == l && ([l] + rest)[1..] == rest;
  }

  /** The filter keeps order: it distributes over concatenation. */
  lemma {:induction false} NonBlankAppend(a: seq<string>, b: seq<string>)
    ensures NonBlankLines(a + b) == NonBlankLines(a) + NonBlankLines(b)
    decreases |a|
  {
    if a != [] {
      var h, t := a[0], a[1..];
      assert a == [h] + t && a + b == [h] + (t + b);
      NonBlankAppend(t, b);
      NonBlankCons(h, t + b);
      NonBlankCons(h, t);
      var keep := if Trim(h) != "" then [h] else [];
      assert keep + (NonBlankLines(t) + NonBlankLines(b)) == keep + NonBlankLines(t) + NonBlankLines(b);
    } else {
      assert a + b == b;
    }
  }

  /** A lone line is kept exactly when it is not blank. */
  lemma NonBlankOne(l: string)
    ensures NonBlankLines([l]) == if Trim(l) != "" then [l] else []
  {
    NonBlankCons(l, []);
    assert [l] + [] == [l];
  }

  /** The rows of a listing (proc.ts:52-53): the lines with something other
      than whitespace in them, without the first such line, the header. */
  function Rows(output: string): seq<string> {
    DropHeader(NonBlankLines(Split(output, '\n')))
  }

  function DropHeader(lines: seq<string>): seq<string> {
    if lines == [] then [] else lines[1..]
  }

  function ParseRows(rows: seq<string>): (r: seq<Process>)
    ensures |r| == |rows|
    decreases |rows|
  {
    if rows == [] then [] else [ParseLine(rows[0])] + ParseRows(rows[1..])
  }

  lemma {:induction false} ParseRowsAt(rows: seq<string>, i: nat)
    requires i < |rows|
    ensures ParseRows(rows)[i] == ParseLine(rows[i])
    decreases i
  {
    if i > 0 {
      ParseRowsAt(rows[1..], i - 1);
      assert rows[1..][i - 1] == rows[i];
    }
  }

  /** The parsing part of `getAll` (proc.ts:52-63). */
  function ParseListing(output: string): (r: seq<Process>)
    ensures |r| == |Rows(output)|
  {
    ParseRows(Rows(output))
  }

  /** The empty listing has no rows. */
  lemma EmptyListing()
    ensures ParseListing("") == []
  {
    assert Split("", '\n') == [""];
    assert Trim("") == "";
  }

  /** A record that prints as one row of a listing: a one-word command and
      status, a parent pid and a pid, no children. */
  predicate Printable(p: Process) {
    && p.command != [] && NoSpace(p.command)
    && p.ppid.Some? && p.pid.Some?
    && p.stat.Some? && p.stat.value != [] && NoSpace(p.stat.value)
    && p.children.None?
  }

  /** The row `ps` prints for a record, its columns separated by a space. */
  function RowText(p: Process): string
    requires Printable(p)
  {
    p.command + " " + IntToDecimal(p.ppid.value) + " " + IntToDecimal(p.pid.value) + " " + p.stat.value
  }

  function RowTexts(ps: seq<Process>): (r: seq<string>)
    requires forall i | 0 <= i < |ps| :: Printable(ps[i])
    ensures |r| == |ps|
    ensures forall i | 0 <= i < |ps| :: r[i] == RowText(ps[i])
  {
    seq(|ps|, i requires 0 <= i < |ps| => RowText(ps[i]))
  }

  /** A listing: a header line and one row per record. */
  function Listing(header: string, ps: seq<Process>): string
    requires forall i | 0 <= i < |ps| :: Printable(ps[i])
  {
    Join([header] + RowTexts(ps), "\n")
  }

  lemma {:induction false} SplitWithout(a: string, c: char)
    requires c !in a
    ensures Split(a, c) == [a]
    decreases |a|
  {
    if a != [] {
      SplitWithout(a[1..], c);
      assert [a[0]] + a[1..] == a;
    }
  }

  lemma {:induction false} SplitAt(a: string, b: string, c: char)
    requires c !in a
    ensures Split(a + [c] + b, c) == [a] + Split(b, c)
    decreases |a|
  {
    if a == [] {
      assert (a + [c] + b)[1..] == b;
    } else {
      assert (a + [c] + b)[1..] == a[1..] + [c] + b;
      SplitAt(a[1..], b, c);
      assert [a[0]] + a[1..] == a;
    }
  }

  /** Splitting at one occurrence of the separator splits the pieces. */
  lemma {:induction false} SplitSeparated(a: string, b: string, c: char)
    ensures Split(a + [c] + b, c) == Split(a, c) + Split(b, c)
    decreases |a|
  {
    var s := a + [c] + b;
    if a == [] {
      assert s[1..] == b;
    } else {
      assert s[0] == a[0] && s[1..] == a[1..] + [c] + b;
      SplitSeparated(a[1..], b, c);
    }
  }

  /** Splitting a join of lines without the separator gives the lines back. */
  lemma {:induction false} SplitJoin(lines: seq<string>)
    requires |lines| >= 1
    requires forall i | 0 <= i < |lines| :: '\n' !in lines[i]
    ensures Split(Join(lines, "\n"), '\n') == lines
    decreases |lines|
  {
    if |lines| == 1 {
      SplitWithout(lines[0], '\n');
    } else {
      SplitJoin(lines[1..]);
      SplitAt(lines[0], Join(lines[1..], "\n"), '\n');
      assert lines == [lines[0]] + lines[1..];
    }
  }

  lemma {:induction false} NonBlankKeepsAll(lines: seq<string>)
    requires forall i | 0 <= i < |lines| :: Trim(lines[i]) != ""
    ensures NonBlankLines(lines) == lines
    decreases |lines|
  {
    if lines != [] {
      var rest := lines[1..];
      assert forall i | 0 <= i < |rest| :: rest[i] == lines[i + 1];
      NonBlankKeepsAll(rest);
      assert Trim(lines[0]) != "";
      assert NonBlankLines(lines) == [lines[0]] + NonBlankLines(rest);
      assert lines == [lines[0]] + rest;
    }
  }

  lemma TrimKeeps(s: string)
    requires s != [] && !IsSpace(s[0]) && !IsSpace(s[|s| - 1])
    ensures Trim(s) == s
  {
  }

  lemma {:induction false} SplitSpaceWord(a: string)
    requires NoSpace(a)
    ensures SplitSpace(a) == [a]
    decreases |a|
  {
    if a != [] {
      SplitSpaceWord(a[1..]);
      assert [a[0]] + a[1..] == a;
    }
  }

  lemma {:induction false} SplitSpaceWords(a: string, rest: string)
    requires NoSpace(a) && rest != [] && !IsSpace(rest[0])
    ensures SplitSpace(a + " " + rest) == [a] + SplitSpace(rest)
    decreases |a|
  {
    if a == [] {
      assert (a + " " + rest)[1..] == rest;
    } else {
      assert (a + " " + rest)[1..] == a[1..] + " " + rest;
      SplitSpaceWords(a[1..], rest);
      assert [a[0]] + a[1..] == a;
    }
  }

  lemma DecimalIsWord(n: int)
    ensures IntToDecimal(n) != [] && NoSpace(IntToDecimal(n))
  {
    if n >= 0 {
      var s := NatToDecimal(n);
      forall i | 0 <= i < |s| ensures !IsSpace(s[i]) {
        assert IsDigit(s[i]);
      }
    } else {
      var s := NatToDecimal(-n);
      forall i | 0 <= i < |s| ensures !IsSpace(s[i]) {
        assert IsDigit(s[i]);
      }
      assert IntToDecimal(n) == "-" + s;
    }
  }

  lemma NoSpaceConcat(a: string, b: string)
    requires NoSpace(a) && NoSpace(b)
    ensures NoSpace(a + b)
  {
    assert forall i | |a| <= i < |a + b| :: (a + b)[i] == b[i - |a|];
  }

  /** A printed row is one non-blank line. */
  lemma RowIsLine(p: Process)
    requires Printable(p)
    ensures Trim(RowText(p)) != "" && '\n' !in RowText(p)
  {
    var c, st := p.command, p.stat.value;
    var d1, d2 := IntToDecimal(p.ppid.value), IntToDecimal(p.pid.value);
    DecimalIsWord(p.ppid.value);
    DecimalIsWord(p.pid.value);
    var row := RowText(p);
    assert row == c + " " + (d1 + " " + (d2 + " " + st));
    TrimKeeps(row);
    assert '\n' !in c && '\n' !in d1 && '\n' !in d2 && '\n' !in st;
  }

  /** A printed row reads back as its record. */
  lemma RowRoundTrip(p: Process)
    requires Printable(p)
    ensures ParseLine(RowText(p)) == p
  {
    RowColumns(p);
    IntDecimalRoundTrip(p.ppid.value);
    IntDecimalRoundTrip(p.pid.value);
  }

  /** The columns of a printed row are the four printed fields. */
  lemma RowColumns(p: Process)
    requires Printable(p)
    ensures SplitSpace(Trim(RowText(p))) ==
      [p.command, IntToDecimal(p.ppid.value), IntToDecimal(p.pid.value), p.stat.value]
  {
    var c, st := p.command, p.stat.value;
    var d1, d2 := IntToDecimal(p.ppid.value), IntToDecimal(p.pid.value);
    DecimalIsWord(p.ppid.value);
    DecimalIsWord(p.pid.value);
    var row := RowText(p);
    assert row == c + " " + (d1 + " " + (d2 + " " + st));
    TrimKeeps(row);
    FourWords(c, d1, d2, st);
  }

  lemma FourWords(c: string, d1: string, d2: string, st: string)
    requires c != [] && d1 != [] && d2 != [] && st != []
    requires NoSpace(c) && NoSpace(d1) && NoSpace(d2) && NoSpace(st)
    ensures SplitSpace(c + " " + (d1 + " " + (d2 + " " + st))) == [c, d1, d2, st]
  {
    SplitSpaceWord(st);
    SplitSpaceWords(d2, st);
    SplitSpaceWords(d1, d2 + " " + st);
    SplitSpaceWords(c, d1 + " " + (d2 + " " + st));
  }

  lemma RowsOfListing(header: string, ps: seq<Process>)
    requires Trim(header) != "" && '\n' !in header
    requires forall i | 0 <= i < |ps| :: Printable(ps[i])
    ensures Rows(Listing(header, ps)) == RowTexts(ps)
  {
    var rows := RowTexts(ps);
    var lines := [header] + rows;
    forall i | 0 <= i < |lines| ensures Trim(lines[i]) != "" && '\n' !in lines[i] {
      if i > 0 {
        assert lines[i] == rows[i - 1];
        RowIsLine(ps[i - 1]);
      }
    }
    SplitJoin(lines);
    NonBlankKeepsAll(lines);
  }

  lemma ParseRowTexts(ps: seq<Process>)
    requires forall i | 0 <= i < |ps| :: Printable(ps[i])
    ensures ParseRows(RowTexts(ps)) == ps
  {
    var rows := RowTexts(ps);
    forall i | 0 <= i < |ps| ensures ParseRows(rows)[i] == ps[i] {
      ParseRowsAt(rows, i);
      RowRoundTrip(ps[i]);
    }
  }

  /** Parsing inverts printing: the listing of a header and any printable
      records parses back to exactly those records, in order. */
  lemma ListingRoundTrip(header: string, ps: seq<Process>)
    requires Trim(header) != "" && '\n' !in header
    requires forall i | 0 <= i < |ps| :: Printable(ps[i])
    ensures ParseListing(Listing(header, ps)) == ps
  {
    RowsOfListing(header, ps);
    ParseRowTexts(ps);
  }

  /** A blank line between two parts of a listing changes nothing. */
  lemma BlankLineIgnored(a: string, blank: string, b: string)
    requires Trim(blank) == "" && '\n' !in blank
    ensures ParseListing(a + "\n" + blank + "\n" + b) == ParseListing(a + "\n" + b)
  {
    BlankLineLines(a, blank, b);
    SameLinesSameRecords(a + "\n" + blank + "\n" + b, a + "\n" + b);
  }

  /** Two outputs with the same non-blank lines parse alike. */
  lemma SameLinesSameRecords(x: string, y: string)
    requires NonBlankLines(Split(x, '\n')) == NonBlankLines(Split(y, '\n'))
    ensures ParseListing(x) == ParseListing(y)
  {
    SameLinesSameRows(x, y);
    assert ParseListing(x) == ParseRows(Rows(x));
  }

  lemma SameLinesSameRows(x: string, y: string)
    requires NonBlankLines(Split(x, '\n')) == NonBlankLines(Split(y, '\n'))
    ensures Rows(x) == Rows(y)
  {
    assert Rows(x) == DropHeader(NonBlankLines(Split(x, '\n')));
  }

  lemma BlankLineLines(a: string, blank: string, b: string)
    requires Trim(blank) == "" && '\n' !in blank
    ensures NonBlankLines(Split(a + "\n" + blank + "\n" + b, '\n')) == NonBlankLines(Split(a + "\n" + b, '\n'))
  {
    var sa, sb := Split(a, '\n'), Split(b, '\n');
    SplitThree(a, blank, b);
    SplitSeparated(a, b, '\n');
    assert a + "\n" + b == a + ['\n'] + b;
    NonBlankAppend(sa, [blank] + sb);
    NonBlankAppend([blank], sb);
    NonBlankOne(blank);
    assert NonBlankLines([blank] + sb) == NonBlankLines(sb);
    NonBlankAppend(sa, sb);
  }

  /** The lines of `a`, then `blank`, then the lines of `b`. */
  lemma SplitThree(a: string, blank: string, b: string)
    requires '\n' !in blank
    ensures Split(a + "\n" + blank + "\n" + b, '\n') == Split(a, '\n') + ([blank] + Split(b, '\n'))
  {
    assert a + "\n" + blank + "\n" + b == a + ['\n'] + (blank + ['\n'] + b);
    SplitSeparated(a, blank + ['\n'] + b, '\n');
    SplitSeparated(blank, b, '\n');
    SplitWithout(blank, '\n');
  }

  /** A trailing blank line, such as the empty line after the final newline
      of `ps` output, changes nothing. */
  lemma TrailingBlankIgnored(a: string, blank: string)
    requires Trim(blank) == "" && '\n' !in blank
    ensures ParseListing(a + "\n" + blank) == ParseListing(a)
  {
    TrailingBlankLines(a, blank);
    SameLinesSameRecords(a + "\n" + blank, a);
  }

  lemma TrailingBlankLines(a: string, blank: string)
    requires Trim(blank) == "" && '\n' !in blank
    ensures NonBlankLines(Split(a + "\n" + blank, '\n')) == NonBlankLines(Split(a, '\n'))
  {
    SplitSeparated(a, blank, '\n');
    SplitWithout(blank, '\n');
    NonBlankAppend(Split(a, '\n'), [blank]);
    NonBlankOne(blank);
    assert NonBlankLines(Split(a, '\n')) + [] == NonBlankLines(Split(a, '\n'));
  }

  /** A leading blank line changes nothing either: the header is the first
      line that is not blank. */
  lemma LeadingBlankIgnored(blank: string, b: string)
    requires Trim(blank) == "" && '\n' !in blank
    ensures ParseListing(blank + "\n" + b) == ParseListing(b)
  {
    LeadingBlankLines(blank, b);
    SameLinesSameRecords(blank + "\n" + b, b);
  }

  lemma LeadingBlankLines(blank: string, b: string)
    requires Trim(blank) == "" && '\n' !in blank
    ensures NonBlankLines(Split(blank + "\n" + b, '\n')) == NonBlankLines(Split(b, '\n'))
  {
    SplitSeparated(blank, b, '\n');
    SplitWithout(blank, '\n');
    NonBlankAppend([blank], Split(b, '\n'));
    NonBlankOne(blank);
    assert [] + NonBlankLines(Split(b, '\n')) == NonBlankLines(Split(b, '\n'));
  }

  /** `ps` ends its output with a newline; the listing still parses back to
      its records. */
  lemma ListingWithFinalNewline(header: string, ps: seq<Process>)
    requires Trim(header) != "" && '\n' !in header
    requires forall i | 0 <= i < |ps| :: Printable(ps[i])
    ensures ParseListing(Listing(header, ps) + "\n") == ps
  {
    FinalNewlineIgnored(Listing(header, ps));
    ListingRoundTrip(header, ps);
  }

  /** A final newline adds only an empty last line, which the filter drops. */
  lemma FinalNewlineIgnored(a: string)
    ensures ParseListing(a + "\n") == ParseListing(a)
  {
    assert Trim("") == "";
    assert a + "\n" == a + "\n" + "";
    TrailingBlankIgnored(a, "");
  }

  // ----- Lookup and nesting -----

  /** `get` (proc.ts:22-24): the first record with the pid, if any. A record
      whose pid is absent matches nothing. */
  function Get(items: seq<Process>, pid: int): (r: Option<Process>)
    ensures r.None? <==> forall i | 0 <= i < |items| :: items[i].pid != Some(pid)
    ensures r.Some? ==> exists i | 0 <= i < |items| ::
      && items[i] == r.value && items[i].pid == Some(pid)
      && forall j | 0 <= j < i :: items[j].pid != Some(pid)
    decreases |items|
  {
    if items == [] then None
    else if items[0].pid == Some(pid) then Some(items[0])
    else
      var r := Get(items[1..], pid);
      assert forall j | 1 <= j < |items| :: items[j] == items[1..][j - 1];
      r
  }

  predicate ChildOf(item: Process, p: Option<int>) {
    p.Some? && item.ppid == p
  }

  /** The `filter` step of `nest`: the records whose parent is `p`, in input
      order. */
  function Children(items: seq<Process>, p: Option<int>): (r: seq<Process>)
    ensures |r| <= |items|
    ensures forall x :: x in r <==> x in items && ChildOf(x, p)
    decreases |items|
  {
    if items == [] then []
    else (if ChildOf(items[0], p) then [items[0]] else []) + Children(items[1..], p)
  }

  /** The parent links never loop: every record's pid ranks below its
      parent's pid. */
  predicate Acyclic(items: seq<Process>, rank: int -> nat) {
    forall i | 0 <= i < |items| && items[i].ppid.Some? && items[i].pid.Some? ::
      rank(items[i].pid.value) < rank(items[i].ppid.value)
  }

  function Height(p: Option<int>, rank: int -> nat): nat {
    if p.Some? then rank(p.value) + 1 else 0
  }

  /** `nest` (proc.ts:74-85): the children of `p` in input order, each
      made into a node. */
  function Nest(items: seq<Process>, p: Option<int>, rank: int -> nat): (r: seq<Process>)
    requires Acyclic(items, rank)
    ensures |r| == |Children(items, p)|
    ensures forall i | 0 <= i < |r| :: SameRecord(r[i], Children(items, p)[i])
    decreases Height(p, rank), 1, 0
  {
    NestEach(items, Children(items, p), p, rank)
  }

  function NestEach(items: seq<Process>, kids: seq<Process>, p: Option<int>, rank: int -> nat): (r: seq<Process>)
    requires Acyclic(items, rank)
    requires forall k | k in kids :: k in items && ChildOf(k, p)
    ensures |r| == |kids|
    ensures forall i | 0 <= i < |r| :: SameRecord(r[i], kids[i])
    decreases Height(p, rank), 0, |kids|
  {
    if kids == [] then []
    else
      var k := kids[0];
      assert k in items && ChildOf(k, p);
      var rest := NestEach(items, kids[1..], p, rank);
      assert forall i | 1 <= i < |kids| :: kids[i] == kids[1..][i - 1];
      [Node(items, k, rank)] + rest
  }

  /** One node of the tree: the record itself when it has no children,
      otherwise the record with its subtree. */
  function Node(items: seq<Process>, item: Process, rank: int -> nat): (r: Process)
    requires Acyclic(items, rank)
    ensures SameRecord(r, item)
    ensures Nest(items, item.pid, rank) == [] ==> r == item
    ensures Nest(items, item.pid, rank) != [] ==> r.children == Some(Nest(items, item.pid, rank))
    decreases Height(item.pid, rank), 2, 0
  {
    var kids := Nest(items, item.pid, rank);
    if |kids| == 0 then item else item.(children := Some(kids))
  }

  /** `psTree` (proc.ts:72-88) over a given listing. */
  function PsTree(items: seq<Process>, pid: int, rank: int -> nat): (r: seq<Process>)
    requires Acyclic(items, rank)
    ensures |r| == |Children(items, Some(pid))|
    ensures forall i | 0 <= i < |r| :: SameRecord(r[i], Children(items, Some(pid))[i]) && r[i].ppid == Some(pid)
  {
    var r := Nest(items, Some(pid), rank);
    assert forall i | 0 <= i < |r| :: Children(items, Some(pid))[i] in Children(items, Some(pid));
    r
  }

  /** The filter keeps input order: it distributes over concatenation and
      keeps a single record exactly when its parent is `p`. */
  lemma {:induction false} ChildrenAppend(a: seq<Process>, b: seq<Process>, p: Option<int>)
    ensures Children(a + b, p) == Children(a, p) + Children(b, p)
    decreases |a|
  {
    if a != [] {
      assert (a + b)[1..] == a[1..] + b;
      ChildrenAppend(a[1..], b, p);
    } else {
      assert a + b == b;
    }
  }

  lemma ChildrenSingle(x: Process, p: Option<int>)
    ensures Children([x], p) == if ChildOf(x, p) then [x] else []
  {
    assert [x][1..] == [];
  }

  /** Records without children, as `getAll` produces them. */
  predicate Flat(items: seq<Process>) {
    forall j | 0 <= j < |items| :: items[j].children.None?
  }

  /** `forest` is one level of the tree below `p`: each node is a child of
      `p` with the columns of some record of `items`, and it either has no
      `children` field or its field holds the non-empty level below it. */
  ghost predicate Level(items: seq<Process>, forest: seq<Process>, p: Option<int>, rank: int -> nat)
    requires Acyclic(items, rank)
  {
    forall i | 0 <= i < |forest| ::
      && ChildOf(forest[i], p)
      && (exists j | 0 <= j < |items| :: SameRecord(forest[i], items[j]))
      && (forest[i].children.Some? ==>
            && forest[i].children.value != []
            && forest[i].children.value == Nest(items, forest[i].pid, rank))
  }

  /** Every level `nest` builds, at any depth, consists of records of the
      listing placed under their parent, so every node of the whole tree is
      such a record. */
  lemma NestLevels(items: seq<Process>, p: Option<int>, rank: int -> nat)
    requires Acyclic(items, rank) && Flat(items)
    ensures Level(items, Nest(items, p, rank), p, rank)
  {
    var kids := Children(items, p);
    var r := Nest(items, p, rank);
    NestIsNodes(items, kids, p, rank);
    forall i | 0 <= i < |r|
      ensures ChildOf(r[i], p)
      ensures exists j | 0 <= j < |items| :: SameRecord(r[i], items[j])
    {
      assert kids[i] in kids;
      var j :| 0 <= j < |items| && items[j] == kids[i];
      assert SameRecord(r[i], items[j]);
    }
  }

  lemma {:induction false} NestIsNodes(items: seq<Process>, kids: seq<Process>, p: Option<int>, rank: int -> nat)
    requires Acyclic(items, rank)
    requires forall k | k in kids :: k in items && ChildOf(k, p)
    ensures forall i | 0 <= i < |kids| :: NestEach(items, kids, p, rank)[i] == Node(items, kids[i], rank)
    decreases |kids|
  {
    if kids != [] {
      NestIsNodes(items, kids[1..], p, rank);
      forall i | 1 <= i < |kids|
        ensures NestEach(items, kids, p, rank)[i] == Node(items, kids[i], rank)
      {
        assert kids[1..][i - 1] == kids[i];
      }
    }
  }

  // ----- Killing -----

  datatype Target = ByPid(pid: int) | ByName(name: string)

  datatype KillOptions = KillOptions(force: bool, ignoreCase: bool, tree: bool)

  datatype Os = Windows | Linux | OtherOs

  /** `pidOrName + ""`. */
  function TargetText(t: Target): string {
    match t
    case ByPid(n) => IntToDecimal(n)
    case ByName(s) => s
  }

  function Flag(on: bool, text: string): seq<string> {
    if on then [text] else []
  }

  function Count(b: bool): nat {
    if b then 1 else 0
  }

  /** The program the kill command runs: `taskkill` on Windows, otherwise
      `kill` for a pid and `killall` (Linux) or `pkill` for a name. */
  function BaseCommand(t: Target, os: Os): string {
    if os == Windows then "taskkill"
    else if t.ByPid? then "kill"
    else if os == Linux then "killall"
    else "pkill"
  }

  /** `getKillCommand` (proc.ts:90-138). */
  function KillCommand(t: Target, o: KillOptions, os: Os): (argv: seq<string>)
    ensures |argv| >= 2 && argv[0] == BaseCommand(t, os) && argv[|argv| - 1] == TargetText(t)
    ensures os == Windows ==>
      && |argv| == 3 + Count(o.force) + Count(o.tree)
      && argv[|argv| - 2] == (if t.ByName? then "/im" else "/pid")
    ensures os != Windows ==> |argv| == 2 + Count(o.force) + Count(t.ByName? && o.ignoreCase)
  {
    match os
    case Windows =>
      ["taskkill"] + Flag(o.force, "/f") + Flag(o.tree, "/t")
        + [if t.ByName? then "/im" else "/pid", TargetText(t)]
    case Linux =>
      [if t.ByName? then "killall" else "kill"]
        + Flag(o.force, "-9") + Flag(t.ByName? && o.ignoreCase, "-I") + [TargetText(t)]
    case OtherOs =>
      [if t.ByName? then "pkill" else "kill"]
        + Flag(o.force, "-9") + Flag(t.ByName? && o.ignoreCase, "-i") + [TargetText(t)]
  }

  /** The options a kill command honours: `tree` only on Windows, the case
      flag only for a name and not on Windows. */
  function Effective(t: Target, o: KillOptions, os: Os): KillOptions {
    KillOptions(o.force, o.ignoreCase && t.ByName? && os != Windows, o.tree && os == Windows)
  }

  /** Reading an argument vector back: the target from the program (or the
      `/im`/`/pid` switch) and the final argument, the options from the
      flags in between. */
  function DecodeKill(argv: seq<string>, os: Os): Option<(Target, KillOptions)> {
    if |argv| < 2 then None
    else
      var text := argv[|argv| - 1];
      if os == Windows then
        if |argv| < 3 || argv[0] != "taskkill" then None
        else
          var flags := argv[1..|argv| - 2];
          var opts := KillOptions("/f" in flags, false, "/t" in flags);
          if argv[|argv| - 2] == "/im" then Some((ByName(text), opts))
          else if argv[|argv| - 2] == "/pid" then
            match ParseInt(text)
            case Some(n) => Some((ByPid(n), opts))
            case None => None
          else None
      else
        var flags := argv[1..|argv| - 1];
        var caseFlag := if os == Linux then "-I" else "-i";
        if argv[0] == "kill" then
          match ParseInt(text)
          case Some(n) => Some((ByPid(n), KillOptions("-9" in flags, false, false)))
          case None => None
        else if argv[0] == BaseCommand(ByName(text), os) then
          Some((ByName(text), KillOptions("-9" in flags, caseFlag in flags, false)))
        else None
  }

  /** The kill command determines its target and the options that take
      effect, on every platform. */
  lemma KillCommandDecodes(t: Target, o: KillOptions, os: Os)
    ensures DecodeKill(KillCommand(t, o, os), os) == Some((t, Effective(t, o, os)))
  {
    if t.ByPid? {
      IntDecimalRoundTrip(t.pid);
    }
    if os == Windows {
      WindowsKillDecodes(t, o);
    } else {
      UnixKillDecodes(t, o, os);
    }
  }

  lemma WindowsKillDecodes(t: Target, o: KillOptions)
    requires t.ByPid? ==> ParseInt(IntToDecimal(t.pid)) == Some(t.pid)
    ensures DecodeKill(KillCommand(t, o, Windows), Windows) == Some((t, Effective(t, o, Windows)))
  {
    var argv := KillCommand(t, o, Windows);
    var flags := Flag(o.force, "/f") + Flag(o.tree, "/t");
    assert argv[1..|argv| - 2] == flags;
    TwoFlags(o.force, "/f", o.tree, "/t");
  }

  lemma UnixKillDecodes(t: Target, o: KillOptions, os: Os)
    requires os != Windows
    requires t.ByPid? ==> ParseInt(IntToDecimal(t.pid)) == Some(t.pid)
    ensures DecodeKill(KillCommand(t, o, os), os) == Some((t, Effective(t, o, os)))
  {
    var argv := KillCommand(t, o, os);
    var caseFlag := if os == Linux then "-I" else "-i";
    var flags := Flag(o.force, "-9") + Flag(t.ByName? && o.ignoreCase, caseFlag);
    assert argv[1..|argv| - 1] == flags;
    TwoFlags(o.force, "-9", t.ByName? && o.ignoreCase, caseFlag);
  }

  /** Two distinct optional flags: each is present exactly when it is on. */
  lemma TwoFlags(a: bool, x: string, b: bool, y: string)
    requires x != y
    ensures x in Flag(a, x) + Flag(b, y) <==> a
    ensures y in Flag(a, x) + Flag(b, y) <==> b
  {
  }
}
