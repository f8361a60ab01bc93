/** The report side of the cross-repository commit table
    (`migration_manager.py`): styling of `git grep` hits, the
    `parent/name` of a repository, and the two padded Markdown tables, the
    plain commit table and the dated checkpoint with its issues section. */
module MigrationTable {
  import opened Text

  datatype Option<T> = None | Some(value: T)

  // ---------------------------------------------------------------------
  // Terminal styling and grep hits
  // ---------------------------------------------------------------------

  /** `bold(text)`: ANSI bold, then reset. */
  function Bold(text: string): string
  {
    "\U{1b}[1m" + text + "\U{1b}[0m"
  }

  /** `dim(text)`: ANSI faint, then reset. */
  function Dim(text: string): string
  {
    "\U{1b}[2m" + text + "\U{1b}[0m"
  }

  /** `format_grep_hit(hit)`: a `file:line:content` hit has its coordinates
      in bold and its content dimmed; anything else is only indented. */
  function FormatGrepHit(hit: string): string
  {
    var parts := SplitAtMost(hit, ':', 2);
    if |parts| == 3 then "    " + Bold(parts[0] + ":" + parts[1]) + ": " + Dim(parts[2])
    else "    " + hit
  }

  /** The first separator after a run without one is where the run ends. */
  lemma {:induction false} IndexOfAfter(a: string, rest: string, c: char)
    requires c !in a
    ensures IndexOf(a + [c] + rest, c) == |a|
  {
    if a != [] {
      assert (a + [c] + rest)[1..] == a[1..] + [c] + rest;
      IndexOfAfter(a[1..], rest, c);
    }
  }

  /** A hit `file:line:content` is split at its first two colons only, so
      the content keeps any colons of its own. */
  lemma FormatGrepHitOfParts(file: string, line: string, content: string)
    requires ':' !in file && ':' !in line
    ensures FormatGrepHit(file + ":" + line + ":" + content) ==
              "    " + Bold(file + ":" + line) + ": " + Dim(content)
  {
    var hit := file + ":" + line + ":" + content;
    var rest := line + ":" + content;
    IndexOfAfter(file, rest, ':');
    assert hit == file + [':'] + rest;
    assert hit[..|file|] == file && hit[|file| + 1..] == rest;
    IndexOfAfter(line, content, ':');
    assert rest == line + [':'] + content;
    assert rest[..|line|] == line && rest[|line| + 1..] == content;
    assert SplitAtMost(content, ':', 0) == [content];
    assert SplitAtMost(rest, ':', 1) == [line, content];
    assert SplitAtMost(hit, ':', 2) == [file, line, content];
  }

  /** A hit with fewer than two colons is only indented. */
  lemma FormatGrepHitPlain(hit: string)
    requires Count(hit, ':') < 2
    ensures FormatGrepHit(hit) == "    " + hit
  {
    SplitAtMostCount(hit, ':', 2);
  }

  // ---------------------------------------------------------------------
  // repo_name
  // ---------------------------------------------------------------------

  /** The index just past the last `/` of `p`, or 0 when there is none. */
  function LastSepEnd(p: string): (k: nat)
    ensures k <= |p|
  {
    if p == [] then 0
    else if p[|p| - 1] == '/' then |p|
    else LastSepEnd(p[..|p| - 1])
  }

  /** `os.path.basename(p)` */
  function Basename(p: string): string
  {
    p[LastSepEnd(p)..]
  }

  /** `s.rstrip("/")` */
  function RStripSep(s: string): string
  {
    if s != [] && s[|s| - 1] == '/' then RStripSep(s[..|s| - 1]) else s
  }

  /** `os.path.dirname(p)`: everything up to the last `/`, with trailing
      slashes dropped unless it is nothing but slashes (then stripping
      would leave nothing). */
  function Dirname(p: string): string
  {
    var head := p[..LastSepEnd(p)];
    var stripped := RStripSep(head);
    if stripped != [] then stripped else head
  }

  /** `REPO_NAME_OVERRIDES`: repositories whose `parent/name` is not the
      name the table shows. */
  const RepoNameOverrides: map<string, string> := map["sonic-sairedis/SAI" := "opencompute/SAI"]

  /** `repo_name(abs_path)` */
  function RepoName(absPath: string): string
  {
    var default := Basename(Dirname(absPath)) + "/" + Basename(absPath);
    if default in RepoNameOverrides then RepoNameOverrides[default] else default
  }

  /** The last separator of `s/w` is the one before `w` when `w` has none. */
  lemma {:induction false} LastSepEndOf(s: string, w: string)
    requires '/' !in w
    ensures LastSepEnd(s + "/" + w) == |s| + 1
    decreases |w|
  {
    var p := s + "/" + w;
    if w != [] {
      assert p[..|p| - 1] == s + "/" + w[..|w| - 1];
      assert p[|p| - 1] == w[|w| - 1];
      LastSepEndOf(s, w[..|w| - 1]);
    }
  }

  /** The default name of a repository at `<anything>/<parent>/<name>` is
      `parent/name`. */
  lemma DefaultNameOfPath(prefix: string, parent: string, name: string)
    requires parent != [] && '/' !in parent && '/' !in name
    ensures var p := prefix + "/" + parent + "/" + name;
            Basename(Dirname(p)) + "/" + Basename(p) == parent + "/" + name
  {
    var dir := prefix + "/" + parent;
    var p := dir + "/" + name;
    LastSepEndOf(dir, name);
    assert p[..|dir| + 1] == dir + "/";
    assert Basename(p) == name;
    assert dir[|dir| - 1] == parent[|parent| - 1];
    assert (dir + "/")[..|dir|] == dir;
    assert RStripSep(dir) == dir;
    assert RStripSep(dir + "/") == dir;
    LastSepEndOf(prefix, parent);
  }

  /** Only the pair `sonic-sairedis`, `SAI` forms the overridden name. */
  lemma OverrideKey(parent: string, name: string)
    requires '/' !in parent
    ensures parent + "/" + name == "sonic-sairedis/SAI" <==> parent == "sonic-sairedis" && name == "SAI"
  {
    var default := parent + "/" + name;
    if default == "sonic-sairedis/SAI" {
      assert forall i :: 0 <= i < 18 && i != 14 ==> "sonic-sairedis/SAI"[i] != '/';
      assert forall i :: 0 <= i < |parent| ==> default[i] != '/';
      assert default[|parent|] == '/';
      assert parent == default[..14] && name == default[15..];
    }
  }

  /** A repository at `<anything>/<parent>/<name>` is named `parent/name`,
      except that `sonic-sairedis/SAI` is shown as `opencompute/SAI`. */
  lemma RepoNameOfPath(prefix: string, parent: string, name: string)
    requires parent != [] && '/' !in parent && '/' !in name
    ensures RepoName(prefix + "/" + parent + "/" + name) ==
              if parent == "sonic-sairedis" && name == "SAI" then "opencompute/SAI" else parent + "/" + name
  {
    DefaultNameOfPath(prefix, parent, name);
    OverrideKey(parent, name);
  }

  // ---------------------------------------------------------------------
  // Padded Markdown tables
  // ---------------------------------------------------------------------

  /** One row of the repository table, as `process_repo` builds it; `branch`
      is present only when the table was asked to include branches. */
  datatype RepoEntry = RepoEntry(
    repository: string, path: string, commit: string,
    isWorking: bool, isBazelReady: bool, branch: Option<string>)

  /** The text columns, with the branch column only when asked for. */
  function Headers(includeBranch: bool): (h: seq<string>)
    ensures |h| == if includeBranch then 3 else 2
  {
    ["Repository", "Commit"] + (if includeBranch then ["Branch"] else [])
  }

  /** Every entry carries a branch when the branch column is asked for. */
  predicate HasKeys(results: seq<RepoEntry>, includeBranch: bool)
  {
    includeBranch ==> forall k :: 0 <= k < |results| ==> results[k].branch.Some?
  }

  /** `[r[k] for k in keys]` */
  function Cells(r: RepoEntry, includeBranch: bool): (c: seq<string>)
    requires includeBranch ==> r.branch.Some?
    ensures |c| == |Headers(includeBranch)|
  {
    [r.repository, r.commit] + (if includeBranch then [r.branch.value] else [])
  }

  /** The text cells of every entry, in order. */
  function CellRows(results: seq<RepoEntry>, includeBranch: bool): (rows: seq<seq<string>>)
    requires HasKeys(results, includeBranch)
    ensures |rows| == |results|
    ensures forall k :: 0 <= k < |rows| ==> |rows[k]| == |Headers(includeBranch)|
  {
    seq(|results|, k requires 0 <= k < |results| => Cells(results[k], includeBranch))
  }

  /** The width of column `i` over `rows`, starting from header `h`: the
      loop `widths[i] = max(widths[i], len(r[k]))`. */
  function ColumnWidth(h: string, rows: seq<seq<string>>, i: nat): nat
    requires forall k :: 0 <= k < |rows| ==> i < |rows[k]|
  {
    if rows == [] then |h|
    else
      var w := ColumnWidth(h, rows[..|rows| - 1], i);
      var c := |rows[|rows| - 1][i]|;
      if w < c then c else w
  }

  /** The widths of all columns. */
  function Widths(headers: seq<string>, rows: seq<seq<string>>): (w: seq<nat>)
    requires forall k :: 0 <= k < |rows| ==> |rows[k]| == |headers|
    ensures |w| == |headers|
  {
    seq(|headers|, i requires 0 <= i < |headers| => ColumnWidth(headers[i], rows, i))
  }

  /** A column's width is the largest of its header's length and its cells'
      lengths: at least each of them, and equal to one of them. */
  lemma {:induction false} ColumnWidthIsMax(h: string, rows: seq<seq<string>>, i: nat)
    requires forall k :: 0 <= k < |rows| ==> i < |rows[k]|
    ensures |h| <= ColumnWidth(h, rows, i)
    ensures forall k :: 0 <= k < |rows| ==> |rows[k][i]| <= ColumnWidth(h, rows, i)
    ensures ColumnWidth(h, rows, i) == |h|
            || exists k :: 0 <= k < |rows| && ColumnWidth(h, rows, i) == |rows[k][i]|
  {
    if rows != [] {
      var init := rows[..|rows| - 1];
      ColumnWidthIsMax(h, init, i);
      assert forall k :: 0 <= k < |init| ==> init[k] == rows[k];
      if ColumnWidth(h, rows, i) != |h| && ColumnWidth(h, rows, i) != |rows[|rows| - 1][i]| {
        var k :| 0 <= k < |init| && ColumnWidth(h, init, i) == |init[k][i]|;
        assert ColumnWidth(h, rows, i) == |rows[k][i]|;
      }
    }
  }

  /** `c.ljust(w) for c, w in zip(cells, widths)` */
  function Padded(cells: seq<string>, widths: seq<nat>): (p: seq<string>)
    ensures |p| == if |cells| < |widths| then |cells| else |widths|
  {
    var n := if |cells| < |widths| then |cells| else |widths|;
    seq(n, j requires 0 <= j < n => Pad(cells[j], widths[j]))
  }

  /** `row(cells)` */
  function Row(cells: seq<string>, widths: seq<nat>): string
  {
    "| " + Join(Padded(cells, widths), " | ") + " |"
  }

  /** The separator line: `w + 2` dashes per column. */
  function Separator(widths: seq<nat>): string
  {
    "|" + Join(seq(|widths|, j requires 0 <= j < |widths| => Repeat('-', widths[j] + 2)), "|") + "|"
  }

  /** The length of every line of a table with these column widths: one
      bar, then each column's width plus a space, a bar and a space. */
  function LineLength(widths: seq<nat>): nat
  {
    if widths == [] then 1 else widths[0] + 3 + LineLength(widths[1..])
  }

  /** Parts whose lengths follow the widths, joined by `sep`, fill a line
      of the table but for its outer frame. */
  lemma {:induction false} JoinedWidth(parts: seq<string>, widths: seq<nat>, sep: string)
    requires |parts| == |widths| > 0
    requires forall j :: 0 <= j < |parts| ==> |parts[j]| + |sep| == widths[j] + 3
    ensures |Join(parts, sep)| + |sep| + 1 == LineLength(widths)
    decreases |parts|
  {
    if |parts| > 1 {
      JoinedWidth(parts[1..], widths[1..], sep);
    }
  }

  /** Every line is `n` characters long. */
  predicate UniformWidth(lines: seq<string>, n: nat)
  {
    forall k :: 0 <= k < |lines| ==> |lines[k]| == n
  }

  lemma UniformWidthConcat(a: seq<string>, b: seq<string>, n: nat)
    requires UniformWidth(a, n) && UniformWidth(b, n)
    ensures UniformWidth(a + b, n)
  {
  }

  /** Cells that fit their columns make a row exactly as wide as the table. */
  lemma RowLength(cells: seq<string>, widths: seq<nat>)
    requires |cells| == |widths| > 0
    requires forall j :: 0 <= j < |cells| ==> |cells[j]| <= widths[j]
    ensures |Row(cells, widths)| == LineLength(widths)
  {
    JoinedWidth(Padded(cells, widths), widths, " | ");
  }

  /** The separator is as wide as the table. */
  lemma SeparatorLength(widths: seq<nat>)
    requires widths != []
    ensures |Separator(widths)| == LineLength(widths)
  {
    JoinedWidth(seq(|widths|, j requires 0 <= j < |widths| => Repeat('-', widths[j] + 2)), widths, "|");
  }

  /** The cells of every row fit the computed widths, and so does the
      header. */
  lemma CellsFit(headers: seq<string>, rows: seq<seq<string>>, k: nat)
    requires forall r :: 0 <= r < |rows| ==> |rows[r]| == |headers|
    requires k < |rows|
    ensures forall j :: 0 <= j < |headers| ==> |rows[k][j]| <= Widths(headers, rows)[j]
    ensures forall j :: 0 <= j < |headers| ==> |headers[j]| <= Widths(headers, rows)[j]
  {
    forall j | 0 <= j < |headers|
      ensures |rows[k][j]| <= Widths(headers, rows)[j] && |headers[j]| <= Widths(headers, rows)[j]
    {
      ColumnWidthIsMax(headers[j], rows, j);
    }
  }

  /** The header always fits the computed widths. */
  lemma HeadersFit(headers: seq<string>, rows: seq<seq<string>>)
    requires forall r :: 0 <= r < |rows| ==> |rows[r]| == |headers|
    ensures forall j :: 0 <= j < |headers| ==> |headers[j]| <= Widths(headers, rows)[j]
  {
    forall j | 0 <= j < |headers|
      ensures |headers[j]| <= Widths(headers, rows)[j]
    {
      ColumnWidthIsMax(headers[j], rows, j);
    }
  }

  // ---------------------------------------------------------------------
  // format_markdown
  // ---------------------------------------------------------------------

  /** The widths of the text columns over every entry. */
  function TextWidths(results: seq<RepoEntry>, includeBranch: bool): (w: seq<nat>)
    requires HasKeys(results, includeBranch)
    ensures |w| == |Headers(includeBranch)|
  {
    Widths(Headers(includeBranch), CellRows(results, includeBranch))
  }

  /** One row per entry, in order, over the given widths. */
  function EntryRows(results: seq<RepoEntry>, includeBranch: bool, w: seq<nat>): (lines: seq<string>)
    requires HasKeys(results, includeBranch)
    ensures |lines| == |results|
    ensures forall k :: 0 <= k < |results| ==> lines[k] == Row(Cells(results[k], includeBranch), w)
  {
    if results == [] then []
    else EntryRows(results[..|results| - 1], includeBranch, w) + [Row(Cells(results[|results| - 1], includeBranch), w)]
  }

  /** The lines `format_markdown` joins: header, separator, one row per
      entry in order. */
  function MarkdownLines(results: seq<RepoEntry>, includeBranch: bool): seq<string>
    requires HasKeys(results, includeBranch)
  {
    var w := TextWidths(results, includeBranch);
    [Row(Headers(includeBranch), w), Separator(w)] + EntryRows(results, includeBranch, w)
  }

  /** The table has a header line, a separator line and a line per entry,
      and every line is as wide as every other. */
  lemma MarkdownLinesAligned(results: seq<RepoEntry>, includeBranch: bool)
    requires HasKeys(results, includeBranch)
    ensures |MarkdownLines(results, includeBranch)| == 2 + |results|
    ensures UniformWidth(MarkdownLines(results, includeBranch), LineLength(TextWidths(results, includeBranch)))
  {
    var w := TextWidths(results, includeBranch);
    HeadersFit(Headers(includeBranch), CellRows(results, includeBranch));
    RowLength(Headers(includeBranch), w);
    SeparatorLength(w);
    EntryRowsAligned(results, includeBranch);
    UniformWidthConcat([Row(Headers(includeBranch), w), Separator(w)], EntryRows(results, includeBranch, w), LineLength(w));
  }

  /** Every entry's row is as wide as the table. */
  lemma EntryRowsAligned(results: seq<RepoEntry>, includeBranch: bool)
    requires HasKeys(results, includeBranch)
    ensures UniformWidth(EntryRows(results, includeBranch, TextWidths(results, includeBranch)),
                         LineLength(TextWidths(results, includeBranch)))
  {
    var h := Headers(includeBranch);
    var rows := CellRows(results, includeBranch);
    var w := TextWidths(results, includeBranch);
    forall k | 0 <= k < |results|
      ensures |Row(Cells(results[k], includeBranch), w)| == LineLength(w)
    {
      CellsFit(h, rows, k);
      RowLength(rows[k], w);
    }
  }

  /** Each row of the table shows its entry's cells in order, each padded
      to its column's width. */
  lemma MarkdownRowCells(results: seq<RepoEntry>, includeBranch: bool, k: nat, j: nat)
    requires HasKeys(results, includeBranch)
    requires k < |results| && j < |Headers(includeBranch)|
    ensures var w := TextWidths(results, includeBranch);
            var cell := Padded(Cells(results[k], includeBranch), w)[j];
            |cell| == w[j] && cell[..|Cells(results[k], includeBranch)[j]|] == Cells(results[k], includeBranch)[j]
  {
    CellsFit(Headers(includeBranch), CellRows(results, includeBranch), k);
  }

  /** The Branch column is present exactly when it is asked for. */
  lemma BranchColumn(results: seq<RepoEntry>, includeBranch: bool)
    requires HasKeys(results, includeBranch)
    ensures |TextWidths(results, includeBranch)| == 3 <==> includeBranch
    ensures includeBranch ==>
              (Headers(includeBranch)[2] == "Branch"
               && forall k :: 0 <= k < |results| ==> Cells(results[k], includeBranch)[2] == results[k].branch.value)
  {
  }

  /** The widths of the text columns, computed as `format_markdown` and
      `format_checkpoint_markdown` do: header lengths, raised by every
      entry's cells. */
  method ComputeTextWidths(results: seq<RepoEntry>, includeBranch: bool) returns (widths: seq<nat>)
    requires HasKeys(results, includeBranch)
    ensures widths == TextWidths(results, includeBranch)
  {
    var headers := Headers(includeBranch);
    ghost var rows := CellRows(results, includeBranch);
    widths := seq(|headers|, i requires 0 <= i < |headers| => |headers[i]|);
    for r := 0 to |results|
      invariant |widths| == |headers|
      invariant forall i :: 0 <= i < |headers| ==> widths[i] == ColumnWidth(headers[i], rows[..r], i)
    {
      var cells := Cells(results[r], includeBranch);
      assert cells == rows[r];
      assert rows[..r + 1][..r] == rows[..r];
      for i := 0 to |headers|
        invariant |widths| == |headers|
        invariant forall j :: 0 <= j < i ==> widths[j] == ColumnWidth(headers[j], rows[..r + 1], j)
        invariant forall j :: i <= j < |headers| ==> widths[j] == ColumnWidth(headers[j], rows[..r], j)
      {
        var c := |cells[i]|;
        widths := widths[i := if widths[i] < c then c else widths[i]];
      }
    }
    assert rows[..|results|] == rows;
  }

  /** `format_markdown(results, include_branch)` */
  method FormatMarkdown(results: seq<RepoEntry>, includeBranch: bool) returns (text: string)
    requires HasKeys(results, includeBranch)
    ensures text == Join(MarkdownLines(results, includeBranch), "\n")
  {
    var headers := Headers(includeBranch);
    var widths := ComputeTextWidths(results, includeBranch);
    var lines := [Row(headers, widths), Separator(widths)];
    for r := 0 to |results|
      invariant lines == [Row(headers, widths), Separator(widths)] + EntryRows(results[..r], includeBranch, widths)
    {
      assert results[..r + 1][..r] == results[..r];
      lines := lines + [Row(Cells(results[r], includeBranch), widths)];
    }
    assert results[..|results|] == results;
    text := Join(lines, "\n");
  }

  // ---------------------------------------------------------------------
  // format_checkpoint_markdown
  // ---------------------------------------------------------------------

  const Check: string := "\U{2713}"
  const Cross: string := "\U{2717}"

  /** The heading of the first status column. */
  const WorkingHeader: string := "Working"
  /** The heading of the second status column. */
  const BazelReadyHeader: string := "Bazel-Ready"
  /** The heading of the first issue section. */
  const TodoBlTitle: string := "### TODO BL: markers"
  /** The heading of the second issue section. */
  const TodoBazelReadyTitle: string := "### TODO(bazel-ready) markers"
  /** A fence around a repository's hits. */
  const Fence: string := "```"

  /** A status mark: a check for yes, a cross for no. */
  function Mark(b: bool): (m: string)
    ensures |m| == 1
    ensures m == Check <==> b
    ensures m == Cross <==> !b
  {
    if b then Check else Cross
  }

  /** The checkpoint table's columns: the text columns, then the two status
      columns. */
  function CheckpointHeaders(includeBranch: bool): (h: seq<string>)
    ensures |h| == |Headers(includeBranch)| + 2
  {
    Headers(includeBranch) + [WorkingHeader, BazelReadyHeader]
  }

  /** The widths of the checkpoint table: the text columns' computed
      widths, then each status column as wide as its heading. */
  function CheckpointWidths(results: seq<RepoEntry>, includeBranch: bool): (w: seq<nat>)
    requires HasKeys(results, includeBranch)
    ensures |w| == |CheckpointHeaders(includeBranch)|
  {
    TextWidths(results, includeBranch) + [|WorkingHeader|, |BazelReadyHeader|]
  }

  /** An entry's cells in the checkpoint table. */
  function StatusCells(r: RepoEntry, includeBranch: bool): (c: seq<string>)
    requires includeBranch ==> r.branch.Some?
    ensures |c| == |CheckpointHeaders(includeBranch)|
  {
    Cells(r, includeBranch) + [Mark(r.isWorking), Mark(r.isBazelReady)]
  }

  /** One checkpoint row per entry, in order, over the given widths. */
  function StatusRows(results: seq<RepoEntry>, includeBranch: bool, w: seq<nat>): (lines: seq<string>)
    requires HasKeys(results, includeBranch)
    ensures |lines| == |results|
    ensures forall k :: 0 <= k < |results| ==> lines[k] == Row(StatusCells(results[k], includeBranch), w)
  {
    if results == [] then []
    else StatusRows(results[..|results| - 1], includeBranch, w) + [Row(StatusCells(results[|results| - 1], includeBranch), w)]
  }

  /** The status cells are the marks, padded to the widths of the
      `Working` and `Bazel-Ready` headings. */
  lemma StatusMarks(results: seq<RepoEntry>, includeBranch: bool, k: nat)
    requires HasKeys(results, includeBranch) && k < |results|
    ensures var w := CheckpointWidths(results, includeBranch);
            var p := Padded(StatusCells(results[k], includeBranch), w);
            && |p| == |w|
            && p[|w| - 2] == Mark(results[k].isWorking) + Repeat(' ', 6)
            && p[|w| - 1] == Mark(results[k].isBazelReady) + Repeat(' ', 10)
  {
    var w := CheckpointWidths(results, includeBranch);
    var c := StatusCells(results[k], includeBranch);
    assert c[|w| - 2] == Mark(results[k].isWorking);
    assert c[|w| - 1] == Mark(results[k].isBazelReady);
    assert w[|w| - 2] == 7 && w[|w| - 1] == 11;
  }

  /** The hits found in one repository: one entry of a hits dictionary,
      whose entries keep their insertion order. */
  datatype HitGroup = HitGroup(repoPath: string, hits: seq<string>)

  /** The heading of a repository's hits. */
  function GroupHeading(g: HitGroup): string
  {
    "**" + RepoName(g.repoPath) + "** (`" + g.repoPath + "`)"
  }

  /** A repository's block: heading, blank, fenced hits, blank. */
  function GroupLines(g: HitGroup): seq<string>
  {
    [GroupHeading(g), "", Fence] + g.hits + [Fence, ""]
  }

  /** The blocks of every repository of a dictionary, in order. */
  function GroupsLines(gs: seq<HitGroup>): seq<string>
  {
    Blocks(gs, GroupLines)
  }

  /** The blocks of `xs`, one after the other. */
  function Blocks<T>(xs: seq<T>, block: T -> seq<string>): seq<string>
  {
    if xs == [] then [] else Blocks(xs[..|xs| - 1], block) + block(xs[|xs| - 1])
  }

  /** A section: nothing for an empty dictionary, else its title, a blank
      line and the blocks. */
  function SectionLines(title: string, gs: seq<HitGroup>): seq<string>
  {
    if gs == [] then [] else [title, ""] + GroupsLines(gs)
  }

  /** The Issues part: absent when both dictionaries are empty. */
  function IssueLines(todoBl: seq<HitGroup>, todoBazelReady: seq<HitGroup>): seq<string>
  {
    if todoBl == [] && todoBazelReady == [] then []
    else ["", "## Issues", ""] + SectionLines(TodoBlTitle, todoBl) + SectionLines(TodoBazelReadyTitle, todoBazelReady)
  }

  /** The checkpoint table: header, separator, a row per entry. */
  function CheckpointTable(results: seq<RepoEntry>, includeBranch: bool): seq<string>
    requires HasKeys(results, includeBranch)
  {
    var w := CheckpointWidths(results, includeBranch);
    [Row(CheckpointHeaders(includeBranch), w), Separator(w)] + StatusRows(results, includeBranch, w)
  }

  /** The dated title and the blank line after it. */
  function TitleLines(date: string): seq<string>
  {
    ["# Checkpoint -- " + date, ""]
  }

  /** The lines `format_checkpoint_markdown` joins on `date`. */
  function CheckpointLines(results: seq<RepoEntry>, todoBl: seq<HitGroup>, todoBazelReady: seq<HitGroup>,
                           includeBranch: bool, date: string): seq<string>
    requires HasKeys(results, includeBranch)
  {
    TitleLines(date) + CheckpointTable(results, includeBranch) + IssueLines(todoBl, todoBazelReady)
  }

  /** The status columns are 7 and 11 wide whatever the entries; the table
      has a header, a separator and a row per entry, all of one width. */
  lemma CheckpointTableAligned(results: seq<RepoEntry>, includeBranch: bool)
    requires HasKeys(results, includeBranch)
    ensures var w := CheckpointWidths(results, includeBranch);
            var table := CheckpointTable(results, includeBranch);
            && w[|w| - 2] == 7 && w[|w| - 1] == 11
            && |table| == 2 + |results|
            && UniformWidth(table, LineLength(w))
  {
    var w := CheckpointWidths(results, includeBranch);
    HeadersFit(Headers(includeBranch), CellRows(results, includeBranch));
    RowLength(CheckpointHeaders(includeBranch), w);
    SeparatorLength(w);
    StatusRowsAligned(results, includeBranch);
    UniformWidthConcat([Row(CheckpointHeaders(includeBranch), w), Separator(w)],
                       StatusRows(results, includeBranch, w), LineLength(w));
  }

  /** Every entry's checkpoint row is as wide as the table. */
  lemma StatusRowsAligned(results: seq<RepoEntry>, includeBranch: bool)
    requires HasKeys(results, includeBranch)
    ensures UniformWidth(StatusRows(results, includeBranch, CheckpointWidths(results, includeBranch)),
                         LineLength(CheckpointWidths(results, includeBranch)))
  {
    var h := Headers(includeBranch);
    var rows := CellRows(results, includeBranch);
    var w := CheckpointWidths(results, includeBranch);
    forall k | 0 <= k < |results|
      ensures |Row(StatusCells(results[k], includeBranch), w)| == LineLength(w)
    {
      CellsFit(h, rows, k);
      assert rows[k] == Cells(results[k], includeBranch);
      RowLength(StatusCells(results[k], includeBranch), w);
    }
  }

  /** The checkpoint is its dated title and a blank line, the table, then
      the Issues part. */
  lemma CheckpointLayout(results: seq<RepoEntry>, todoBl: seq<HitGroup>, todoBazelReady: seq<HitGroup>,
                         includeBranch: bool, date: string)
    requires HasKeys(results, includeBranch)
    ensures var lines := CheckpointLines(results, todoBl, todoBazelReady, includeBranch, date);
            var n := |results|;
            && |lines| == 4 + n + |IssueLines(todoBl, todoBazelReady)|
            && lines[0] == "# Checkpoint -- " + date && lines[1] == ""
            && lines[2..4 + n] == CheckpointTable(results, includeBranch)
            && lines[4 + n..] == IssueLines(todoBl, todoBazelReady)
  {
    var table := CheckpointTable(results, includeBranch);
    var lines := CheckpointLines(results, todoBl, todoBazelReady, includeBranch, date);
    assert |table| == 2 + |results|;
    assert lines[..2 + |table|] == TitleLines(date) + table;
    assert lines[2..4 + |results|] == (TitleLines(date) + table)[2..];
  }

  /** The Issues part is there exactly when a dictionary has an entry; it
      then opens with a blank line, `## Issues` and a blank line, followed
      by the TODO BL section if there are such markers, else by the
      bazel-ready section. */
  lemma IssuesPresent(todoBl: seq<HitGroup>, todoBazelReady: seq<HitGroup>)
    ensures var issues := IssueLines(todoBl, todoBazelReady);
            && (issues == [] <==> todoBl == [] && todoBazelReady == [])
            && (issues != [] ==> |issues| >= 5 && issues[..3] == ["", "## Issues", ""])
            && (todoBl != [] ==> issues[3] == TodoBlTitle)
            && (todoBl == [] && todoBazelReady != [] ==> issues[3] == TodoBazelReadyTitle)
  {
  }

  /** The blocks of the first `m` items begin the blocks of all. */
  lemma {:induction false} BlocksPrefix<T>(xs: seq<T>, block: T -> seq<string>, m: nat)
    requires m <= |xs|
    ensures Blocks(xs[..m], block) <= Blocks(xs, block)
    decreases |xs|
  {
    if m < |xs| {
      var init := xs[..|xs| - 1];
      BlocksPrefix(init, block, m);
      assert init[..m] == xs[..m];
    } else {
      assert xs[..m] == xs;
    }
  }

  /** Item `k`'s block comes, unchanged, right after the blocks of the items
      before it. */
  lemma BlockInPlace<T>(xs: seq<T>, block: T -> seq<string>, k: nat)
    requires k < |xs|
    ensures var o := |Blocks(xs[..k], block)|;
            o + |block(xs[k])| <= |Blocks(xs, block)|
            && Blocks(xs, block)[o..o + |block(xs[k])|] == block(xs[k])
  {
    var before := Blocks(xs[..k], block);
    assert before + block(xs[k]) <= Blocks(xs, block) by {
      BlocksPrefix(xs, block, k + 1);
      assert xs[..k + 1][..k] == xs[..k];
    }
    PrefixSlice(before, block(xs[k]), Blocks(xs, block));
  }

  /** A repository's block: its heading, a blank line, then its hits
      between two fences, then a blank line. */
  lemma GroupFenced(g: HitGroup)
    ensures var block := GroupLines(g);
            && |block| == |g.hits| + 5
            && block[0] == GroupHeading(g) && block[1] == ""
            && block[2] == Fence && block[3..3 + |g.hits|] == g.hits && block[3 + |g.hits|] == Fence
            && block[4 + |g.hits|] == ""
  {
  }

  lemma PrefixSlice<T>(a: seq<T>, b: seq<T>, c: seq<T>)
    requires a + b <= c
    ensures c[|a|..|a| + |b|] == b
  {
    assert c[..|a| + |b|] == a + b;
  }

  /** The heading names the repository and shows its path. */
  lemma HeadingNamesRepo(prefix: string, parent: string, name: string, hits: seq<string>)
    requires parent != [] && '/' !in parent && '/' !in name
    ensures var path := prefix + "/" + parent + "/" + name;
            GroupHeading(HitGroup(path, hits))
              == "**" + (if parent == "sonic-sairedis" && name == "SAI" then "opencompute/SAI" else parent + "/" + name)
                 + "** (`" + path + "`)"
  {
    RepoNameOfPath(prefix, parent, name);
  }

  lemma AppendAssoc<T>(a: seq<T>, b: seq<T>, c: seq<T>)
    ensures a + (b + c) == a + b + c
  {
  }

  /** `lines` followed by the block of one repository, appended line by
      line. */
  method AppendGroup(lines: seq<string>, g: HitGroup) returns (out: seq<string>)
    ensures out == lines + GroupLines(g)
  {
    out := lines + [GroupHeading(g)];
    out := out + [""];
    out := out + [Fence];
    out := out + g.hits;
    out := out + [Fence];
    out := out + [""];
  }

  /** `lines` followed by the blocks of `groups`, in order. */
  method AppendGroups(lines: seq<string>, groups: seq<HitGroup>) returns (out: seq<string>)
    ensures out == lines + GroupsLines(groups)
  {
    out := lines;
    for k := 0 to |groups|
      invariant out == lines + GroupsLines(groups[..k])
    {
      assert groups[..k + 1][..k] == groups[..k];
      assert GroupsLines(groups[..k + 1]) == GroupsLines(groups[..k]) + GroupLines(groups[k]);
      AppendAssoc(lines, GroupsLines(groups[..k]), GroupLines(groups[k]));
      out := AppendGroup(out, groups[k]);
    }
    assert groups[..|groups|] == groups;
  }

  /** `lines` followed by the section `title` for the dictionary `groups`. */
  method AppendSection(lines: seq<string>, title: string, groups: seq<HitGroup>) returns (out: seq<string>)
    ensures out == lines + SectionLines(title, groups)
  {
    if groups == [] {
      return lines;
    }
    out := lines + [title, ""];
    out := AppendGroups(out, groups);
  }

  /** A checkpoint row per entry, appended to `lines` in order. */
  method AppendStatusRows(lines: seq<string>, results: seq<RepoEntry>, includeBranch: bool, allWidths: seq<nat>)
    returns (out: seq<string>)
    requires HasKeys(results, includeBranch)
    ensures out == lines + StatusRows(results, includeBranch, allWidths)
  {
    out := lines;
    for r := 0 to |results|
      invariant out == lines + StatusRows(results[..r], includeBranch, allWidths)
    {
      assert results[..r + 1][..r] == results[..r];
      var cells := Cells(results[r], includeBranch) + [Mark(results[r].isWorking), Mark(results[r].isBazelReady)];
      AppendAssoc(lines, StatusRows(results[..r], includeBranch, allWidths), [Row(cells, allWidths)]);
      out := out + [Row(cells, allWidths)];
    }
    assert results[..|results|] == results;
  }

  /** The checkpoint table's lines, appended to `lines`. */
  method AppendCheckpointTable(lines: seq<string>, results: seq<RepoEntry>, includeBranch: bool)
    returns (out: seq<string>)
    requires HasKeys(results, includeBranch)
    ensures out == lines + CheckpointTable(results, includeBranch)
  {
    var headers := Headers(includeBranch) + [WorkingHeader, BazelReadyHeader];
    var widths := ComputeTextWidths(results, includeBranch);
    var allWidths := widths + [|WorkingHeader|, |BazelReadyHeader|];
    out := lines + [Row(headers, allWidths)];
    out := out + [Separator(allWidths)];
    ghost var top := [Row(headers, allWidths), Separator(allWidths)];
    assert out == lines + top;
    out := AppendStatusRows(out, results, includeBranch, allWidths);
    AppendAssoc(lines, top, StatusRows(results, includeBranch, allWidths));
  }

  /** The Issues part, appended to `lines`. */
  method AppendIssues(lines: seq<string>, todoBl: seq<HitGroup>, todoBazelReady: seq<HitGroup>)
    returns (out: seq<string>)
    ensures out == lines + IssueLines(todoBl, todoBazelReady)
  {
    out := lines;
    if todoBl != [] || todoBazelReady != [] {
      out := out + ["", "## Issues", ""];
      out := AppendSection(out, TodoBlTitle, todoBl);
      out := AppendSection(out, TodoBazelReadyTitle, todoBazelReady);
      AppendAssoc(lines, ["", "## Issues", ""], SectionLines(TodoBlTitle, todoBl));
      AppendAssoc(lines, ["", "## Issues", ""] + SectionLines(TodoBlTitle, todoBl),
                  SectionLines(TodoBazelReadyTitle, todoBazelReady));
    }
  }

  /** `format_checkpoint_markdown(results, todo_bl_hits,
      todo_bazel_ready_hits, include_branch)` on the day `date`. */
  method FormatCheckpointMarkdown(results: seq<RepoEntry>, todoBl: seq<HitGroup>, todoBazelReady: seq<HitGroup>,
                                  includeBranch: bool, date: string) returns (text: string)
    requires HasKeys(results, includeBranch)
    ensures text == Join(CheckpointLines(results, todoBl, todoBazelReady, includeBranch, date), "\n")
  {
    var lines := ["# Checkpoint -- " + date, ""];
    lines := AppendCheckpointTable(lines, results, includeBranch);
    lines := AppendIssues(lines, todoBl, todoBazelReady);
    text := Join(lines, "\n");
  }
}
