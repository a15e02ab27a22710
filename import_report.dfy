/**
 * `ConfigFlow._format_import_stats`: the text shown after an import, one
 * section for the imported entries, one for the skipped ones (each listing at
 * most ten names), and a closing line with the number of database entries.
 *
 * `ReportLines` states the lines the formatter produces; `FormatImportStats`
 * is the formatter itself, appending to a list of lines, proved equal to it.
 */
module ImportReport {
  import opened PyStr
  import opened ImportPass

  /** Each section lists at most this many names. */
  const MaxListed := 10

  function Min(a: nat, b: nat): nat { if a <= b then a else b }

  function ImportedHeader(n: nat): string {
    "\U{2705} **Imported: " + NatToString(n) + " entries**"
  }

  function ImportedItem(name: string): string {
    "  - " + name
  }

  function SkippedHeader(n: nat): string {
    "\n\U{23ED}\U{FE0F} **Skipped: " + NatToString(n) + " entries**"
  }

  function SkippedLine(item: SkippedItem): string {
    "  - \"" + item.name + "\" (" + item.reason + ")"
  }

  /** The line standing for the entries beyond the first ten. */
  function MoreLine(n: nat): string {
    "  - ... and " + NatToString(n) + " more"
  }

  function TotalLine(total: nat): string {
    "\n\U{1F4CA} **Total entries in database: " + NatToString(total) + "**"
  }

  /**
   * A section: nothing for an empty list, else the header, up to ten item lines
   * and, past ten, the "more" line; so never more than twelve lines.
   */
  function Section(header: string, items: seq<string>): (r: seq<string>)
    ensures |r| == 0 <==> |items| == 0
    ensures |r| <= MaxListed + 2
  {
    if |items| == 0 then []
    else [header] + items[..Min(|items|, MaxListed)]
               + (if |items| > MaxListed then [MoreLine(|items| - MaxListed)] else [])
  }

  function ImportedItems(names: seq<string>): (r: seq<string>)
    ensures |r| == |names| && forall i :: 0 <= i < |names| ==> r[i] == ImportedItem(names[i])
  {
    seq(|names|, i requires 0 <= i < |names| => ImportedItem(names[i]))
  }

  function SkippedItems(items: seq<SkippedItem>): (r: seq<string>)
    ensures |r| == |items| && forall i :: 0 <= i < |items| ==> r[i] == SkippedLine(items[i])
  {
    seq(|items|, i requires 0 <= i < |items| => SkippedLine(items[i]))
  }

  /** The lines of the report, before they are joined with newlines; the total line always comes last. */
  function ReportLines(stats: ImportStats): (r: seq<string>)
    ensures |r| > 0 && r[|r| - 1] == TotalLine(stats.totalEntries)
  {
    Section(ImportedHeader(|stats.imported|), ImportedItems(stats.imported))
    + Section(SkippedHeader(|stats.skipped|), SkippedItems(stats.skipped))
    + [TotalLine(stats.totalEntries)]
  }

  /**
   * One block of `_format_import_stats`: when there are items, the header,
   * the first ten item lines, and the "more" line past ten.
   */
  method AppendSection(before: seq<string>, header: string, items: seq<string>) returns (lines: seq<string>)
    ensures lines == before + Section(header, items)
  {
    lines := before;
    var count := |items|;
    if count > 0 {
      lines := lines + [header];
      var i := 0;
      while i < Min(count, MaxListed)
        invariant 0 <= i <= Min(count, MaxListed)
        invariant lines == before + [header] + items[..i]
      {
        assert items[..i + 1] == items[..i] + [items[i]];
        lines := lines + [items[i]];
        i := i + 1;
      }
      if count > MaxListed {
        lines := lines + [MoreLine(count - MaxListed)];
      }
    }
  }

  /** `_format_import_stats(import_stats)`: the lines are appended one by one, then joined with `"\n"`. */
  method FormatImportStats(stats: ImportStats) returns (lines: seq<string>, text: string)
    ensures lines == ReportLines(stats)
    ensures text == Join(lines, "\n")
  {
    lines := AppendSection([], ImportedHeader(|stats.imported|), ImportedItems(stats.imported));
    lines := AppendSection(lines, SkippedHeader(|stats.skipped|), SkippedItems(stats.skipped));
    lines := lines + [TotalLine(stats.totalEntries)];
    text := Join(lines, "\n");
  }

  // ----- properties of the report -----

  /**
   * A section is empty exactly when its list is; otherwise it starts with
   * its header, lists the first `min(n, 10)` items in order, and ends with the
   * "more" line for the other `n - 10` exactly when there are more than ten.
   */
  lemma SectionShape(header: string, items: seq<string>)
    ensures var s := Section(header, items);
            && (|s| == 0 <==> |items| == 0)
            && (|items| > 0 ==>
                  && s[0] == header
                  && |s| == 1 + Min(|items|, MaxListed) + (if |items| > MaxListed then 1 else 0)
                  && s[1..1 + Min(|items|, MaxListed)] == items[..Min(|items|, MaxListed)]
                  && (|items| > MaxListed ==> s[|s| - 1] == MoreLine(|items| - MaxListed)))
  {
  }

  /**
   * The imported section comes first and the skipped one follows it, each
   * appearing only when its list is non-empty.
   */
  lemma ReportSections(stats: ImportStats)
    ensures var lines := ReportLines(stats);
            var imp := Section(ImportedHeader(|stats.imported|), ImportedItems(stats.imported));
            var skp := Section(SkippedHeader(|stats.skipped|), SkippedItems(stats.skipped));
            && lines[..|imp|] == imp
            && lines[|imp|..|imp| + |skp|] == skp
            && |lines| == |imp| + |skp| + 1
            && (|stats.imported| > 0 <==> lines[0] == ImportedHeader(|stats.imported|))
  {
    var lines := ReportLines(stats);
    var imp := Section(ImportedHeader(|stats.imported|), ImportedItems(stats.imported));
    if |stats.imported| == 0 {
      HeaderNotOtherLine(|stats.imported|, stats);
    }
  }

  /** With nothing imported, the first line is not an imported header: it is a skipped header or the total line. */
  lemma HeaderNotOtherLine(n: nat, stats: ImportStats)
    requires |stats.imported| == 0
    ensures ReportLines(stats)[0] != ImportedHeader(n)
  {
    var first := ReportLines(stats)[0];
    assert ImportedHeader(n)[0] == '\U{2705}';
    if |stats.skipped| > 0 {
      assert first == SkippedHeader(|stats.skipped|);
      assert first[0] == '\n';
    } else {
      assert first == TotalLine(stats.totalEntries);
      assert first[0] == '\n';
    }
  }
}
