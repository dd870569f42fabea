/**
 * A section of a table: an ordered list of rows with an optional header and
 * footer, built through initialisers and fluent setters.
 */
module Sections {
  import opened Wrappers
  import opened UIKit
  import opened Rows

  /**
   * What a section shows above or below its rows. The setters of this model
   * store plain titles; the data source also meets header views loaded from
   * a nib, which it does not turn into a title.
   */
  datatype HeaderFooter =
    | Title(text: string)
    | NibView(viewIdentifier: string, nib: Nib)

  /** An opaque section-level tap handler. */
  datatype SectionHandler = SectionHandler(handle: nat)

  datatype Section = Section(
    contents: seq<Row>,
    header: Option<HeaderFooter>,
    footer: Option<HeaderFooter>,
    selectedAction: Option<SectionHandler>)

  /** `init()`: no rows, no header, no footer, no handler. */
  function EmptySection(): (s: Section)
    ensures s.contents == [] && s.header == None && s.footer == None && s.selectedAction == None
  {
    Section([], None, None, None)
  }

  /** `header(_:)`: sets the header title only. */
  function SetHeader(s: Section, title: string): (s': Section)
    ensures s'.header == Some(Title(title))
    ensures s'.contents == s.contents && s'.footer == s.footer && s'.selectedAction == s.selectedAction
  {
    s.(header := Some(Title(title)))
  }

  /** `footer(_:)`: sets the footer title only. */
  function SetFooter(s: Section, title: string): (s': Section)
    ensures s'.footer == Some(Title(title))
    ensures s'.contents == s.contents && s'.header == s.header && s'.selectedAction == s.selectedAction
  {
    s.(footer := Some(Title(title)))
  }

  /** `contents(_:)` given a list: replaces every row. */
  function SetContents(s: Section, rows: seq<Row>): (s': Section)
    ensures |s'.contents| == |rows| && forall i :: 0 <= i < |rows| ==> s'.contents[i] == rows[i]
    ensures s'.header == s.header && s'.footer == s.footer && s'.selectedAction == s.selectedAction
  {
    s.(contents := rows)
  }

  /** `didSelected(_:)`: stores the section's tap handler and nothing else. */
  function DidSelected(s: Section, handler: SectionHandler): (s': Section)
    ensures s'.selectedAction == Some(handler)
    ensures s'.contents == s.contents && s'.header == s.header && s'.footer == s.footer
  {
    s.(selectedAction := Some(handler))
  }

  /**
   * `append(_:)`: adds the row at the end and hands back the same row, so
   * that the caller may go on configuring it.
   */
  function Append(s: Section, row: Row): (result: (Section, Row))
    ensures result.1 == row
    ensures |result.0.contents| == |s.contents| + 1
    ensures s.contents <= result.0.contents
    ensures result.0.contents[|s.contents|] == row
    ensures result.0.header == s.header && result.0.footer == s.footer
    ensures result.0.selectedAction == s.selectedAction
  {
    (s.(contents := s.contents + [row]), row)
  }

  /**
   * `contents(_:)` given a closure: the closure receives the section and
   * works on it, typically through `append`.
   */
  function BuildContents(s: Section, build: Section -> Section): Section
  {
    build(s)
  }

  /** A closure body that appends each of `rows` in turn. */
  function AppendEach(s: Section, rows: seq<Row>): Section
    decreases |rows|
  {
    if rows == [] then s else AppendEach(Append(s, rows[0]).0, rows[1..])
  }

  /** Appending rows one by one adds them, in order, after the rows already there. */
  lemma {:induction false} AppendEachConcatenates(s: Section, rows: seq<Row>)
    ensures AppendEach(s, rows).contents == s.contents + rows
    ensures AppendEach(s, rows).header == s.header && AppendEach(s, rows).footer == s.footer
    ensures AppendEach(s, rows).selectedAction == s.selectedAction
    decreases |rows|
  {
    if rows != [] {
      var next := Append(s, rows[0]).0;
      AppendEachConcatenates(next, rows[1..]);
      assert next.contents == s.contents + [rows[0]];
      assert [rows[0]] + rows[1..] == rows;
      assert (s.contents + [rows[0]]) + rows[1..] == s.contents + rows;
    }
  }

  /**
   * The two `contents` overloads agree: building an emptied section with a
   * closure that appends `rows` gives the section that `contents(rows)` gives.
   */
  lemma BuildContentsMatchesSetContents(s: Section, rows: seq<Row>)
    ensures BuildContents(SetContents(s, []), t => AppendEach(t, rows)) == SetContents(s, rows)
  {
    AppendEachConcatenates(SetContents(s, []), rows);
  }

  // ---------------------------------------------------------------------------
  // Convenience initialisers

  /** `init(headerTitle:)` */
  function SectionWithHeader(header: string): (s: Section)
    ensures s.header == Some(Title(header))
    ensures s.contents == [] && s.footer == None && s.selectedAction == None
  {
    Section([], Some(Title(header)), None, None)
  }

  /** `init(footerTitle:)` */
  function SectionWithFooter(footer: string): (s: Section)
    ensures s.footer == Some(Title(footer))
    ensures s.contents == [] && s.header == None && s.selectedAction == None
  {
    Section([], None, Some(Title(footer)), None)
  }

  /** `init(headerTitle:footerTitle:)` */
  function SectionWithHeaderFooter(header: string, footer: string): (s: Section)
    ensures s.header == Some(Title(header)) && s.footer == Some(Title(footer))
    ensures s.contents == [] && s.selectedAction == None
  {
    SectionWithHeader(header).(footer := Some(Title(footer)))
  }

  /** `init(_:)` given rows */
  function SectionWithContents(rows: seq<Row>): (s: Section)
    ensures s.contents == rows
    ensures s.header == None && s.footer == None && s.selectedAction == None
  {
    EmptySection().(contents := rows)
  }

  /** `init(headerTitle:contents:)` */
  function SectionWithHeaderContents(header: string, rows: seq<Row>): (s: Section)
    ensures s.header == Some(Title(header)) && s.contents == rows
    ensures s.footer == None && s.selectedAction == None
  {
    SectionWithHeader(header).(contents := rows)
  }

  /** `init(headerTitle:contents:footerTitle:)` */
  function SectionWithHeaderContentsFooter(header: string, rows: seq<Row>, footer: string): (s: Section)
    ensures s.header == Some(Title(header)) && s.contents == rows && s.footer == Some(Title(footer))
    ensures s.selectedAction == None
  {
    SectionWithHeaderFooter(header, footer).(contents := rows)
  }

  /** `init(contents:footerTitle:)` */
  function SectionWithContentsFooter(rows: seq<Row>, footer: string): (s: Section)
    ensures s.contents == rows && s.footer == Some(Title(footer))
    ensures s.header == None && s.selectedAction == None
  {
    SectionWithFooter(footer).(contents := rows)
  }

  /**
   * Every convenience initialiser builds the section that `init()` followed by
   * the matching fluent setters builds.
   */
  lemma ConvenienceInitsAreSetterChains(header: string, rows: seq<Row>, footer: string)
    ensures SectionWithHeader(header) == SetHeader(EmptySection(), header)
    ensures SectionWithFooter(footer) == SetFooter(EmptySection(), footer)
    ensures SectionWithHeaderFooter(header, footer) == SetFooter(SetHeader(EmptySection(), header), footer)
    ensures SectionWithContents(rows) == SetContents(EmptySection(), rows)
    ensures SectionWithHeaderContents(header, rows) == SetContents(SetHeader(EmptySection(), header), rows)
    ensures SectionWithHeaderContentsFooter(header, rows, footer)
         == SetContents(SetFooter(SetHeader(EmptySection(), header), footer), rows)
    ensures SectionWithContentsFooter(rows, footer) == SetContents(SetFooter(EmptySection(), footer), rows)
  {
  }
}
