/**
 * A small concrete table: two sections, the first with three style rows
 * titled "a", "b" and "c", the second with header "H" and one row.
 */
module Scenarios {
  import opened Wrappers
  import opened UIKit
  import opened Rows
  import opened Sections
  import opened DataSource

  function StyleRow(title: string): Row {
    SetTitle(NewRow(FromStyle(StyleDefault), "style-default", CellClass(0)), Some(title))
  }

  function ExampleSections(): seq<Section> {
    BuildBlock([
      SectionWithContents([StyleRow("a"), StyleRow("b"), StyleRow("c")]),
      SectionWithHeaderContents("H", [StyleRow("d")])
    ])
  }

  /** A cell as the toolkit creates it in the default style: a text label, an image view, no detail label. */
  function FreshCell(style: CellStyle, id: string): Cell {
    Cell(CellIdentity(0, {CellClass(0)}, Some(id), style),
         CellState(Some(Label(None)), None, Some(ImageView(None)), SelectionDefault,
                   None, AccessoryNone, None, AccessoryNone))
  }

  /** A table view with nothing in its reuse pool yet. */
  function EmptyPoolHost(): Host {
    Host(TableView(0), (id, p) => FreshCell(StyleDefault, id), id => None, (style, id) => FreshCell(style, id))
  }

  lemma {:induction false} TwoSectionExample()
    ensures var ds := FromSections(ExampleSections());
      && NumberOfSections(ds) == 2
      && NumberOfRowsInSection(ds, 0) == 3
      && NumberOfRowsInSection(ds, 1) == 1
      && TitleForHeaderInSection(ds, 0) == None
      && TitleForHeaderInSection(ds, 1) == Some("H")
      && Servable(ds.sections, EmptyPoolHost(), IndexPath(0, 1))
      && HonoursCreation(EmptyPoolHost())
      && CellForRowAt(ds, EmptyPoolHost(), IndexPath(0, 1)).cell.identity.style == StyleDefault
      && CellForRowAt(ds, EmptyPoolHost(), IndexPath(0, 1)).cell.state.textLabel == Some(Label(Some("b")))
      && CellForRowAt(ds, EmptyPoolHost(), IndexPath(0, 1)).registrations == []
  {
    var ds := FromSections(ExampleSections());
    assert ds.sections[0].contents[1] == StyleRow("b");
  }
}
