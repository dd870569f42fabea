# TableViewContent, modelled in Dafny

TableViewContent lets an iOS developer declare a table as sections of rows
instead of implementing `UITableViewDataSource` by hand. This project models
the three pieces between the declared tree and the table view's callbacks,
and proves what they promise:

- `ContentDataSource` (module `DataSource`): section and row counts, header
  and footer titles, and `cellForRowAt`. The adapter keeps one mutable list,
  `registeredReuseIdentifiers`. A nib- or class-backed row registers its reuse
  identifier with the table view only the first time the identifier is seen;
  style rows never register. The adapter is a state record threaded through
  `CellForRowAt`. Each call also returns the `register` calls it issued.
  `Serve` folds a whole series of calls.
- `Row` and `RowConfiguration` (module `Rows`): the configuration defaults,
  `init`, every fluent setter, `prepare`, and the selected action that
  `didSelect` stores.
- `TableViewSection` (module `Sections`): the initialisers, `header`,
  `footer`, both `contents` overloads, `append` and `didSelected`.

The table view is a `Host` record: which table view it is, and three answers. Which cell each answer
yields is up to the host. `dequeueRegistered` is
`dequeueReusableCell(withIdentifier:for:)`. `dequeueReusable` is
`dequeueReusableCell(withIdentifier:)` and may return nothing. `makeCell` is
`UITableViewCell(style:reuseIdentifier:)`. A host whose new cells carry the
style and identifier they were created with satisfies `HonoursCreation`.
A cell is a record: a fixed identity (object, classes, reuse identifier,
style) plus the state that `prepare` writes. User closures that customise a
cell are Dafny functions from a cell to its new state. Tap handlers and
swipe-action providers are opaque tags. Invoking a row's selected action
yields a `HandlerCall` record of the arguments the handler receives.

The library's files do not name the same things the same way. The model uses
one vocabulary:

- `ContentDataSource.swift` switches on `row.source` with a `.style` case and
  calls `row._configure`. `Row.swift` names these `representation`,
  `.cellStyle` and `prepare`. The model uses `representation` (cases `FromNib`,
  `FromClass`, `FromStyle`) and `Prepare`.
- `ContentDataSource.swift` reads `headerView?.sectionType` and returns text
  only for a `.title(text)` value. `TableViewSection.swift` stores plain
  `headerTitle`/`footerTitle` strings. The model stores an optional
  `HeaderFooter`, which is either `Title(text)` or a nib-loaded view.
  `header(_:)` and `footer(_:)` store `Title(text)`, so a plain title reads
  back exactly as written. The nib case stands for the adapter's "any other
  header" branch; it matches the `.header(.nib(...))` calls in the example app.

## Model

| member | source | states |
|---|---|---|
| `DataSource.BuildBlock` | TableViewContent/Classes/ContentDataSource.swift:12-14 | the builder returns exactly the declared sections, in declaration order |
| `DataSource.FromSections` | TableViewContent/Classes/ContentDataSource.swift:18-23 | a new adapter serves the given sections unchanged and has registered nothing |
| `DataSource.FromBuilder` | TableViewContent/Classes/ContentDataSource.swift:25-27 | the closure initialiser serves whatever list the builder produced and has registered nothing |
| `DataSource.NumberOfSections` | TableViewContent/Classes/ContentDataSource.swift:29-31 | the section count is the number of sections served; `DeclaredStructureIsReported` shows that is the number declared |
| `DataSource.NumberOfRowsInSection` | TableViewContent/Classes/ContentDataSource.swift:33-36 | the count is a natural number, and the row indices below it are exactly the positions in that section that `cellForRowAt` accepts, so it is the length of the section's contents |
| `DataSource.DeclaredStructureIsReported` | TableViewContent/Classes/ContentDataSource.swift:29-36 | for a built adapter, the section count is the number of declared sections and each section's row count is the length of its contents |
| `DataSource.TitleForHeaderInSection` | TableViewContent/Classes/ContentDataSource.swift:74-82 | a header title is returned exactly when the section's header is a title, and it is that title's text; otherwise nil (no header, or a header view) |
| `DataSource.TitleForFooterInSection` | TableViewContent/Classes/ContentDataSource.swift:84-92 | the same for footers |
| `DataSource.RegisterIfNeeded` | TableViewContent/Classes/ContentDataSource.swift:44-47 | a register call is issued if and only if the identifier was not yet recorded; afterwards it is recorded; the list grows by exactly the issued call's identifier and stays duplicate-free |
| `DataSource.CellForRowAt` | TableViewContent/Classes/ContentDataSource.swift:38-72 | sections are untouched; a nib/class row issues its one `register` call iff its identifier is new, and the identifier is registered afterwards; a style row leaves the list alone and registers nothing, whether or not a reusable cell existed; the list grows only by the issued calls and keeps no duplicates; each issued call names the requesting table view; the returned cell is, prepared once by the row, the cell dequeued for the registered identifier (nib/class), the reusable cell if the table view had one (style), or else a newly created cell of the row's style; a newly created style cell carries the row's style and reuse identifier when the host honours creation |
| `DataSource.Serve` | TableViewContent/Classes/ContentDataSource.swift:38-72 | over any series of `cellForRowAt` calls from one table view the sections never change and the registered list is the initial list followed by the identifiers of every register call issued |
| `DataSource.ServeRegistersEachIdentifierAtMostOnce` | TableViewContent/Classes/ContentDataSource.swift:44-45 | over a lifetime the list stays duplicate-free and only grows (the old list is a prefix of the new), and no identifier is registered twice or re-registered |
| `DataSource.ServeRegistersEveryRequestedIdentifier` | TableViewContent/Classes/ContentDataSource.swift:53-56 | every nib or class row that was asked for has its identifier registered at the end |
| `DataSource.RegisteredExactlyOnce` | TableViewContent/Classes/ContentDataSource.swift:43-58 | from a new adapter, an identifier used by requested nib or class rows is registered exactly once, however many requests share it |
| `DataSource.ServeRegistersOnItsTableView` | TableViewContent/Classes/ContentDataSource.swift:46-55 | every `register` call issued over a lifetime goes to the table view the requests come from |
| `DataSource.StyleRowsNeverRegister` | TableViewContent/Classes/ContentDataSource.swift:61-70 | a series of style-row requests issues no register call and leaves the list unchanged |
| `DataSource.CellForRowAtKeepsAnswers` | TableViewContent/Classes/ContentDataSource.swift:29-92 | serving a cell changes none of the count or title answers |
| `Scenarios.TwoSectionExample` | TableViewContent/Classes/ContentDataSource.swift:29-82 | the two-section table: 2 sections, 3 and 1 rows, no header on section 0, header "H" on section 1, and the cell at (0, 1) shows "b" with no registration |
| `Rows.DefaultConfiguration` | TableViewContent/Classes/Row.swift:16-26 | a fresh configuration has no title, detail, image or accessory views; blue selection; no accessory types; default style |
| `Rows.NewRow` | TableViewContent/Classes/Row.swift:41-59 | a new row keeps the given representation and reuse identifier, does not update after selection, animates `.automatic`, has the default configuration and no closures |
| `Rows.SetConfiguration` | TableViewContent/Classes/Row.swift:75-78 | the whole configuration is replaced; nothing else changes |
| `Rows.UpdateAfterSelected` | TableViewContent/Classes/Row.swift:81-85 | sets the flag and the animation (default `.automatic`); nothing else changes |
| `Rows.SetConfigureCell` | TableViewContent/Classes/Row.swift:88-91 | installs or removes the custom closure; nothing else changes |
| `Rows.DidSelect` | TableViewContent/Classes/Row.swift:94-99 | stores the handler; nothing else changes |
| `Rows.PerformSelectedAction` | TableViewContent/Classes/Row.swift:94-99 | the stored action calls the handler exactly when one is stored, with the table view, the position and the row itself as it is at call time |
| `Rows.SelectedActionSeesLaterSetters` | TableViewContent/Classes/Row.swift:94-147 | after `didSelect` and then any configuration setter, the stored action hands the handler the row with that later change in place |
| `Rows.SetTitle` | TableViewContent/Classes/Row.swift:102-105 | sets the title and no other configuration field; the rest of the row is unchanged |
| `Rows.SetDetailText` | TableViewContent/Classes/Row.swift:108-111 | the same for the detail text |
| `Rows.SetImage` | TableViewContent/Classes/Row.swift:114-117 | the same for the image |
| `Rows.SetSelectionStyle` | TableViewContent/Classes/Row.swift:120-123 | the same for the selection style |
| `Rows.SetAccessoryType` | TableViewContent/Classes/Row.swift:126-129 | the same for the accessory type |
| `Rows.SetAccessoryView` | TableViewContent/Classes/Row.swift:132-135 | the same for the accessory view |
| `Rows.SetEditingAccessoryType` | TableViewContent/Classes/Row.swift:138-141 | the same for the editing accessory type |
| `Rows.SetEditingAccessoryView` | TableViewContent/Classes/Row.swift:144-147 | the same for the editing accessory view |
| `Rows.SetTrailingSwipeActions` | TableViewContent/Classes/Row.swift:150-153 | stores the trailing provider; nothing else changes |
| `Rows.SetLeadingSwipeActions` | TableViewContent/Classes/Row.swift:156-159 | stores the leading provider; nothing else changes |
| `Rows.SettersCommute` | TableViewContent/Classes/Row.swift:101-147 | setters of two different configuration fields give the same row in either order |
| `Rows.LastSetterWins` | TableViewContent/Classes/Row.swift:101-147 | calling one setter twice keeps only the second value |
| `Rows.ApplyConfiguration` | TableViewContent/Classes/Row.swift:62-69 | afterwards every field the configuration covers shows the configuration's value (labels and image view only where the cell has them) and the cell keeps its labels |
| `Rows.Prepare` | TableViewContent/Classes/Row.swift:61-72 | the cell stays the same object; with no closures its state is exactly the configured state |
| `Rows.CustomConfigurationWins` | TableViewContent/Classes/Row.swift:70-71 | the custom closure runs after the default one, so on a field it writes at this position (whatever value it picks there, and on label or image fields wherever the cell has that label or image view), its value is what the cell shows, provided the default closure does not remove labels |
| `Rows.DefaultConfigurationSurvives` | TableViewContent/Classes/Row.swift:70-71 | a field the default closure writes at this position (on cells that have somewhere to show it) and the custom closure keeps there shows the default's value |
| `Rows.OptionalChainedTitleWins` | TableViewContent/Classes/Row.swift:62-71 | a custom closure `cell.textLabel?.text = text` leaves `text` in the text label of any cell that has one, whatever the default closure wrote |
| `Rows.ConfigurationSurvives` | TableViewContent/Classes/Row.swift:62-71 | a field neither closure touches at this position shows the row's configuration value |
| `Rows.PrepareForgetsStaleContent` | TableViewContent/Classes/Row.swift:62-71 | the prepared cell does not depend on what the reused cell showed before |
| `Rows.ReusedCellShowsOnlyLatestRow` | TableViewContent/Classes/Row.swift:61-72 | preparing a cell for one row and reusing it for another leaves no trace of the first row |
| `Sections.EmptySection` | TableViewContent/Classes/TableViewSection.swift:11-18 | no rows and no header, footer or handler |
| `Sections.SetHeader` | TableViewContent/Classes/TableViewSection.swift:54-57 | sets the header title only |
| `Sections.SetFooter` | TableViewContent/Classes/TableViewSection.swift:60-63 | sets the footer title only |
| `Sections.SetContents` | TableViewContent/Classes/TableViewSection.swift:66-69 | replaces the whole row list with the argument; nothing else changes |
| `Sections.BuildContents` | TableViewContent/Classes/TableViewSection.swift:71-75 | the closure overload returns the section as the closure left it; `BuildContentsMatchesSetContents` relates it to the list overload |
| `Sections.BuildContentsMatchesSetContents` | TableViewContent/Classes/TableViewSection.swift:66-75 | the closure overload of `contents`, given a closure that appends rows to an emptied section, gives what the list overload gives |
| `Sections.Append` | TableViewContent/Classes/TableViewSection.swift:78-81 | the row goes at the end, earlier rows are kept, the count grows by one, and the same row is returned |
| `Sections.AppendEachConcatenates` | TableViewContent/Classes/TableViewSection.swift:78-81 | appending rows one at a time adds them in order after the existing rows and changes nothing else |
| `Sections.DidSelected` | TableViewContent/Classes/TableViewSection.swift:84-87 | stores the handler and nothing else |
| `Sections.SectionWithHeader` | TableViewContent/Classes/TableViewSection.swift:20-22 | header set, everything else default |
| `Sections.SectionWithFooter` | TableViewContent/Classes/TableViewSection.swift:24-26 | footer set, everything else default |
| `Sections.SectionWithHeaderFooter` | TableViewContent/Classes/TableViewSection.swift:28-31 | header and footer set, everything else default |
| `Sections.SectionWithContents` | TableViewContent/Classes/TableViewSection.swift:33-36 | rows set, everything else default |
| `Sections.SectionWithHeaderContents` | TableViewContent/Classes/TableViewSection.swift:38-41 | header and rows set, everything else default |
| `Sections.SectionWithHeaderContentsFooter` | TableViewContent/Classes/TableViewSection.swift:43-46 | header, rows and footer set, no handler |
| `Sections.SectionWithContentsFooter` | TableViewContent/Classes/TableViewSection.swift:48-51 | rows and footer set, everything else default |
| `Sections.ConvenienceInitsAreSetterChains` | TableViewContent/Classes/TableViewSection.swift:20-69 | each convenience initialiser equals `init()` followed by the matching `header`/`footer`/`contents` setters |

## Left out

- Example/TableViewContent/ViewController.swift is app wiring: storyboard loading, navigation and delegate set-up. It holds no library logic.
- The delegate adapter that calls a row's selected action on a tap is not part of this model. `PerformSelectedAction` models only what the stored action passes on.
- UIKit objects (nibs, classes, images, views, swipe configurations, the table view) are opaque handles. The table view's reuse pool is not modelled; its answers are arbitrary values of the `Host` record.
- What user closures do is not modelled. Cell closures are arbitrary functions from a cell to its new state, and they cannot change which object the cell is. Tap handlers and swipe-action providers are opaque tags.
- `as! Cell` in `prepare` traps on a mismatch. The model makes agreement a precondition (`Downcastable`). It only demands this when a closure is present, because an absent closure skips the downcast.
- Out-of-range section or row indices are the table view's own bounds checks. They appear as `requires` clauses.
- Object identity and aliasing are not modelled. `Row`, `TableViewSection` and `RowConfiguration` are classes in Swift, but values here. A row changed after `append` returns it, or a configuration shared by two rows, is not tracked. The one place where reference capture is visible is the action stored by `didSelect`, and `PerformSelectedAction` models it by passing the row as it is at call time.
- `registeredReuseIdentifiers` is publicly writable in Swift. The model only changes it through `cellForRowAt`, so freedom from duplicates is proved for lists that start duplicate-free, as a new adapter's empty list does.
- `selectedAction` on a row can also be assigned directly in Swift. The model only sets it through `didSelect`.
- `defaultCellConfiguration` is internal. It is set by row subclasses that are not part of this model, so it is a field with no setter here.
- Two rows that share a reuse identifier but differ in representation: the second row's nib or class is silently never registered. The model proves this behaviour as written and does not resolve it.
- RegisterIfNeeded: compares reuse identifiers by Dafny string equality, that is code point by code point. Swift's `String ==`, used by `contains`, treats canonically equivalent spellings (`"\u{E9}"` and `"e\u{301}"`) as one identifier; for two such spellings Swift issues one `register` call and the model issues two. Unicode normalisation is outside the model.
- CellForRowAt: inherits the code-point comparison of `RegisterIfNeeded`, so its register-or-not decision differs from Swift's for canonically equivalent but differently spelled identifiers.
- ServeRegistersEachIdentifierAtMostOnce: "at most once" is per code-point spelling; canonically equivalent spellings count as different identifiers here.
- RegisteredExactlyOnce: "exactly once" is per code-point spelling, for the same reason.
- PrepareForgetsStaleContent: covers only the eight attributes `prepare` overwrites. In Swift the closures receive the whole cell and may set other attributes (colours, subviews, a subclass's own state) that survive reuse; the model's cell holds only the eight.
- ReusedCellShowsOnlyLatestRow: the same restriction; attributes outside the eight written by `prepare` are not modelled, so residue there is not excluded.
- Serve: one data source serving two table views is outside the model. `registeredReuseIdentifiers` belongs to the data source but `register` goes to the table view passed to `cellForRowAt`. For a second table view, Swift would skip registration, and `dequeueReusableCell(withIdentifier:for:)` would then fail at run time. The model requires every request of a lifetime to come from one table view.
- The result-builder language machinery (`@_functionBuilder`) is modelled as building a plain list.
