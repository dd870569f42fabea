/**
 * The part of the host UI toolkit the library talks to, reduced to what the
 * library can observe: opaque handles, the enumerations it copies around, the
 * fields of a table cell that a row writes, and the answers the table view
 * gives when asked for a cell.
 */
module UIKit {
  import opened Wrappers

  /** Opaque handles: a loaded nib, a cell class, an image, a view. */
  datatype Nib = Nib(handle: nat)
  datatype CellClass = CellClass(handle: nat)
  datatype Image = Image(handle: nat)
  datatype View = View(handle: nat)
  /** The hosting table view, only ever passed through to user handlers. */
  datatype TableView = TableView(handle: nat)

  /** `UITableViewCell.SelectionStyle` */
  datatype SelectionStyle = SelectionNone | SelectionBlue | SelectionGray | SelectionDefault

  /** `UITableViewCell.AccessoryType` */
  datatype AccessoryType =
    | AccessoryNone | DisclosureIndicator | DetailDisclosureButton | Checkmark | DetailButton

  /** `UITableViewCell.CellStyle` */
  datatype CellStyle = StyleDefault | Value1 | Value2 | Subtitle

  /** `UITableView.RowAnimation` */
  datatype RowAnimation = Fade | Right | Left | Top | Bottom | AnimationNone | Middle | Automatic

  /** A position in the table: section index and row index within it. */
  datatype IndexPath = IndexPath(section: int, row: int)

  /** A label or image view that a cell may or may not have. */
  datatype Label = Label(text: Option<string>)
  datatype ImageView = ImageView(image: Option<Image>)

  /**
   * What a cell is and keeps for its whole life: which object it is, the
   * classes it is an instance of (its own class and every superclass), and
   * the reuse identifier and style it was created with.
   */
  datatype CellIdentity = CellIdentity(
    object: nat,
    classes: set<CellClass>,
    reuseIdentifier: Option<string>,
    style: CellStyle)

  /**
   * The mutable part of a cell that rows write. The labels and the image
   * view are optional, as on the toolkit's cell: a cell without a detail
   * label simply has nowhere to show detail text.
   */
  datatype CellState = CellState(
    textLabel: Option<Label>,
    detailTextLabel: Option<Label>,
    imageView: Option<ImageView>,
    selectionStyle: SelectionStyle,
    accessoryView: Option<View>,
    accessoryType: AccessoryType,
    editingAccessoryView: Option<View>,
    editingAccessoryType: AccessoryType)

  datatype Cell = Cell(identity: CellIdentity, state: CellState)

  /**
   * The table view as the data source sees it: which table view it is, and
   * its answers. Its reuse pool is not visible, so each answer is a value
   * chosen by the host:
   * - `dequeueRegistered(id, path)`: `dequeueReusableCell(withIdentifier:for:)`,
   *   which yields a cell once `id` has been registered with this table view;
   * - `dequeueReusable(id)`: `dequeueReusableCell(withIdentifier:)`, which
   *   may find no cell to reuse;
   * - `makeCell(style, id)`: `UITableViewCell(style:reuseIdentifier:)`.
   */
  datatype Host = Host(
    tableView: TableView,
    dequeueRegistered: (string, IndexPath) -> Cell,
    dequeueReusable: string -> Option<Cell>,
    makeCell: (CellStyle, string) -> Cell)

  /** A call to `tableView.register(_:forCellReuseIdentifier:)`. */
  datatype Registration =
    | RegisterNib(tableView: TableView, nib: Nib, reuseIdentifier: string)
    | RegisterClass(tableView: TableView, cellClass: CellClass, reuseIdentifier: string)
}
