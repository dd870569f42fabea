/**
 * A row of a table: its cell configuration record, the way its cell is
 * created, the fluent setters, and `prepare`, which writes the row onto a
 * cell handed out by the table view.
 */
module Rows {
  import opened Wrappers
  import opened UIKit

  /** How a row's cell is created: from a nib, from a class, or in one of the toolkit's built-in styles. */
  datatype CellRepresentation =
    | FromNib(nib: Nib)
    | FromClass(cellClass: CellClass)
    | FromStyle(cellStyle: CellStyle)

  /** The visual attributes a row copies onto its cell. */
  datatype RowConfiguration = RowConfiguration(
    title: Option<string>,
    detailText: Option<string>,
    image: Option<Image>,
    selectionStyle: SelectionStyle,
    accessoryType: AccessoryType,
    accessoryView: Option<View>,
    editingAccessoryType: AccessoryType,
    editingAccessoryView: Option<View>,
    style: CellStyle)

  /** A freshly created configuration. */
  function DefaultConfiguration(): (c: RowConfiguration)
    ensures c.title == None && c.detailText == None && c.image == None
    ensures c.selectionStyle == SelectionBlue
    ensures c.accessoryType == AccessoryNone && c.accessoryView == None
    ensures c.editingAccessoryType == AccessoryNone && c.editingAccessoryView == None
    ensures c.style == StyleDefault
  {
    RowConfiguration(None, None, None, SelectionBlue, AccessoryNone, None, AccessoryNone, None, StyleDefault)
  }

  /** The fields of a configuration, so that "only this field changed" can be said once. */
  datatype ConfigField =
    | TitleField | DetailTextField | ImageField | SelectionStyleField
    | AccessoryTypeField | AccessoryViewField
    | EditingAccessoryTypeField | EditingAccessoryViewField | StyleField

  datatype ConfigValue =
    | TextValue(text: Option<string>)
    | ImageValue(image: Option<Image>)
    | SelectionValue(selectionStyle: SelectionStyle)
    | AccessoryTypeValue(accessoryType: AccessoryType)
    | ViewValue(view: Option<View>)
    | StyleValue(style: CellStyle)

  function Get(c: RowConfiguration, f: ConfigField): ConfigValue {
    match f
    case TitleField => TextValue(c.title)
    case DetailTextField => TextValue(c.detailText)
    case ImageField => ImageValue(c.image)
    case SelectionStyleField => SelectionValue(c.selectionStyle)
    case AccessoryTypeField => AccessoryTypeValue(c.accessoryType)
    case AccessoryViewField => ViewValue(c.accessoryView)
    case EditingAccessoryTypeField => AccessoryTypeValue(c.editingAccessoryType)
    case EditingAccessoryViewField => ViewValue(c.editingAccessoryView)
    case StyleField => StyleValue(c.style)
  }

  /** `v` is a value of the kind field `f` holds. */
  predicate Fits(f: ConfigField, v: ConfigValue) {
    match f
    case TitleField => v.TextValue?
    case DetailTextField => v.TextValue?
    case ImageField => v.ImageValue?
    case SelectionStyleField => v.SelectionValue?
    case AccessoryTypeField => v.AccessoryTypeValue?
    case AccessoryViewField => v.ViewValue?
    case EditingAccessoryTypeField => v.AccessoryTypeValue?
    case EditingAccessoryViewField => v.ViewValue?
    case StyleField => v.StyleValue?
  }

  /** Every field of `a` other than `f` is the same in `b`. */
  predicate OnlyFieldDiffers(a: RowConfiguration, b: RowConfiguration, f: ConfigField) {
    forall g :: g != f ==> Get(a, g) == Get(b, g)
  }

  /** A configuration is nothing more than the values of its fields. */
  lemma {:induction false} ConfigurationExtensionality(a: RowConfiguration, b: RowConfiguration)
    requires forall f :: Get(a, f) == Get(b, f)
    ensures a == b
  {
    assert Get(a, TitleField) == Get(b, TitleField);
    assert Get(a, DetailTextField) == Get(b, DetailTextField);
    assert Get(a, ImageField) == Get(b, ImageField);
    assert Get(a, SelectionStyleField) == Get(b, SelectionStyleField);
    assert Get(a, AccessoryTypeField) == Get(b, AccessoryTypeField);
    assert Get(a, AccessoryViewField) == Get(b, AccessoryViewField);
    assert Get(a, EditingAccessoryTypeField) == Get(b, EditingAccessoryTypeField);
    assert Get(a, EditingAccessoryViewField) == Get(b, EditingAccessoryViewField);
    assert Get(a, StyleField) == Get(b, StyleField);
  }

  /**
   * A closure that customises a cell. It sees the cell and its position and
   * leaves the cell with a new mutable state; which object the cell is, and
   * its class, cannot change.
   */
  type Configurator = (Cell, IndexPath) -> CellState

  /** Opaque user closures: a tap handler and a swipe-actions provider. */
  datatype SelectionHandler = SelectionHandler(handle: nat)
  datatype SwipeActionsProvider = SwipeActionsProvider(handle: nat)

  /**
   * A row. `cellClass` is the class the row's generic `Cell` parameter names;
   * the closures are applied to a cell only after it is downcast to it.
   * `selectedAction` holds the handler given to `didSelect`: the stored
   * action calls it with the table view, the position and the row itself.
   */
  datatype Row = Row(
    updateAfterSelected: bool,
    updateAnimation: RowAnimation,
    configuration: RowConfiguration,
    reuseIdentifier: string,
    representation: CellRepresentation,
    cellClass: CellClass,
    selectedAction: Option<SelectionHandler>,
    trailingSwipeActions: Option<SwipeActionsProvider>,
    leadingSwipeActions: Option<SwipeActionsProvider>,
    configureCell: Option<Configurator>,
    defaultCellConfiguration: Option<Configurator>)

  /** The fields fixed when the row is created. */
  predicate SameIdentity(r: Row, r': Row) {
    && r'.reuseIdentifier == r.reuseIdentifier
    && r'.representation == r.representation
    && r'.cellClass == r.cellClass
  }

  /** The selection behaviour: redraw flag, redraw animation and tap handler. */
  predicate SameSelection(r: Row, r': Row) {
    && r'.updateAfterSelected == r.updateAfterSelected
    && r'.updateAnimation == r.updateAnimation
    && r'.selectedAction == r.selectedAction
  }

  predicate SameSwipeActions(r: Row, r': Row) {
    && r'.trailingSwipeActions == r.trailingSwipeActions
    && r'.leadingSwipeActions == r.leadingSwipeActions
  }

  ghost predicate SameConfigurators(r: Row, r': Row) {
    && r'.configureCell == r.configureCell
    && r'.defaultCellConfiguration == r.defaultCellConfiguration
  }

  /** Everything but the configuration record is as it was. */
  ghost predicate SameApartFromConfiguration(r: Row, r': Row) {
    SameIdentity(r, r') && SameSelection(r, r') && SameSwipeActions(r, r') && SameConfigurators(r, r')
  }

  /** `Row.init(_:reuseIdentifier:)` for a row whose cell class is `cellClass`. */
  function NewRow(representation: CellRepresentation, reuseIdentifier: string, cellClass: CellClass): (r: Row)
    ensures r.representation == representation && r.reuseIdentifier == reuseIdentifier
    ensures r.cellClass == cellClass
    ensures !r.updateAfterSelected && r.updateAnimation == Automatic
    ensures r.configuration == DefaultConfiguration()
    ensures r.selectedAction == None
    ensures r.trailingSwipeActions == None && r.leadingSwipeActions == None
    ensures r.configureCell == None && r.defaultCellConfiguration == None
  {
    Row(false, Automatic, DefaultConfiguration(), reuseIdentifier, representation, cellClass,
        None, None, None, None, None)
  }

  /** `configuration(_:)`: replaces the whole configuration record. */
  function SetConfiguration(r: Row, configuration: RowConfiguration): (r': Row)
    ensures forall f :: Get(r'.configuration, f) == Get(configuration, f)
    ensures SameApartFromConfiguration(r, r')
  {
    r.(configuration := configuration)
  }

  /** `updateAfterSelected(_:animation:)`; the animation defaults to `.automatic`. */
  function UpdateAfterSelected(r: Row, update: bool, animation: RowAnimation := Automatic): (r': Row)
    ensures r'.updateAfterSelected == update && r'.updateAnimation == animation
    ensures r'.selectedAction == r.selectedAction
    ensures r'.configuration == r.configuration
    ensures SameIdentity(r, r') && SameSwipeActions(r, r') && SameConfigurators(r, r')
  {
    r.(updateAfterSelected := update, updateAnimation := animation)
  }

  /** `configureCell(_:)`: installs (or, given None, removes) the custom cell closure. */
  function SetConfigureCell(r: Row, configurator: Option<Configurator>): (r': Row)
    ensures r'.configureCell == configurator
    ensures r'.defaultCellConfiguration == r.defaultCellConfiguration
    ensures r'.configuration == r.configuration
    ensures SameIdentity(r, r') && SameSelection(r, r') && SameSwipeActions(r, r')
  {
    r.(configureCell := configurator)
  }

  /** `didSelect(_:)`: stores the tap handler. */
  function DidSelect(r: Row, handler: SelectionHandler): (r': Row)
    ensures r'.selectedAction == Some(handler)
    ensures r'.updateAfterSelected == r.updateAfterSelected && r'.updateAnimation == r.updateAnimation
    ensures r'.configuration == r.configuration
    ensures SameIdentity(r, r') && SameSwipeActions(r, r') && SameConfigurators(r, r')
  {
    r.(selectedAction := Some(handler))
  }

  /** One invocation of a user tap handler, with its three arguments. */
  datatype HandlerCall = HandlerCall(handler: SelectionHandler, tableView: TableView, indexPath: IndexPath, row: Row)

  /**
   * Runs the row's stored selected action, if any. The action captured the
   * row by reference, so the handler receives the row as it is now, with every
   * setter applied after `didSelect` visible.
   */
  function PerformSelectedAction(r: Row, tableView: TableView, indexPath: IndexPath): (call: Option<HandlerCall>)
    ensures call.Some? <==> r.selectedAction.Some?
    ensures call.Some? ==> call.value.handler == r.selectedAction.value
    ensures call.Some? ==> call.value.tableView == tableView && call.value.indexPath == indexPath
    ensures call.Some? ==> call.value.row == r
  {
    match r.selectedAction
    case None => None
    case Some(handler) => Some(HandlerCall(handler, tableView, indexPath, r))
  }

  /**
   * The stored action sees setters applied after `didSelect`: the handler
   * receives the row with the later change in place.
   */
  lemma {:induction false} SelectedActionSeesLaterSetters(
    r: Row, handler: SelectionHandler, f: ConfigField, v: ConfigValue, tableView: TableView, indexPath: IndexPath)
    requires f != StyleField && Fits(f, v)
    ensures var later := SetField(DidSelect(r, handler), f, v);
      && PerformSelectedAction(later, tableView, indexPath) == Some(HandlerCall(handler, tableView, indexPath, later))
      && Get(later.configuration, f) == v
  {
    var later := SetField(DidSelect(r, handler), f, v);
    assert later.selectedAction == Some(handler);
  }

  function SetTitle(r: Row, title: Option<string>): (r': Row)
    ensures r'.configuration.title == title
    ensures OnlyFieldDiffers(r.configuration, r'.configuration, TitleField)
    ensures SameApartFromConfiguration(r, r')
  {
    r.(configuration := r.configuration.(title := title))
  }

  function SetDetailText(r: Row, text: Option<string>): (r': Row)
    ensures r'.configuration.detailText == text
    ensures OnlyFieldDiffers(r.configuration, r'.configuration, DetailTextField)
    ensures SameApartFromConfiguration(r, r')
  {
    r.(configuration := r.configuration.(detailText := text))
  }

  function SetImage(r: Row, image: Option<Image>): (r': Row)
    ensures r'.configuration.image == image
    ensures OnlyFieldDiffers(r.configuration, r'.configuration, ImageField)
    ensures SameApartFromConfiguration(r, r')
  {
    r.(configuration := r.configuration.(image := image))
  }

  function SetSelectionStyle(r: Row, style: SelectionStyle): (r': Row)
    ensures r'.configuration.selectionStyle == style
    ensures OnlyFieldDiffers(r.configuration, r'.configuration, SelectionStyleField)
    ensures SameApartFromConfiguration(r, r')
  {
    r.(configuration := r.configuration.(selectionStyle := style))
  }

  function SetAccessoryType(r: Row, accessoryType: AccessoryType): (r': Row)
    ensures r'.configuration.accessoryType == accessoryType
    ensures OnlyFieldDiffers(r.configuration, r'.configuration, AccessoryTypeField)
    ensures SameApartFromConfiguration(r, r')
  {
    r.(configuration := r.configuration.(accessoryType := accessoryType))
  }

  function SetAccessoryView(r: Row, view: Option<View>): (r': Row)
    ensures r'.configuration.accessoryView == view
    ensures OnlyFieldDiffers(r.configuration, r'.configuration, AccessoryViewField)
    ensures SameApartFromConfiguration(r, r')
  {
    r.(configuration := r.configuration.(accessoryView := view))
  }

  function SetEditingAccessoryType(r: Row, accessoryType: AccessoryType): (r': Row)
    ensures r'.configuration.editingAccessoryType == accessoryType
    ensures OnlyFieldDiffers(r.configuration, r'.configuration, EditingAccessoryTypeField)
    ensures SameApartFromConfiguration(r, r')
  {
    r.(configuration := r.configuration.(editingAccessoryType := accessoryType))
  }

  function SetEditingAccessoryView(r: Row, view: Option<View>): (r': Row)
    ensures r'.configuration.editingAccessoryView == view
    ensures OnlyFieldDiffers(r.configuration, r'.configuration, EditingAccessoryViewField)
    ensures SameApartFromConfiguration(r, r')
  {
    r.(configuration := r.configuration.(editingAccessoryView := view))
  }

  function SetTrailingSwipeActions(r: Row, provider: SwipeActionsProvider): (r': Row)
    ensures r'.trailingSwipeActions == Some(provider)
    ensures r'.leadingSwipeActions == r.leadingSwipeActions
    ensures r'.configuration == r.configuration
    ensures SameIdentity(r, r') && SameSelection(r, r') && SameConfigurators(r, r')
  {
    r.(trailingSwipeActions := Some(provider))
  }

  function SetLeadingSwipeActions(r: Row, provider: SwipeActionsProvider): (r': Row)
    ensures r'.leadingSwipeActions == Some(provider)
    ensures r'.trailingSwipeActions == r.trailingSwipeActions
    ensures r'.configuration == r.configuration
    ensures SameIdentity(r, r') && SameSelection(r, r') && SameConfigurators(r, r')
  {
    r.(leadingSwipeActions := Some(provider))
  }

  /**
   * The eight single-field configuration setters behind one name: `SetField(r, f, v)`
   * is the setter of field `f` called with `v` (the configuration's `style` has no setter).
   */
  function SetField(r: Row, f: ConfigField, v: ConfigValue): (r': Row)
    requires f != StyleField && Fits(f, v)
    ensures Get(r'.configuration, f) == v
    ensures OnlyFieldDiffers(r.configuration, r'.configuration, f)
    ensures SameApartFromConfiguration(r, r')
  {
    match f
    case TitleField => SetTitle(r, v.text)
    case DetailTextField => SetDetailText(r, v.text)
    case ImageField => SetImage(r, v.image)
    case SelectionStyleField => SetSelectionStyle(r, v.selectionStyle)
    case AccessoryTypeField => SetAccessoryType(r, v.accessoryType)
    case AccessoryViewField => SetAccessoryView(r, v.view)
    case EditingAccessoryTypeField => SetEditingAccessoryType(r, v.accessoryType)
    case EditingAccessoryViewField => SetEditingAccessoryView(r, v.view)
  }

  /** Two rows that agree outside their configurations, field by field inside them, are the same row. */
  lemma {:induction false} RowExtensionality(a: Row, b: Row)
    requires SameApartFromConfiguration(a, b)
    requires forall f :: Get(a.configuration, f) == Get(b.configuration, f)
    ensures a == b
  {
    ConfigurationExtensionality(a.configuration, b.configuration);
  }

  /** Setters of different fields do not interfere: their order does not matter. */
  lemma {:induction false} SettersCommute(r: Row, f: ConfigField, v: ConfigValue, g: ConfigField, w: ConfigValue)
    requires f != StyleField && Fits(f, v)
    requires g != StyleField && Fits(g, w)
    requires f != g
    ensures SetField(SetField(r, f, v), g, w) == SetField(SetField(r, g, w), f, v)
  {
    var a := SetField(SetField(r, f, v), g, w);
    var b := SetField(SetField(r, g, w), f, v);
    forall h ensures Get(a.configuration, h) == Get(b.configuration, h) {
      if h == f {
        assert Get(a.configuration, h) == v;
      } else if h == g {
        assert Get(b.configuration, h) == w;
      } else {
        assert Get(a.configuration, h) == Get(r.configuration, h);
      }
    }
    RowExtensionality(a, b);
  }

  /** Calling a setter twice keeps only the second value. */
  lemma {:induction false} LastSetterWins(r: Row, f: ConfigField, v: ConfigValue, w: ConfigValue)
    requires f != StyleField && Fits(f, v) && Fits(f, w)
    ensures SetField(SetField(r, f, v), f, w) == SetField(r, f, w)
  {
    var a := SetField(SetField(r, f, v), f, w);
    var b := SetField(r, f, w);
    forall h ensures Get(a.configuration, h) == Get(b.configuration, h) {
      if h != f {
        assert Get(a.configuration, h) == Get(r.configuration, h);
      }
    }
    RowExtensionality(a, b);
  }

  // ---------------------------------------------------------------------------
  // prepare

  /**
   * `cell as! Cell` succeeds: the cell is an instance of the row's cell class.
   * The downcast is only evaluated when a closure is there to receive the cell.
   */
  predicate Downcastable(r: Row, cell: Cell) {
    (r.defaultCellConfiguration.Some? || r.configureCell.Some?) ==> r.cellClass in cell.identity.classes
  }

  /** Writes `text` into the label if the cell has one. */
  function WriteLabel(existing: Option<Label>, text: Option<string>): (l: Option<Label>)
    ensures l.Some? <==> existing.Some?
    ensures l.Some? ==> l.value.text == text
  {
    match existing
    case None => None
    case Some(lab) => Some(lab.(text := text))
  }

  /** The eight assignments at the start of `prepare`. */
  function ApplyConfiguration(c: RowConfiguration, s: CellState): (s': CellState)
    ensures s'.textLabel.Some? <==> s.textLabel.Some?
    ensures s'.detailTextLabel.Some? <==> s.detailTextLabel.Some?
    ensures s'.imageView.Some? <==> s.imageView.Some?
    ensures s'.textLabel.Some? ==> s'.textLabel.value.text == c.title
    ensures s'.detailTextLabel.Some? ==> s'.detailTextLabel.value.text == c.detailText
    ensures s'.imageView.Some? ==> s'.imageView.value.image == c.image
    ensures s'.selectionStyle == c.selectionStyle
    ensures s'.accessoryView == c.accessoryView && s'.accessoryType == c.accessoryType
    ensures s'.editingAccessoryView == c.editingAccessoryView
    ensures s'.editingAccessoryType == c.editingAccessoryType
  {
    var s1 := s.(textLabel := WriteLabel(s.textLabel, c.title));
    var s2 := s1.(detailTextLabel := WriteLabel(s1.detailTextLabel, c.detailText));
    var s3 := s2.(imageView := match s2.imageView
                               case None => None
                               case Some(iv) => Some(iv.(image := c.image)));
    var s4 := s3.(selectionStyle := c.selectionStyle);
    var s5 := s4.(accessoryView := c.accessoryView);
    var s6 := s5.(accessoryType := c.accessoryType);
    var s7 := s6.(editingAccessoryView := c.editingAccessoryView);
    s7.(editingAccessoryType := c.editingAccessoryType)
  }

  /** `closure?(cell, indexPath)`: runs an optional closure on the cell. */
  function Run(closure: Option<Configurator>, cell: Cell, indexPath: IndexPath): (c: Cell)
    ensures c.identity == cell.identity
    ensures closure.None? ==> c == cell
  {
    match closure
    case None => cell
    case Some(f) => cell.(state := f(cell, indexPath))
  }

  /**
   * `prepare(_:indexPath:)`: the configuration is written onto the cell, then
   * the default closure runs, then the custom one.
   */
  function Prepare(r: Row, cell: Cell, indexPath: IndexPath): (c: Cell)
    requires Downcastable(r, cell)
    ensures c.identity == cell.identity
    ensures r.defaultCellConfiguration.None? && r.configureCell.None? ==>
              c.state == ApplyConfiguration(r.configuration, cell.state)
  {
    var configured := cell.(state := ApplyConfiguration(r.configuration, cell.state));
    var defaulted := Run(r.defaultCellConfiguration, configured, indexPath);
    Run(r.configureCell, defaulted, indexPath)
  }

  // ---------------------------------------------------------------------------
  // What a cell shows after prepare, field by field

  datatype CellField =
    | TextLabelField | DetailTextLabelField | ImageViewField | CellSelectionStyleField
    | CellAccessoryViewField | CellAccessoryTypeField
    | CellEditingAccessoryViewField | CellEditingAccessoryTypeField

  datatype CellValue =
    | LabelValue(shown: Option<Label>)
    | ImageViewValue(imageView: Option<ImageView>)
    | SelectionStyleValue(selectionStyle: SelectionStyle)
    | AccessoryViewValue(view: Option<View>)
    | AccessoryKindValue(accessoryType: AccessoryType)

  function Read(s: CellState, f: CellField): CellValue {
    match f
    case TextLabelField => LabelValue(s.textLabel)
    case DetailTextLabelField => LabelValue(s.detailTextLabel)
    case ImageViewField => ImageViewValue(s.imageView)
    case CellSelectionStyleField => SelectionStyleValue(s.selectionStyle)
    case CellAccessoryViewField => AccessoryViewValue(s.accessoryView)
    case CellAccessoryTypeField => AccessoryKindValue(s.accessoryType)
    case CellEditingAccessoryViewField => AccessoryViewValue(s.editingAccessoryView)
    case CellEditingAccessoryTypeField => AccessoryKindValue(s.editingAccessoryType)
  }

  /**
   * The cell has somewhere to show field `f`: a text label, detail label or
   * image view for the three fields that live in one; always for the others.
   */
  predicate HasFixture(s: CellState, f: CellField) {
    match f
    case TextLabelField => s.textLabel.Some?
    case DetailTextLabelField => s.detailTextLabel.Some?
    case ImageViewField => s.imageView.Some?
    case _ => true
  }

  /**
   * At position `indexPath` the closure leaves `v` in field `f` of every cell
   * that has somewhere to show it (the value may differ from one position to
   * another). An optional-chained write such as `cell.textLabel?.text = x`
   * is of this kind.
   */
  ghost predicate Writes(g: Configurator, f: CellField, v: CellValue, indexPath: IndexPath) {
    forall cell: Cell :: HasFixture(cell.state, f) ==> Read(g(cell, indexPath), f) == v
  }

  /** At position `indexPath` the closure does not change field `f`. */
  ghost predicate Keeps(g: Configurator, f: CellField, indexPath: IndexPath) {
    forall cell :: Read(g(cell, indexPath), f) == Read(cell.state, f)
  }

  ghost predicate Untouched(closure: Option<Configurator>, f: CellField, indexPath: IndexPath) {
    closure.None? || Keeps(closure.value, f, indexPath)
  }

  /** At position `indexPath` the closure neither adds nor removes labels or the image view. */
  ghost predicate KeepsFixtures(closure: Option<Configurator>, indexPath: IndexPath) {
    closure.None? || forall cell :: SameFixtures(closure.value(cell, indexPath), cell.state)
  }

  /** On a field both closures write, the custom closure's value is what the cell shows. */
  lemma {:induction false} CustomConfigurationWins(r: Row, cell: Cell, indexPath: IndexPath, f: CellField, v: CellValue)
    requires Downcastable(r, cell)
    requires HasFixture(cell.state, f)
    requires KeepsFixtures(r.defaultCellConfiguration, indexPath)
    requires r.configureCell.Some? && Writes(r.configureCell.value, f, v, indexPath)
    ensures Read(Prepare(r, cell, indexPath).state, f) == v
  {
    var configured := cell.(state := ApplyConfiguration(r.configuration, cell.state));
    assert HasFixture(configured.state, f);
    var defaulted := Run(r.defaultCellConfiguration, configured, indexPath);
    if r.defaultCellConfiguration.Some? {
      assert SameFixtures(r.defaultCellConfiguration.value(configured, indexPath), configured.state);
    }
    assert HasFixture(defaulted.state, f);
    assert Read(r.configureCell.value(defaulted, indexPath), f) == v;
  }

  /** A field the default closure writes and the custom closure leaves alone shows the default's value. */
  lemma {:induction false} DefaultConfigurationSurvives(r: Row, cell: Cell, indexPath: IndexPath, f: CellField, v: CellValue)
    requires Downcastable(r, cell)
    requires HasFixture(cell.state, f)
    requires r.defaultCellConfiguration.Some? && Writes(r.defaultCellConfiguration.value, f, v, indexPath)
    requires Untouched(r.configureCell, f, indexPath)
    ensures Read(Prepare(r, cell, indexPath).state, f) == v
  {
    var configured := cell.(state := ApplyConfiguration(r.configuration, cell.state));
    assert HasFixture(configured.state, f);
    var defaulted := Run(r.defaultCellConfiguration, configured, indexPath);
    assert Read(r.defaultCellConfiguration.value(configured, indexPath), f) == v;
    assert Read(defaulted.state, f) == v;
    if r.configureCell.Some? {
      assert Read(r.configureCell.value(defaulted, indexPath), f) == Read(defaulted.state, f);
    }
  }

  /**
   * The usual custom closure, `cell.textLabel?.text = text`, wins over
   * whatever the default closure wrote, on any cell with a text label.
   */
  lemma {:induction false} OptionalChainedTitleWins(r: Row, cell: Cell, indexPath: IndexPath, text: string)
    requires Downcastable(r, cell)
    requires cell.state.textLabel.Some?
    requires KeepsFixtures(r.defaultCellConfiguration, indexPath)
    requires r.configureCell == Some((c: Cell, p: IndexPath) => c.state.(textLabel := WriteLabel(c.state.textLabel, Some(text))))
    ensures Prepare(r, cell, indexPath).state.textLabel == Some(Label(Some(text)))
  {
    var g := r.configureCell.value;
    forall c: Cell | HasFixture(c.state, TextLabelField)
      ensures Read(g(c, indexPath), TextLabelField) == LabelValue(Some(Label(Some(text))))
    {
      assert c.state.textLabel.Some?;
    }
    CustomConfigurationWins(r, cell, indexPath, TextLabelField, LabelValue(Some(Label(Some(text)))));
  }

  /** A field neither closure touches shows what the row's configuration put there. */
  lemma {:induction false} ConfigurationSurvives(r: Row, cell: Cell, indexPath: IndexPath, f: CellField)
    requires Downcastable(r, cell)
    requires Untouched(r.defaultCellConfiguration, f, indexPath) && Untouched(r.configureCell, f, indexPath)
    ensures Read(Prepare(r, cell, indexPath).state, f) == Read(ApplyConfiguration(r.configuration, cell.state), f)
  {
    var configured := cell.(state := ApplyConfiguration(r.configuration, cell.state));
    var defaulted := Run(r.defaultCellConfiguration, configured, indexPath);
    if r.defaultCellConfiguration.Some? {
      assert Read(r.defaultCellConfiguration.value(configured, indexPath), f) == Read(configured.state, f);
    }
    assert Read(defaulted.state, f) == Read(configured.state, f);
    if r.configureCell.Some? {
      assert Read(r.configureCell.value(defaulted, indexPath), f) == Read(defaulted.state, f);
    }
  }

  /** The two cell states have the same labels and image view (whatever those show). */
  predicate SameFixtures(a: CellState, b: CellState) {
    && (a.textLabel.Some? <==> b.textLabel.Some?)
    && (a.detailTextLabel.Some? <==> b.detailTextLabel.Some?)
    && (a.imageView.Some? <==> b.imageView.Some?)
  }

  /**
   * Nothing a reused cell showed before survives `prepare`: two cells that are
   * the same object with the same labels come out identical, whatever stale
   * content each carried.
   */
  lemma {:induction false} PrepareForgetsStaleContent(r: Row, a: Cell, b: Cell, indexPath: IndexPath)
    requires a.identity == b.identity && SameFixtures(a.state, b.state)
    requires Downcastable(r, a)
    ensures Downcastable(r, b)
    ensures Prepare(r, a, indexPath) == Prepare(r, b, indexPath)
  {
    var sa := ApplyConfiguration(r.configuration, a.state);
    var sb := ApplyConfiguration(r.configuration, b.state);
    assert sa.textLabel == sb.textLabel;
    assert sa.detailTextLabel == sb.detailTextLabel;
    assert sa.imageView == sb.imageView;
    assert sa == sb;
  }

  /**
   * A cell prepared for one row and then reused for another shows exactly what
   * a cell prepared only for the second row shows.
   */
  lemma {:induction false} ReusedCellShowsOnlyLatestRow(first: Row, second: Row, cell: Cell, p: IndexPath, q: IndexPath)
    requires Downcastable(first, cell) && Downcastable(second, cell)
    requires SameFixtures(Prepare(first, cell, p).state, cell.state)
    ensures Prepare(second, Prepare(first, cell, p), q) == Prepare(second, cell, q)
  {
    PrepareForgetsStaleContent(second, Prepare(first, cell, p), cell, q);
  }
}
