/**
 * The data source adapter: it answers the table view's questions from a
 * list of sections and registers each nib- or class-backed reuse identifier
 * with the table view the first time a row needs it.
 */
module DataSource {
  import opened Wrappers
  import opened UIKit
  import opened Rows
  import opened Sections

  /** The result builder: the sections, in the order they were declared. */
  function BuildBlock(items: seq<Section>): (r: seq<Section>)
    ensures |r| == |items|
    ensures forall i :: 0 <= i < |items| ==> r[i] == items[i]
  {
    items
  }

  /**
   * The adapter's state: the sections it serves (never changed once built)
   * and the reuse identifiers it has registered with the table view so far.
   */
  datatype ContentDataSource = ContentDataSource(sections: seq<Section>, registeredReuseIdentifiers: seq<string>)

  /** No identifier occurs twice. */
  predicate NoDuplicates(ids: seq<string>) {
    forall i, j :: 0 <= i < j < |ids| ==> ids[i] != ids[j]
  }

  /** `init(_:)` given a list of sections. */
  function FromSections(sections: seq<Section>): (ds: ContentDataSource)
    ensures ds.sections == sections
    ensures ds.registeredReuseIdentifiers == []
  {
    ContentDataSource(sections, [])
  }

  /** `init(_:)` given a builder closure: the sections are whatever it produces. */
  function FromBuilder(build: () -> seq<Section>): (ds: ContentDataSource)
    ensures ds.sections == build()
    ensures ds.registeredReuseIdentifiers == []
  {
    FromSections(build())
  }

  /** `numberOfSections(in:)` */
  function NumberOfSections(ds: ContentDataSource): (n: nat)
    ensures n == |ds.sections|
  {
    |ds.sections|
  }

  /**
   * `tableView(_:numberOfRowsInSection:)`; the index must be in range. The
   * rows it reports are exactly the positions `cellForRowAt` accepts.
   */
  function NumberOfRowsInSection(ds: ContentDataSource, section: int): (n: nat)
    requires 0 <= section < |ds.sections|
    ensures forall row :: ValidIndexPath(ds.sections, IndexPath(section, row)) <==> 0 <= row < n
  {
    |ds.sections[section].contents|
  }

  /** The text a header or footer shows as a title, if it is a title at all. */
  function TitleText(hf: Option<HeaderFooter>): (t: Option<string>)
    ensures t.Some? <==> hf.Some? && hf.value.Title?
    ensures t.Some? ==> hf == Some(Title(t.value))
  {
    match hf
    case Some(Title(text)) => Some(text)
    case _ => None
  }

  /** `tableView(_:titleForHeaderInSection:)` */
  function TitleForHeaderInSection(ds: ContentDataSource, section: int): (t: Option<string>)
    requires 0 <= section < |ds.sections|
    ensures t.Some? <==> ds.sections[section].header.Some? && ds.sections[section].header.value.Title?
    ensures t.Some? ==> ds.sections[section].header == Some(Title(t.value))
  {
    TitleText(ds.sections[section].header)
  }

  /** `tableView(_:titleForFooterInSection:)` */
  function TitleForFooterInSection(ds: ContentDataSource, section: int): (t: Option<string>)
    requires 0 <= section < |ds.sections|
    ensures t.Some? <==> ds.sections[section].footer.Some? && ds.sections[section].footer.value.Title?
    ensures t.Some? ==> ds.sections[section].footer == Some(Title(t.value))
  {
    TitleText(ds.sections[section].footer)
  }

  /** The structure the table view is told about is the structure that was declared. */
  lemma DeclaredStructureIsReported(items: seq<Section>)
    ensures NumberOfSections(FromSections(BuildBlock(items))) == |items|
    ensures forall s :: 0 <= s < |items| ==>
              NumberOfRowsInSection(FromSections(BuildBlock(items)), s) == |items[s].contents|
  {
  }

  // ---------------------------------------------------------------------------
  // cellForRowAt

  predicate ValidIndexPath(sections: seq<Section>, indexPath: IndexPath) {
    && 0 <= indexPath.section < |sections|
    && 0 <= indexPath.row < |sections[indexPath.section].contents|
  }

  function RowAt(sections: seq<Section>, indexPath: IndexPath): Row
    requires ValidIndexPath(sections, indexPath)
  {
    sections[indexPath.section].contents[indexPath.row]
  }

  /** Rows whose cells come from a registered nib or class. */
  predicate NeedsRegistration(r: Row) {
    r.representation.FromNib? || r.representation.FromClass?
  }

  /** The registration a nib- or class-backed row asks of `tableView`. */
  function RegistrationFor(r: Row, tableView: TableView): (reg: Registration)
    requires NeedsRegistration(r)
    ensures reg.reuseIdentifier == r.reuseIdentifier && reg.tableView == tableView
    ensures r.representation.FromNib? <==> reg.RegisterNib?
  {
    match r.representation
    case FromNib(nib) => RegisterNib(tableView, nib, r.reuseIdentifier)
    case FromClass(cellClass) => RegisterClass(tableView, cellClass, r.reuseIdentifier)
  }

  /** The identifiers of a log of registrations, in order. */
  function Ids(log: seq<Registration>): (ids: seq<string>)
    ensures |ids| == |log|
    ensures forall i :: 0 <= i < |log| ==> ids[i] == log[i].reuseIdentifier
  {
    seq(|log|, i requires 0 <= i < |log| => log[i].reuseIdentifier)
  }

  /**
   * A registered list that recorded one log and then another has recorded
   * their concatenation.
   */
  lemma RecordedLogsConcatenate(registered: seq<string>, a: seq<Registration>, b: seq<Registration>)
    ensures (registered + Ids(a)) + Ids(b) == registered + Ids(a + b)
  {
    assert Ids(a + b) == Ids(a) + Ids(b) by {
      assert forall i :: 0 <= i < |a + b| ==> Ids(a + b)[i] == (Ids(a) + Ids(b))[i];
    }
  }

  /** The cell the table view hands out for the row; the downcast precondition is stated on it. */
  function HostCell(r: Row, host: Host, indexPath: IndexPath): Cell {
    if NeedsRegistration(r) then host.dequeueRegistered(r.reuseIdentifier, indexPath)
    else if host.dequeueReusable(r.reuseIdentifier).Some? then host.dequeueReusable(r.reuseIdentifier).value
    else host.makeCell(r.representation.cellStyle, r.reuseIdentifier)
  }

  /**
   * `UITableViewCell(style:reuseIdentifier:)` creates a cell with the style and
   * reuse identifier it is given.
   */
  ghost predicate HonoursCreation(host: Host) {
    forall style, id :: host.makeCell(style, id).identity.style == style
                     && host.makeCell(style, id).identity.reuseIdentifier == Some(id)
  }

  /** The position is in range and the host's cell passes the row's downcast. */
  predicate Servable(sections: seq<Section>, host: Host, indexPath: IndexPath) {
    && ValidIndexPath(sections, indexPath)
    && Downcastable(RowAt(sections, indexPath), HostCell(RowAt(sections, indexPath), host, indexPath))
  }

  /**
   * The check-then-register step shared by nib and class rows: the identifier
   * is recorded and `call` issued only if the identifier is not recorded yet.
   */
  function RegisterIfNeeded(ds: ContentDataSource, call: Registration): (result: (ContentDataSource, seq<Registration>))
    ensures result.0.sections == ds.sections
    ensures result.1 != [] <==> call.reuseIdentifier !in ds.registeredReuseIdentifiers
    ensures result.1 != [] ==> result.1 == [call]
    ensures result.0.registeredReuseIdentifiers == ds.registeredReuseIdentifiers + Ids(result.1)
    ensures call.reuseIdentifier in result.0.registeredReuseIdentifiers
    ensures NoDuplicates(ds.registeredReuseIdentifiers) ==> NoDuplicates(result.0.registeredReuseIdentifiers)
  {
    if call.reuseIdentifier !in ds.registeredReuseIdentifiers then
      var ds' := ds.(registeredReuseIdentifiers := ds.registeredReuseIdentifiers + [call.reuseIdentifier]);
      assert Ids([call]) == [call.reuseIdentifier];
      (ds', [call])
    else
      assert Ids([]) == [];
      (ds, [])
  }

  /** What one `cellForRowAt` call leaves behind. */
  datatype CellResult = CellResult(source: ContentDataSource, registrations: seq<Registration>, cell: Cell)

  /**
   * `tableView(_:cellForRowAt:)`. A nib or class row registers its identifier
   * the first time it is seen and then dequeues a cell for it; a style row
   * takes a reusable cell if there is one and otherwise creates one. Either
   * way the row is prepared on the cell that is returned.
   */
  function CellForRowAt(ds: ContentDataSource, host: Host, indexPath: IndexPath): (r: CellResult)
    requires Servable(ds.sections, host, indexPath)
    ensures r.source.sections == ds.sections
    ensures var row := RowAt(ds.sections, indexPath);
      && (r.registrations != [] <==> NeedsRegistration(row) && row.reuseIdentifier !in ds.registeredReuseIdentifiers)
      && (r.registrations != [] ==> r.registrations == [RegistrationFor(row, host.tableView)])
      && (NeedsRegistration(row) ==> row.reuseIdentifier in r.source.registeredReuseIdentifiers)
      && (!NeedsRegistration(row) ==> r.source.registeredReuseIdentifiers == ds.registeredReuseIdentifiers)
      && (NeedsRegistration(row) ==>
            r.cell == Prepare(row, host.dequeueRegistered(row.reuseIdentifier, indexPath), indexPath))
      && (row.representation.FromStyle? && host.dequeueReusable(row.reuseIdentifier).Some? ==>
            r.cell == Prepare(row, host.dequeueReusable(row.reuseIdentifier).value, indexPath))
      && (row.representation.FromStyle? && host.dequeueReusable(row.reuseIdentifier).None? ==>
            r.cell == Prepare(row, host.makeCell(row.representation.cellStyle, row.reuseIdentifier), indexPath))
      && (row.representation.FromStyle? && host.dequeueReusable(row.reuseIdentifier).None? && HonoursCreation(host) ==>
            && r.cell.identity.style == row.representation.cellStyle
            && r.cell.identity.reuseIdentifier == Some(row.reuseIdentifier))
    ensures r.source.registeredReuseIdentifiers == ds.registeredReuseIdentifiers + Ids(r.registrations)
    ensures NoDuplicates(ds.registeredReuseIdentifiers) ==> NoDuplicates(r.source.registeredReuseIdentifiers)
  {
    var section := ds.sections[indexPath.section];
    var row := section.contents[indexPath.row];
    var tableView := host.tableView;
    match row.representation
    case FromNib(nib) =>
      var (ds', calls) := RegisterIfNeeded(ds, RegisterNib(tableView, nib, row.reuseIdentifier));
      var cell := host.dequeueRegistered(row.reuseIdentifier, indexPath);
      CellResult(ds', calls, Prepare(row, cell, indexPath))
    case FromClass(cellClass) =>
      var (ds', calls) := RegisterIfNeeded(ds, RegisterClass(tableView, cellClass, row.reuseIdentifier));
      var cell := host.dequeueRegistered(row.reuseIdentifier, indexPath);
      CellResult(ds', calls, Prepare(row, cell, indexPath))
    case FromStyle(cellStyle) =>
      assert Ids([]) == [];
      match host.dequeueReusable(row.reuseIdentifier)
      case Some(cell) =>
        CellResult(ds, [], Prepare(row, cell, indexPath))
      case None =>
        var cell := host.makeCell(cellStyle, row.reuseIdentifier);
        CellResult(ds, [], Prepare(row, cell, indexPath))
  }

  // ---------------------------------------------------------------------------
  // The adapter's lifetime: a series of cellForRowAt calls

  datatype Request = Request(host: Host, indexPath: IndexPath)

  /**
   * All requests come from one table view. The registered list belongs to the
   * data source while registrations belong to a table view, so the list is
   * only a faithful record of the table view's registrations when the data
   * source serves a single table view.
   */
  predicate OneTableView(requests: seq<Request>) {
    forall j, k :: 0 <= j < |requests| && 0 <= k < |requests| ==> requests[j].host.tableView == requests[k].host.tableView
  }

  /** A lifetime of requests: every one servable, all from one table view. */
  predicate AllServable(sections: seq<Section>, requests: seq<Request>) {
    && (forall k :: 0 <= k < |requests| ==> Servable(sections, requests[k].host, requests[k].indexPath))
    && OneTableView(requests)
  }

  lemma AllServableTail(sections: seq<Section>, requests: seq<Request>)
    requires AllServable(sections, requests) && requests != []
    ensures AllServable(sections, requests[1..])
  {
    forall k | 0 <= k < |requests| - 1
      ensures Servable(sections, requests[1..][k].host, requests[1..][k].indexPath)
    {
      assert requests[1..][k] == requests[k + 1];
    }
    forall j, k | 0 <= j < |requests| - 1 && 0 <= k < |requests| - 1
      ensures requests[1..][j].host.tableView == requests[1..][k].host.tableView
    {
      assert requests[1..][j] == requests[j + 1];
      assert requests[1..][k] == requests[k + 1];
    }
  }

  /** One `cellForRowAt` call, keeping only the adapter's new state and the registrations issued. */
  function Step(ds: ContentDataSource, request: Request): (result: (ContentDataSource, seq<Registration>))
    requires Servable(ds.sections, request.host, request.indexPath)
    ensures result.0.sections == ds.sections
    ensures result.0.registeredReuseIdentifiers == ds.registeredReuseIdentifiers + Ids(result.1)
  {
    var r := CellForRowAt(ds, request.host, request.indexPath);
    (r.source, r.registrations)
  }

  /**
   * Serves the requests in order, threading the adapter's state, and returns
   * the final state together with every registration issued along the way.
   */
  function Serve(ds: ContentDataSource, requests: seq<Request>): (result: (ContentDataSource, seq<Registration>))
    requires AllServable(ds.sections, requests)
    ensures result.0.sections == ds.sections
    ensures result.0.registeredReuseIdentifiers == ds.registeredReuseIdentifiers + Ids(result.1)
    decreases |requests|
  {
    if requests == [] then
      assert Ids([]) == [];
      (ds, [])
    else
      assert Servable(ds.sections, requests[0].host, requests[0].indexPath);
      var step := Step(ds, requests[0]);
      AllServableTail(ds.sections, requests);
      var rest := Serve(step.0, requests[1..]);
      RecordedLogsConcatenate(ds.registeredReuseIdentifiers, step.1, rest.1);
      (rest.0, step.1 + rest.1)
  }

  /** The tail of a duplicate-free list is duplicate-free and shares nothing with its head. */
  lemma NoDuplicatesOfSuffix(prefix: seq<string>, suffix: seq<string>)
    requires NoDuplicates(prefix + suffix)
    ensures NoDuplicates(suffix)
    ensures forall x :: x in suffix ==> x !in prefix
  {
    forall i, j | 0 <= i < j < |suffix| ensures suffix[i] != suffix[j] {
      assert suffix[i] == (prefix + suffix)[|prefix| + i];
      assert suffix[j] == (prefix + suffix)[|prefix| + j];
    }
    forall x | x in suffix ensures x !in prefix {
      var j :| 0 <= j < |suffix| && suffix[j] == x;
      forall i | 0 <= i < |prefix| ensures prefix[i] != x {
        assert (prefix + suffix)[i] == prefix[i];
        assert (prefix + suffix)[|prefix| + j] == x;
      }
    }
  }

  /**
   * Over any series of calls the registered list stays free of duplicates and
   * only grows, and no identifier is registered twice with the table view.
   */
  lemma {:induction false} ServeRegistersEachIdentifierAtMostOnce(ds: ContentDataSource, requests: seq<Request>)
    requires AllServable(ds.sections, requests)
    requires NoDuplicates(ds.registeredReuseIdentifiers)
    ensures NoDuplicates(Serve(ds, requests).0.registeredReuseIdentifiers)
    ensures ds.registeredReuseIdentifiers <= Serve(ds, requests).0.registeredReuseIdentifiers
    ensures NoDuplicates(Ids(Serve(ds, requests).1))
    ensures forall id :: id in Ids(Serve(ds, requests).1) ==> id !in ds.registeredReuseIdentifiers
    decreases |requests|
  {
    if requests != [] {
      var step := CellForRowAt(ds, requests[0].host, requests[0].indexPath);
      AllServableTail(ds.sections, requests);
      ServeRegistersEachIdentifierAtMostOnce(step.source, requests[1..]);
    }
    var result := Serve(ds, requests);
    NoDuplicatesOfSuffix(ds.registeredReuseIdentifiers, Ids(result.1));
  }

  /** Every nib or class row that is asked for ends up registered. */
  lemma {:induction false} ServeRegistersEveryRequestedIdentifier(ds: ContentDataSource, requests: seq<Request>, k: int)
    requires AllServable(ds.sections, requests)
    requires 0 <= k < |requests|
    requires NeedsRegistration(RowAt(ds.sections, requests[k].indexPath))
    ensures RowAt(ds.sections, requests[k].indexPath).reuseIdentifier in Serve(ds, requests).0.registeredReuseIdentifiers
    decreases |requests|
  {
    var step := CellForRowAt(ds, requests[0].host, requests[0].indexPath);
    AllServableTail(ds.sections, requests);
    if k > 0 {
      assert requests[1..][k - 1] == requests[k];
      ServeRegistersEveryRequestedIdentifier(step.source, requests[1..], k - 1);
    }
  }

  /** An identifier that occurs in a duplicate-free log of registrations occurs in exactly one entry. */
  lemma OccursOnce(log: seq<Registration>, id: string)
    requires id in Ids(log) && NoDuplicates(Ids(log))
    ensures exists i :: 0 <= i < |log| && log[i].reuseIdentifier == id
    ensures forall i, j :: 0 <= i < |log| && 0 <= j < |log| && log[i].reuseIdentifier == id && log[j].reuseIdentifier == id ==> i == j
  {
    var i :| 0 <= i < |Ids(log)| && Ids(log)[i] == id;
    assert log[i].reuseIdentifier == id;
    forall i, j | 0 <= i < |log| && 0 <= j < |log| && log[i].reuseIdentifier == id && log[j].reuseIdentifier == id
      ensures i == j
    {
      assert Ids(log)[i] == Ids(log)[j];
    }
  }

  /**
   * Starting from a new adapter, a reuse identifier that some nib or class row
   * needs is registered exactly once, however many of the requests share it.
   */
  lemma RegisteredExactlyOnce(sections: seq<Section>, requests: seq<Request>, k: int)
    requires AllServable(sections, requests)
    requires 0 <= k < |requests|
    requires NeedsRegistration(RowAt(sections, requests[k].indexPath))
    ensures var log := Serve(FromSections(sections), requests).1;
      var id := RowAt(sections, requests[k].indexPath).reuseIdentifier;
      && (exists i :: 0 <= i < |log| && log[i].reuseIdentifier == id)
      && (forall i, j :: 0 <= i < |log| && 0 <= j < |log| && log[i].reuseIdentifier == id && log[j].reuseIdentifier == id ==> i == j)
  {
    var ds := FromSections(sections);
    var result := Serve(ds, requests);
    var id := RowAt(sections, requests[k].indexPath).reuseIdentifier;
    ServeRegistersEveryRequestedIdentifier(ds, requests, k);
    ServeRegistersEachIdentifierAtMostOnce(ds, requests);
    assert result.0.registeredReuseIdentifiers == Ids(result.1);
    OccursOnce(result.1, id);
  }

  /** Every registration over a lifetime goes to the one table view the requests come from. */
  lemma {:induction false} ServeRegistersOnItsTableView(ds: ContentDataSource, requests: seq<Request>)
    requires AllServable(ds.sections, requests)
    requires requests != []
    ensures forall i :: 0 <= i < |Serve(ds, requests).1| ==> Serve(ds, requests).1[i].tableView == requests[0].host.tableView
    decreases |requests|
  {
    var step := CellForRowAt(ds, requests[0].host, requests[0].indexPath);
    AllServableTail(ds.sections, requests);
    var rest := Serve(step.source, requests[1..]);
    if |requests| > 1 {
      ServeRegistersOnItsTableView(step.source, requests[1..]);
      assert requests[1..][0].host.tableView == requests[0].host.tableView;
    }
    var log := Serve(ds, requests).1;
    assert log == step.registrations + rest.1;
    forall i | 0 <= i < |log| ensures log[i].tableView == requests[0].host.tableView {
      if i < |step.registrations| {
        assert log[i] == step.registrations[i];
      } else {
        assert log[i] == rest.1[i - |step.registrations|];
      }
    }
  }

  /** Style rows never register anything, whether or not a cell was there to reuse. */
  lemma {:induction false} StyleRowsNeverRegister(ds: ContentDataSource, requests: seq<Request>)
    requires AllServable(ds.sections, requests)
    requires forall k :: 0 <= k < |requests| ==> !NeedsRegistration(RowAt(ds.sections, requests[k].indexPath))
    ensures Serve(ds, requests).1 == []
    ensures Serve(ds, requests).0.registeredReuseIdentifiers == ds.registeredReuseIdentifiers
    decreases |requests|
  {
    if requests != [] {
      var step := CellForRowAt(ds, requests[0].host, requests[0].indexPath);
      AllServableTail(ds.sections, requests);
      assert step.registrations == [];
      StyleRowsNeverRegister(step.source, requests[1..]);
    }
  }

  /** No query changes the sections, so the counts and titles stay as they were. */
  lemma CellForRowAtKeepsAnswers(ds: ContentDataSource, host: Host, indexPath: IndexPath, section: int)
    requires Servable(ds.sections, host, indexPath)
    requires 0 <= section < |ds.sections|
    ensures var ds' := CellForRowAt(ds, host, indexPath).source;
      && NumberOfSections(ds') == NumberOfSections(ds)
      && NumberOfRowsInSection(ds', section) == NumberOfRowsInSection(ds, section)
      && TitleForHeaderInSection(ds', section) == TitleForHeaderInSection(ds, section)
      && TitleForFooterInSection(ds', section) == TitleForFooterInSection(ds, section)
  {
  }
}
