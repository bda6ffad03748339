/** The map client's selection controller (assets/workslice-slippy-map.js): the
    start/stop/reset buttons, the click and hover controls, the zoom handler and
    the asynchronous feature count, as a state machine over an immutable client
    state. The page is reduced to the values the controller writes into it. */
module Selection {
  import opened Wrappers
  import opened Text
  import opened Grid

  /** What the controller writes into the page. */
  datatype Page = Page(
    idCells: string,               // the form field `id_cells`
    cellInfo: string,              // `#cell-selection-information`
    featureInfo: string,           // `#feature-selection-information`
    selectionLayer: seq<Cell>,     // one filled square per selected cell
    hoverLayer: seq<Cell>,         // the outline of the highlighted cell
    countRequests: seq<string>,    // the `id_cells` value of each feature-count POST
    selectMode: bool)              // select-mode panel shown, view-mode panel hidden

  datatype Client = Client(
    selecting: bool,               // `selecting_cells`
    clickActive: bool,             // the `selection` click control
    hoverActive: bool,             // the `hover` control
    density: Density,              // `currentCellDensity`
    cells: seq<Cell>,              // the collection's `contents`
    highlighted: Option<Cell>,     // `highlighted_cell`
    page: Page)

  /** A page as served, with whatever the server rendered into the form and the
      two information panels; both controls start inactive and the density at 128. */
  function Init(idCells: string, cellInfo: string, featureInfo: string): (c: Client)
    ensures !c.selecting && !c.clickActive && !c.hoverActive
    ensures c.density == 128 && c.cells == [] && c.highlighted == None
    ensures c.page.idCells == idCells && c.page.countRequests == []
  {
    Client(false, false, false, 128, [], None,
           Page(idCells, cellInfo, featureInfo, [], [], [], false))
  }

  /** `cells.clear()`: empties the collection and its layer and rewrites the
      form field and the panels; it asks the server for nothing. */
  function Clear(c: Client): (r: Client)
    ensures r.cells == [] && r.page.selectionLayer == []
    ensures r.page.idCells == "" && r.page.cellInfo == CountMessage(0) && r.page.featureInfo == ""
    ensures r.(cells := c.cells, page := c.page) == c
    ensures r.page.(idCells := c.page.idCells, cellInfo := c.page.cellInfo,
                    featureInfo := c.page.featureInfo, selectionLayer := c.page.selectionLayer) == c.page
  {
    c.(cells := [],
       page := c.page.(selectionLayer := [], cellInfo := CountMessage(0), featureInfo := "",
                       idCells := Serialize([])))
  }

  /** `cells.addOrRemove(cell)`: toggles the cell in the collection and on the
      layer, rewrites the panels and the form field, then posts the form for a
      feature count unless the collection became empty. */
  function Toggle(c: Client, cell: Cell): (r: Client)
    ensures r.cells == AddOrRemove(c.cells, cell)
    ensures r.page.idCells == Serialize(r.cells)
    ensures r.page.cellInfo == CountMessage(|r.cells|) && r.page.featureInfo == ""
    ensures r.page.countRequests
         == c.page.countRequests + (if |r.cells| > 0 then [Serialize(r.cells)] else [])
    ensures r.(cells := c.cells, page := c.page) == c
  {
    var cells := AddOrRemove(c.cells, cell);
    var requests := if |cells| > 0 then c.page.countRequests + [Serialize(cells)]
                    else c.page.countRequests;
    c.(cells := cells,
       page := c.page.(selectionLayer := AddOrRemove(c.page.selectionLayer, cell),
                       cellInfo := CountMessage(|cells|), featureInfo := "",
                       idCells := Serialize(cells), countRequests := requests))
  }

  /** `updateCellDensityAndSelection()`: a new density empties the selection
      (cells of the old grid would not line up with the new one). */
  function UpdateDensity(c: Client, minSpan: real): (r: Client)
    requires minSpan > 0.0
    ensures r.density == CalculateCellDensity(minSpan)
    ensures r.density != c.density ==> r == Clear(c).(density := r.density)
    ensures r.density == c.density ==> r == c
  {
    var d := CalculateCellDensity(minSpan);
    if d > c.density then Clear(c).(density := d)
    else if d < c.density then Clear(c).(density := d)
    else c.(density := d)
  }

  /** `highlightCell(cell)`: redraws the outline unless the same cell is already
      highlighted; remembers the cell either way. */
  function Highlight(c: Client, cell: Cell): (r: Client)
    ensures r.highlighted == Some(cell)
    ensures r.page.hoverLayer == (if c.highlighted == Some(cell) then c.page.hoverLayer else [cell])
    ensures r.(highlighted := c.highlighted, page := c.page) == c
    ensures r.page.(hoverLayer := c.page.hoverLayer) == c.page
  {
    if c.highlighted.Some? && CellString(cell) == CellString(c.highlighted.value) then
      CellStringInjective(cell, c.highlighted.value);
      c.(highlighted := Some(cell))
    else
      c.(highlighted := Some(cell), page := c.page.(hoverLayer := [cell]))
  }

  /** `startGrabbingData()`. */
  function Start(c: Client, minSpan: real): (r: Client)
    requires minSpan > 0.0
    ensures r.selecting && r.clickActive && r.hoverActive && r.page.selectMode
    ensures r.cells == [] && r.page.idCells == "" && r.page.cellInfo == CountMessage(0)
    ensures r.density == CalculateCellDensity(minSpan)
    ensures r.highlighted == c.highlighted && r.page.hoverLayer == c.page.hoverLayer
    ensures r.page.countRequests == c.page.countRequests
  {
    var c1 := Clear(c.(selecting := true));
    var c2 := UpdateDensity(c1, minSpan);
    c2.(clickActive := true, hoverActive := true, page := c2.page.(selectMode := true))
  }

  /** `stopGrabbingData()` as written: it calls `selection.activate()`, so the
      click control stays armed after the session ends, and it leaves
      `highlighted_cell` set while it wipes the outline. */
  function Stop(c: Client): (r: Client)
    ensures !r.selecting && r.clickActive && !r.hoverActive && !r.page.selectMode
    ensures r.cells == [] && r.page.hoverLayer == [] && r.page.idCells == ""
    ensures r.highlighted == c.highlighted && r.density == c.density
  {
    var c1 := c.(selecting := false, clickActive := true, hoverActive := false,
                 page := c.page.(hoverLayer := []));
    var c2 := Clear(c1);
    c2.(page := c2.page.(selectMode := false))
  }

  /** `stopGrabbingData()` as evidently intended: the click control is
      deactivated like the hover control, and the highlight is forgotten with
      its outline. */
  function StopCorrected(c: Client): (r: Client)
    ensures !r.selecting && !r.clickActive && !r.hoverActive && !r.page.selectMode
    ensures r.cells == [] && r.page.hoverLayer == [] && r.highlighted == None
    ensures r.density == c.density && r.page.countRequests == c.page.countRequests
  {
    var c1 := c.(selecting := false, clickActive := false, hoverActive := false,
                 highlighted := None, page := c.page.(hoverLayer := []));
    var c2 := Clear(c1);
    c2.(page := c2.page.(selectMode := false))
  }

  /** Everything the controller reacts to; spans are the smaller side of the
      viewport in degrees, points are in degrees. */
  datatype Event =
    | StartGrabbing(minSpan: real)
    | StopGrabbing
    | ResetCells
    | ZoomEnd(minSpan: real)
    | MapClick(lon: real, lat: real)
    | MapPause(lon: real, lat: real)
    | CountReply(info: string)

  /** A viewport always has a positive extent. */
  predicate ValidEvent(e: Event) {
    (e.StartGrabbing? || e.ZoomEnd?) ==> e.minSpan > 0.0
  }

  /** The zoom handler updates the density only while cells are being selected. */
  function OnZoomEnd(c: Client, minSpan: real): (r: Client)
    requires minSpan > 0.0
    ensures !c.selecting ==> r == c
    ensures c.selecting ==> r.density == CalculateCellDensity(minSpan)
    ensures c.selecting ==> (r.cells == c.cells <==> r.density == c.density || c.cells == [])
  {
    if c.selecting then UpdateDensity(c, minSpan) else c
  }

  /** The click control, when active, toggles the cell under the pointer at the
      current density. */
  function OnClick(c: Client, lon: real, lat: real): (r: Client)
    ensures c.clickActive ==> r == Toggle(c, CellAt(lon, lat, c.density))
    ensures !c.clickActive ==> r == c
  {
    if c.clickActive then Toggle(c, CellAt(lon, lat, c.density)) else c
  }

  /** The hover control, when active, highlights the cell under a resting
      pointer. */
  function OnPause(c: Client, lon: real, lat: real): (r: Client)
    ensures c.hoverActive ==> r == Highlight(c, CellAt(lon, lat, c.density))
    ensures !c.hoverActive ==> r == c
  {
    if c.hoverActive then Highlight(c, CellAt(lon, lat, c.density)) else c
  }

  /** One event, as the page handles it: only a click posts a feature count,
      and it posts the token the form then holds; only starting a session or
      zooming changes the density. */
  function Step(c: Client, e: Event): (r: Client)
    requires ValidEvent(e)
    ensures r.page.countRequests == c.page.countRequests
            || (e.MapClick? && r.page.countRequests == c.page.countRequests + [r.page.idCells])
    ensures r.density != c.density ==> e.StartGrabbing? || e.ZoomEnd?
  {
    match e
    case StartGrabbing(s) => Start(c, s)
    case StopGrabbing => Stop(c)
    case ResetCells => Clear(c)
    case ZoomEnd(s) => OnZoomEnd(c, s)
    case MapClick(lon, lat) => OnClick(c, lon, lat)
    case MapPause(lon, lat) => OnPause(c, lon, lat)
    case CountReply(info) => c.(page := c.page.(featureInfo := info))
  }

  /** The events in turn. The feature-count requests form a log: earlier
      requests are never withdrawn, and each event adds at most one. */
  function Run(c: Client, es: seq<Event>): (r: Client)
    requires forall k :: 0 <= k < |es| ==> ValidEvent(es[k])
    ensures c.page.countRequests <= r.page.countRequests
    ensures |r.page.countRequests| <= |c.page.countRequests| + |es|
    decreases |es|
  {
    if |es| == 0 then c else Run(Step(c, es[0]), es[1..])
  }

  /** One event, with the stop button as evidently intended. */
  function StepCorrected(c: Client, e: Event): Client
    requires ValidEvent(e)
  {
    if e.StopGrabbing? then StopCorrected(c) else Step(c, e)
  }

  function RunCorrected(c: Client, es: seq<Event>): Client
    requires forall k :: 0 <= k < |es| ==> ValidEvent(es[k])
    decreases |es|
  {
    if |es| == 0 then c else RunCorrected(StepCorrected(c, es[0]), es[1..])
  }

  // ---------------------------------------------------------------------------
  // Invariant

  /** Every selected cell lies on the current grid. */
  predicate OnGrid(cells: seq<Cell>, d: Density) {
    forall k :: 0 <= k < |cells| ==> cells[k].cpd == d
  }

  /** The controller's invariant as the page is written: the collection has no
      duplicates and lies on the current grid, the layer mirrors it, an outline
      is drawn only around the highlighted cell, the hover control is on exactly
      while selecting and the click control at least then, nothing is selected
      while the click control is off, and while it is on the form field and the
      panel describe the collection. */
  predicate Inv(c: Client) {
    && NoDup(c.cells)
    && OnGrid(c.cells, c.density)
    && c.page.selectionLayer == c.cells
    && (c.page.hoverLayer == [] || (c.highlighted.Some? && c.page.hoverLayer == [c.highlighted.value]))
    && c.hoverActive == c.selecting
    && (c.selecting ==> c.clickActive)
    && (!c.clickActive ==> c.cells == [])
    && (c.clickActive ==> c.page.idCells == Serialize(c.cells)
                          && c.page.cellInfo == CountMessage(|c.cells|))
  }

  /** The invariant the corrected stop keeps on top of `Inv`: the outline shows
      exactly the highlighted cell, both controls are on exactly while
      selecting, and nothing is selected outside a session. */
  predicate InvCorrected(c: Client) {
    && Inv(c)
    && (c.highlighted.None? ==> c.page.hoverLayer == [])
    && (c.highlighted.Some? ==> c.page.hoverLayer == [c.highlighted.value])
    && c.clickActive == c.selecting
    && (!c.selecting ==> c.cells == [])
  }

  lemma InitInv(idCells: string, cellInfo: string, featureInfo: string)
    ensures InvCorrected(Init(idCells, cellInfo, featureInfo))
  {
  }

  lemma ToggleKeepsGrid(c: Client, cell: Cell)
    requires Inv(c) && c.clickActive && cell.cpd == c.density
    ensures Inv(Toggle(c, cell))
  {
    var r := Toggle(c, cell);
    forall k | 0 <= k < |r.cells| ensures r.cells[k].cpd == c.density {
      var d := r.cells[k];
      if d != cell { assert d in c.cells; }
    }
  }

  /** Every event, as the page handles it, keeps the invariant. */
  lemma StepInv(c: Client, e: Event)
    requires Inv(c) && ValidEvent(e)
    ensures Inv(Step(c, e))
  {
    match e
    case MapClick(lon, lat) =>
      if c.clickActive { ToggleKeepsGrid(c, CellAt(lon, lat, c.density)); }
    case _ =>
  }

  lemma {:induction false} RunInv(c: Client, es: seq<Event>)
    requires Inv(c)
    requires forall k :: 0 <= k < |es| ==> ValidEvent(es[k])
    ensures Inv(Run(c, es))
    decreases |es|
  {
    if |es| > 0 {
      StepInv(c, es[0]);
      RunInv(Step(c, es[0]), es[1..]);
    }
  }

  /** Every event, with the corrected stop, keeps the stronger invariant. */
  lemma StepCorrectedInv(c: Client, e: Event)
    requires InvCorrected(c) && ValidEvent(e)
    ensures InvCorrected(StepCorrected(c, e))
  {
    match e
    case MapClick(lon, lat) =>
      if c.clickActive { ToggleKeepsGrid(c, CellAt(lon, lat, c.density)); }
    case _ =>
  }

  lemma {:induction false} RunCorrectedInv(c: Client, es: seq<Event>)
    requires InvCorrected(c)
    requires forall k :: 0 <= k < |es| ==> ValidEvent(es[k])
    ensures InvCorrected(RunCorrected(c, es))
    decreases |es|
  {
    if |es| > 0 {
      StepCorrectedInv(c, es[0]);
      RunCorrectedInv(StepCorrected(c, es[0]), es[1..]);
    }
  }

  /** Whenever the page can select cells, the form field the server receives
      lists the cells currently drawn, in selection order, all on the grid of
      the current zoom level. */
  lemma SubmittedTokenMatchesSelection(c: Client, es: seq<Event>)
    requires Inv(c)
    requires forall k :: 0 <= k < |es| ==> ValidEvent(es[k])
    requires Run(c, es).clickActive
    ensures Run(c, es).page.idCells == Serialize(Run(c, es).page.selectionLayer)
    ensures OnGrid(Run(c, es).cells, Run(c, es).density)
  {
    RunInv(c, es);
  }

  /** With the corrected stop, nothing is selected outside a session. */
  lemma CorrectedSelectsOnlyInSession(c: Client, es: seq<Event>)
    requires InvCorrected(c)
    requires forall k :: 0 <= k < |es| ==> ValidEvent(es[k])
    ensures !RunCorrected(c, es).selecting ==> RunCorrected(c, es).cells == []
    ensures RunCorrected(c, es).clickActive == RunCorrected(c, es).selecting
  {
    RunCorrectedInv(c, es);
  }

  // ---------------------------------------------------------------------------
  // The stop button as written

  /** With the page's own stop: after a session, a click on the map still selects
      a cell and posts a feature count, though no session is running. */
  lemma StopLeavesClickArmed(c: Client, lon: real, lat: real)
    ensures var r := OnClick(Stop(c), lon, lat);
            !r.selecting && r.cells == [CellAt(lon, lat, c.density)]
            && |r.page.countRequests| == |c.page.countRequests| + 1
  {
  }

  /** With the page's own stop: start, rest on a cell, stop, start again at the
      same zoom and rest on the same cell: the controller believes the cell is
      highlighted, but no outline is drawn. */
  lemma StopLosesOutline(lon: real, lat: real)
    ensures
      var c0 := Start(Init("", "", ""), 1.0);
      var c1 := OnPause(c0, lon, lat);
      var c2 := OnPause(Start(Stop(c1), 1.0), lon, lat);
      c2.highlighted.Some? && c2.page.hoverLayer == []
  {
  }

  /** With the corrected stop, the same sequence draws the outline again. */
  lemma StopCorrectedRedrawsOutline(lon: real, lat: real)
    ensures
      var c0 := Start(Init("", "", ""), 1.0);
      var c1 := OnPause(c0, lon, lat);
      var c2 := OnPause(Start(StopCorrected(c1), 1.0), lon, lat);
      c2.page.hoverLayer == [c2.highlighted.value] && c2.highlighted.Some?
  {
  }
}
