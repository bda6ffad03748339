# linz2osm core, modelled in Dafny

linz2osm prepares New Zealand topographic and road data (LINZ layers, and
road networks imported from MP files) for upload to OpenStreetMap. Editors
pick a block of grid cells on a slippy map, the server turns the selection
into a *workslice* of features that moves through a small lifecycle, and the
features are written out as an OSM change file. This project models the
deterministic core of that pipeline and proves what it promises.

| file | module | what it models |
|---|---|---|
| wrappers.dfy | Wrappers | `Option` and `Result` with early return |
| text.dfy | Text | Python's `int()`, `str.strip()`, `str.split()`, `sep.join()` and ASCII case, on `seq<char>` |
| seqs.dfy | Seqs | sequence reversal |
| geometry.dfy | Geometry | the GEOS geometry classes the processors dispatch on |
| grid.dfy | Grid | the map client's `Cell`, `CellCollection` and cell-density policy |
| selection.dfy | Selection | the map client's selection controller as an event-driven state machine |
| cells.dfy | Cells | the server's `CELL_RE` and `Cell` parsing, and the form's token split |
| workslices.dfy | Workslices | the workslice lifecycle table, feature allocation and creation |
| workslice_views.dfy | WorksliceViews | the workslice views: transitions and ownership, count messages, paging |
| way_split.dfy | WaySplit | how `build_way` cuts a long line into overlapping chunks |
| osm_tags.dfy | OsmTags | `build_tags`: first applicable tag per key, length limits |
| osm_writer.dfy | OsmWriter | the OSM writer: negative ids, node reuse, `build_way` |
| osm_export.dfy | OsmExport | `build_polygon` relations and the `build_geom` dispatch |
| unmangle.dfy | Unmangle | the road-label unmangler and its exit patterns |
| mp_format.dfy | MpFormat | quote escaping and ring closing in the MP importer |
| mp_restrict.dfy | MpRestrict | the lines of a `[Restrict]` record |
| mp_segments.dfy | MpSegments | cutting polylines into segments at routing nodes, and node rows |
| mp_links.dfy | MpLinks | the road-type hierarchy and the link re-typing fixpoint |
| processing.dfy | Processing | `BaseProcessor.process`, `warn` and `ReverseLine` |
| data_dict.dfy | DataDict | layer geometry deduction, tag merging, processors, progress figures |
| convert_views.dfy | ConvertViews | the export form's bounding-box check |

Floating-point values are exact reals. Python's and JavaScript's integers are
unbounded `int`s here: every quantity involved (cell indices, densities, ids,
counts) stays far inside the ranges where the sources' numbers are exact.
Database queries, GEOS operations, hashing, the clock and the browser are
parameters or left out, as listed below.

## Model

| member | source | states |
|---|---|---|
| Grid.CellAt | assets/workslice-slippy-map.js:192-197 | the cell built for a point at density cpd has indices floor(lon·cpd) and floor(lat·cpd): lon·cpd lies in [x, x+1) and lat·cpd in [y, y+1) |
| Grid.CellAtUnique | assets/workslice-slippy-map.js:192-197 | the grid is a partition: any cell whose scaled interval holds the point is the one CellAt builds |
| Grid.CellAtIffInSquare | assets/workslice-slippy-map.js:192-218 | CellAt returns c exactly when the point lies in c's square with corner (lon, lat) and side size, west and south edges included |
| Grid.SameGroundDifferentDensity | assets/workslice-slippy-map.js:226-228 | two cells with the same corner but different densities are not equal |
| Grid.EqualsIsEquality | assets/workslice-slippy-map.js:226-228 | `equals` holds exactly when the two cells are the same value |
| Grid.CellStringInjective | assets/workslice-slippy-map.js:203-205 | different cells have different `toString()` texts, so the hover check's string comparison is cell equality |
| Grid.IndexOf | assets/workslice-slippy-map.js:239-247 | `contains` gives no index exactly when the cell is absent, and otherwise the index of its first occurrence |
| Grid.RemoveAtMembers | assets/workslice-slippy-map.js:293-296 | splicing out index i keeps every other cell's membership, and on a duplicate-free list removes s[i] entirely |
| Grid.AddOrRemove | assets/workslice-slippy-map.js:299-311 | an absent cell is appended at the end, a present one is removed; duplicate-freedom is kept and afterwards the cell is present exactly when it was absent; other cells keep their membership |
| Grid.ToggleTwiceAbsent | assets/workslice-slippy-map.js:299-311 | toggling an absent cell twice restores the list exactly |
| Grid.ToggleTwicePresent | assets/workslice-slippy-map.js:299-311 | toggling a present cell twice moves it to the end of the list |
| Grid.ToggleAbsentInOrder | assets/workslice-slippy-map.js:287-291 | distinct cells toggled in turn are listed in click order |
| Grid.Serialize | assets/workslice-slippy-map.js:313-317 | the token is empty exactly when the collection is |
| Grid.SerializeInClickOrder | assets/workslice-slippy-map.js:313-317 | three cells clicked in turn give the token of their strings joined by "_" in click order |
| Grid.CountMessageInjective | assets/workslice-slippy-map.js:271-281 | different selection sizes give different status lines |
| Grid.DensitySearch | assets/workslice-slippy-map.js:459-468 | quadrupling from a power of four ends at a density meeting the rule: a power of four, at least the target, and 1 or below four times the target |
| Grid.CalculateCellDensity | assets/workslice-slippy-map.js:452-468 | the density for a viewport whose smaller side is minSpan meets the rule for target 4/minSpan |
| Grid.DensityUnique | assets/workslice-slippy-map.js:463-468 | the rule has one answer for a given target |
| Grid.DensityIsLeastPowerOfFour | assets/workslice-slippy-map.js:459-468 | the density is the least 4^k with 4^k at least 4/minSpan, i.e. 2 to the power of log2(target) rounded up to an even number, and at least 1 |
| Grid.DensityExamples | assets/workslice-slippy-map.js:463-468 | a one-degree viewport gives 4 cells per degree, a half-degree one 16, a ten-degree one 1 |
| Grid.DensityQuarterStep | assets/workslice-slippy-map.js:463-468 | a viewport a quarter the size gives four times the density, once the density is above 1 |
| Grid.DensityMonotonic | assets/workslice-slippy-map.js:463-468 | a smaller viewport never gives a lower density |
| Selection.Init | assets/workslice-slippy-map.js:182-190 | the controller starts outside a session with both controls inactive, density 128, no cells and nothing highlighted |
| Selection.Clear | assets/workslice-slippy-map.js:249-254 | `clear()` empties the collection and its layer, writes the empty token and the "Select at least one cell" line, and changes nothing else |
| Selection.Toggle | assets/workslice-slippy-map.js:256-311 | a click toggles the cell, writes the new token and status line, and posts a feature count exactly when cells remain; nothing else changes |
| Selection.UpdateDensity | assets/workslice-slippy-map.js:470-479 | the new density is taken, and the selection is cleared exactly when it differs from the old |
| Selection.Highlight | assets/workslice-slippy-map.js:440-446 | the hovered cell becomes the highlighted one and the outline is redrawn unless that cell was already highlighted |
| Selection.Start | assets/workslice-slippy-map.js:481-491 | starting opens a session with both controls active, an empty selection and the density of the viewport |
| Selection.Stop | assets/workslice-slippy-map.js:493-502 | stopping ends the session, clears cells and outline, leaves the click control active and keeps the highlighted cell |
| Selection.StopCorrected | assets/workslice-slippy-map.js:493-502 | the corrected stop also deactivates the click control and forgets the highlighted cell |
| Selection.OnZoomEnd | assets/workslice-slippy-map.js:418-423 | a zoom changes nothing outside a session; inside one it takes the viewport's density and keeps the cells exactly when the density is unchanged or there were none |
| Selection.OnClick | assets/workslice-slippy-map.js:343-347 | an active click control toggles the cell under the pointer at the current density; an inactive one changes nothing |
| Selection.OnPause | assets/workslice-slippy-map.js:387-391 | an active hover control highlights the cell under the pointer; an inactive one changes nothing |
| Selection.InitInv | assets/workslice-slippy-map.js:182-190 | the initial state meets the stronger invariant, hence also the invariant of the page as written |
| Selection.ToggleKeepsGrid | assets/workslice-slippy-map.js:343-347 | while the click control is on, toggling a cell of the current density keeps the invariant |
| Selection.StepInv | assets/workslice-slippy-map.js:418-516 | every event, with the page's own stop, keeps the invariant: no duplicate cells, all on the current grid, the layer mirroring them, any outline around the highlighted cell, hover on exactly in a session, and while the click control is on the token and status line matching the drawn cells |
| Selection.RunInv | assets/workslice-slippy-map.js:418-516 | any sequence of events, with the page's own stop, keeps the invariant |
| Selection.StepCorrectedInv | assets/workslice-slippy-map.js:418-516 | with the corrected stop every event also keeps the outline exactly on the highlighted cell, the click control on exactly in a session and the selection empty outside one |
| Selection.RunCorrectedInv | assets/workslice-slippy-map.js:418-516 | with the corrected stop any sequence of events keeps the stronger invariant |
| Selection.CorrectedSelectsOnlyInSession | assets/workslice-slippy-map.js:343-502 | with the corrected stop, after any events no cell is selected outside a session and clicks select exactly while selecting |
| Selection.SubmittedTokenMatchesSelection | assets/workslice-slippy-map.js:253-316 | with the page's own stop, whenever the click control is on (during a session and after one) the form field holds the token of the cells drawn, all of them at the current density |
| Selection.StopLeavesClickArmed | assets/workslice-slippy-map.js:493-502 | after the page's stop a click still selects a cell and posts a count though no session runs |
| Selection.StopLosesOutline | assets/workslice-slippy-map.js:440-502 | start, rest on a cell, stop, start and rest on the same cell: the cell counts as highlighted but no outline is drawn |
| Selection.StopCorrectedRedrawsOutline | assets/workslice-slippy-map.js:440-502 | with the corrected stop the same sequence draws the outline again |
| Grid.CellString | assets/workslice-slippy-map.js:203-205 | a cell's `toString()` text starts with "X" and holds no underscore, the separator of cells in the form field |
| Grid.CountMessage | assets/workslice-slippy-map.js:271-281 | the status line starts with "S" (the prompt to select a cell) exactly when nothing is selected, and otherwise ends with " selected. " |
| Selection.Step | assets/workslice-slippy-map.js:418-516 | only a click posts a feature count, and it posts the token the form field then holds; the density changes only when a session starts or on a zoom |
| Selection.Run | assets/workslice-slippy-map.js:418-516 | a sequence of events only appends to the posted feature counts, at most one per event |
| Cells.MatchCell | linz2osm/workslices/models.py:34 | a match yields well-formed groups (indices over `[0-9-]`, density over digits, all non-empty) that compose back to the text |
| Cells.MatchCellComplete | linz2osm/workslices/models.py:34 | every text of the pattern's shape matches and yields its own groups |
| Cells.MatchCellIff | linz2osm/workslices/models.py:34 | the pattern accepts exactly the texts "X" x "Y" y "C" cpd with well-formed groups |
| Cells.MatchCellRejectsSignedDensity | linz2osm/workslices/models.py:34 | a minus sign before the density is refused |
| Cells.MatchCellEndsInDigit | linz2osm/workslices/models.py:34 | a match starts with "X" and ends in a digit: nothing may follow the density |
| Cells.ParseCellNoMatch | linz2osm/workslices/models.py:34-38 | `Cell(text)` fails for want of a pattern match exactly when the text is not "X" x "Y" y "C" cpd with well-formed groups |
| Cells.ParseGroups | linz2osm/workslices/models.py:38-41 | the groups read with `int()` give the cell's indices and density; a group `int()` refuses or a zero density is an error |
| Cells.ParseCellCompose | linz2osm/workslices/models.py:37-41 | for a text of the pattern's shape the outcome is the groups' reading |
| Cells.ParseCellZeroDensity | linz2osm/workslices/models.py:39-41 | a density of zeros matches but fails on the division by the density |
| Cells.ParseCellBadInteger | linz2osm/workslices/models.py:34-38 | an index with a misplaced minus sign, such as "1-2", matches but fails in `int()` |
| Cells.ParseCellLeadingZero | linz2osm/workslices/models.py:37-38 | a leading zero on an index is read as `int()` reads it, so another text denotes the same cell |
| Cells.ParseCellString | linz2osm/workslices/models.py:37-41 | the server reads back exactly the cell whose string the client wrote (assets/workslice-slippy-map.js:203-205) |
| Cells.AsPolygon | linz2osm/workslices/models.py:43-44 | the box of a cell is a square of side `size` |
| Cells.AsPolygonIsClickArea | linz2osm/workslices/models.py:43-44 | a point lies in the server's box exactly when the client's click there picks the same cell |
| Cells.ParseAll | linz2osm/workslices/views.py:184 | the list parses piece by piece, each piece to the cell at its position, or fails naming a piece |
| Cells.ParseAllFirstFailure | linz2osm/workslices/views.py:184 | a failed list names the first failing piece and its error; all pieces before it parse |
| Cells.CleanCells | linz2osm/workslices/views.py:179-187 | a missing or empty field is refused with "select at least one cell"; otherwise the cell count equals the number of "_"-separated pieces |
| Cells.ParseAllParsed | linz2osm/workslices/views.py:184 | conversely, pieces that each parse to the cell at their position parse as a list to exactly those cells |
| Cells.ParseAllCellStrings | linz2osm/workslices/views.py:184 | the strings of any list of cells parse back to that list |
| Cells.CleanSerialized | linz2osm/workslices/views.py:179-187 | the field the client submits for a non-empty selection cleans to exactly that selection, in order; an empty one is refused |
| Workslices.StateNameInjective | linz2osm/workslices/models.py:102-109 | distinct states are stored under distinct names |
| Workslices.TransitionTable | linz2osm/workslices/models.py:111-118 | the permitted moves are exactly the table's edges, in both directions of the equivalence |
| Workslices.TransitionsDistinct | linz2osm/workslices/models.py:111-118 | no state lists a target twice or itself |
| Workslices.PostCheckoutIsReachedFromOut | linz2osm/workslices/models.py:144-145 | the post-checkout states are exactly the states other than checked out that the transition table reaches from checked out in one or two moves |
| Workslices.WalkAvoidsDraft | linz2osm/workslices/models.py:111-118 | no walk of permitted moves enters draft, and one that starts past draft never enters processing |
| Workslices.Unallocated | linz2osm/workslices/models.py:175-186 | the kept ids are exactly the covered ones not claimed already |
| Workslices.Allocate | linz2osm/workslices/models.py:167-193 | no lookup or too many unclaimed ids raise too-featureful; no covered ids or none unclaimed raise insufficiently-featureful; otherwise the claimed ids are exactly the unclaimed covered ones, between 1 and the limit |
| Workslices.AllocationsDisjoint | linz2osm/workslices/models.py:175-186 | a second allocation after the first never claims a feature the first claimed |
| Workslices.CreateWorkslice | linz2osm/workslices/models.py:50-98 | a created workslice is in processing, owned by the user, with the allocated features and their count; it fails exactly when the allocation does, with the same error |
| Workslices.AcceptableTransitions | linz2osm/workslices/models.py:134-135 | a state offers at most three moves, none back to draft or to itself, and offers none exactly in processing and abandoned |
| Workslices.PostCheckoutStatus | linz2osm/workslices/models.py:144-145 | a workslice is past checkout exactly when it is abandoned, blocked or complete |
| WorksliceViews.FindTransition | linz2osm/workslices/views.py:82-83 | a target is found exactly when some table entry's target is stored under the requested name, and the found one is |
| WorksliceViews.UpdateWorkslice | linz2osm/workslices/views.py:59-94 | the workslice moves exactly on a POST with a transition field from its owner or a superuser naming a permitted target, and is then saved in that state; an anonymous POST with a non-empty field goes to the login page; every page shown carries the unchanged workslice; a GET shows it without errors |
| WorksliceViews.UpdateRefusals | linz2osm/workslices/views.py:75-90 | an empty field, a non-owner and a target the table does not permit each give their own message |
| WorksliceViews.UpdateFollowsLifecycle | linz2osm/workslices/views.py:82-89 | a move saves a state other than draft, keeps owner and count, and clears the features exactly when the target is "abandoned" |
| WorksliceViews.InfoMessageReadsBack | linz2osm/workslices/views.py:243-244 | within the limit the count of two or more can be read back from the front of the line |
| WorksliceViews.InfoMessageInjective | linz2osm/workslices/views.py:239-250 | counts within the limit give different lines; every count over the limit gives the same line |
| WorksliceViews.WorksliceInfo | linz2osm/workslices/views.py:179-296 | no cells answer with the form's "select at least one cell" line and an extent error with its message, even when a choice field is also invalid; the request fails exactly when a piece is not a cell or when the cells are fine but a choice field is invalid (no form-wide error to show); otherwise the line for the count |
| WorksliceViews.AllocErrorMessage | linz2osm/workslices/views.py:214-217 | the too-featureful form error is "Too many features in selection (over " … "): Please reduce selection", the other refusal is exactly "No features in selection", and the two are told apart by their first letter |
| WorksliceViews.AllocErrorNamesLimit | linz2osm/workslices/views.py:215 | the text between the too-featureful message's prefix and suffix reads back as the layer's feature limit |
| WorksliceViews.AllocErrorInjective | linz2osm/workslices/views.py:215 | different feature limits give different too-featureful messages |
| WorksliceViews.NumPages | linz2osm/workslices/views.py:118-148 | at least one page, and the fewest pages of 15 that hold every item |
| WorksliceViews.DisplayedPage | linz2osm/workslices/views.py:142-148 | the page shown is always a real page: the requested one when it is a number in range, the last one when it is a number out of range, and the first when it is absent or not a number |
| WorksliceViews.PageItems | linz2osm/workslices/views.py:141-144 | a page holds at most 15 items, exactly 15 when it is not the last, and at least one when there are items |
| WorksliceViews.PagesUpToIsPrefix | linz2osm/workslices/views.py:141-144 | the first n pages read in order are the first 15n items |
| WorksliceViews.PagesPartition | linz2osm/workslices/views.py:141-144 | the pages read in order give back every item exactly once |
| WorksliceViews.ItemOnPage | linz2osm/workslices/views.py:141-144 | item i sits on page i/15 + 1 at position i mod 15 |
| WorksliceViews.DisplayedPageSignedBlank | linz2osm/workslices/views.py:142-148 | the page request "- 2" is the integer -2, below the first page, so with 40 workslices the last page, 3, is shown |
| WaySplit.Take | linz2osm/convert/osm.py:351 | one pass takes the first 495 coordinates, or all of them when fewer remain |
| WaySplit.Rest | linz2osm/convert/osm.py:352 | what remains starts at the pass's last coordinate: 494 fewer, or none when the pass took everything |
| WaySplit.Chunks | linz2osm/convert/osm.py:348-381 | the loop writes at least one way, none longer than 495 coordinates, the first holding the line's first 495 |
| WaySplit.ChunksLink | linz2osm/convert/osm.py:348-381 | every way of a line of two or more coordinates has at least two, and each later way starts where the previous one ends |
| WaySplit.ChunksGlue | linz2osm/convert/osm.py:348-381 | the ways glued end to start give back the line coordinate for coordinate: nothing is lost or repeated |
| WaySplit.LastChunkEndsLine | linz2osm/convert/osm.py:348-381 | the last way ends at the line's last coordinate |
| WaySplit.ChunkCount | linz2osm/convert/osm.py:380-381 | a line of at most 495 coordinates is one way; a longer one is one way plus the ways of its remainder |
| WaySplit.ChunkExamples | linz2osm/convert/osm.py:348-381 | 31 coordinates make one way equal to the line; 19 coordinates at ten per way make two ways of ten |
| WaySplit.FinalRemainder | linz2osm/convert/osm.py:352-356 | after the last pass nothing remains exactly when that pass took fewer than 495 coordinates; otherwise one coordinate remains, which the `not rem_coords` test misses |
| OsmTags.BuildTagsFrom | linz2osm/convert/osm.py:426-437 | the written tags have distinct keys, none already written, all within 255 characters |
| OsmTags.BuildTags | linz2osm/convert/osm.py:425-437 | no tags write nothing; written tags have distinct keys and keys and values of at most 255 characters |
| OsmTags.BuildTagsFromWinners | linz2osm/convert/osm.py:426-437 | the loop succeeds exactly when no winning tag is too long, and then writes exactly the winning tags in list order: those that apply to the element kind and whose key no earlier applicable tag has |
| OsmTags.WinnerMembers | linz2osm/convert/osm.py:426-437 | a tag is written exactly when some winning entry carries its key and value |
| OsmTags.FirstApplicableWins | linz2osm/convert/osm.py:429-431 | of two applicable tags with the same key the later never wins |
| OsmTags.LongTagRefused | linz2osm/convert/osm.py:432-436 | a key or value over 255 characters is refused |
| OsmWriter.NewWriter | linz2osm/convert/osm.py:285-300 | a new writer has written nothing, cached no node, and starts its ids at 0 without a hash |
| OsmWriter.NextId | linz2osm/convert/osm.py:314-318 | each id handed out is below the previous one, and taking one changes nothing else |
| OsmWriter.FreshExtends | linz2osm/convert/osm.py:314-318 | ids stay negative, below the start and pairwise distinct however much is written |
| OsmWriter.FirstIds | linz2osm/convert/osm.py:294-318 | ids come out strictly decreasing and negative, the first being -1 without a hash |
| OsmWriter.MakeNode | linz2osm/convert/osm.py:386-395 | with `map_node` a node already made for the same coordinate and tag list is reused; otherwise a node with the next id and the tags built for the element kind is appended (and cached when mapped); it fails exactly when a new node's tags are too long |
| OsmWriter.EndNode | linz2osm/convert/osm.py:360-371 | a truthy reference already linked gives its node; otherwise a cached or new node is made and linked under the reference; nothing else gets linked |
| OsmWriter.NodeStep | linz2osm/convert/osm.py:360-375 | a marked end's node is linked under that end's reference; an unmarked coordinate's node is the untagged node cached for it |
| OsmWriter.NodeStepOk | linz2osm/convert/osm.py:360-373 | a coordinate's node can only fail on a marked end's own tags |
| OsmWriter.ChunkNodes | linz2osm/convert/osm.py:355-375 | one way gets one reference per coordinate, and the writer is only extended |
| OsmWriter.ChunkNodesPlain | linz2osm/convert/osm.py:372-373 | every unmarked coordinate refers to the untagged node cached for it, so a coordinate met twice is one node |
| OsmWriter.ChunkNodesOk | linz2osm/convert/osm.py:355-375 | the nodes of a way are written whenever the marked ends' tags are within the limits |
| OsmWriter.ChunkNodesLinks | linz2osm/convert/osm.py:360-371 | only the marked ends' references become linked |
| OsmWriter.ChunkNodesLastLinked | linz2osm/convert/osm.py:356-371 | a marked last coordinate is linked under the last-node reference |
| OsmWriter.Pass | linz2osm/convert/osm.py:349-378 | a pass takes its way's id before its nodes', writes the way last, with one reference per coordinate taken and the feature's geometry tags; too-long geometry tags make it fail |
| OsmWriter.WayLoop | linz2osm/convert/osm.py:348-383 | the loop writes one way per chunk of the line, the first with the next free id; too-long geometry tags make it fail |
| OsmWriter.WayLoopShape | linz2osm/convert/osm.py:348-383 | the ways are one per chunk with decreasing ids, one reference per coordinate of their chunk, and the geometry tags |
| OsmWriter.WayLoopCreated | linz2osm/convert/osm.py:377-378 | every way returned is among the written elements |
| OsmWriter.WayLoopEndsWritten | linz2osm/convert/osm.py:377-378 | the last way returned is the last element written |
| OsmWriter.WayLoopOk | linz2osm/convert/osm.py:348-383 | a line is written whenever its geometry tags, and with tagged ends its end-node tags, are within the limits |
| OsmWriter.WayLoopLinksLast | linz2osm/convert/osm.py:355-358 | with the end mark corrected the line's last coordinate is always linked under the last-node reference, as the last reference of the last way |
| OsmWriter.WayLoopAsWrittenMissesLast | linz2osm/convert/osm.py:352-358 | as written, a line of exactly one pass's length leaves one coordinate behind, so the last-node reference is never linked |
| OsmWriter.PassNodesMissesLast | linz2osm/convert/osm.py:352-358 | a final pass that leaves one coordinate behind links only the first-node reference |
| OsmWriter.WayLoopSinglePass | linz2osm/convert/osm.py:348-383 | a line that fits in one pass is one way over the references of its coordinates |
| OsmWriter.BuildWay | linz2osm/convert/osm.py:343-383 | `build_way` writes one way per chunk, only extends the writer, and fails on too-long geometry tags |
| OsmWriter.BuildWayCorrected | linz2osm/convert/osm.py:343-383 | the corrected `build_way`, which treats the last coordinate of the final chunk as the line's last node, also writes one way per chunk, only extends the writer, and fails on too-long geometry tags |
| OsmWriter.BuildWayShape | linz2osm/convert/osm.py:343-383 | the line is written exactly unless a needed tag list is too long, as one way per chunk with decreasing ids, one reference per coordinate and the geometry tags |
| OsmWriter.BuildWayWays | linz2osm/convert/osm.py:343-383 | each returned way is written, below the next free id, with the geometry tags and one reference per coordinate of its chunk |
| OsmWriter.BuildWayEndsWritten | linz2osm/convert/osm.py:377-378 | the last way returned is the last element written |
| OsmWriter.BuildWayCorrectedLinksLast | linz2osm/convert/osm.py:343-383 | corrected: with tagged ends the line's last coordinate is linked under the last-node reference whatever the line's length |
| OsmWriter.BuildWayMissesLast | linz2osm/convert/osm.py:352-358 | as written, a line of exactly 495 coordinates never links its last coordinate under a new last-node reference |
| OsmWriter.ClosedRingSharesNode | linz2osm/convert/osm.py:372-373 | a closed ring of four coordinates is one way whose first and last references are the same node |
| OsmWriter.Ids | linz2osm/convert/osm.py:341 | the ids of the elements, in order |
| OsmExport.WayMembers | linz2osm/convert/osm.py:336-337 | one way member per way id, in order, all with the ring's role |
| OsmExport.RelationTags | linz2osm/convert/osm.py:322-324 | the relation's tags start with `type=multipolygon`, followed by the feature's tags for relations, and fail exactly when those do |
| OsmExport.RelationTagsCorrected | linz2osm/convert/osm.py:322-324 | corrected: the relation's tags start with `type=multipolygon` and no key repeats |
| OsmExport.PolygonsOf | linz2osm/convert/osm.py:328-332 | a polygon contributes its own rings, a multipolygon the rings of each of its polygons in order |
| OsmExport.RingMembers | linz2osm/convert/osm.py:332-337 | the rings' members are built by only extending the writer |
| OsmExport.BuildPolygon | linz2osm/convert/osm.py:320-341 | the relation takes the next id before its ways, is appended after the members' ways with the multipolygon tags, and its id is the one returned; its tags are `type=multipolygon` followed by the feature's tags for relations, and too-long relation tags make it fail |
| OsmExport.BuildGeom | linz2osm/convert/osm.py:400-423 | `build_geom` only extends the writer and returns one id per point, polygon and multipolygon, one per way of a line, and the parts' ids for other collections |
| OsmExport.BuildParts | linz2osm/convert/osm.py:408-413 | the parts of a collection are built in turn and their ids concatenated |
| OsmExport.RingMembersRoles | linz2osm/convert/osm.py:332-337 | each ring's ways become members with the ring's role, ring after ring |
| OsmExport.PolygonMembersRoles | linz2osm/convert/osm.py:328-330 | the polygons of a multipolygon add their members to the same relation, polygon after polygon |
| OsmExport.LaterRingsInner | linz2osm/convert/osm.py:333-337 | every ring after the first is inner throughout |
| OsmExport.OuterExactlyFirstRing | linz2osm/convert/osm.py:333-337 | in one polygon's members exactly the exterior ring's ways are outer |
| OsmExport.RingMembersWritten | linz2osm/convert/osm.py:333-337 | every member refers to a written way, carrying the feature's tags when outer and none when inner |
| OsmExport.BuildPolygonMembers | linz2osm/convert/osm.py:320-341 | the relation's members are one per way of each ring, outer exactly for exterior rings' ways, each a written way tagged only when outer |
| OsmExport.ShortRingIsOneWay | linz2osm/convert/osm.py:343-383 | a ring short enough for one way is one way, written last, over all its coordinates, with the feature's geometry tags |
| OsmExport.ShortPolygonIsWay | linz2osm/convert/osm.py:401-403 | a polygon of one ring of at most 495 coordinates becomes a plain way over the ring with the geometry tags |
| OsmExport.PolygonIsRelation | linz2osm/convert/osm.py:405-406 | any other polygon becomes a relation written after its ways, with the roles of its rings and the tags `type=multipolygon` followed by the feature's tags for relations |
| OsmExport.MultiPolygonIsRelation | linz2osm/convert/osm.py:405-406 | a multipolygon is one relation over all its polygons' rings, each polygon's exterior ring outer |
| OsmExport.PolygonWithHole | linz2osm/convert/osm.py:320-341 | a short exterior ring with one short hole gives a relation of two members: the exterior's way outer and tagged, the hole's way inner and untagged |
| OsmExport.LonePointIsNew | linz2osm/convert/osm.py:415-419 | a point on its own is always a new node with the geometry tags, even where a node was made for the same coordinate before |
| OsmExport.RepeatedPointShared | linz2osm/convert/osm.py:415-419 | within a collection, a point repeated with the same tags is one node |
| OsmExport.InnerPointCached | linz2osm/convert/osm.py:415-419 | an inner point's node is cached under its coordinate and tags |
| OsmExport.InnerPointReused | linz2osm/convert/osm.py:386-395 | an inner point whose node is cached reuses it and writes nothing |
| OsmExport.UnusedKeyIgnored | linz2osm/convert/osm.py:426-431 | counting as written a key no applicable tag carries changes nothing |
| OsmExport.MoreSeenStillOk | linz2osm/convert/osm.py:426-436 | counting more keys as written can only remove failures |
| OsmExport.RelationTagsAgree | linz2osm/convert/osm.py:322-324 | where no relation tag is called `type`, the corrected relation tags are the tags as written |
| OsmExport.RelationTagsCorrectedOk | linz2osm/convert/osm.py:322-324 | the correction never makes a relation fail that is written as the code stands |
| OsmExport.RelationTypeTwice | linz2osm/convert/osm.py:322-324 | as written, a feature tag `type` for relations is written after `type=multipolygon`, so the key appears twice |
| OsmExport.RelationTypeOnce | linz2osm/convert/osm.py:322-324 | corrected, the same relation carries `type=multipolygon` alone |
| OsmExport.BuildPolygonOk | linz2osm/convert/osm.py:320-341 | a polygon whose tag lists are within the limits is always written |
| OsmExport.LineOk | linz2osm/convert/osm.py:421-423 | a line whose tag lists are within the limits is always written |
| OsmExport.BuildGeomOk | linz2osm/convert/osm.py:400-423 | a feature whose tag lists are all within the length limits is always exported, whatever its geometry |
| Unmangle.LeadingDigits | scripts/unmangle.py:93-94 | the length of the digit run that opens the token: every character before it is a digit and the one at it is not |
| Unmangle.NumberishSplit | scripts/unmangle.py:94 | a token is number-like exactly when it splits into a non-empty run of digits followed by letters only |
| Unmangle.AcronymAlternating | scripts/unmangle.py:95 | a token is an acronym exactly when it is at least two characters of letters and dots alternating, starting with a letter |
| Unmangle.CleanToken | scripts/unmangle.py:97-111 | the cleaned token has no blank at either end and is empty exactly when the stripped token is |
| Unmangle.StateHighway | scripts/unmangle.py:100-101 | a highway number becomes "State Highway " followed by the number |
| Unmangle.CleanStateHighway | scripts/unmangle.py:99-101 | a stripped token of "Sh" and a number cleans to "State Highway " and that number, before any other rule is tried |
| Unmangle.CleanNumber | scripts/unmangle.py:102-104 | a number-like token that is no state highway is upper-cased |
| Unmangle.CleanAcronym | scripts/unmangle.py:105-107 | an acronym that is not number-like is upper-cased |
| Unmangle.CleanGeneral | scripts/unmangle.py:108-109 | a token that fits no pattern and whose capitalised form is a general abbreviation becomes its expansion |
| Unmangle.CleanKept | scripts/unmangle.py:111 | any other token is returned stripped and otherwise unchanged |
| Unmangle.CleanTokenIdempotent | scripts/unmangle.py:97-111 | cleaning a cleaned token changes nothing |
| Unmangle.StateHighwayExample | scripts/unmangle.py:93 | "Sh" and any digit cleans to "State Highway " and the digit, as "Sh2" to "State Highway 2" |
| Unmangle.NumberExample | scripts/unmangle.py:94 | two digits and a lower-case letter clean to the digits and the letter upper-cased, as "12b" to "12B" |
| Unmangle.AcronymExample | scripts/unmangle.py:95 | any two-letter dotted acronym cleans to its upper case, as "a.b." to "A.B." |
| Unmangle.GeneralExample | scripts/unmangle.py:75-82 | "mtb" in any mix of cases cleans to "Mountain Bike" |
| Unmangle.KeptExample | scripts/unmangle.py:111 | "Main" is kept as it is |
| Unmangle.GeneralKeyLengths | scripts/unmangle.py:75-82 | every general abbreviation key has three or twelve characters |
| Unmangle.ExpansionsClean | scripts/unmangle.py:75-82 | every general expansion is left alone by cleaning |
| Unmangle.PassOne | scripts/unmangle.py:114-122 | pass one yields one token per input token |
| Unmangle.PassOneAt | scripts/unmangle.py:114-122 | pass one expands exactly the leading run of start words and copies every token from the first other word on |
| Unmangle.LeadRunReverse | scripts/unmangle.py:125 | the run that opens the reversed tokens is the run that ends the tokens |
| Unmangle.PassTwoAt | scripts/unmangle.py:128-146 | visiting the reversed tokens expands the leading run of direction words, then the run of street types after it, and cleans every other token |
| Unmangle.UnmangledItemsAt | scripts/unmangle.py:113-150 | each joined item is its pass-one token, expanded as a direction inside the trailing direction run, as a street type inside the run before it, and cleaned elsewhere |
| Unmangle.DirectionRunReversed | scripts/unmangle.py:125-137 | the direction run found in the reversed tokens is the trailing run of direction words, and none when there are two tokens or fewer |
| Unmangle.StreetTypeRunReversed | scripts/unmangle.py:127-144 | the street-type run found in the reversed tokens is the run before the trailing direction run, and none for a single token |
| Unmangle.ShortNames | scripts/unmangle.py:126-127 | with two tokens or fewer no direction is expanded; a single token is only cleaned |
| Unmangle.UnmangleTokens | scripts/unmangle.py:150 | no tokens give the empty label |
| Unmangle.CleanAll | scripts/unmangle.py:152-153 | the exit tokens are cleaned one by one, in order |
| Unmangle.NumberEndOf | scripts/unmangle.py:155-156 | the greedy exit-number pattern run on a number followed by a blank or by nothing stops exactly at the blank |
| Unmangle.ExitToAt | scripts/unmangle.py:155 | an exit read at a position has the `Exit [number ]To` form and fits the label there |
| Unmangle.ExitNoAt | scripts/unmangle.py:156 | an exit read at a position has the `Exit[ number][ letter-letter]` form and reaches the end of the label |
| Unmangle.ExitAtComplete | scripts/unmangle.py:155-156 | the exit read at a position is the only exit of the pattern's form that fits there |
| Unmangle.LastExit | scripts/unmangle.py:155-156 | the greedy `pre` group backs off to the last position where an exit starts, and there is none when it finds none |
| Unmangle.MatchExit | scripts/unmangle.py:155-156 | a match splits the label into pre, exit and post, with an exit of the pattern's form at the end of pre and none later; the trailing pattern leaves no post; a label with a newline never matches; no match means no exit anywhere |
| Unmangle.ExitIsLast | scripts/unmangle.py:155-156 | no exit of the pattern's form starts after the matched one |
| Unmangle.NoExitAnywhere | scripts/unmangle.py:155-156 | when a pattern does not match a one-line label, no exit of its form fits anywhere in it |
| Unmangle.MatchIffExit | scripts/unmangle.py:155-156 | one of the two patterns matches a label exactly when the label has no newline and an exit of either form starts somewhere in it |
| Unmangle.MatchAtLastExit | scripts/unmangle.py:155-156 | with an exit at a position and none after it, the match is exactly the split at that position |
| Unmangle.CleanNumberGroup | scripts/unmangle.py:170-171 | cleaning the matched number group, blank included, gives the number upper-cased |
| Unmangle.ExitRef | scripts/unmangle.py:170-171 | the exit reference is present exactly when the number group matched, and is that number upper-cased without its blank |
| Unmangle.InterpretLabel | scripts/unmangle.py:158-186 | a non-string label comes back untouched with no exit; a string label yields an exit name exactly when its stripped text holds an exit of either pattern; an exit reference only comes with an exit name |
| Unmangle.InterpretExitTo | scripts/unmangle.py:162-173 | when `EXIT_TO` matches, the exit name is the unmangled text after the exit and the reference its cleaned number |
| Unmangle.InterpretExitNo | scripts/unmangle.py:174-183 | when only `EXIT_NO` matches, the exit name is the unmangled text before the exit and the reference its cleaned number |
| Unmangle.ExitToNamesDestination | scripts/unmangle.py:155-173 | with an `Exit [number ]To` exit in the label, the last one is taken: the destination after it, unmangled, is the exit's name |
| Unmangle.ExitNoNamesOrigin | scripts/unmangle.py:156-183 | with no `Exit To` exit, the trailing exit names the exit after the unmangled text before it |
| Text.ParseIntToString | linz2osm/workslices/views.py:144 | a number written in decimal reads back as the same number with `int()` |
| Text.MinusInsideIsNotInteger | linz2osm/workslices/models.py:34 | `int()` refuses two digit runs joined by a minus sign |
| Text.SplitJoin | linz2osm/workslices/views.py:184 | splitting on a separator undoes joining with it when no piece holds the separator |
| Text.JoinSplit | linz2osm/workslices/views.py:184 | joining the pieces of a split with the separator gives the text back |
| Text.Strip | scripts/mp2postgis.py:162 | `strip()` leaves no blank at either end and never lengthens the text; which slice it keeps is stated by `Text.StripTrims` |
| Text.Words | scripts/unmangle.py:184 | `split()` yields non-empty words holding no blank; which words it yields is stated by `Text.WordsOfWord`, `Text.WordsSkipsBlank`, `Text.WordsCutsAtBlank` and `Text.WordsJoin` |
| MpFormat.Doubled | scripts/mp2postgis.py:59 | doubling lengthens the text by its number of quotes and leaves every quote paired |
| MpFormat.UndoubledDoubled | scripts/mp2postgis.py:59 | replacing each pair of quotes by one undoes the doubling |
| MpFormat.DoubledUndoubled | scripts/mp2postgis.py:59 | every text whose quotes are all paired is the doubling of its undoubling |
| MpFormat.EscQuotes | scripts/mp2postgis.py:57-61 | a missing text stays missing; any text comes back with every quote paired, undoubling to the original, one character longer per quote |
| MpFormat.ClosedRing | scripts/mp2postgis.py:1045-1046 | the ring gains its first vertex at the end, so it starts and ends on the same vertex; an empty ring raises `IndexError` |
| MpFormat.VertexTexts | scripts/mp2postgis.py:1046 | one "x y" text per vertex, in order |
| MpFormat.FormatRing | scripts/mp2postgis.py:1044-1046 | a non-empty ring is written in brackets; an empty one is an error |
| MpFormat.FormatRingPieces | scripts/mp2postgis.py:1044-1046 | the text between the brackets splits on commas into one "x y" piece per vertex of the ring, the first vertex repeated last |
| MpRestrict.Value | scripts/mp2postgis.py:361 | the value after `=` is present exactly when the line has an `=`; otherwise `IndexError` |
| MpRestrict.ParseInts | scripts/mp2postgis.py:362-363 | every piece is read as an integer, in order, and the line fails exactly when one piece is no integer |
| MpRestrict.Fill | scripts/mp2postgis.py:362-367 | the first columns take the values in order and the rest keep what they held |
| MpRestrict.Raise | scripts/mp2postgis.py:370-374 | a vehicle's flag is raised where its piece is `1` and never lowered; vehicles past the pieces keep their flags |
| MpRestrict.Pieces | scripts/mp2postgis.py:361 | at most the first n comma-separated pieces of the stripped value, in order |
| MpRestrict.TraffPoints | scripts/mp2postgis.py:360-363 | the node columns take the first four pieces as integers, the rest of the record unchanged; the line fails exactly when one of them is no integer |
| MpRestrict.TraffRoads | scripts/mp2postgis.py:364-367 | the road columns take the first three pieces as text; nothing else changes |
| MpRestrict.RestrParam | scripts/mp2postgis.py:370-374 | the first eight pieces raise the flags of the vehicles, in the fixed vehicle order; nodes, roads and node count unchanged |
| MpRestrict.HandleLine | scripts/mp2postgis.py:359-378 | the four line kinds are recognised by prefix in order and report handled; a recognised line without `=` raises `IndexError`; a `Nod` line fails exactly when its value is no integer; any other line changes nothing and is handled only when blank (lines 161-166) |
| Text.ParseInt | scripts/mp2postgis.py:369 | `int()` accepts only text whose strip is non-empty, and a negative result comes only from text whose strip starts with a minus sign; `Text.ParseIntLiteral` and `Text.ParseIntParts` state exactly which texts it accepts and their values |
| Text.ParseIntLiteral | scripts/mp2postgis.py:369 | `int()` accepts blanks, an optional sign that blanks may follow, at least one decimal digit and blanks, and reads the digits' value, negated after a minus sign |
| Text.ParseIntParts | scripts/mp2postgis.py:369 | conversely, any text `int()` accepts splits into blanks, an optional sign with blanks after it, at least one digit and blanks, and its value is the one those digits and that sign give |
| Text.ParseIntBlankAfterSign | linz2osm/workslices/views.py:142-148 | `int("- 2")` is -2: blanks after the sign are allowed |
| Text.ParseIntSignOnly | scripts/mp2postgis.py:369 | a sign alone, or a sign followed only by blanks, is no integer |
| Text.StripAround | scripts/mp2postgis.py:162 | stripping blanks placed around a text that neither starts nor ends with a blank gives that text back |
| Text.StripTrims | scripts/mp2postgis.py:162 | `strip()` returns the slice of the text that starts where the leading blanks end; everything before and after that slice is blank |
| Text.SplitAround | scripts/mp2postgis.py:162 | every text is a run of blanks, then its strip, then a run of blanks |
| Text.WordsOfWord | scripts/unmangle.py:184 | a non-empty text without blanks splits into itself alone |
| Text.WordsSkipsBlank | scripts/unmangle.py:184 | a leading blank adds no word to the split |
| Text.WordsCutsAtBlank | scripts/unmangle.py:184 | a word followed by a blank is the first word of the split, and the rest is split on its own |
| Text.WordsJoin | scripts/unmangle.py:184 | splitting words joined by single spaces gives back the same words, in order |
| MpSegments.Insert | scripts/mp2postgis.py:775 | inserting a node into nodes sorted by point index keeps them sorted and adds exactly that node |
| MpSegments.SortByPoint | scripts/mp2postgis.py:775 | the nodes come back sorted by point index and as a permutation of the input |
| MpSegments.Between | scripts/mp2postgis.py:787-803 | one segment per pair of consecutive sorted nodes, from the first node's point and id to the second's |
| MpSegments.Segments | scripts/mp2postgis.py:777-778 | a polyline without routing nodes is one segment from its first point to its last, with no node at either end |
| MpSegments.SegmentsReordered | scripts/mp2postgis.py:771-803 | the emitted segments are, as a multiset, exactly the segments along the line: nothing is lost, added or duplicated, only the order may differ |
| MpSegments.SegmentsTile | scripts/mp2postgis.py:771-803 | with every node on a line of at least two points, the segments run from the first point to the last, each starting at the point and node where the previous one ended, none running backwards |
| MpSegments.BetweenChained | scripts/mp2postgis.py:798-803 | each segment between nodes starts at the point and node where the previous one ended |
| MpSegments.Place | scripts/mp2postgis.py:788-797 | after a polyline the file has created every node id of the polyline |
| MpSegments.PlaceStep | scripts/mp2postgis.py:788-797 | an id the file has not created gets a row and is remembered; a created id is marked bound only when the node is bound; otherwise nothing |
| MpSegments.PlaceInsertsNew | scripts/mp2postgis.py:788-795 | the rows inserted are for ids of the polyline the file had not created, one row per id |
| MpSegments.PlaceCoversNew | scripts/mp2postgis.py:788-795 | every id of the polyline the file had not created gets a row |
| MpSegments.PlaceUpdatesBound | scripts/mp2postgis.py:796-797 | an update marks only a bound node whose id was already created, earlier in the file or earlier in the polyline |
| MpSegments.PlaceAll | scripts/mp2postgis.py:788-797 | over a whole file every node id gets at most one row, only ids not created before, and the created set only grows |
| MpLinks.RankIsIndex | scripts/mp2postgis.py:974-985 | a type's rank is the position of its name in the hierarchy list, and no two types share a position |
| MpLinks.Classify | scripts/mp2postgis.py:999-1002 | a subtype the hierarchy does not name is kept by its own name |
| MpLinks.ClassifyName | scripts/mp2postgis.py:999 | every name of the hierarchy is recognised as its own type |
| MpLinks.ClassifyOther | scripts/mp2postgis.py:999-1002 | a name classified as outside the hierarchy is indeed not in the list |
| MpLinks.HigherType | scripts/mp2postgis.py:988-992 | the result is one of the two types and ranks no worse than either |
| MpLinks.HigherTypeCommutes | scripts/mp2postgis.py:988-992 | the order of the arguments does not matter, and a type against itself is itself |
| MpLinks.BestFrom | scripts/mp2postgis.py:997-1002 | the loop's result ranks no worse than its start and than every type seen (an unknown type counting as tertiary), and is the start or one of them |
| MpLinks.BaseType | scripts/mp2postgis.py:1004 | dropping "_link" keeps the kind and removes exactly the link suffix |
| MpLinks.Mark | scripts/mp2postgis.py:937-939 | one end adds the segment to a node's list exactly when the end's node id is that node and non-zero |
| MpLinks.SegsAt | scripts/mp2postgis.py:934-939 | a node's list holds exactly the segments that touch it with a non-zero end |
| MpLinks.Lookup | scripts/mp2postgis.py:934-939 | a node's list exists exactly for the ids the file created, and holds the segments touching it; any other key raises `KeyError` |
| MpLinks.Without | scripts/mp2postgis.py:996 | the segments at the node other than the one being retyped |
| MpLinks.RawBestAtNode | scripts/mp2postgis.py:995-1002 | the best type ranks no worse than any other segment's type at the node, and is one of them or `tertiary_link` when there is none; an unknown node raises `KeyError` |
| MpLinks.BestTypeAtNode | scripts/mp2postgis.py:995-1004 | the best kind at the node, without the link; an unknown node raises `KeyError` |
| MpLinks.UpgradedType | scripts/mp2postgis.py:969-972 | a link type, present exactly when both end nodes are known |
| MpLinks.UpgradedTypeIsBest | scripts/mp2postgis.py:969-972 | the upgraded kind is one of the two ends' kinds and the more important one |
| MpLinks.LinkNameOfType | scripts/mp2postgis.py:884-885 | among the hierarchy's names the link pattern matches exactly the link types |
| MpLinks.Links | scripts/mp2postgis.py:948 | the link segments, by their original subtype, in order |
| MpLinks.Step | scripts/mp2postgis.py:953-957 | one link takes its upgraded type, nothing else changes, and the change flag is set exactly when its type changed; a missing end node raises `KeyError` |
| MpLinks.Pass | scripts/mp2postgis.py:951-957 | one sweep succeeds exactly when every link can be upgraded, changes only the calculated types of links, and changes nothing when it reports no change |
| MpLinks.PassSettles | scripts/mp2postgis.py:958-959 | a sweep that changes nothing leaves every link with its upgraded type |
| MpLinks.Loop | scripts/mp2postgis.py:950-959 | the loop fails exactly when a link cannot be upgraded, and otherwise ends with every link at its upgraded type and non-links untouched |
| MpLinks.SubNameInjective | scripts/mp2postgis.py:964 | comparing the stored type names compares the types |
| MpLinks.Changed | scripts/mp2postgis.py:963-964 | the segments whose calculated type differs from their original one, in order |
| MpLinks.Updates | scripts/mp2postgis.py:963-966 | one update per changed segment, in order, by its line and first point, with its new type name |
| MpLinks.LinkTypes | scripts/mp2postgis.py:931-966 | the index must build or `KeyError`; the result is the updates of a retyping where every link is settled and no other segment changed |
| MpLinks.NonLinksKeepType | scripts/mp2postgis.py:948-966 | a segment that is no link and came in untouched gets no update |
| Processing.Warn | linz2osm/convert/processing/base.py:29-32 | one warning appended, the earlier ones kept; it ends with the message, preceded by "id: " exactly when the id is truthy |
| Processing.HandleEach | linz2osm/convert/processing/base.py:43 | every part is handled, in order; the first failing part's error is the result's |
| Processing.Process | linz2osm/convert/processing/base.py:34-45 | no geometry gives none; a class the processor does not take is an "Invalid geometry type" error naming the type; a processor that handles parts rebuilds a collection of the same kind from each part handled; otherwise the whole geometry is handled |
| Processing.ReverseHandleAsWritten | linz2osm/convert/processing/line_reverse.py:32-37 | a line comes back with its coordinates reversed; a multi-line fails with an attribute error on the misspelt class name |
| Processing.ReverseHandle | linz2osm/convert/processing/line_reverse.py:32-37 | a line comes back reversed; a multi-line of lines comes back as a multi-line of the reversed lines, in their order |
| Processing.ReverseEach | linz2osm/convert/processing/line_reverse.py:34 | each line of a multi-line handled in turn, failing exactly when one line fails |
| Processing.ReverseLineProcess | linz2osm/convert/processing/line_reverse.py:29-37 | through `process`, a line is reversed, a multi-line is reversed line by line in order, and any other geometry is refused with its type named |
| Processing.ProcessMasksMultiLine | linz2osm/convert/processing/line_reverse.py:29-34 | through `process` the written and the intended handler give the same result for every geometry |
| Processing.HandleEachSame | linz2osm/convert/processing/base.py:43 | handlers that agree on every part agree on all the parts |
| Processing.ReverseLineTwice | linz2osm/convert/processing/line_reverse.py:29-37 | reversing a processed line or multi-line again gives the original back |
| Processing.ReverseLineExample | linz2osm/convert/processing/line_reverse.py:36-37 | the line from (0, 0) to (1, 1) comes back from (1, 1) to (0, 0) |
| Processing.DirectMultiLineFails | linz2osm/convert/processing/line_reverse.py:33-34 | called directly on a multi-line, the written handler fails where the intended one reverses each line |
| DataDict.LastPart | linz2osm/data_dict/models.py:90 | the suffix of the name after its last underscore, holding no underscore, or the whole name when it has none |
| DataDict.LastPartUnique | linz2osm/data_dict/models.py:90 | any underscore-free suffix that follows an underscore or makes up the whole name is the last part |
| DataDict.DeduceGeometryType | linz2osm/data_dict/models.py:89-98 | a point for the endings pnt, pnt2, name, text and feat; a line for cl, edge, edg, coastline and contour; a polygon for poly; nothing otherwise, in each case both ways |
| DataDict.DeduceLooksAtEnd | linz2osm/data_dict/models.py:90 | whatever comes before the last underscore does not change the deduced type |
| DataDict.DeducePointExample | linz2osm/data_dict/models.py:91-92 | "cave_pnt" is a point layer |
| DataDict.DeduceLineExample | linz2osm/data_dict/models.py:93-94 | "pipeline_cl" is a line layer |
| DataDict.DeduceUnknownExample | linz2osm/data_dict/models.py:97-98 | "nzopengps_road" has no deduced type |
| DataDict.LastNamed | linz2osm/data_dict/models.py:108-110 | the tag a dictionary keeps for a key: present exactly when some tag has the key, and no later tag has it |
| DataDict.Override | linz2osm/data_dict/models.py:109-110 | the keys are the old ones and the tags' keys; a key of the tags maps to its last tag and every other key keeps its old value |
| DataDict.GetAllTags | linz2osm/data_dict/models.py:106-111 | one entry per key of either list, each a tag for that key; the layer's own tag wins, and a default stands only where the layer has none |
| DataDict.OwnTagWins | linz2osm/data_dict/models.py:106-111 | a layer's own tag for a key is the one exported for it, whatever the defaults hold |
| DataDict.GetProcessors | linz2osm/data_dict/models.py:123-131 | no configuration gives no processors; otherwise one per entry in order, or an "Unknown Processor" error naming the first entry that is no processor class |
| DataDict.Instantiate | linz2osm/data_dict/models.py:126-130 | the entries succeed exactly when every name is a processor class, and the error names the first that is not |
| DataDict.FeaturesTodo | linz2osm/data_dict/models.py:213-214 | the three figures add up to the layer's feature total |
| DataDict.SumInUnion | linz2osm/data_dict/models.py:201-208 | sums over disjoint sets of states add up to the sum over their union |
| DataDict.SumInOthers | linz2osm/data_dict/models.py:201-208 | a sum counts nothing of workslices outside its states |
| DataDict.FeaturesPartition | linz2osm/data_dict/models.py:186-214 | complete and in-progress together count exactly the workslices drawn on the layer's map; with only drafts and abandoned workslices everything is still to do |
| DataDict.DisplayBounds | linz2osm/data_dict/models.py:171-175 | the bounds are the extent widened to 1.2 times its width and height around the same centre, and contain the extent |
| DataDict.FeaturesComplete | linz2osm/data_dict/models.py:201-202 | the complete count is 0 when no workslice is complete and never negative when no feature count is negative |
| DataDict.FeaturesInProgress | linz2osm/data_dict/models.py:207-208 | the in-progress count is 0 when no workslice is processing, checked out or blocked, and never negative when no feature count is negative |
| ConvertViews.Fraction | linz2osm/convert/views.py:23 | the digits after the decimal point of a number given to `float()` add a proper fraction, at least 0 and below 1 |
| ConvertViews.ParseFloatInt | linz2osm/convert/views.py:23 | an integer's decimal text reads back with `float()` as that number |
| ConvertViews.Numbers | linz2osm/convert/views.py:23-25 | a box exactly when the text splits into four pieces on commas and each reads as a number, and then the box of those numbers in order; otherwise the "Invalid bounding box" path |
| ConvertViews.CleanBounds | linz2osm/convert/views.py:18-34 | empty text gives no box; otherwise the box is accepted exactly when it has four numbers, corners in order and in range, and each failure gets the message of the first check it fails, in the source's order |
| ConvertViews.SplitFour | linz2osm/convert/views.py:23 | four comma-free pieces joined with commas split back into them |
| ConvertViews.NumbersOfPieces | linz2osm/convert/views.py:23 | four comma-free pieces that read as numbers, joined with commas, read back as the box of those numbers |
| ConvertViews.NumbersOfInts | linz2osm/convert/views.py:23 | four whole numbers written with commas read back as the box of those numbers |
| ConvertViews.CleanBoundsRoundTrip | linz2osm/convert/views.py:18-34 | a valid box of whole degrees, written as the form expects it, is accepted unchanged |
| ConvertViews.ParseFloat | linz2osm/convert/views.py:23 | `float()` accepts only text whose strip is non-empty; `ConvertViews.ParseFloatDecimal`, `ConvertViews.ParseFloatInt` and `ConvertViews.ParseFloatBlanks` state the values it reads |
| ConvertViews.ParseFloatDecimal | linz2osm/convert/views.py:23 | a decimal literal with an optional sign, whole digits, a point and fraction digits reads as the whole digits' value plus the fraction, negated after a minus sign |
| ConvertViews.ParseFloatBlanks | linz2osm/convert/views.py:23 | blanks around a number do not change what `float()` reads |

## Left out

- Map rendering and transport in assets/workslice-slippy-map.js: OpenLayers projections, layers and styles, jQuery wiring and the feature-count AJAX are abstract page fields (`idCells`, `cellInfo`, the hover and selection layers) and a list of count requests.
- The browser's `Math.log`/`Math.pow` in `calculateCellDensity` are stated over exact reals with an integer exponent; rounding of the floating-point logarithm is not modelled.
- Database work: the SQL text of every statement, cursors, transactions, Django querysets and managers. The feature-id lookup of `allocate_workslice_features`, the workslices of a layer and the tag rows are inputs.
- GEOS: `cascaded_union`, `difference`, `intersection`, and the contiguity and interior-hole checks of `WorksliceForm.clean` are not modelled; their verdict is an input.
- `Workslices.CreateWorkslice`: the extent arithmetic and the SQL of `create_workslice` are left out; the model keeps its decisions and the initial state.
- Django's `Paginator` is modelled from its documented behaviour (a page that is no integer raises `PageNotAnInteger`, one out of range raises `EmptyPage`, there is always at least one page); Django is not part of this model.
- `Tag.apply_for` is not part of this model (it is absent from linz2osm/data_dict/models.py); a tag carries the set of object types it applies to.
- `DataDict.GetAllTags`: `dict.values()` is returned as a map from key to tag; the order of the values is not modelled.
- `DataDict.GetProcessors`: a processor is its class name and options; constructing it with `**opts`, and `get_class` returning an attribute of the module that is no processor class, are not modelled.
- The `features_*_pct` figures divide floating-point numbers and are left out.
- `DataDict.DisplayBounds`: exact reals replace the floating-point margins, and the `unicode()` rendering of the list is left out.
- `ConvertViews.ParseFloat`: `float()` is modelled for plain decimal text with an optional sign and fraction; exponents, `inf`, `nan`, underscores and forms like `1.` or `.5` are not modelled, and the `RegexField` pre-check of the form is left out.
- `ConvertViews.ParseFloatDecimal`: the value is the exact decimal value of the digits; the rounding of `float()` to the nearest double is not modelled.
- `Text.ParseInt`: for unicode text Python 2's `int()` also reads non-ASCII decimal digits and Unicode blanks; the model reads the ASCII digits and the six ASCII blanks only.
- `WorksliceViews.DisplayedPage`: the page request is unicode text, so what `Text.ParseInt` leaves out (non-ASCII digits and blanks) is left out here too.
- `OsmWriter.MakeNode`: the node cache is keyed on the exact coordinates; the source keys on Python 2's `str()` of each float, which keeps 12 significant digits, so coordinates that differ only beyond the twelfth digit share one node there and not here.
- `OsmWriter.NewWriter`: the sha1 hash of the id text is a parameter (any start id at or below 0).
- XML output, indentation, and the writing of the change file in linz2osm/convert/osm.py are left out; the writer's state is the nodes and ways it holds.
- `MpLinks.Loop`: the `while True` loop is given a fuel bound of sweeps; running out of fuel is a separate error that the source cannot raise, and termination of the loop for every input is not proved.
- `MpLinks.LinkName`: the subtypes of the hierarchy are checked exactly; for other strings the pattern is modelled up to `$` matching before one final newline.
- `MpSegments.SortByPoint`: the sort is proved sorted and a permutation; the stability of Python's sort is not stated.
- `MpSegments.Segments`: the bearings, geometry slices and `MPSegment` construction are left out; a segment is its end nodes and point interval.
- Bearings, turn angles and turn types in scripts/mp2postgis.py, and the other MP record classes, are floating-point or SQL work and are left out.
- `Unmangle.InterpretLabel`: the text of the `label` entry is computed, but the contract only states which entries are present and what the exit name and reference are.
- `Processing.ReverseHandleAsWritten`: GEOS's own in-place reversal on classes that `process` never passes to `handle` is not modelled.
- Migrations, management commands, admin, settings, URLs, Celery tasks, the Overpass client, tag evaluation in JavaScript, `contrib/mp2osm_linz_jr_pl.py` and both copies of `code_exec.js` are outside this model.

## Findings

| source | as written | input that shows it | evidently intended | confidence | as-written member | corrected member |
|---|---|---|---|---|---|---|
| linz2osm/convert/osm.py:352-358 | with `tag_nodes_at_ends`, the last node is marked only when no coordinates remain after a chunk is cut; the final chunk of a line of 495 plus a multiple of 494 coordinates leaves one coordinate behind | a line of exactly 495 coordinates: the only chunk leaves one coordinate in the remainder, so the last node is written as a plain node and `last_node_ref` is never recorded | the last node of every line is the tagged end node | not executed; medium | OsmWriter.BuildWayMissesLast | OsmWriter.BuildWayCorrectedLinksLast |
| linz2osm/convert/osm.py:322-324 | the relation is given `type=multipolygon` and then the feature's tags for relations, so a feature that already carries a `type` tag yields two `type` tags | a polygon with a hole whose feature tags include `type` | the relation carries one `type` tag, `multipolygon` | not executed; medium | OsmExport.RelationTypeTwice | OsmExport.RelationTypeOnce |
| linz2osm/convert/processing/line_reverse.py:33-34 | a multi-line is rebuilt with `geos.MultiLinestring`, a name the module does not have | `handle` called directly on a multi-line of two lines raises `AttributeError`; through `process` the branch is never reached | the multi-line is rebuilt from its reversed lines | not executed; high | Processing.DirectMultiLineFails | Processing.ReverseHandle |
| assets/workslice-slippy-map.js:493-502 | stopping a session calls `selection.activate()`, leaving the click control armed | start, stop, then click on the map: a cell is selected and a feature count requested though no session runs | the click control is deactivated with the hover control | not executed; low | Selection.StopLeavesClickArmed | Selection.CorrectedSelectsOnlyInSession |
| assets/workslice-slippy-map.js:440-502 | stopping a session empties the outline layer but keeps `highlighted_cell`, so `highlightCell` later skips redrawing the same cell | start, rest on a cell, stop, start at the same zoom, rest on the same cell: no outline is drawn | the highlight is forgotten with its outline | not executed; medium | Selection.StopLosesOutline | Selection.StopCorrectedRedrawsOutline |
