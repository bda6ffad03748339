/** The request handlers around workslices (linz2osm/workslices/views.py):
    changing a workslice's state, the feature-count line shown while a
    selection is made, the messages of a refused creation, and the page
    fallback of the workslice list. */
module WorksliceViews {
  import opened Wrappers
  import opened Text
  import opened Workslices
  import Grid
  import Cells

  // ---------------------------------------------------------------------------
  // update_workslice

  /** Who sends the request. */
  datatype Viewer = Anonymous | SignedIn(id: nat, isSuperuser: bool)

  /** What the handler answers: a redirect to the login page, a redirect to the
      (saved) workslice, or the workslice page with the form's errors. */
  datatype UpdateOutcome =
    | RedirectToLogin
    | RedirectToWorkslice(saved: Workslice)
    | ShowPage(shown: Workslice, errors: seq<string>)

  /** Django's message for an absent or empty required field. */
  function FieldRequiredMessage(): string {
    "This field is required."
  }

  function NotOwnerMessage(): string {
    "You do not own this workslice"
  }

  function NotAllowedMessage(transition: string): string {
    "Not allowed to make this workslice '" + transition + "'"
  }

  /** The first table entry whose target is stored under `name`. */
  function FindTransition(ts: seq<Transition>, name: string): (r: Option<State>)
    ensures r.Some? <==> exists k :: 0 <= k < |ts| && StateName(ts[k].target) == name
    ensures r.Some? ==> StateName(r.value) == name
  {
    if |ts| == 0 then None
    else if StateName(ts[0].target) == name then Some(ts[0].target)
    else
      var rest := FindTransition(ts[1..], name);
      assert forall k :: 1 <= k < |ts| ==> ts[k] == ts[1..][k - 1];
      rest
  }

  /** The owner may act, and so may any superuser. */
  predicate MayEdit(viewer: Viewer, ws: Workslice) {
    viewer.SignedIn? && (viewer.isSuperuser || viewer.id == ws.owner)
  }

  /** The workslice after a permitted move to `t` at time `now`: abandoning
      releases its features. */
  function Moved(ws: Workslice, t: State, now: int): Workslice {
    ws.(state := t, statusChangedAt := now, features := if t == Abandoned then [] else ws.features)
  }

  /** `update_workslice`: a POST whose `transition` field is present and
      non-empty, from a signed-in owner or superuser, naming a target the table
      permits, moves the workslice; every other request leaves it as it was. */
  function UpdateWorkslice(ws: Workslice, viewer: Viewer, isPost: bool, transition: Option<string>,
                           now: int): (r: UpdateOutcome)
    ensures r.RedirectToWorkslice? <==>
      isPost && transition.Some? && MayEdit(viewer, ws)
      && exists t :: CanMove(ws.state, t) && StateName(t) == transition.value
    ensures r.RedirectToWorkslice? ==>
      CanMove(ws.state, r.saved.state) && StateName(r.saved.state) == transition.value
      && r.saved == Moved(ws, r.saved.state, now)
    ensures r.RedirectToLogin? <==>
      isPost && transition.Some? && transition.value != "" && viewer.Anonymous?
    ensures r.ShowPage? ==> r.shown == ws
    ensures !isPost ==> r == ShowPage(ws, [])
  {
    if !isPost then ShowPage(ws, [])
    else if transition.None? || transition.value == "" then ShowPage(ws, [FieldRequiredMessage()])
    else if viewer.Anonymous? then RedirectToLogin
    else if !(viewer.isSuperuser || viewer.id == ws.owner) then ShowPage(ws, [NotOwnerMessage()])
    else
      var ts := AcceptableTransitions(ws.state);
      var found := FindTransition(ts, transition.value);
      assert found.Some? <==> exists t :: CanMove(ws.state, t) && StateName(t) == transition.value by {
        if found.Some? {
          var k :| 0 <= k < |ts| && StateName(ts[k].target) == transition.value;
          assert CanMove(ws.state, ts[k].target);
        }
        forall t | CanMove(ws.state, t) && StateName(t) == transition.value
          ensures found.Some?
        {
          var k :| 0 <= k < |ts| && ts[k].target == t;
        }
      }
      if found.Some? then
        assert CanMove(ws.state, found.value) by {
          var k :| 0 <= k < |ts| && StateName(ts[k].target) == transition.value;
          StateNameInjective(ts[k].target, found.value);
        }
        RedirectToWorkslice(Moved(ws, found.value, now))
      else ShowPage(ws, [NotAllowedMessage(transition.value)])
  }

  /** Why a POST was refused, message by message. */
  lemma UpdateRefusals(ws: Workslice, viewer: Viewer, t: string, now: int)
    ensures t == "" ==> UpdateWorkslice(ws, viewer, true, Some(t), now) == ShowPage(ws, [FieldRequiredMessage()])
    ensures t != "" && viewer.SignedIn? && !MayEdit(viewer, ws) ==>
      UpdateWorkslice(ws, viewer, true, Some(t), now) == ShowPage(ws, [NotOwnerMessage()])
    ensures t != "" && MayEdit(viewer, ws) && (forall s :: CanMove(ws.state, s) ==> StateName(s) != t) ==>
      UpdateWorkslice(ws, viewer, true, Some(t), now) == ShowPage(ws, [NotAllowedMessage(t)])
  {
  }

  /** A move by the handler follows the lifecycle: the state it saves is
      never draft, and abandoning leaves the workslice without features. */
  lemma UpdateFollowsLifecycle(ws: Workslice, viewer: Viewer, t: string, now: int)
    requires UpdateWorkslice(ws, viewer, true, Some(t), now).RedirectToWorkslice?
    ensures var saved := UpdateWorkslice(ws, viewer, true, Some(t), now).saved;
      saved.state != Draft && saved.owner == ws.owner && saved.featureCount == ws.featureCount
      && (saved.state == Abandoned <==> t == "abandoned")
      && (saved.state == Abandoned ==> saved.features == [])
      && (saved.state != Abandoned ==> saved.features == ws.features)
  {
    var saved := UpdateWorkslice(ws, viewer, true, Some(t), now).saved;
    TransitionTable(ws.state, saved.state);
    if t == "abandoned" { StateNameInjective(saved.state, Abandoned); }
  }

  // ---------------------------------------------------------------------------
  // workslice_info and create_workslice messages

  const FeaturesSuffix := " features in selection."

  /** The `info` line of `workslice_info` for a counted selection. */
  function InfoMessage(count: int, featureLimit: int): string {
    if count > featureLimit then
      "Too many features (over " + IntToString(featureLimit) + "): please reduce selection."
    else if count > 1 then IntToString(count) + FeaturesSuffix
    else if count == 1 then "1 feature in selection."
    else if count == 0 then "No features in selection."
    else "Serious error calculating features."
  }

  lemma InfoMessageShape(n: int, featureLimit: int)
    ensures 2 <= n <= featureLimit ==>
      |InfoMessage(n, featureLimit)| >= 24 && IsDigit(InfoMessage(n, featureLimit)[0])
  {
    if 2 <= n <= featureLimit {
      assert IntToString(n) == NatToString(n);
      assert IsDigit(NatToString(n)[0]);
      assert InfoMessage(n, featureLimit)[0] == IntToString(n)[0];
    }
  }

  /** Within the limit the line tells the count: reading the number in front
      of the suffix gives it back. */
  lemma InfoMessageReadsBack(n: int, featureLimit: int)
    requires 2 <= n <= featureLimit
    ensures var m := InfoMessage(n, featureLimit);
      EndsWith(m, FeaturesSuffix) && ParseInt(m[..|m| - |FeaturesSuffix|]) == Some(n)
  {
    var m := InfoMessage(n, featureLimit);
    assert m[..|m| - |FeaturesSuffix|] == IntToString(n);
    assert m[|m| - |FeaturesSuffix|..] == FeaturesSuffix;
    ParseIntToString(n);
  }

  /** Different counts within the limit give different lines, and every count
      over the limit gives the same line. */
  lemma InfoMessageInjective(m: int, n: int, featureLimit: int)
    ensures 0 <= m <= featureLimit && 0 <= n <= featureLimit ==>
              (InfoMessage(m, featureLimit) == InfoMessage(n, featureLimit) ==> m == n)
    ensures m > featureLimit && n > featureLimit ==> InfoMessage(m, featureLimit) == InfoMessage(n, featureLimit)
  {
    InfoMessageShape(m, featureLimit);
    InfoMessageShape(n, featureLimit);
    if 2 <= m <= featureLimit && 2 <= n <= featureLimit
       && InfoMessage(m, featureLimit) == InfoMessage(n, featureLimit) {
      InfoMessageReadsBack(m, featureLimit);
      InfoMessageReadsBack(n, featureLimit);
    }
  }

  /** What `workslice_info` answers: the `info` line, or a failed request
      (a piece of the cells token that is not a cell, or a form whose only
      errors belong to single fields, so that `form.errors['__all__']` raises
      `KeyError`). */
  datatype InfoOutcome = Info(line: string) | InfoFailure

  /** `workslice_info` after the cells token was cleaned (`clean`), with the
      contiguity and hole checks of the extent given as `extentError`, the
      verdict of the three choice fields as `choicesValid`, and the feature
      count of the extent. The form-wide check runs whatever the choice
      fields say, so its message is shown even next to a field error. */
  function WorksliceInfo(clean: Result<seq<Grid.Cell>, Cells.CleanError>, extentError: Option<string>,
                         choicesValid: bool, count: int, featureLimit: int): (r: InfoOutcome)
    ensures clean.Err? && clean.error.NoCells? ==> r == Info(Cells.NoCellsMessage())
    ensures r.InfoFailure? <==> (clean.Err? && clean.error.BadPiece?)
                                || (clean.Ok? && extentError.None? && !choicesValid)
    ensures clean.Ok? && extentError.Some? ==> r == Info(extentError.value)
    ensures clean.Ok? && extentError.None? && choicesValid ==> r == Info(InfoMessage(count, featureLimit))
  {
    match clean
    case Err(e) => if e.NoCells? then Info(Join([Cells.NoCellsMessage()], " ")) else InfoFailure
    case Ok(_) =>
      if extentError.Some? then Info(Join([extentError.value], " "))
      else if !choicesValid then InfoFailure
      else Info(InfoMessage(count, featureLimit))
  }

  const TooFeaturefulPrefix := "Too many features in selection (over "
  const TooFeaturefulSuffix := "): Please reduce selection"
  const InsufficientlyFeaturefulMessage := "No features in selection"

  /** The form error `create_workslice` shows when the allocation refuses: the
      too-featureful text names the layer's feature limit between a fixed
      prefix and suffix; the other refusal has a text of its own. */
  function AllocErrorMessage(e: AllocError, featureLimit: int): (r: string)
    ensures e == TooFeatureful ==> StartsWith(r, TooFeaturefulPrefix) && EndsWith(r, TooFeaturefulSuffix)
    ensures e == InsufficientlyFeatureful ==> r == InsufficientlyFeaturefulMessage
    ensures |r| > 0 && (r[0] == 'T' <==> e == TooFeatureful)
  {
    match e
    case TooFeatureful => TooFeaturefulPrefix + IntToString(featureLimit) + TooFeaturefulSuffix
    case InsufficientlyFeatureful => InsufficientlyFeaturefulMessage
  }

  /** The too-featureful message tells the limit: the text between its prefix
      and its suffix reads back as the layer's feature limit, so different
      limits give different messages. */
  lemma AllocErrorNamesLimit(featureLimit: int)
    ensures var m := AllocErrorMessage(TooFeatureful, featureLimit);
      |TooFeaturefulPrefix| + |TooFeaturefulSuffix| < |m|
      && ParseInt(m[|TooFeaturefulPrefix|..|m| - |TooFeaturefulSuffix|]) == Some(featureLimit)
  {
    var m := AllocErrorMessage(TooFeatureful, featureLimit);
    assert m[|TooFeaturefulPrefix|..|m| - |TooFeaturefulSuffix|] == IntToString(featureLimit);
    ParseIntToString(featureLimit);
  }

  lemma AllocErrorInjective(a: int, b: int)
    ensures AllocErrorMessage(TooFeatureful, a) == AllocErrorMessage(TooFeatureful, b) ==> a == b
  {
    AllocErrorNamesLimit(a);
    AllocErrorNamesLimit(b);
  }

  // ---------------------------------------------------------------------------
  // list_workslices pagination

  const WorkslicesPerPage: nat := 15

  /** Django's page count for `count` items: at least one page, and the fewest
      pages of fifteen that hold every item. */
  function NumPages(count: nat): (r: nat)
    ensures r >= 1
    ensures (r - 1) * WorkslicesPerPage < (if count == 0 then 1 else count) <= r * WorkslicesPerPage
  {
    if count == 0 then 1 else (count + WorkslicesPerPage - 1) / WorkslicesPerPage
  }

  /** The page `list_workslices` displays for the `page` query parameter: a
      missing or non-integer value shows the first page, a number off either
      end shows the last page. */
  function DisplayedPage(page: Option<string>, count: nat): (r: nat)
    ensures 1 <= r <= NumPages(count)
    ensures page.Some? && ParseInt(page.value).Some? ==>
              (r == ParseInt(page.value).value <==> 1 <= ParseInt(page.value).value <= NumPages(count))
    ensures page.Some? && ParseInt(page.value).Some? && !(1 <= ParseInt(page.value).value <= NumPages(count)) ==>
              r == NumPages(count)
    ensures page.None? || ParseInt(page.value).None? ==> r == 1
  {
    var parsed := if page.None? then None else ParseInt(page.value);
    match parsed
    case None => 1
    case Some(n) => if n < 1 || n > NumPages(count) then NumPages(count) else n
  }

  /** `int()` lets blanks follow the sign, so "- 2" is the page -2: off the
      front, it shows the last of the three pages of 40 workslices. */
  lemma DisplayedPageSignedBlank()
    ensures DisplayedPage(Some("- 2"), 40) == 3
  {
    ParseIntBlankAfterSign();
  }

  function Min(a: nat, b: nat): nat {
    if a <= b then a else b
  }

  /** The items on page `p`. */
  function PageItems<T>(items: seq<T>, p: nat): (r: seq<T>)
    requires 1 <= p <= NumPages(|items|)
    ensures |r| <= WorkslicesPerPage
    ensures p < NumPages(|items|) ==> |r| == WorkslicesPerPage
    ensures |items| > 0 ==> |r| > 0
  {
    items[(p - 1) * WorkslicesPerPage .. Min(p * WorkslicesPerPage, |items|)]
  }

  /** Pages one to `n`, one after another. */
  function PagesUpTo<T>(items: seq<T>, n: nat): seq<T>
    requires n <= NumPages(|items|)
  {
    if n == 0 then [] else PagesUpTo(items, n - 1) + PageItems(items, n)
  }

  lemma {:induction false} PagesUpToIsPrefix<T>(items: seq<T>, n: nat)
    requires n <= NumPages(|items|)
    ensures PagesUpTo(items, n) == items[..Min(n * WorkslicesPerPage, |items|)]
  {
    if n > 0 {
      PagesUpToIsPrefix(items, n - 1);
      var a := Min((n - 1) * WorkslicesPerPage, |items|);
      assert a == (n - 1) * WorkslicesPerPage;
      assert items[..a] + items[a..Min(n * WorkslicesPerPage, |items|)]
             == items[..Min(n * WorkslicesPerPage, |items|)];
    }
  }

  /** The pages partition the list: read in order they give back every item
      once. */
  lemma PagesPartition<T>(items: seq<T>)
    ensures PagesUpTo(items, NumPages(|items|)) == items
  {
    PagesUpToIsPrefix(items, NumPages(|items|));
  }

  /** Item `i` sits on page `i / 15 + 1`, at position `i % 15`. */
  lemma ItemOnPage<T>(items: seq<T>, i: nat)
    requires i < |items|
    ensures i / WorkslicesPerPage + 1 <= NumPages(|items|)
    ensures PageItems(items, i / WorkslicesPerPage + 1)[i % WorkslicesPerPage] == items[i]
  {
    var q := i / WorkslicesPerPage;
    var r := i % WorkslicesPerPage;
    assert i == q * WorkslicesPerPage + r;
    var n := NumPages(|items|);
    assert q < n;
    var page := PageItems(items, q + 1);
    assert page == items[q * WorkslicesPerPage .. Min((q + 1) * WorkslicesPerPage, |items|)];
    assert q * WorkslicesPerPage + r < Min((q + 1) * WorkslicesPerPage, |items|);
    assert page[r] == items[q * WorkslicesPerPage + r];
  }
}
