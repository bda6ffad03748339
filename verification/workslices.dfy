/** The workslice lifecycle and feature allocation
    (linz2osm/workslices/models.py): the six states and the transitions a user
    may request, the post-checkout classification, and the rules by which a new
    workslice claims the features of its extent. */
module Workslices {
  import opened Wrappers

  datatype State = Draft | Processing | Out | Abandoned | Blocked | Complete

  /** The value stored in the `state` column. */
  function StateName(s: State): string {
    match s
    case Draft => "draft"
    case Processing => "processing"
    case Out => "out"
    case Abandoned => "abandoned"
    case Blocked => "blocked"
    case Complete => "complete"
  }

  /** Distinct states are stored as distinct names, so comparing a requested
      name with a target's name is comparing states. */
  lemma StateNameInjective(a: State, b: State)
    requires StateName(a) == StateName(b)
    ensures a == b
  {
  }

  /** One entry of `TRANSITIONS`: the target state and the button caption. */
  datatype Transition = Transition(target: State, caption: string)

  /** `TRANSITIONS[state]`, which `acceptable_transitions()` returns. */
  function AcceptableTransitions(s: State): (r: seq<Transition>)
    ensures |r| <= 3
    ensures |r| == 0 <==> s == Processing || s == Abandoned
    ensures forall k :: 0 <= k < |r| ==> r[k].target != Draft && r[k].target != s
  {
    match s
    case Draft => [Transition(Processing, "Process")]
    case Processing => []
    case Out => [Transition(Abandoned, "Abandon"), Transition(Blocked, "Mark Blocked"),
                 Transition(Complete, "Mark Complete")]
    case Abandoned => []
    case Blocked => [Transition(Abandoned, "Abandon"), Transition(Out, "Unblock"),
                     Transition(Complete, "Mark Complete")]
    case Complete => [Transition(Abandoned, "Abandon")]
  }

  /** The states a user may move a workslice in state `s` to. */
  predicate CanMove(s: State, t: State) {
    exists k :: 0 <= k < |AcceptableTransitions(s)| && AcceptableTransitions(s)[k].target == t
  }

  /** The transition table, edge by edge: draft only to processing;
      processing and abandoned nowhere; out to abandoned, blocked or complete;
      blocked to abandoned, out or complete; complete only to abandoned; and
      nothing back to draft. */
  lemma TransitionTable(s: State, t: State)
    ensures CanMove(s, t) <==>
      (s == Draft && t == Processing)
      || (s == Out && t in {Abandoned, Blocked, Complete})
      || (s == Blocked && t in {Abandoned, Out, Complete})
      || (s == Complete && t == Abandoned)
  {
    if s == Draft && t == Processing { assert AcceptableTransitions(s)[0].target == t; }
    if s == Out && t in {Abandoned, Blocked, Complete} {
      var k := if t == Abandoned then 0 else if t == Blocked then 1 else 2;
      assert AcceptableTransitions(s)[k].target == t;
    }
    if s == Blocked && t in {Abandoned, Out, Complete} {
      var k := if t == Abandoned then 0 else if t == Out then 1 else 2;
      assert AcceptableTransitions(s)[k].target == t;
    }
    if s == Complete && t == Abandoned { assert AcceptableTransitions(s)[0].target == t; }
  }

  /** No entry of the table names the same target twice or its own state. */
  lemma TransitionsDistinct(s: State)
    ensures forall i, j :: 0 <= i < j < |AcceptableTransitions(s)|
              ==> AcceptableTransitions(s)[i].target != AcceptableTransitions(s)[j].target
    ensures forall i :: 0 <= i < |AcceptableTransitions(s)| ==> AcceptableTransitions(s)[i].target != s
  {
  }

  /** `post_checkout_status()`: the workslice has been dealt with after
      checkout; the stored name picks out exactly those three states. */
  predicate PostCheckoutStatus(s: State): (r: bool)
    ensures r <==> s == Abandoned || s == Blocked || s == Complete
  {
    StateName(s) in ["abandoned", "blocked", "complete"]
  }

  /** The post-checkout states are exactly the ones the table reaches from a
      checked-out workslice in one or two moves, other than being checked out. */
  lemma PostCheckoutIsReachedFromOut(t: State)
    ensures PostCheckoutStatus(t) <==>
      t != Out && (CanMove(Out, t) || exists m :: CanMove(Out, m) && CanMove(m, t))
  {
    TransitionTable(Out, t);
    forall m ensures CanMove(Out, m) && CanMove(m, t) <==>
        (m in {Abandoned, Blocked, Complete} && CanMove(m, t)) {
      TransitionTable(Out, m);
    }
    TransitionTable(Blocked, t);
    TransitionTable(Complete, t);
    TransitionTable(Abandoned, t);
    if t == Abandoned { assert CanMove(Out, Abandoned); }
  }

  /** Following the table from `s` along `path`, each step a permitted move. */
  predicate IsWalk(s: State, path: seq<State>)
    decreases |path|
  {
    |path| == 0 || (CanMove(s, path[0]) && IsWalk(path[0], path[1..]))
  }


  /** No walk ever enters draft, and once checked out a workslice never
      returns to processing. */
  lemma {:induction false} WalkAvoidsDraft(s: State, path: seq<State>)
    requires IsWalk(s, path)
    ensures forall k :: 0 <= k < |path| ==> path[k] != Draft
    ensures s != Draft ==> forall k :: 0 <= k < |path| ==> path[k] != Processing
    decreases |path|
  {
    if |path| > 0 {
      TransitionTable(s, path[0]);
      WalkAvoidsDraft(path[0], path[1..]);
      assert forall k :: 1 <= k < |path| ==> path[k] == path[1..][k - 1];
    }
  }

  // ---------------------------------------------------------------------------
  // Allocation

  /** `WorksliceTooFeaturefulError` and `WorksliceInsufficientlyFeaturefulError`. */
  datatype AllocError = TooFeatureful | InsufficientlyFeatureful

  /** The covered ids not yet claimed by any workslice, in lookup order. */
  function Unallocated(ids: seq<int>, claimed: set<int>): (r: seq<int>)
    ensures |r| <= |ids|
    ensures forall f :: f in r <==> f in ids && f !in claimed
  {
    if |ids| == 0 then []
    else if ids[0] in claimed then Unallocated(ids[1..], claimed)
    else [ids[0]] + Unallocated(ids[1..], claimed)
  }

  /** `allocate_workslice_features`, given the feature-id lookup for the extent
      (None when the lookup gave up) and the ids already claimed in the same
      layer of the same dataset: the ids it claims, or the exception it raises. */
  function Allocate(covered: Option<seq<int>>, claimed: set<int>, featureLimit: int)
    : (r: Result<seq<int>, AllocError>)
    ensures covered.None? ==> r == Err(TooFeatureful)
    ensures covered == Some([]) ==> r == Err(InsufficientlyFeatureful)
    ensures r.Ok? ==> 0 < |r.value| <= featureLimit
    ensures r.Ok? ==> forall f :: f in r.value <==> f in covered.value && f !in claimed
    ensures covered.Some? && |covered.value| > 0 ==>
              (|Unallocated(covered.value, claimed)| > featureLimit ==> r == Err(TooFeatureful))
    ensures covered.Some? && |covered.value| > 0 && featureLimit >= 0 ==>
              (|Unallocated(covered.value, claimed)| == 0 ==> r == Err(InsufficientlyFeatureful))
  {
    match covered
    case None => Err(TooFeatureful)
    case Some(ids) =>
      if |ids| == 0 then Err(InsufficientlyFeatureful)
      else
        var kept := Unallocated(ids, claimed);
        if |kept| > featureLimit then Err(TooFeatureful)
        else if |kept| == 0 then Err(InsufficientlyFeatureful)
        else Ok(kept)
  }

  /** A feature goes to at most one workslice: what a second allocation claims
      after a first one succeeded is disjoint from what the first claimed. */
  lemma AllocationsDisjoint(c1: Option<seq<int>>, c2: Option<seq<int>>, claimed: set<int>,
                            limit: int, first: seq<int>)
    requires Allocate(c1, claimed, limit) == Ok(first)
    requires Allocate(c2, claimed + (set f | f in first), limit).Ok?
    ensures forall f :: f in first ==> f !in Allocate(c2, claimed + (set f | f in first), limit).value
    ensures forall f :: f in first ==> f !in claimed
  {
  }

  /** A workslice record, reduced to what the lifecycle and allocation touch. */
  datatype Workslice = Workslice(
    state: State,
    owner: nat,                    // the user's id
    statusChangedAt: int,          // a clock reading
    featureCount: Option<int>,
    features: seq<int>)            // its `WorksliceFeature` rows

  /** `create_workslice` followed by the allocation: a new workslice starts in
      processing with the claimed features, or nothing is created and the
      allocation's exception propagates. */
  function CreateWorkslice(owner: nat, now: int, covered: Option<seq<int>>, claimed: set<int>,
                           featureLimit: int): (r: Result<Workslice, AllocError>)
    ensures r.Ok? ==> r.value.state == Processing && r.value.owner == owner
    ensures r.Ok? ==> r.value.featureCount == Some(|r.value.features|)
    ensures r.Ok? <==> Allocate(covered, claimed, featureLimit).Ok?
    ensures r.Ok? ==> r.value.features == Allocate(covered, claimed, featureLimit).value
    ensures r.Err? ==> r.error == Allocate(covered, claimed, featureLimit).error
  {
    var kept :- Allocate(covered, claimed, featureLimit);
    Ok(Workslice(Processing, owner, now, Some(|kept|), kept))
  }
}
