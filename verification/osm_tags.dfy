/** `OSMWriter.build_tags` (linz2osm/convert/osm.py): the tags written on one
    OSM element, at most one per key, the first applicable tag winning, with
    keys and values limited to 255 characters. */
module OsmTags {
  import opened Wrappers

  /** The element kinds a tag can be asked about (`object_type`). */
  datatype ObjectType = RelationObject | GeometryObject | FirstNode | LastNode

  /** One `(name, value, tag)` triple of a feature's tags, with the value as
      the text `unicode()` gives and the object types the tag's `apply_for`
      accepts. */
  datatype TagSpec = TagSpec(key: string, value: string, appliesTo: set<ObjectType>)

  /** A written `<tag k=.. v=..>`. */
  datatype Tag = Tag(k: string, v: string)

  const MaxTagLength := 255

  datatype TagError = KeyTooLong(key: string) | ValueTooLong(value: string)

  function TagErrorMessage(e: TagError): string {
    match e
    case KeyTooLong(k) => "Tag key too long (max. 255 chars): " + k
    case ValueTooLong(v) => "Tag value too long (max. 255 chars): " + v
  }

  predicate Applies(s: TagSpec, t: ObjectType) {
    t in s.appliesTo
  }

  predicate TooLong(s: TagSpec) {
    |s.key| > MaxTagLength || |s.value| > MaxTagLength
  }

  /** The keys already written after looking at `s`. */
  function Next(seen: set<string>, s: TagSpec, t: ObjectType): set<string> {
    if Applies(s, t) then seen + {s.key} else seen
  }

  /** The loop of `build_tags`, `seen` being `applied_tags`. */
  function BuildTagsFrom(tags: seq<TagSpec>, t: ObjectType, seen: set<string>): (r: Result<seq<Tag>, TagError>)
    ensures r.Ok? ==> forall a :: 0 <= a < |r.value| ==>
              |r.value[a].k| <= MaxTagLength && |r.value[a].v| <= MaxTagLength && r.value[a].k !in seen
    ensures r.Ok? ==> forall a, b :: 0 <= a < b < |r.value| ==> r.value[a].k != r.value[b].k
  {
    if |tags| == 0 then Ok([])
    else
      var s := tags[0];
      if Applies(s, t) && s.key !in seen then
        if |s.key| > MaxTagLength then Err(KeyTooLong(s.key))
        else if |s.value| > MaxTagLength then Err(ValueTooLong(s.value))
        else
          var rest :- BuildTagsFrom(tags[1..], t, seen + {s.key});
          Ok([Tag(s.key, s.value)] + rest)
      else BuildTagsFrom(tags[1..], t, seen)
  }

  /** `build_tags(parent, tags, object_type)`: no tags (None or an empty list)
      write nothing. */
  function BuildTags(tags: Option<seq<TagSpec>>, t: ObjectType): (r: Result<seq<Tag>, TagError>)
    ensures tags.None? || tags.value == [] ==> r == Ok([])
    ensures r.Ok? ==> forall a, b :: 0 <= a < b < |r.value| ==> r.value[a].k != r.value[b].k
    ensures r.Ok? ==> forall a :: 0 <= a < |r.value| ==>
              |r.value[a].k| <= MaxTagLength && |r.value[a].v| <= MaxTagLength
  {
    if tags.None? || |tags.value| == 0 then Ok([]) else BuildTagsFrom(tags.value, t, {})
  }

  // ---------------------------------------------------------------------------
  // An independent description of what gets written

  /** `tags[i]` is written: it applies, its key was not written before the
      list was reached, and no earlier applicable tag has the same key. */
  predicate Wins(tags: seq<TagSpec>, t: ObjectType, seen: set<string>, i: int)
    requires 0 <= i < |tags|
  {
    Applies(tags[i], t) && tags[i].key !in seen
    && forall j :: 0 <= j < i ==> !(Applies(tags[j], t) && tags[j].key == tags[i].key)
  }

  /** The winning tags from index `i` on, in list order. */
  function WinnersFrom(tags: seq<TagSpec>, t: ObjectType, seen: set<string>, i: nat): seq<Tag>
    decreases |tags| - i
  {
    if i >= |tags| then []
    else (if Wins(tags, t, seen, i) then [Tag(tags[i].key, tags[i].value)] else [])
         + WinnersFrom(tags, t, seen, i + 1)
  }

  lemma WinsShift(tags: seq<TagSpec>, t: ObjectType, seen: set<string>, i: nat)
    requires 0 < i < |tags|
    ensures Wins(tags, t, seen, i) <==> Wins(tags[1..], t, Next(seen, tags[0], t), i - 1)
  {
    var rest := tags[1..];
    assert forall j :: 1 <= j <= i ==> tags[j] == rest[j - 1];
    if Wins(tags, t, seen, i) {
      forall j | 0 <= j < i - 1
        ensures !(Applies(rest[j], t) && rest[j].key == rest[i - 1].key)
      {
        assert !(Applies(tags[j + 1], t) && tags[j + 1].key == tags[i].key);
      }
    }
    if Wins(rest, t, Next(seen, tags[0], t), i - 1) {
      forall j | 0 <= j < i
        ensures !(Applies(tags[j], t) && tags[j].key == tags[i].key)
      {
        if j > 0 {
          assert !(Applies(rest[j - 1], t) && rest[j - 1].key == rest[i - 1].key);
        }
      }
    }
  }

  lemma {:induction false} WinnersShift(tags: seq<TagSpec>, t: ObjectType, seen: set<string>, i: nat)
    requires 0 < i <= |tags|
    ensures WinnersFrom(tags, t, seen, i) == WinnersFrom(tags[1..], t, Next(seen, tags[0], t), i - 1)
    decreases |tags| - i
  {
    if i < |tags| {
      WinsShift(tags, t, seen, i);
      WinnersShift(tags, t, seen, i + 1);
      assert tags[i] == tags[1..][i - 1];
    }
  }

  /** `build_tags` writes exactly the winning tags, in list order, and fails
      exactly when a winning tag's key or value is too long. */
  lemma {:induction false} BuildTagsFromWinners(tags: seq<TagSpec>, t: ObjectType, seen: set<string>)
    ensures BuildTagsFrom(tags, t, seen).Ok? <==>
              forall i :: 0 <= i < |tags| && Wins(tags, t, seen, i) ==> !TooLong(tags[i])
    ensures BuildTagsFrom(tags, t, seen).Ok? ==> BuildTagsFrom(tags, t, seen).value == WinnersFrom(tags, t, seen, 0)
    decreases |tags|
  {
    if |tags| > 0 {
      var s := tags[0];
      var nxt := Next(seen, s, t);
      BuildTagsFromWinners(tags[1..], t, nxt);
      WinnersShift(tags, t, seen, 1);
      forall i | 0 < i < |tags|
        ensures Wins(tags, t, seen, i) <==> Wins(tags[1..], t, nxt, i - 1)
      {
        WinsShift(tags, t, seen, i);
      }
      assert forall i :: 0 < i < |tags| ==> tags[i] == tags[1..][i - 1];
      if Applies(s, t) && s.key in seen {
        assert nxt == seen;
      }
    }
  }

  /** The written tags are the winners: each winning key appears once, with
      the value of its first applicable tag. */
  lemma {:induction false} WinnerMembers(tags: seq<TagSpec>, t: ObjectType, seen: set<string>, i: nat, tag: Tag)
    ensures tag in WinnersFrom(tags, t, seen, i) <==>
      exists j :: i <= j < |tags| && Wins(tags, t, seen, j) && tag == Tag(tags[j].key, tags[j].value)
    decreases |tags| - i
  {
    if i < |tags| {
      WinnerMembers(tags, t, seen, i + 1, tag);
    }
  }

  /** The first applicable tag with a key decides that key's value: a later
      tag with the same key never wins. */
  lemma FirstApplicableWins(tags: seq<TagSpec>, t: ObjectType, i: nat, j: nat)
    requires i < j < |tags|
    requires Applies(tags[i], t) && Applies(tags[j], t) && tags[i].key == tags[j].key
    ensures Wins(tags, t, {}, i) ==> !Wins(tags, t, {}, j)
    ensures !Wins(tags, t, {}, j)
  {
  }

  /** A key or a value of 256 characters is refused, whatever it is. */
  lemma LongTagRefused(key: string, value: string, t: ObjectType)
    requires |key| > MaxTagLength || |value| > MaxTagLength
    ensures BuildTags(Some([TagSpec(key, value, {t})]), t).Err?
  {
  }
}
