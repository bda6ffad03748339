/** How `OSMWriter.build_way` (linz2osm/convert/osm.py) cuts a long line into
    ways: each pass takes up to `WAY_SPLIT_SIZE` coordinates and keeps the
    remainder from the last coordinate taken, so neighbouring ways share a
    node; it stops once fewer than two coordinates remain. */
module WaySplit {
  const WaySplitSize: nat := 495

  function Min(a: nat, b: nat): nat {
    if a <= b then a else b
  }

  /** The coordinates one pass takes from `rem`. */
  function Take<T>(rem: seq<T>, size: nat): (r: seq<T>)
    ensures |r| == Min(size, |rem|)
  {
    rem[..Min(size, |rem|)]
  }

  /** What remains after one pass (`rem_coords[WAY_SPLIT_SIZE-1:]`). */
  function Rest<T>(rem: seq<T>, size: nat): (r: seq<T>)
    requires size >= 1
    ensures |r| == |rem| - Min(size - 1, |rem|)
  {
    rem[Min(size - 1, |rem|)..]
  }

  /** The coordinate lists of the successive ways. */
  function Chunks<T>(rem: seq<T>, size: nat): (r: seq<seq<T>>)
    requires size >= 2
    ensures |r| >= 1
    ensures forall k :: 0 <= k < |r| ==> |r[k]| <= size
    ensures r[0] == Take(rem, size)
    decreases |rem|
  {
    var rest := Rest(rem, size);
    if |rest| < 2 then [Take(rem, size)] else [Take(rem, size)] + Chunks(rest, size)
  }

  /** Glue the ways back together, dropping each later way's first coordinate. */
  function Glue<T>(chunks: seq<seq<T>>): seq<T>
    requires |chunks| >= 1
    requires forall k :: 1 <= k < |chunks| ==> |chunks[k]| >= 1
  {
    if |chunks| == 1 then chunks[0] else chunks[0] + Glue(chunks[1..])[1..]
  }

  lemma {:induction false} GlueFirst<T>(chunks: seq<seq<T>>)
    requires |chunks| >= 1 && |chunks[0]| >= 1
    requires forall k :: 1 <= k < |chunks| ==> |chunks[k]| >= 1
    ensures |Glue(chunks)| >= 1 && Glue(chunks)[0] == chunks[0][0]
  {
  }

  /** Every way of a line with at least two coordinates has at least two, and
      each later way starts at the coordinate where the previous one ends. */
  lemma {:induction false} ChunksLink<T>(rem: seq<T>, size: nat)
    requires size >= 2 && |rem| >= 2
    ensures forall k :: 0 <= k < |Chunks(rem, size)| ==> |Chunks(rem, size)[k]| >= 2
    ensures forall k :: 0 <= k < |Chunks(rem, size)| - 1 ==>
              Chunks(rem, size)[k + 1][0] == Chunks(rem, size)[k][|Chunks(rem, size)[k]| - 1]
    decreases |rem|
  {
    var rest := Rest(rem, size);
    var c := Chunks(rem, size);
    if |rest| >= 2 {
      ChunksLink(rest, size);
      var tail := Chunks(rest, size);
      assert c == [Take(rem, size)] + tail;
      assert tail[0][0] == rem[size - 1];
      forall k | 1 <= k < |c| ensures |c[k]| >= 2 {
        assert c[k] == tail[k - 1];
      }
      forall k | 0 <= k < |c| - 1 ensures c[k + 1][0] == c[k][|c[k]| - 1] {
        if k > 0 {
          assert c[k] == tail[k - 1] && c[k + 1] == tail[k];
        }
      }
    }
  }

  /** Gluing the ways gives the line back, coordinate for coordinate. */
  lemma {:induction false} ChunksGlue<T>(rem: seq<T>, size: nat)
    requires size >= 2 && |rem| >= 2
    ensures forall k :: 1 <= k < |Chunks(rem, size)| ==> |Chunks(rem, size)[k]| >= 1
    ensures Glue(Chunks(rem, size)) == rem
    decreases |rem|
  {
    ChunksLink(rem, size);
    var rest := Rest(rem, size);
    if |rest| >= 2 {
      ChunksGlue(rest, size);
      var c := Chunks(rem, size);
      assert c[1..] == Chunks(rest, size);
      assert Glue(c) == Take(rem, size) + rest[1..];
      assert rest[1..] == rem[size..];
      assert rem == rem[..size] + rem[size..];
    }
  }

  /** The last way ends at the line's last coordinate. */
  lemma LastChunkEndsLine<T>(rem: seq<T>, size: nat)
    requires size >= 2 && |rem| >= 2
    ensures var c := Chunks(rem, size);
      |c[|c| - 1]| >= 1 && c[|c| - 1][|c[|c| - 1]| - 1] == rem[|rem| - 1]
  {
    ChunksGlue(rem, size);
    ChunksLink(rem, size);
    GlueLast(Chunks(rem, size));
  }

  lemma {:induction false} GlueLast<T>(chunks: seq<seq<T>>)
    requires |chunks| >= 1
    requires forall k :: 0 <= k < |chunks| ==> |chunks[k]| >= 2
    ensures |Glue(chunks)| >= 1
    ensures Glue(chunks)[|Glue(chunks)| - 1] == chunks[|chunks| - 1][|chunks[|chunks| - 1]| - 1]
  {
    if |chunks| > 1 {
      GlueLast(chunks[1..]);
    }
  }

  /** The number of ways: one per pass, the passes stopping once fewer than two
      coordinates are left. */
  lemma {:induction false} ChunkCount<T>(rem: seq<T>, size: nat)
    requires size >= 2
    ensures |rem| <= size ==> |Chunks(rem, size)| == 1
    ensures |rem| > size ==> |Chunks(rem, size)| == 1 + |Chunks(Rest(rem, size), size)|
  {
  }

  /** 31 coordinates fit in one way; 19 coordinates at ten per way need two
      ways, not a third holding only the shared coordinate. */
  lemma ChunkExamples<T>(a: seq<T>, b: seq<T>)
    requires |a| == 31 && |b| == 19
    ensures |Chunks(a, WaySplitSize)| == 1 && Chunks(a, WaySplitSize)[0] == a
    ensures |Chunks(b, 10)| == 2 && |Chunks(b, 10)[0]| == 10 && |Chunks(b, 10)[1]| == 10
  {
    assert |Rest(b, 10)| == 10;
    assert |Rest(Rest(b, 10), 10)| == 1;
  }

  /** What remains after the last pass: nothing when the last way took fewer
      than `size` coordinates, one coordinate (the line's last) when it took
      exactly `size`. */
  lemma {:induction false} FinalRemainder<T>(rem: seq<T>, size: nat)
    requires size >= 2
    ensures |Rest(rem, size)| < 2 ==>
      (|Rest(rem, size)| == 0 <==> |Take(rem, size)| < size)
  {
  }
}
