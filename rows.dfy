/**
 The row-major `reshape(-1, 100)` that turns the flat id and label lists of
 `preprocess` into training rows, modelled on nested sequences.
 */
module Rows {

  /** The row width fixed in `preprocess`. */
  const Width: nat := 100

  /** `np.array(s).reshape(-1, Width)`; numpy refuses a length that is not a
      multiple of the width, which the caller rules out by truncating first. */
  function Reshape(s: seq<int>): (r: seq<seq<int>>)
    requires |s| % Width == 0
    ensures |r| == |s| / Width
    ensures forall i :: 0 <= i < |r| ==> r[i] == s[i * Width..(i + 1) * Width]
    ensures forall i, j :: 0 <= i < |r| && 0 <= j < Width ==> r[i][j] == s[i * Width + j]
    decreases |s|
  {
    if s == [] then [] else [s[..Width]] + Reshape(s[Width..])
  }

  /** `s[:len(s) // Width * Width].reshape(-1, Width)`: as many whole rows as
      `s` holds; the fewer than `Width` trailing elements are dropped. */
  function WholeRows(s: seq<int>): (r: seq<seq<int>>)
    ensures |r| == |s| / Width
    ensures |r| * Width <= |s| < (|r| + 1) * Width
    ensures forall k :: 0 <= k < |r| ==> r[k] == s[k * Width..(k + 1) * Width]
  {
    var kept := s[..|s| / Width * Width];
    var r := Reshape(kept);
    assert forall k :: 0 <= k < |r| ==> kept[k * Width..(k + 1) * Width] == s[k * Width..(k + 1) * Width];
    r
  }

  /** Row-major flattening: the rows laid end to end. */
  function Flatten(rows: seq<seq<int>>): seq<int>
    decreases |rows|
  {
    if rows == [] then [] else rows[0] + Flatten(rows[1..])
  }

  predicate AllWidth(rows: seq<seq<int>>)
  {
    forall i :: 0 <= i < |rows| ==> |rows[i]| == Width
  }

  /** Reshaping loses nothing: flattening the rows gives the list back. */
  lemma {:induction false} FlattenReshape(s: seq<int>)
    requires |s| % Width == 0
    ensures Flatten(Reshape(s)) == s
    decreases |s|
  {
    if s != [] {
      FlattenReshape(s[Width..]);
      assert s == s[..Width] + s[Width..];
    }
  }

  /** Rows of the full width are exactly what reshaping their flattening gives. */
  lemma {:induction false} ReshapeFlatten(rows: seq<seq<int>>)
    requires AllWidth(rows)
    ensures |Flatten(rows)| == |rows| * Width
    ensures Reshape(Flatten(rows)) == rows
    decreases |rows|
  {
    if rows != [] {
      ReshapeFlatten(rows[1..]);
      var f := Flatten(rows);
      assert f[..Width] == rows[0];
      assert f[Width..] == Flatten(rows[1..]);
    }
  }
}
