/** Byte regions of the IO map, and what copying into them changes. */
module PdoRegions {
  type Bytes = seq<bv8>

  datatype Region = Region(off: nat, len: nat)

  predicate Inside(r: Region, size: nat) { r.off + r.len <= size }

  predicate Disjoint(a: Region, b: Region) { a.off + a.len <= b.off || b.off + b.len <= a.off }

  function At(map_: Bytes, r: Region): Bytes
    requires Inside(r, |map_|)
  {
    map_[r.off..r.off + r.len]
  }

  // All inside, pairwise disjoint.
  ghost predicate Layout(rs: seq<Region>, size: nat) {
    AllInside(rs, size) && forall i, j | 0 <= i < j < |rs| :: Disjoint(rs[i], rs[j])
  }

  // Output and input regions of all slaves share one map without overlapping.
  ghost predicate MapLayout(outputs: seq<Region>, inputs: seq<Region>, size: nat) {
    && Layout(outputs, size) && Layout(inputs, size)
    && (forall i, j | 0 <= i < |outputs| && 0 <= j < |inputs| :: Disjoint(outputs[i], inputs[j]))
  }

  ghost predicate AllInside(rs: seq<Region>, size: nat) { forall i | 0 <= i < |rs| :: Inside(rs[i], size) }

  // Where the last region ends.
  function Extent(rs: seq<Region>): nat {
    if rs == [] then 0
    else
      var last := rs[|rs| - 1];
      var before := Extent(rs[..|rs| - 1]);
      if last.off + last.len > before then last.off + last.len else before
  }

  lemma {:induction false} ExtentFits(rs: seq<Region>, size: nat)
    ensures AllInside(rs, size) <==> Extent(rs) <= size
  {
    if rs != [] {
      var n := |rs| - 1;
      ExtentFits(rs[..n], size);
      assert AllInside(rs, size) <==> AllInside(rs[..n], size) && Inside(rs[n], size) by {
        if AllInside(rs[..n], size) && Inside(rs[n], size) {
          forall i | 0 <= i < |rs| ensures Inside(rs[i], size) { assert i < n ==> rs[i] == rs[..n][i]; }
        }
      }
    }
  }

  // Byte j belongs to one of the regions.
  ghost predicate Used(rs: seq<Region>, j: nat) { exists k | 0 <= k < |rs| :: rs[k].off <= j < rs[k].off + rs[k].len }

  function Overwritten(map_: Bytes, r: Region, data: Bytes): (r': Bytes)
    requires Inside(r, |map_|) && |data| == r.len
    ensures |r'| == |map_|
  {
    map_[..r.off] + data + map_[r.off + r.len..]
  }

  ghost predicate Fit(rs: seq<Region>, values: seq<Bytes>) {
    |rs| == |values| && forall i | 0 <= i < |rs| :: |values[i]| == rs[i].len
  }

  // The map after the first n values have been copied to their regions.
  ghost function Filled(map_: Bytes, rs: seq<Region>, values: seq<Bytes>, n: nat): (r: Bytes)
    requires Layout(rs, |map_|) && Fit(rs, values) && n <= |rs|
    ensures |r| == |map_|
  {
    if n == 0 then map_ else Overwritten(Filled(map_, rs, values, n - 1), rs[n - 1], values[n - 1])
  }

  lemma FilledNext(map_: Bytes, rs: seq<Region>, values: seq<Bytes>, n: nat)
    requires Layout(rs, |map_|) && Fit(rs, values) && n < |rs|
    ensures Filled(map_, rs, values, n + 1) == Overwritten(Filled(map_, rs, values, n), rs[n], values[n])
  {
  }

  // Every filled region holds its own value, whole; every byte outside them is as before.
  lemma {:induction false} FilledRegions(map_: Bytes, rs: seq<Region>, values: seq<Bytes>, n: nat)
    requires Layout(rs, |map_|) && Fit(rs, values) && n <= |rs|
    ensures forall k | 0 <= k < n :: At(Filled(map_, rs, values, n), rs[k]) == values[k]
    ensures forall j | 0 <= j < |map_| && (forall k | 0 <= k < n :: !(rs[k].off <= j < rs[k].off + rs[k].len)) ::
              Filled(map_, rs, values, n)[j] == map_[j]
  {
    if n > 0 {
      FilledRegions(map_, rs, values, n - 1);
      var before := Filled(map_, rs, values, n - 1);
      forall k | 0 <= k < n ensures At(Filled(map_, rs, values, n), rs[k]) == values[k] {
        if k < n - 1 { OverwriteElsewhere(before, rs[n - 1], values[n - 1], rs[k]); }
      }
    }
  }

  lemma OverwriteElsewhere(map_: Bytes, r: Region, data: Bytes, other: Region)
    requires Inside(r, |map_|) && |data| == r.len && Inside(other, |map_|) && Disjoint(other, r)
    ensures At(Overwritten(map_, r, data), other) == At(map_, other)
  {
  }

  // A region disjoint from all filled ones keeps its content.
  lemma {:induction false} FilledElsewhere(map_: Bytes, rs: seq<Region>, values: seq<Bytes>, n: nat, other: Region)
    requires Layout(rs, |map_|) && Fit(rs, values) && n <= |rs| && Inside(other, |map_|)
    requires forall k | 0 <= k < |rs| :: Disjoint(other, rs[k])
    ensures At(Filled(map_, rs, values, n), other) == At(map_, other)
  {
    if n > 0 {
      FilledElsewhere(map_, rs, values, n - 1, other);
      OverwriteElsewhere(Filled(map_, rs, values, n - 1), rs[n - 1], values[n - 1], other);
    }
  }

  // A whole cycle: outputs are written, then inputs received.
  lemma CycleMap(before: Bytes, written: Bytes, after: Bytes, outputs: seq<Region>, values: seq<Bytes>,
                 inputs: seq<Region>, received: seq<Bytes>)
    requires MapLayout(outputs, inputs, |before|) && Fit(outputs, values) && Fit(inputs, received)
    requires written == Filled(before, outputs, values, |outputs|)
    requires after == Filled(written, inputs, received, |inputs|)
    ensures forall i | 0 <= i < |outputs| :: At(after, outputs[i]) == values[i]
    ensures forall i | 0 <= i < |inputs| :: At(after, inputs[i]) == received[i]
    ensures forall j | 0 <= j < |before| && !Used(outputs, j) && !Used(inputs, j) :: after[j] == before[j]
  {
    FilledRegions(before, outputs, values, |outputs|);
    FilledRegions(written, inputs, received, |inputs|);
    forall i | 0 <= i < |outputs| ensures At(after, outputs[i]) == values[i] {
      FilledElsewhere(written, inputs, received, |inputs|, outputs[i]);
    }
  }

  // memcpy into the map
  method CopyInto(a: array<bv8>, r: Region, data: Bytes)
    requires Inside(r, a.Length) && |data| == r.len
    modifies a
    ensures a[..] == Overwritten(old(a[..]), r, data)
  {
    for i := 0 to |data|
      invariant forall j | 0 <= j < a.Length ::
                  a[j] == if r.off <= j < r.off + i then data[j - r.off] else old(a[j])
    {
      a[r.off + i] := data[i];
    }
  }
}
