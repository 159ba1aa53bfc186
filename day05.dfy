/** Day 5, seed-to-location maps (day05/src/lib.rs).

    A layer is a list of mappings; a mapping shifts the values of the half-open range
    `[start, end)` by `op`.  A value goes through the layers in order; in each layer the first
    mapping (in the order of the sorted list) that contains it applies, and a value no mapping
    contains passes unchanged.  Values are `int`; the source's `i64` arithmetic is assumed not to
    overflow. */
module SeedMaps {
  import opened Sorting
  import opened Wrappers

  const I64Max: int := 0x7fff_ffff_ffff_ffff

  /** `(Range<i64>, i64)`: the range and the offset added to the values in it. */
  datatype Mapping = Mapping(start: int, end: int, op: int)
  {
    predicate Contains(v: int) { start <= v < end }
  }

  /** `Layer`: the parsed `(dst_start, src_start, src_len)` triples and the mappings built from them. */
  datatype Layer = Layer(descriptions: seq<(int, int, int)>, mappings: seq<Mapping>)

  function StartKey(m: Mapping): int { m.start }

  /** The mapping a description stands for: `src..src+len`, shifted by `dst - src`. */
  function Describe(d: (int, int, int)): Mapping
  {
    Mapping(d.1, d.1 + d.2, d.0 - d.1)
  }

  function DescribeAll(ds: seq<(int, int, int)>): seq<Mapping>
  {
    seq(|ds|, k requires 0 <= k < |ds| => Describe(ds[k]))
  }

  /** `after` is `before` once `build_mappings` has run on it: same descriptions, and the old
      mappings plus one per description, sorted by range start. */
  ghost predicate BuiltFrom(before: Layer, after: Layer)
  {
    && after.descriptions == before.descriptions
    && SortedBy(after.mappings, StartKey)
    && multiset(after.mappings) == multiset(before.mappings + DescribeAll(before.descriptions))
  }

  /** `build_mappings`: push one mapping per description, then sort by range start, layer by layer. */
  method BuildMappings(layers: array<Layer>)
    modifies layers
    ensures forall i :: 0 <= i < layers.Length ==> BuiltFrom(old(layers[i]), layers[i])
  {
    for i := 0 to layers.Length
      invariant forall k :: 0 <= k < i ==> BuiltFrom(old(layers[k]), layers[k])
      invariant forall k :: i <= k < layers.Length ==> layers[k] == old(layers[k])
    {
      var built := BuildLayer(layers[i]);
      layers[i] := built;
    }
  }

  /** One layer of `build_mappings`. */
  method BuildLayer(layer: Layer) returns (built: Layer)
    ensures BuiltFrom(layer, built)
  {
    var mappings := PushDescribed(layer.mappings, layer.descriptions);
    built := Layer(layer.descriptions, SortByKey(mappings, StartKey));
  }

  /** The inner loop of `build_mappings`: one pushed mapping per description, in order. */
  method PushDescribed(mappings0: seq<Mapping>, descriptions: seq<(int, int, int)>) returns (mappings: seq<Mapping>)
    ensures mappings == mappings0 + DescribeAll(descriptions)
  {
    mappings := mappings0;
    for j := 0 to |descriptions|
      invariant mappings == mappings0 + DescribeAll(descriptions[..j])
    {
      var d := descriptions[j];
      assert DescribeAll(descriptions[..j + 1]) == DescribeAll(descriptions[..j]) + [Describe(d)];
      mappings := mappings + [Mapping(d.1, d.1 + d.2, d.0 - d.1)];
    }
    assert descriptions[..|descriptions|] == descriptions;
  }

  /** A freshly parsed layer (no mappings yet) ends with exactly one mapping per description,
      sorted by range start. */
  lemma BuiltFromParse(before: Layer, after: Layer)
    requires before.mappings == [] && BuiltFrom(before, after)
    ensures SortedBy(after.mappings, StartKey)
    ensures |after.mappings| == |before.descriptions|
    ensures multiset(after.mappings) == multiset(DescribeAll(before.descriptions))
  {
    assert before.mappings + DescribeAll(before.descriptions) == DescribeAll(before.descriptions);
    assert |multiset(after.mappings)| == |multiset(DescribeAll(before.descriptions))|;
  }

  /** Some mapping of the layer contains `v` and shifts it to `r`. */
  ghost predicate ShiftedBySome(ms: seq<Mapping>, v: int, r: int)
  {
    exists i :: 0 <= i < |ms| && ms[i].Contains(v) && r == v + ms[i].op
  }

  /** No mapping of the layer contains `v`. */
  predicate ContainedByNone(ms: seq<Mapping>, v: int)
  {
    forall j :: 0 <= j < |ms| ==> !ms[j].Contains(v)
  }

  /** One layer: the first mapping containing the value shifts it, otherwise it is unchanged. */
  function ApplyLayer(ms: seq<Mapping>, v: int): (r: int)
    ensures ShiftedBySome(ms, v, r) || (r == v && ContainedByNone(ms, v))
  {
    assert forall j :: 1 <= j < |ms| ==> ms[1..][j - 1] == ms[j];
    if ms == [] then v
    else if ms[0].Contains(v) then v + ms[0].op
    else ApplyLayer(ms[1..], v)
  }

  lemma {:induction false} ApplyLayerFirst(ms: seq<Mapping>, v: int, i: nat)
    requires i < |ms| && ms[i].Contains(v)
    requires forall j :: 0 <= j < i ==> !ms[j].Contains(v)
    ensures ApplyLayer(ms, v) == v + ms[i].op
  {
    if i > 0 {
      ApplyLayerFirst(ms[1..], v, i - 1);
    }
  }

  lemma {:induction false} ApplyLayerNone(ms: seq<Mapping>, v: int)
    requires forall j :: 0 <= j < |ms| ==> !ms[j].Contains(v)
    ensures ApplyLayer(ms, v) == v
  {
    if ms != [] {
      ApplyLayerNone(ms[1..], v);
    }
  }

  /** The value after the first `n` layers. */
  function Location(layers: seq<Layer>, n: nat, v: int): int
    requires n <= |layers|
  {
    if n == 0 then v else ApplyLayer(layers[n - 1].mappings, Location(layers, n - 1, v))
  }

  /** The value after all layers. */
  function FinalLocation(layers: seq<Layer>, v: int): int
  {
    Location(layers, |layers|, v)
  }

  /** Every layer's mappings are sorted by range start (what `build_mappings` establishes). */
  ghost predicate LayersSorted(layers: seq<Layer>)
  {
    forall i :: 0 <= i < |layers| ==> SortedBy(layers[i].mappings, StartKey)
  }

  /** Every mapping sends its range to non-negative values (`dst_start >= 0`). */
  predicate DestNonNegative(layers: seq<Layer>)
  {
    forall i, j :: 0 <= i < |layers| && 0 <= j < |layers[i].mappings| ==>
      layers[i].mappings[j].start + layers[i].mappings[j].op >= 0
  }

  /** Every `s` in `[seed, end)` lands, after `n` layers, at `loc + (s - seed)`. */
  ghost predicate Shifted(layers: seq<Layer>, n: nat, seed: int, loc: int, end: int)
    requires n <= |layers|
  {
    forall s :: seed <= s < end ==> Location(layers, n, s) == loc + (s - seed)
  }

  /** Everything a value `seed >= 0` visits stays non-negative when destinations are. */
  predicate Piecewise(layers: seq<Layer>, seed: int)
  {
    seed >= 0 && DestNonNegative(layers)
  }

  /** `find_location_with_range`: the location of `seed`, and how far the same shift holds.  With
      non-negative values, every `s` in `[seed, end)` lands at `location + (s - seed)`. */
  method FindLocationWithRange(layers: seq<Layer>, seed: int) returns (current: int, endOfValidRange: int)
    requires LayersSorted(layers)
    ensures current == FinalLocation(layers, seed)
    ensures endOfValidRange <= I64Max && (seed < I64Max ==> endOfValidRange > seed)
    ensures Piecewise(layers, seed) ==> Shifted(layers, |layers|, seed, current, endOfValidRange)
  {
    current := seed;
    endOfValidRange := I64Max;
    for li := 0 to |layers|
      invariant current == Location(layers, li, seed)
      invariant endOfValidRange <= I64Max && (seed < I64Max ==> endOfValidRange > seed)
      invariant Piecewise(layers, seed) ==> current >= 0
      invariant Piecewise(layers, seed) ==> Shifted(layers, li, seed, current, endOfValidRange)
    {
      current, endOfValidRange := LayerStep(layers, li, seed, current, endOfValidRange);
    }
  }

  /** The body of the `'layers` loop for layer `li`. */
  method LayerStep(layers: seq<Layer>, li: nat, seed: int, current0: int, end0: int)
    returns (current: int, endOfValidRange: int)
    requires li < |layers| && SortedBy(layers[li].mappings, StartKey)
    requires current0 == Location(layers, li, seed)
    requires end0 <= I64Max && (seed < I64Max ==> end0 > seed)
    requires Piecewise(layers, seed) ==> current0 >= 0
    requires Piecewise(layers, seed) ==> Shifted(layers, li, seed, current0, end0)
    ensures current == Location(layers, li + 1, seed)
    ensures endOfValidRange <= I64Max && (seed < I64Max ==> endOfValidRange > seed)
    ensures Piecewise(layers, seed) ==> current >= 0
    ensures Piecewise(layers, seed) ==> Shifted(layers, li + 1, seed, current, endOfValidRange)
  {
    var ms := layers[li].mappings;
    ghost var p := Piecewise(layers, seed);
    ghost var next := li + 1;
    current, endOfValidRange := current0, end0;
    var lastRangeEnd := 0;
    for mi := 0 to |ms|
      invariant forall j :: 0 <= j < mi ==> !ms[j].Contains(current)
      invariant lastRangeEnd == if mi == 0 then 0 else ms[mi - 1].end
      invariant p ==> forall j :: 0 <= j < mi ==> ms[j].end <= current
    {
      var range := ms[mi];
      if lastRangeEnd <= current < range.start {
        forall j | mi <= j < |ms| ensures range.start <= ms[j].start {
          assert StartKey(ms[mi]) <= StartKey(ms[j]);
        }
        ApplyLayerNone(ms, current);
        endOfValidRange := Min(endOfValidRange, seed + (range.start - current));
        if p {
          PassesGap(ms, current, current + (endOfValidRange - seed));
          assert forall s :: seed <= s < endOfValidRange ==> Location(layers, next, s) == current + (s - seed);
        }
        return;
      }
      if range.Contains(current) {
        ApplyLayerFirst(ms, current, mi);
        endOfValidRange := Min(endOfValidRange, seed + (range.end - current));
        if p {
          assert ms[mi].start + ms[mi].op >= 0;
          ShiftsInRange(ms, mi, current, current + (endOfValidRange - seed));
          assert forall s :: seed <= s < endOfValidRange ==> Location(layers, next, s) == current + range.op + (s - seed);
        }
        current := current + range.op;
        return;
      }
      assert p ==> range.start <= current;
      lastRangeEnd := range.end;
    }
    ApplyLayerNone(ms, current);
    if p {
      PassesGap(ms, current, current + (endOfValidRange - seed));
      assert forall s :: seed <= s < endOfValidRange ==> Location(layers, next, s) == current + (s - seed);
    }
  }

  /** Values between the mappings' ranges pass the layer unchanged. */
  lemma PassesGap(ms: seq<Mapping>, lo: int, hi: int)
    requires forall j :: 0 <= j < |ms| ==> ms[j].end <= lo || hi <= ms[j].start
    ensures forall x :: lo <= x < hi ==> ApplyLayer(ms, x) == x
  {
    forall x | lo <= x < hi ensures ApplyLayer(ms, x) == x {
      ApplyLayerNone(ms, x);
    }
  }

  /** Values inside the range of mapping `i`, which no earlier range reaches, shift by its offset. */
  lemma ShiftsInRange(ms: seq<Mapping>, i: nat, lo: int, hi: int)
    requires i < |ms| && ms[i].start <= lo && hi <= ms[i].end
    requires forall j :: 0 <= j < i ==> ms[j].end <= lo
    ensures forall x :: lo <= x < hi ==> ApplyLayer(ms, x) == x + ms[i].op
  {
    forall x | lo <= x < hi ensures ApplyLayer(ms, x) == x + ms[i].op {
      ApplyLayerFirst(ms, x, i);
    }
  }

  function Min(a: int, b: int): int { if a <= b then a else b }

  /** `part1`: the lowest location over the listed seeds, each found by
      `find_location_with_range`; the `min` of an empty list is `None`, where `unwrap` panics. */
  method Part1(seeds: seq<int>, layers: seq<Layer>) returns (lowest: Option<int>)
    requires LayersSorted(layers)
    ensures lowest.None? <==> seeds == []
    ensures lowest.Some? ==> exists k :: 0 <= k < |seeds| && lowest.value == FinalLocation(layers, seeds[k])
    ensures lowest.Some? ==> forall k :: 0 <= k < |seeds| ==> lowest.value <= FinalLocation(layers, seeds[k])
  {
    lowest := None;
    for i := 0 to |seeds|
      invariant lowest.None? <==> i == 0
      invariant lowest.Some? ==> exists k :: 0 <= k < i && lowest.value == FinalLocation(layers, seeds[k])
      invariant lowest.Some? ==> forall k :: 0 <= k < i ==> lowest.value <= FinalLocation(layers, seeds[k])
    {
      var location, _ := FindLocationWithRange(layers, seeds[i]);
      if lowest.None? || location < lowest.value {
        lowest := Some(location);
      }
    }
  }

  /** The seed ranges of `part2`: consecutive pairs `(start, length)`, a trailing odd seed dropped
      (`chunks_exact(2)`). */
  predicate InSeedRange(seeds: seq<int>, c: nat, s: int)
  {
    2 * c + 1 < |seeds| && seeds[2 * c] <= s < seeds[2 * c] + seeds[2 * c + 1]
  }

  /** `part2`: the lowest location of every seed in every range, jumping over the stretches on
      which the location grows with the seed. */
  method Part2(seeds: seq<int>, layers: seq<Layer>) returns (minPosition: int)
    requires LayersSorted(layers) && DestNonNegative(layers)
    requires forall c :: 0 <= c < |seeds| / 2 ==> 0 <= seeds[2 * c] && seeds[2 * c] + seeds[2 * c + 1] <= I64Max
    ensures forall c: nat, s :: InSeedRange(seeds, c, s) ==> minPosition <= FinalLocation(layers, s)
    ensures minPosition == I64Max || exists c: nat, s :: InSeedRange(seeds, c, s) && minPosition == FinalLocation(layers, s)
  {
    minPosition := I64Max;
    for c := 0 to |seeds| / 2
      invariant forall c': nat, s :: c' < c && InSeedRange(seeds, c', s) ==> minPosition <= FinalLocation(layers, s)
      invariant minPosition == I64Max || exists c': nat, s :: InSeedRange(seeds, c', s) && minPosition == FinalLocation(layers, s)
    {
      var seed := seeds[2 * c];
      var length := seeds[2 * c + 1];
      var end := seed + length;
      ghost var start := seed;
      while seed < end
        invariant start <= seed
        invariant forall c': nat, s :: c' < c && InSeedRange(seeds, c', s) ==> minPosition <= FinalLocation(layers, s)
        invariant forall s :: start <= s < seed && s < end ==> minPosition <= FinalLocation(layers, s)
        invariant minPosition == I64Max || exists c': nat, s :: InSeedRange(seeds, c', s) && minPosition == FinalLocation(layers, s)
        decreases end - seed
      {
        var loc, endValid := FindLocationWithRange(layers, seed);
        assert InSeedRange(seeds, c, seed);
        minPosition := Min(minPosition, loc);
        seed := endValid;
      }
    }
  }
}
