/**
 * Report rows and their ordering: a changed pair becomes a chunk row, rows
 * are put into five buckets by their gzip byte delta, and buckets are sorted
 * by that delta with a stable sort (as `Array.prototype.sort` is), through
 * `ascendingSizeSort` or `descendingSizeSort`.
 */
module ReportSort {
  import opened BuildDiff

  /** `prettyBytes(n)` and `prettyBytes(n, { signed: true })`, which this model takes as given. */
  datatype ByteFormat = ByteFormat(plain: int -> string, signed: int -> string)

  /** One row of a changed-chunks table. */
  datatype ChunkData = ChunkData(sizeDiff: string, size: string, bytesDiff: int, changeEmoji: string, name: string)

  /** The five lists `outputChanges` pushes rows into. */
  datatype Bucket = Increased | MinorIncrease | Decreased | MinorDecrease | Renamed

  const Grew := ":small_red_triangle:"
  const Shrank := ":arrow_down:"
  const Unchanged := ":o:"

  /** The largest delta, either way, that is still a minor change. */
  const MinorLimit := 100

  /**
   * The row for the pair `(oldFile, newFile)`; its status is overwritten to
   * `:o:` when the gzip sizes are equal.
   */
  function ChunkOf(pair: (FileData, FileData), fmt: ByteFormat): (c: ChunkData)
    ensures c.bytesDiff == pair.1.gzipSize - pair.0.gzipSize
    ensures c.name == pair.1.name && c.size == fmt.plain(pair.1.gzipSize) && c.sizeDiff == fmt.signed(c.bytesDiff)
    ensures c.changeEmoji == Grew <==> pair.1.gzipSize > pair.0.gzipSize
    ensures c.changeEmoji == Shrank <==> pair.1.gzipSize < pair.0.gzipSize
    ensures c.changeEmoji == Unchanged <==> pair.1.gzipSize == pair.0.gzipSize
  {
    var bytesDiff := pair.1.gzipSize - pair.0.gzipSize;
    var changeEmoji := if pair.1.gzipSize > pair.0.gzipSize then Grew else Shrank;
    ChunkData(fmt.signed(bytesDiff), fmt.plain(pair.1.gzipSize), bytesDiff,
              if bytesDiff == 0 then Unchanged else changeEmoji, pair.1.name)
  }

  /** The rows of the changed pairs, in `changedItems` order. */
  function Chunks(pairs: seq<(FileData, FileData)>, fmt: ByteFormat): (cs: seq<ChunkData>)
    ensures |cs| == |pairs| && forall i :: 0 <= i < |pairs| ==> cs[i] == ChunkOf(pairs[i], fmt)
  {
    seq(|pairs|, i requires 0 <= i < |pairs| => ChunkOf(pairs[i], fmt))
  }

  /** The bucket a row with byte delta `d` lands in: exactly one, by the thresholds 100, 0 and -100. */
  function BucketOf(d: int): (b: Bucket)
    ensures b == Increased <==> d > MinorLimit
    ensures b == MinorIncrease <==> 0 < d <= MinorLimit
    ensures b == Decreased <==> d < -MinorLimit
    ensures b == MinorDecrease <==> -MinorLimit <= d < 0
    ensures b == Renamed <==> d == 0
  {
    if d > MinorLimit then Increased
    else if d > 0 then MinorIncrease
    else if d < -MinorLimit then Decreased
    else if d < 0 then MinorDecrease
    else Renamed
  }

  /** The rows of `cs` that land in bucket `b`, in order. */
  function InBucket(cs: seq<ChunkData>, b: Bucket): seq<ChunkData>
  {
    if cs == [] then []
    else
      var last := cs[|cs| - 1];
      InBucket(cs[..|cs| - 1], b) + (if BucketOf(last.bytesDiff) == b then [last] else [])
  }

  /** The rows of `cs` with byte delta `d`, in order. */
  function WithDiff(cs: seq<ChunkData>, d: int): seq<ChunkData>
  {
    if cs == [] then []
    else
      var last := cs[|cs| - 1];
      WithDiff(cs[..|cs| - 1], d) + (if last.bytesDiff == d then [last] else [])
  }

  // ---------------------------------------------------------------------------
  // The stable sort
  // ---------------------------------------------------------------------------

  /** The sort key: `a` goes before `b` when its key is smaller. */
  function Key(c: ChunkData, descending: bool): int
  {
    if descending then -c.bytesDiff else c.bytesDiff
  }

  /** Ordered by `bytesDiff`, ascending or descending. */
  predicate SortedBy(s: seq<ChunkData>, descending: bool)
  {
    forall i, j :: 0 <= i < j < |s| ==> Key(s[i], descending) <= Key(s[j], descending)
  }

  /** `x` put into the sorted `r` after every row that does not sort after it. */
  function Insert(r: seq<ChunkData>, x: ChunkData, descending: bool): (ins: seq<ChunkData>)
    ensures |ins| == |r| + 1
  {
    if r == [] then [x]
    else if Key(r[|r| - 1], descending) <= Key(x, descending) then r + [x]
    else Insert(r[..|r| - 1], x, descending) + [r[|r| - 1]]
  }

  /** `s.sort(descending ? descendingSizeSort : ascendingSizeSort)`, as a stable insertion sort. */
  function SortBy(s: seq<ChunkData>, descending: bool): (r: seq<ChunkData>)
    ensures |r| == |s|
  {
    if s == [] then []
    else Insert(SortBy(s[..|s| - 1], descending), s[|s| - 1], descending)
  }

  lemma {:induction false} InsertPermutes(r: seq<ChunkData>, x: ChunkData, descending: bool)
    ensures multiset(Insert(r, x, descending)) == multiset(r) + multiset{x}
  {
    if r != [] && Key(r[|r| - 1], descending) > Key(x, descending) {
      InsertPermutes(r[..|r| - 1], x, descending);
      assert r == r[..|r| - 1] + [r[|r| - 1]];
    }
  }

  lemma {:induction false} InsertSorted(r: seq<ChunkData>, x: ChunkData, descending: bool)
    requires SortedBy(r, descending)
    ensures SortedBy(Insert(r, x, descending), descending)
  {
    if r != [] && Key(r[|r| - 1], descending) > Key(x, descending) {
      var init, last := r[..|r| - 1], r[|r| - 1];
      var bound := Key(last, descending);
      assert SortedBy(init, descending);
      InsertSorted(init, x, descending);
      InsertBelow(init, x, descending, bound);
      var ins := Insert(init, x, descending);
      var all := ins + [last];
      assert Insert(r, x, descending) == all;
      forall i, j | 0 <= i < j < |all| ensures Key(all[i], descending) <= Key(all[j], descending) {
        assert all[i] == ins[i];
        if j == |ins| {
          assert all[j] == last;
        } else {
          assert all[j] == ins[j];
        }
      }
    }
  }

  /** Every row of `s` has a key of at most `bound`. */
  predicate AllBelow(s: seq<ChunkData>, descending: bool, bound: int) {
    forall i :: 0 <= i < |s| ==> Key(s[i], descending) <= bound
  }

  /** Inserting below a bound every row already keeps to leaves every row below it. */
  lemma {:induction false} InsertBelow(r: seq<ChunkData>, x: ChunkData, descending: bool, bound: int)
    requires AllBelow(r, descending, bound) && Key(x, descending) <= bound
    ensures AllBelow(Insert(r, x, descending), descending, bound)
  {
    var ins := Insert(r, x, descending);
    if r == [] {
      assert ins == [x];
    } else if Key(r[|r| - 1], descending) <= Key(x, descending) {
      assert ins == r + [x];
      forall i | 0 <= i < |ins| ensures Key(ins[i], descending) <= bound {
        if i < |r| {
          assert ins[i] == r[i];
        } else {
          assert ins[i] == x;
        }
      }
    } else {
      var init, last := r[..|r| - 1], r[|r| - 1];
      InsertBelow(init, x, descending, bound);
      var rest := Insert(init, x, descending);
      assert ins == rest + [last];
      forall i | 0 <= i < |ins| ensures Key(ins[i], descending) <= bound {
        if i < |rest| {
          assert ins[i] == rest[i];
        } else {
          assert ins[i] == last;
        }
      }
    }
  }

  /** The sort is a permutation. */
  lemma {:induction false} SortByPermutes(s: seq<ChunkData>, descending: bool)
    ensures multiset(SortBy(s, descending)) == multiset(s)
  {
    if s != [] {
      SortByPermutes(s[..|s| - 1], descending);
      InsertPermutes(SortBy(s[..|s| - 1], descending), s[|s| - 1], descending);
      assert s == s[..|s| - 1] + [s[|s| - 1]];
    }
  }

  /** The sort orders by `bytesDiff`. */
  lemma {:induction false} SortBySorted(s: seq<ChunkData>, descending: bool)
    ensures SortedBy(SortBy(s, descending), descending)
  {
    if s != [] {
      SortBySorted(s[..|s| - 1], descending);
      InsertSorted(SortBy(s[..|s| - 1], descending), s[|s| - 1], descending);
    }
  }

  /** Filtering by delta distributes over concatenation. */
  lemma {:induction false} WithDiffAppend(a: seq<ChunkData>, b: seq<ChunkData>, d: int)
    ensures WithDiff(a + b, d) == WithDiff(a, d) + WithDiff(b, d)
  {
    if b != [] {
      WithDiffAppend(a, b[..|b| - 1], d);
      assert (a + b)[..|a + b| - 1] == a + b[..|b| - 1];
    } else {
      assert a + b == a;
    }
  }

  lemma {:induction false} InsertStable(r: seq<ChunkData>, x: ChunkData, descending: bool, d: int)
    ensures WithDiff(Insert(r, x, descending), d) == WithDiff(r, d) + WithDiff([x], d)
  {
    if r == [] {
    } else if Key(r[|r| - 1], descending) <= Key(x, descending) {
      WithDiffAppend(r, [x], d);
    } else {
      var init, last := r[..|r| - 1], r[|r| - 1];
      var ins := Insert(init, x, descending);
      assert Insert(r, x, descending) == ins + [last];
      assert r == init + [last];
      InsertStable(init, x, descending, d);
      InsertStableStep(ins, init, x, last, d);
    }
  }

  /** Moving `x` past a row with another delta does not change what a filter on one delta sees. */
  lemma InsertStableStep(ins: seq<ChunkData>, init: seq<ChunkData>, x: ChunkData, last: ChunkData, d: int)
    requires WithDiff(ins, d) == WithDiff(init, d) + WithDiff([x], d)
    requires x.bytesDiff != last.bytesDiff
    ensures WithDiff(ins + [last], d) == WithDiff(init + [last], d) + WithDiff([x], d)
  {
    WithDiffAppend(ins, [last], d);
    WithDiffAppend(init, [last], d);
    WithDiffSwap(x, last, d);
    var wi, wx, wl := WithDiff(init, d), WithDiff([x], d), WithDiff([last], d);
    calc {
      WithDiff(ins + [last], d);
      wi + wx + wl;
      wi + (wx + wl);
      wi + (wl + wx);
      wi + wl + wx;
    }
  }

  /** Two rows with different deltas cannot both pass a filter on one delta, so their order does not show. */
  lemma WithDiffSwap(x: ChunkData, y: ChunkData, d: int)
    requires x.bytesDiff != y.bytesDiff
    ensures WithDiff([x], d) + WithDiff([y], d) == WithDiff([y], d) + WithDiff([x], d)
  {
    assert [x][..0] == [] && [y][..0] == [];
  }

  /** The sort is stable: rows with equal `bytesDiff` keep their relative order. */
  lemma {:induction false} SortByStable(s: seq<ChunkData>, descending: bool, d: int)
    ensures WithDiff(SortBy(s, descending), d) == WithDiff(s, d)
  {
    if s != [] {
      var init, last := s[..|s| - 1], s[|s| - 1];
      SortByStable(init, descending, d);
      InsertStable(SortBy(init, descending), last, descending, d);
      WithDiffAppend(init, [last], d);
      assert s == init + [last];
    }
  }

  /** Sorting rows already in order changes nothing. */
  lemma {:induction false} SortBySortedIdentity(s: seq<ChunkData>, descending: bool)
    requires SortedBy(s, descending)
    ensures SortBy(s, descending) == s
  {
    if s != [] {
      var init := s[..|s| - 1];
      assert SortedBy(init, descending);
      SortBySortedIdentity(init, descending);
      assert s == init + [s[|s| - 1]];
    }
  }
}
