/**
 * `outputChanges`: the markdown report of a build comparison, appended line
 * by line to the main buffer (`ghMdOutput`) and the collapsed buffer
 * (`ghMdCollapsedOutput`).
 */
module Report {
  import opened BuildDiff
  import opened ReportSort

  // ---------------------------------------------------------------------------
  // Major and minor rows
  // ---------------------------------------------------------------------------

  /** Increased rows, largest growth first, then decreased rows, largest shrinkage first. */
  function Major(cs: seq<ChunkData>): (r: seq<ChunkData>)
    ensures |r| == |InBucket(cs, Increased)| + |InBucket(cs, Decreased)|
  {
    SortBy(InBucket(cs, Increased), true) + SortBy(InBucket(cs, Decreased), false)
  }

  /** Renamed rows in order, then minor increases, largest first, then minor decreases, largest first. */
  function Minor(cs: seq<ChunkData>): (r: seq<ChunkData>)
    ensures |r| == |InBucket(cs, Renamed)| + |InBucket(cs, MinorIncrease)| + |InBucket(cs, MinorDecrease)|
  {
    InBucket(cs, Renamed) + SortBy(InBucket(cs, MinorIncrease), true) + SortBy(InBucket(cs, MinorDecrease), false)
  }

  /** A row lands in bucket `b` exactly as often as it occurs in `cs` when its delta belongs there. */
  lemma {:induction false} InBucketCountAt(cs: seq<ChunkData>, b: Bucket, c: ChunkData)
    ensures multiset(InBucket(cs, b))[c] == if BucketOf(c.bytesDiff) == b then multiset(cs)[c] else 0
  {
    if cs != [] {
      InBucketCountAt(cs[..|cs| - 1], b, c);
      assert cs == cs[..|cs| - 1] + [cs[|cs| - 1]];
    }
  }

  /** `InBucketCountAt` for every row. */
  lemma InBucketCount(cs: seq<ChunkData>, b: Bucket)
    ensures forall c ::
      multiset(InBucket(cs, b))[c] == if BucketOf(c.bytesDiff) == b then multiset(cs)[c] else 0
  {
    forall c {
      InBucketCountAt(cs, b, c);
    }
  }

  /** The five buckets together hold every row once. */
  lemma BucketsPartition(cs: seq<ChunkData>)
    ensures multiset(InBucket(cs, Increased)) + multiset(InBucket(cs, MinorIncrease))
      + multiset(InBucket(cs, Decreased)) + multiset(InBucket(cs, MinorDecrease))
      + multiset(InBucket(cs, Renamed)) == multiset(cs)
  {
    var all := multiset(InBucket(cs, Increased)) + multiset(InBucket(cs, MinorIncrease))
      + multiset(InBucket(cs, Decreased)) + multiset(InBucket(cs, MinorDecrease))
      + multiset(InBucket(cs, Renamed));
    forall c ensures all[c] == multiset(cs)[c] {
      InBucketCountAt(cs, Increased, c);
      InBucketCountAt(cs, MinorIncrease, c);
      InBucketCountAt(cs, Decreased, c);
      InBucketCountAt(cs, MinorDecrease, c);
      InBucketCountAt(cs, Renamed, c);
    }
    assert all == multiset(cs);
  }

  /** The major and minor lists together are a permutation of all rows. */
  lemma MajorMinorPartition(cs: seq<ChunkData>)
    ensures multiset(Major(cs) + Minor(cs)) == multiset(cs)
  {
    BucketsPartition(cs);
    SortByPermutes(InBucket(cs, Increased), true);
    SortByPermutes(InBucket(cs, Decreased), false);
    SortByPermutes(InBucket(cs, MinorIncrease), true);
    SortByPermutes(InBucket(cs, MinorDecrease), false);
  }

  /** A sorted bucket has the bucket's length, is in order, and holds only rows of that bucket. */
  lemma SortedBucket(cs: seq<ChunkData>, b: Bucket, descending: bool)
    ensures var s := SortBy(InBucket(cs, b), descending);
      && |s| == |InBucket(cs, b)| && SortedBy(s, descending)
      && forall i :: 0 <= i < |s| ==> BucketOf(s[i].bytesDiff) == b
  {
    var s := SortBy(InBucket(cs, b), descending);
    SortByPermutes(InBucket(cs, b), descending);
    SortBySorted(InBucket(cs, b), descending);
    InBucketCount(cs, b);
    assert |multiset(s)| == |multiset(InBucket(cs, b))|;
    forall i | 0 <= i < |s| ensures BucketOf(s[i].bytesDiff) == b {
      assert s[i] in multiset(s);
    }
  }

  /** The renamed bucket holds only rows whose size did not change. */
  lemma RenamedBucket(cs: seq<ChunkData>)
    ensures forall i :: 0 <= i < |InBucket(cs, Renamed)| ==> InBucket(cs, Renamed)[i].bytesDiff == 0
  {
    var ren := InBucket(cs, Renamed);
    InBucketCount(cs, Renamed);
    forall i | 0 <= i < |ren| ensures ren[i].bytesDiff == 0 {
      assert ren[i] in multiset(ren);
    }
  }

  /**
   * The major list: first the increases over 100 bytes, by descending
   * delta, then the decreases over 100 bytes, by ascending delta.
   */
  lemma MajorOrder(cs: seq<ChunkData>)
    ensures var m, k := Major(cs), |InBucket(cs, Increased)|;
      && k <= |m|
      && SortedBy(m[..k], true) && SortedBy(m[k..], false)
      && (forall i :: 0 <= i < k ==> m[i].bytesDiff > MinorLimit)
      && (forall i :: k <= i < |m| ==> m[i].bytesDiff < -MinorLimit)
  {
    var inc, dec := SortBy(InBucket(cs, Increased), true), SortBy(InBucket(cs, Decreased), false);
    SortedBucket(cs, Increased, true);
    SortedBucket(cs, Decreased, false);
    assert Major(cs)[..|inc|] == inc && Major(cs)[|inc|..] == dec;
  }

  /**
   * The minor list: the unchanged-size (renamed) rows in `changedItems`
   * order, then the increases of at most 100 bytes by descending delta,
   * then the decreases of at most 100 bytes by ascending delta.
   */
  lemma MinorOrder(cs: seq<ChunkData>)
    ensures var m, r := Minor(cs), |InBucket(cs, Renamed)|;
      var k := r + |InBucket(cs, MinorIncrease)|;
      && k <= |m|
      && m[..r] == InBucket(cs, Renamed)
      && (forall i :: 0 <= i < r ==> m[i].bytesDiff == 0)
      && SortedBy(m[r..k], true) && SortedBy(m[k..], false)
      && (forall i :: r <= i < k ==> 0 < m[i].bytesDiff <= MinorLimit)
      && (forall i :: k <= i < |m| ==> -MinorLimit <= m[i].bytesDiff < 0)
  {
    var ren := InBucket(cs, Renamed);
    var inc, dec := SortBy(InBucket(cs, MinorIncrease), true), SortBy(InBucket(cs, MinorDecrease), false);
    RenamedBucket(cs);
    SortedBucket(cs, MinorIncrease, true);
    SortedBucket(cs, MinorDecrease, false);
    var m := Minor(cs);
    assert m == ren + inc + dec;
    assert m[..|ren|] == ren;
    assert m[|ren|..|ren| + |inc|] == inc;
    assert m[|ren| + |inc|..] == dec;
  }

  // ---------------------------------------------------------------------------
  // Lines
  // ---------------------------------------------------------------------------

  const NoChangesLine := "#### :raised_hands:   No changes."
  const ChangedHeader := ["### Changes in existing chunks :pencil2:",
                          "| Size Change | Current Size | Status | Chunk",
                          "| --- | --- | :---: | :--- |"]
  const NewHeader := ["### New chunks :heavy_plus_sign:", "Size | Status | Chunk", "| --- | :---: | :--- |"]
  const RemovedHeader := ["### Removed chunks :heavy_minus_sign:", "Size | Status | Chunk", "| --- | :---: | :--- |"]
  const MinorHeader := ["| Size Change | Current Size | Status | Chunk", "| --- | --- | :---: | :--- |"]

  function MajorRow(c: ChunkData): string
  {
    "| **" + c.sizeDiff + "** | " + c.size + " | " + c.changeEmoji + " | " + c.name
  }

  function MinorRow(c: ChunkData): string
  {
    "| " + c.sizeDiff + " | " + c.size + " | " + c.changeEmoji + " | " + c.name
  }

  function NewRow(f: FileData, fmt: ByteFormat): string
  {
    "| **" + fmt.plain(f.gzipSize) + "** | :exclamation: | " + f.name
  }

  function RemovedRow(f: FileData, fmt: ByteFormat): string
  {
    "| **" + fmt.plain(f.gzipSize) + "** | :negative_squared_cross_mark: | " + f.name
  }

  function MajorRows(cs: seq<ChunkData>): (rows: seq<string>)
    ensures |rows| == |cs| && forall i :: 0 <= i < |cs| ==> rows[i] == MajorRow(cs[i])
  {
    seq(|cs|, i requires 0 <= i < |cs| => MajorRow(cs[i]))
  }

  function MinorRows(cs: seq<ChunkData>): (rows: seq<string>)
    ensures |rows| == |cs| && forall i :: 0 <= i < |cs| ==> rows[i] == MinorRow(cs[i])
  {
    seq(|cs|, i requires 0 <= i < |cs| => MinorRow(cs[i]))
  }

  function NewRows(fs: seq<FileData>, fmt: ByteFormat): (rows: seq<string>)
    ensures |rows| == |fs| && forall i :: 0 <= i < |fs| ==> rows[i] == NewRow(fs[i], fmt)
  {
    seq(|fs|, i requires 0 <= i < |fs| => NewRow(fs[i], fmt))
  }

  function RemovedRows(fs: seq<FileData>, fmt: ByteFormat): (rows: seq<string>)
    ensures |rows| == |fs| && forall i :: 0 <= i < |fs| ==> rows[i] == RemovedRow(fs[i], fmt)
  {
    seq(|fs|, i requires 0 <= i < |fs| => RemovedRow(fs[i], fmt))
  }

  predicate NoChanges(changes: BuildChanges)
  {
    |changes.newItems| == 0 && |changes.deletedItems| == 0 && |changes.changedItems| == 0
  }

  /** The lines `outputChanges` appends to the main buffer, in order. */
  function MainLines(changes: BuildChanges, fmt: ByteFormat): seq<string>
  {
    if NoChanges(changes) then [NoChangesLine]
    else
      ChangedHeader + MajorRows(Major(Chunks(changes.changedItems, fmt)))
      + NewHeader + NewRows(changes.newItems, fmt)
      + RemovedHeader + RemovedRows(changes.deletedItems, fmt)
  }

  /** The lines `outputChanges` appends to the collapsed buffer, in order. */
  function CollapsedLines(changes: BuildChanges, fmt: ByteFormat): seq<string>
  {
    if NoChanges(changes) then []
    else MinorHeader + MinorRows(Minor(Chunks(changes.changedItems, fmt)))
  }

  /** What appending each line with `output`/`collapsedOutput` adds to a buffer: a newline, then the line. */
  function Appended(lines: seq<string>): string
  {
    if lines == [] then "" else Appended(lines[..|lines| - 1]) + "\n" + lines[|lines| - 1]
  }

  /** Appending two runs of lines is appending their concatenation. */
  lemma {:induction false} AppendedConcat(a: seq<string>, b: seq<string>)
    ensures Appended(a + b) == Appended(a) + Appended(b)
  {
    if b == [] {
      assert a + b == a;
    } else {
      AppendedConcat(a, b[..|b| - 1]);
      assert (a + b)[..|a + b| - 1] == a + b[..|b| - 1];
    }
  }

  /** A buffer holding `before` and the text of `done`, extended by the text of `lines`. */
  lemma AppendedStep(before: string, done: seq<string>, lines: seq<string>, after: string)
    requires after == before + Appended(done) + Appended(lines)
    ensures after == before + Appended(done + lines)
  {
    AppendedConcat(done, lines);
  }

  /** Each appended line adds its length plus one newline. */
  lemma {:induction false} AppendedLength(lines: seq<string>)
    ensures |Appended(lines)| == |lines| + TotalLength(lines)
  {
    if lines != [] {
      AppendedLength(lines[..|lines| - 1]);
    }
  }

  function TotalLength(lines: seq<string>): nat
  {
    if lines == [] then 0 else TotalLength(lines[..|lines| - 1]) + |lines[|lines| - 1]|
  }

  /**
   * Without any change, one "No changes." line and nothing collapsed;
   * otherwise the three headers and one row per major row, new entry and
   * removed entry, and in the collapsed buffer two header lines and one row
   * per minor row, with every changed pair in exactly one of the two.
   */
  lemma OutputShape(changes: BuildChanges, fmt: ByteFormat)
    ensures NoChanges(changes) ==> MainLines(changes, fmt) == [NoChangesLine] && CollapsedLines(changes, fmt) == []
    ensures !NoChanges(changes) ==>
      var cs := Chunks(changes.changedItems, fmt);
      && |MainLines(changes, fmt)| == 9 + |Major(cs)| + |changes.newItems| + |changes.deletedItems|
      && |CollapsedLines(changes, fmt)| == 2 + |Minor(cs)|
      && |Major(cs)| + |Minor(cs)| == |changes.changedItems|
  {
    if !NoChanges(changes) {
      var cs := Chunks(changes.changedItems, fmt);
      MajorMinorPartition(cs);
      assert |multiset(Major(cs) + Minor(cs))| == |multiset(cs)|;
    }
  }

  /** With changes, the lines after the first three headers are the major rows, and the collapsed rows follow two headers. */
  lemma OutputRows(changes: BuildChanges, fmt: ByteFormat)
    requires !NoChanges(changes)
    ensures var cs := Chunks(changes.changedItems, fmt);
      && (forall i :: 0 <= i < |Major(cs)| ==> MainLines(changes, fmt)[3 + i] == MajorRow(Major(cs)[i]))
      && (forall i :: 0 <= i < |Minor(cs)| ==> CollapsedLines(changes, fmt)[2 + i] == MinorRow(Minor(cs)[i]))
  {
    var cs := Chunks(changes.changedItems, fmt);
    MainLinesSplit(changes, fmt);
    var rows := MajorRows(Major(cs));
    var rest := NewHeader + NewRows(changes.newItems, fmt) + RemovedHeader + RemovedRows(changes.deletedItems, fmt);
    forall i | 0 <= i < |rows| ensures MainLines(changes, fmt)[3 + i] == rows[i] {
      IndexAfterPrefix(ChangedHeader, rows, rest, i);
    }
    var minor := MinorRows(Minor(cs));
    forall i | 0 <= i < |minor| ensures CollapsedLines(changes, fmt)[2 + i] == minor[i] {
      IndexAfterPrefix(MinorHeader, minor, [], i);
      assert MinorHeader + minor + [] == MinorHeader + minor;
    }
  }

  /** The main lines with changes: the changed-chunks header, the major rows, then the rest. */
  lemma MainLinesSplit(changes: BuildChanges, fmt: ByteFormat)
    requires !NoChanges(changes)
    ensures MainLines(changes, fmt)
      == ChangedHeader + MajorRows(Major(Chunks(changes.changedItems, fmt)))
         + (NewHeader + NewRows(changes.newItems, fmt) + RemovedHeader + RemovedRows(changes.deletedItems, fmt))
  {
  }

  /** The main lines with changes, grouped as `outputChanges` writes them: header, major rows, two tables. */
  lemma MainLinesTables(changes: BuildChanges, fmt: ByteFormat)
    requires !NoChanges(changes)
    ensures MainLines(changes, fmt)
      == ChangedHeader + MajorRows(Major(Chunks(changes.changedItems, fmt)))
         + (NewHeader + NewRows(changes.newItems, fmt)) + (RemovedHeader + RemovedRows(changes.deletedItems, fmt))
  {
  }

  /** Position `|a| + i` of `a + b + c` is position `i` of `b`. */
  lemma IndexAfterPrefix<T>(a: seq<T>, b: seq<T>, c: seq<T>, i: nat)
    requires i < |b|
    ensures (a + b + c)[|a| + i] == b[i]
  {
  }

  // ---------------------------------------------------------------------------
  // The two buffers
  // ---------------------------------------------------------------------------

  /** The module-level buffers `ghMdOutput` and `ghMdCollapsedOutput`. */
  class ReportBuffers {
    var markdown: string
    var collapsedMarkdown: string

    constructor()
      ensures markdown == "" && collapsedMarkdown == ""
    {
      markdown := "";
      collapsedMarkdown := "";
    }

    /** `output(text)`. */
    method Output(text: string)
      modifies this
      ensures markdown == old(markdown) + "\n" + text
      ensures collapsedMarkdown == old(collapsedMarkdown)
    {
      markdown := markdown + "\n" + text;
    }

    /** `collapsedOutput(text)`. */
    method CollapsedOutput(text: string)
      modifies this
      ensures collapsedMarkdown == old(collapsedMarkdown) + "\n" + text
      ensures markdown == old(markdown)
    {
      collapsedMarkdown := collapsedMarkdown + "\n" + text;
    }

    /** `output` for each line, in order. */
    method OutputAll(lines: seq<string>)
      modifies this
      ensures markdown == old(markdown) + Appended(lines)
      ensures collapsedMarkdown == old(collapsedMarkdown)
    {
      for i := 0 to |lines|
        invariant markdown == old(markdown) + Appended(lines[..i])
        invariant collapsedMarkdown == old(collapsedMarkdown)
      {
        assert lines[..i + 1][..i] == lines[..i];
        Output(lines[i]);
      }
      assert lines[..|lines|] == lines;
    }

    /** `collapsedOutput` for each line, in order. */
    method CollapsedOutputAll(lines: seq<string>)
      modifies this
      ensures collapsedMarkdown == old(collapsedMarkdown) + Appended(lines)
      ensures markdown == old(markdown)
    {
      for i := 0 to |lines|
        invariant collapsedMarkdown == old(collapsedMarkdown) + Appended(lines[..i])
        invariant markdown == old(markdown)
      {
        assert lines[..i + 1][..i] == lines[..i];
        CollapsedOutput(lines[i]);
      }
      assert lines[..|lines|] == lines;
    }

    /** A table: `output` for each header line, then for each row. */
    method OutputTable(header: seq<string>, rows: seq<string>)
      modifies this
      ensures markdown == old(markdown) + Appended(header + rows)
      ensures collapsedMarkdown == old(collapsedMarkdown)
    {
      OutputAll(header);
      OutputAll(rows);
      AppendedConcat(header, rows);
    }

    /**
     * `outputChanges(changes)`: the buffers only grow, by the report lines
     * `MainLines` and `CollapsedLines`.
     */
    method OutputChanges(changes: BuildChanges, fmt: ByteFormat)
      modifies this
      ensures markdown == old(markdown) + Appended(MainLines(changes, fmt))
      ensures collapsedMarkdown == old(collapsedMarkdown) + Appended(CollapsedLines(changes, fmt))
    {
      if |changes.newItems| == 0 && |changes.deletedItems| == 0 && |changes.changedItems| == 0 {
        Output(NoChangesLine);
        assert Appended([NoChangesLine]) == "\n" + NoChangesLine;
        return;
      }
      OutputAll(ChangedHeader);

      var majorChunks, minorChunks := MajorAndMinor(changes.changedItems, fmt);
      ghost var done := ChangedHeader;
      assert markdown == old(markdown) + Appended(done);

      OutputAll(MajorRows(majorChunks));
      AppendedStep(old(markdown), done, MajorRows(majorChunks), markdown);
      done := done + MajorRows(majorChunks);

      OutputTable(NewHeader, NewRows(changes.newItems, fmt));
      AppendedStep(old(markdown), done, NewHeader + NewRows(changes.newItems, fmt), markdown);
      done := done + (NewHeader + NewRows(changes.newItems, fmt));

      OutputTable(RemovedHeader, RemovedRows(changes.deletedItems, fmt));
      AppendedStep(old(markdown), done, RemovedHeader + RemovedRows(changes.deletedItems, fmt), markdown);
      done := done + (RemovedHeader + RemovedRows(changes.deletedItems, fmt));
      MainLinesTables(changes, fmt);

      CollapsedOutputAll(MinorHeader);
      CollapsedOutputAll(MinorRows(minorChunks));
      AppendedStep(old(collapsedMarkdown), MinorHeader, MinorRows(minorChunks), collapsedMarkdown);
      assert MinorHeader + MinorRows(minorChunks) == CollapsedLines(changes, fmt);
    }
  }

  /**
   * The rows of `outputChanges` before any is written: bucketed, each bucket
   * sorted, then joined into the major and the minor rows.
   */
  method MajorAndMinor(changedItems: seq<(FileData, FileData)>, fmt: ByteFormat)
    returns (majorChunks: seq<ChunkData>, minorChunks: seq<ChunkData>)
    ensures majorChunks == Major(Chunks(changedItems, fmt))
    ensures minorChunks == Minor(Chunks(changedItems, fmt))
  {
    var increasedChunks, minorIncChunks, decreasedChunks, minorDecChunks, renamedChunks
      := Bucketize(changedItems, fmt);

    increasedChunks := SortBy(increasedChunks, true);
    decreasedChunks := SortBy(decreasedChunks, false);
    minorIncChunks := SortBy(minorIncChunks, true);
    minorDecChunks := SortBy(minorDecChunks, false);

    majorChunks := increasedChunks + decreasedChunks;
    minorChunks := renamedChunks + minorIncChunks + minorDecChunks;
  }

  /** The five buckets after the first `i` rows of `cs`. */
  predicate BucketState(cs: seq<ChunkData>, i: nat, increased: seq<ChunkData>, minorInc: seq<ChunkData>,
                        decreased: seq<ChunkData>, minorDec: seq<ChunkData>, renamed: seq<ChunkData>)
  {
    && i <= |cs|
    && increased == InBucket(cs[..i], Increased)
    && minorInc == InBucket(cs[..i], MinorIncrease)
    && decreased == InBucket(cs[..i], Decreased)
    && minorDec == InBucket(cs[..i], MinorDecrease)
    && renamed == InBucket(cs[..i], Renamed)
  }

  /** Row `i` goes to the end of its own bucket and nowhere else. */
  lemma BucketStateStep(cs: seq<ChunkData>, i: nat, increased: seq<ChunkData>, minorInc: seq<ChunkData>,
                        decreased: seq<ChunkData>, minorDec: seq<ChunkData>, renamed: seq<ChunkData>)
    requires BucketState(cs, i, increased, minorInc, decreased, minorDec, renamed) && i < |cs|
    ensures var c := cs[i];
      var b := BucketOf(c.bytesDiff);
      BucketState(cs, i + 1,
                  if b == Increased then increased + [c] else increased,
                  if b == MinorIncrease then minorInc + [c] else minorInc,
                  if b == Decreased then decreased + [c] else decreased,
                  if b == MinorDecrease then minorDec + [c] else minorDec,
                  if b == Renamed then renamed + [c] else renamed)
  {
    assert cs[..i + 1][..i] == cs[..i];
  }

  /**
   * The row the bucketing loop builds for a pair, before the status of an
   * unchanged size is overwritten, is the pair's row whenever the sizes differ.
   */
  lemma RowOfPair(pair: (FileData, FileData), fmt: ByteFormat, c: ChunkData)
    requires c == ChunkOf(pair, fmt)
    ensures var (oldFile, newFile) := pair;
      var bytesDiff := newFile.gzipSize - oldFile.gzipSize;
      var row := ChunkData(fmt.signed(bytesDiff), fmt.plain(newFile.gzipSize), bytesDiff,
                           if newFile.gzipSize > oldFile.gzipSize then Grew else Shrank, newFile.name);
      && c.bytesDiff == bytesDiff
      && (bytesDiff != 0 ==> row == c)
      && (bytesDiff == 0 ==> row.(changeEmoji := Unchanged) == c)
  {
  }

  /**
   * The bucketing loop of `outputChanges`: each changed pair becomes a row
   * pushed, in `changedItems` order, into the bucket its delta selects.
   */
  method Bucketize(changedItems: seq<(FileData, FileData)>, fmt: ByteFormat)
    returns (increasedChunks: seq<ChunkData>, minorIncChunks: seq<ChunkData>, decreasedChunks: seq<ChunkData>,
             minorDecChunks: seq<ChunkData>, renamedChunks: seq<ChunkData>)
    ensures increasedChunks == InBucket(Chunks(changedItems, fmt), Increased)
    ensures minorIncChunks == InBucket(Chunks(changedItems, fmt), MinorIncrease)
    ensures decreasedChunks == InBucket(Chunks(changedItems, fmt), Decreased)
    ensures minorDecChunks == InBucket(Chunks(changedItems, fmt), MinorDecrease)
    ensures renamedChunks == InBucket(Chunks(changedItems, fmt), Renamed)
  {
    increasedChunks, minorIncChunks, decreasedChunks, minorDecChunks, renamedChunks := [], [], [], [], [];
    ghost var cs := Chunks(changedItems, fmt);
    for i := 0 to |changedItems|
      invariant BucketState(cs, i, increasedChunks, minorIncChunks, decreasedChunks, minorDecChunks, renamedChunks)
    {
      BucketStateStep(cs, i, increasedChunks, minorIncChunks, decreasedChunks, minorDecChunks, renamedChunks);
      var (oldFile, newFile) := changedItems[i];
      var size := fmt.plain(newFile.gzipSize);
      var bytesDiff := newFile.gzipSize - oldFile.gzipSize;
      var sizeDiff := fmt.signed(bytesDiff);
      var changeEmoji := if newFile.gzipSize > oldFile.gzipSize then Grew else Shrank;
      var chunkData := ChunkData(sizeDiff, size, bytesDiff, changeEmoji, newFile.name);
      RowOfPair(changedItems[i], fmt, cs[i]);
      if bytesDiff > 100 {
        increasedChunks := increasedChunks + [chunkData];
      } else if bytesDiff > 0 {
        minorIncChunks := minorIncChunks + [chunkData];
      }
      if bytesDiff < -100 {
        decreasedChunks := decreasedChunks + [chunkData];
      } else if bytesDiff < 0 {
        minorDecChunks := minorDecChunks + [chunkData];
      }
      if bytesDiff == 0 {
        chunkData := chunkData.(changeEmoji := Unchanged);
        renamedChunks := renamedChunks + [chunkData];
      }
    }
    assert cs[..|changedItems|] == cs;
  }
}
