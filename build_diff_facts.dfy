/**
 * What the build diff engine guarantees: how the initial matching sorts the
 * entries into deleted, changed and new ones, what the rename pass
 * conserves and when it fails.
 */
module BuildDiffFacts {
  import opened Wrappers
  import opened JsStrings
  import opened BuildDiff

  // ---------------------------------------------------------------------------
  // Initial matching
  // ---------------------------------------------------------------------------

  /**
   * A previous entry is deleted exactly as often as it occurs in the previous
   * build when no current entry has its path, and never otherwise.
   */
  lemma {:induction false} InitialDeletedCount(prev: seq<FileData>, cur: seq<FileData>)
    ensures forall x ::
      multiset(InitialDeleted(prev, cur))[x] == if x.path in Paths(cur) then 0 else multiset(prev)[x]
  {
    if prev != [] {
      var init, last := prev[..|prev| - 1], prev[|prev| - 1];
      InitialDeletedCount(init, cur);
      assert prev == init + [last];
    }
  }

  /** A changed pair is a previous entry with the first current entry of its path, when their gzip sizes differ. */
  lemma {:induction false} InitialChangedMembers(prev: seq<FileData>, cur: seq<FileData>)
    ensures forall p :: p in InitialChanged(prev, cur) <==>
      && p.0 in prev && p.0.path in Paths(cur)
      && p.1 == cur[FindByPath(cur, p.0.path).value]
      && p.0.gzipSize != p.1.gzipSize
  {
    if prev != [] {
      var init, last := prev[..|prev| - 1], prev[|prev| - 1];
      InitialChangedMembers(init, cur);
      assert prev == init + [last];
    }
  }

  /** A current position is matched when it holds the first entry of a path some previous entry has. */
  lemma {:induction false} MatchedEntriesMembers(prev: seq<FileData>, cur: seq<FileData>)
    ensures forall j: nat :: j in MatchedEntries(prev, cur) <==>
      j < |cur| && cur[j].path in Paths(prev) && FindByPath(cur, cur[j].path) == Some(j)
  {
    if prev != [] {
      var init, last := prev[..|prev| - 1], prev[|prev| - 1];
      MatchedEntriesMembers(init, cur);
      assert prev == init + [last];
      assert Paths(prev) == Paths(init) + [last.path];
    }
  }

  /** The entries of `cur[..n]` whose positions are outside `matched`. */
  lemma {:induction false} UnmatchedMembers(cur: seq<FileData>, matched: set<nat>, n: nat)
    requires n <= |cur|
    ensures forall x :: x in Unmatched(cur, matched, n) <==>
      exists j :: 0 <= j < n && j !in matched && cur[j] == x
  {
    if n > 0 {
      UnmatchedMembers(cur, matched, n - 1);
    }
  }

  /** In a path-unique current build, the new entries are those whose path no previous entry has. */
  lemma InitialNewMembers(prev: seq<FileData>, cur: seq<FileData>)
    requires PathUnique(cur)
    ensures forall x :: x in InitialNew(prev, cur) <==> x in cur && x.path !in Paths(prev)
  {
    MatchedEntriesMembers(prev, cur);
    UnmatchedMembers(cur, MatchedEntries(prev, cur), |cur|);
    forall j | 0 <= j < |cur|
      ensures FindByPath(cur, cur[j].path) == Some(j)
    {
      FoundAtOwnPosition(cur, j);
    }
  }

  /** When the builds share no path, everything previous is deleted and everything current is new. */
  lemma DisjointBuilds(prev: seq<FileData>, cur: seq<FileData>)
    requires forall x :: x in prev ==> x.path !in Paths(cur)
    ensures Changes(prev, cur, None) == Success(BuildChanges(cur, prev, []))
  {
    DisjointMatching(prev, cur);
    UnmatchedNothing(cur, |cur|);
    assert cur[..|cur|] == cur;
  }

  /** With no shared path, the first loop deletes every previous entry and matches nothing. */
  lemma DisjointMatching(prev: seq<FileData>, cur: seq<FileData>)
    requires forall x :: x in prev ==> x.path !in Paths(cur)
    ensures InitialDeleted(prev, cur) == prev
    ensures InitialChanged(prev, cur) == []
    ensures MatchedEntries(prev, cur) == {}
  {
    DisjointDeleted(prev, cur);
    DisjointUnmatched(prev, cur);
  }

  /** With no shared path, every previous entry is deleted. */
  lemma DisjointDeleted(prev: seq<FileData>, cur: seq<FileData>)
    requires forall x :: x in prev ==> x.path !in Paths(cur)
    ensures InitialDeleted(prev, cur) == prev
  {
    forall i | 0 <= i < |prev| ensures prev[i].path !in Paths(cur) {
      assert prev[i] in prev;
    }
    DisjointDeletedPrefix(prev, cur, |prev|);
    assert prev[..|prev|] == prev;
  }

  /** With no path of `prev` in `cur`, the first `n` previous entries are all deleted. */
  lemma {:induction false} DisjointDeletedPrefix(prev: seq<FileData>, cur: seq<FileData>, n: nat)
    requires n <= |prev| && forall i :: 0 <= i < |prev| ==> prev[i].path !in Paths(cur)
    ensures InitialDeleted(prev[..n], cur) == prev[..n]
  {
    if n > 0 {
      DisjointDeletedPrefix(prev, cur, n - 1);
      assert prev[..n][..n - 1] == prev[..n - 1];
      assert prev[..n] == prev[..n - 1] + [prev[n - 1]];
    }
  }

  /** With no shared path, no pair is changed and no current entry is matched. */
  lemma {:induction false} DisjointUnmatched(prev: seq<FileData>, cur: seq<FileData>)
    requires forall x :: x in prev ==> x.path !in Paths(cur)
    ensures InitialChanged(prev, cur) == []
    ensures MatchedEntries(prev, cur) == {}
  {
    if prev != [] {
      var init, last := prev[..|prev| - 1], prev[|prev| - 1];
      assert last in prev;
      assert FindByPath(cur, last.path).None?;
      assert forall x :: x in init ==> x in prev;
      DisjointUnmatched(init, cur);
    }
  }

  /** A list with no member is empty. */
  lemma EmptyWhenNoMember<T>(s: seq<T>)
    ensures (forall p :: p !in s) ==> s == []
  {
    if s != [] {
      assert s[0] in s;
    }
  }

  /** With nothing matched, `Unmatched` is the prefix itself. */
  lemma {:induction false} UnmatchedNothing(cur: seq<FileData>, n: nat)
    requires n <= |cur|
    ensures Unmatched(cur, {}, n) == cur[..n]
  {
    if n > 0 {
      UnmatchedNothing(cur, n - 1);
      assert cur[..n] == cur[..n - 1] + [cur[n - 1]];
    }
  }

  /** Comparing a path-unique build with itself finds no change, whatever the resolver. */
  lemma IdenticalBuilds(b: seq<FileData>, findRenamed: Option<Resolver>)
    requires PathUnique(b)
    ensures Changes(b, b, findRenamed) == Success(BuildChanges([], [], []))
  {
    IdenticalNothingDeleted(b);
    IdenticalNothingChanged(b);
    IdenticalNothingNew(b);
    if findRenamed.Some? {
      assert RenamePass(findRenamed.value, [], []) == Success(Renaming([], [], []));
      var none: seq<(FileData, FileData)> := [];
      assert none + none == none;
    }
  }

  /** Every entry of a build is found in the same build, so none is deleted. */
  lemma IdenticalNothingDeleted(b: seq<FileData>)
    ensures InitialDeleted(b, b) == []
  {
    InitialDeletedCount(b, b);
    forall x ensures x !in InitialDeleted(b, b) {
      assert multiset(InitialDeleted(b, b))[x] == 0;
    }
    EmptyWhenNoMember(InitialDeleted(b, b));
  }

  /** In a path-unique build each entry is the first of its path. */
  lemma FoundAtOwnPosition(b: seq<FileData>, j: nat)
    requires PathUnique(b) && j < |b|
    ensures FindByPath(b, b[j].path) == Some(j)
  {
  }

  /** A path-unique build pairs each entry with itself, so no gzip size differs. */
  lemma IdenticalNothingChanged(b: seq<FileData>)
    requires PathUnique(b)
    ensures InitialChanged(b, b) == []
  {
    InitialChangedMembers(b, b);
    forall p ensures p !in InitialChanged(b, b) {
      if p.0 in b {
        var i :| 0 <= i < |b| && b[i] == p.0;
        FoundAtOwnPosition(b, i);
      }
    }
    EmptyWhenNoMember(InitialChanged(b, b));
  }

  /** A build has no entry whose path it lacks, so none is new. */
  lemma IdenticalNothingNew(b: seq<FileData>)
    requires PathUnique(b)
    ensures InitialNew(b, b) == []
  {
    InitialNewMembers(b, b);
    EmptyWhenNoMember(InitialNew(b, b));
  }

  // ---------------------------------------------------------------------------
  // Rename pass
  // ---------------------------------------------------------------------------

  /** The first components of the pairs. */
  function Befores(pairs: seq<(FileData, FileData)>): (r: seq<FileData>)
    ensures |r| == |pairs| && forall i :: 0 <= i < |pairs| ==> r[i] == pairs[i].0
  {
    seq(|pairs|, i requires 0 <= i < |pairs| => pairs[i].0)
  }

  /** The second components of the pairs. */
  function Afters(pairs: seq<(FileData, FileData)>): (r: seq<FileData>)
    ensures |r| == |pairs| && forall i :: 0 <= i < |pairs| ==> r[i] == pairs[i].1
  {
    seq(|pairs|, i requires 0 <= i < |pairs| => pairs[i].1)
  }

  /**
   * A successful rename pass loses and invents no entry: each deleted entry
   * stays deleted or becomes the old side of exactly one pair, and each new
   * entry stays new or becomes the new side of exactly one pair.
   */
  lemma {:induction false} RenamePassConserves(f: Resolver, ds: seq<FileData>, news: seq<FileData>)
    requires RenamePass(f, ds, news).Success?
    ensures var o := RenamePass(f, ds, news).value;
      multiset(o.deleted) + multiset(Befores(o.renamed)) == multiset(ds)
    ensures var o := RenamePass(f, ds, news).value;
      multiset(o.added) + multiset(Afters(o.renamed)) == multiset(news)
    decreases |ds|
  {
    var o := RenamePass(f, ds, news).value;
    if ds == [] {
      assert o == Renaming([], news, []);
    } else {
      var result := f(ds[0].path, Paths(news));
      if result.None? || result.value == "" {
        var t := RenamePass(f, ds[1..], news).value;
        assert [] + t.renamed == t.renamed;
        assert o == Renaming([ds[0]] + t.deleted, t.added, t.renamed);
        RenamePassConserves(f, ds[1..], news);
        KeptConserves(ds, t);
      } else {
        var j := FindByPath(news, result.value).value;
        var t := RenamePass(f, ds[1..], RemoveAt(news, j)).value;
        assert o == Renaming([] + t.deleted, t.added, [(ds[0], news[j])] + t.renamed);
        RenamePassConserves(f, ds[1..], RemoveAt(news, j));
        PairedConservesBefores(ds, news[j], t);
        PairedConservesAfters(news, j, ds[0], t);
      }
    }
  }

  /** Keeping the first deleted entry in front of a conserving rest conserves. */
  lemma KeptConserves(ds: seq<FileData>, t: Renaming)
    requires ds != []
    requires multiset(t.deleted) + multiset(Befores(t.renamed)) == multiset(ds[1..])
    ensures multiset([ds[0]] + t.deleted) + multiset(Befores([] + t.renamed)) == multiset(ds)
  {
    assert [] + t.renamed == t.renamed;
    assert ds == [ds[0]] + ds[1..];
  }

  /** Pairing the first deleted entry in front of a conserving rest conserves the deleted side. */
  lemma PairedConservesBefores(ds: seq<FileData>, n: FileData, t: Renaming)
    requires ds != []
    requires multiset(t.deleted) + multiset(Befores(t.renamed)) == multiset(ds[1..])
    ensures multiset([] + t.deleted) + multiset(Befores([(ds[0], n)] + t.renamed)) == multiset(ds)
  {
    assert [] + t.deleted == t.deleted;
    assert Befores([(ds[0], n)] + t.renamed) == [ds[0]] + Befores(t.renamed);
    assert ds == [ds[0]] + ds[1..];
  }

  /** Pairing `news[j]` in front of a conserving rest conserves the new side. */
  lemma PairedConservesAfters(news: seq<FileData>, j: nat, d: FileData, t: Renaming)
    requires j < |news|
    requires multiset(t.added) + multiset(Afters(t.renamed)) == multiset(RemoveAt(news, j))
    ensures multiset(t.added) + multiset(Afters([(d, news[j])] + t.renamed)) == multiset(news)
  {
    var n, before, after := news[j], news[..j], news[j + 1..];
    assert Afters([(d, n)] + t.renamed) == [n] + Afters(t.renamed);
    assert news == before + [n] + after;
    assert RemoveAt(news, j) == before + after;
    calc {
      multiset(t.added) + multiset(Afters([(d, n)] + t.renamed));
      multiset(t.added) + multiset(Afters(t.renamed)) + multiset([n]);
      multiset(before + after) + multiset([n]);
      multiset(before + [n] + after);
    }
  }

  /** A resolver that only answers with one of the paths it is offered, or with nothing, never makes the pass fail. */
  lemma {:induction false} WellBehavedResolverSucceeds(f: Resolver, ds: seq<FileData>, news: seq<FileData>)
    requires forall p, ps :: f(p, ps).None? || f(p, ps).value == "" || f(p, ps).value in ps
    ensures RenamePass(f, ds, news).Success?
    decreases |ds|
  {
    if ds != [] {
      var result := f(ds[0].path, Paths(news));
      if result.None? || result.value == "" {
        WellBehavedResolverSucceeds(f, ds[1..], news);
      } else {
        WellBehavedResolverSucceeds(f, ds[1..], RemoveAt(news, FindByPath(news, result.value).value));
      }
    }
  }

  /** The pass only fails by naming a non-empty path: falsy answers never throw. */
  lemma {:induction false} RenameFailureNamesPath(f: Resolver, ds: seq<FileData>, news: seq<FileData>)
    ensures RenamePass(f, ds, news).Failure? ==> RenamePass(f, ds, news).error.path != ""
    decreases |ds|
  {
    if ds != [] {
      var result := f(ds[0].path, Paths(news));
      if result.None? || result.value == "" {
        RenameFailureNamesPath(f, ds[1..], news);
      } else if result.value in Paths(news) {
        RenameFailureNamesPath(f, ds[1..], RemoveAt(news, FindByPath(news, result.value).value));
      }
    }
  }

  /** A resolver that never answers leaves the deleted and new entries as they are. */
  lemma {:induction false} SilentResolverKeepsAll(f: Resolver, ds: seq<FileData>, news: seq<FileData>)
    requires forall p, ps :: f(p, ps).None?
    ensures RenamePass(f, ds, news) == Success(Renaming(ds, news, []))
    decreases |ds|
  {
    if ds != [] {
      SilentResolverKeepsAll(f, ds[1..], news);
      assert ds == [ds[0]] + ds[1..];
      var none: seq<(FileData, FileData)> := [];
      assert none + none == none;
    }
  }

  /** With a resolver that never answers, `getChanges` returns what it returns without one. */
  lemma SilentResolverChangesNothing(prev: seq<FileData>, cur: seq<FileData>, f: Resolver)
    requires forall p, ps :: f(p, ps).None?
    ensures Changes(prev, cur, Some(f)) == Changes(prev, cur, None)
  {
    SilentResolverKeepsAll(f, InitialDeleted(prev, cur), InitialNew(prev, cur));
    assert InitialChanged(prev, cur) + [] == InitialChanged(prev, cur);
  }

  /**
   * Two deleted entries whose answers name the same single new entry: the
   * first claims it, and the second answer is then off the list, so the
   * whole pass fails.
   */
  lemma ClaimedTwiceFails(f: Resolver, d1: FileData, d2: FileData, n: FileData)
    requires n.path != "" && forall p, ps :: f(p, ps) == Some(n.path)
    ensures RenamePass(f, [d1, d2], [n]) == Failure(FileNotInNewBuild(n.path))
  {
    assert Paths([n]) == [n.path];
    assert FindByPath([n], n.path) == Some(0);
    assert RemoveAt([n], 0) == [];
    assert Paths([]) == [];
    assert [d1, d2][1..] == [d2];
  }

  // ---------------------------------------------------------------------------
  // A hashed file renamed between builds
  // ---------------------------------------------------------------------------

  const OldApp := FileData("app", "/d/app-aaa.js", 3000, 1000)
  const NewApp := FileData("app", "/d/app-bbb.js", 3500, 1200)

  /** Without a resolver, the old hashed file is deleted and the new one is new. */
  lemma HashChangeWithoutResolver()
    ensures Changes([OldApp], [NewApp], None) == Success(BuildChanges([NewApp], [OldApp], []))
  {
    assert OldApp.path != NewApp.path by {
      assert OldApp.path[7] != NewApp.path[7];
    }
    DisjointBuilds([OldApp], [NewApp]);
  }

  /** A resolver mapping the old path to the new one turns the pair into a change. */
  lemma HashChangeWithResolver(f: Resolver)
    requires f(OldApp.path, [NewApp.path]) == Some(NewApp.path)
    ensures Changes([OldApp], [NewApp], Some(f)) == Success(BuildChanges([], [], [(OldApp, NewApp)]))
  {
    HashChangeWithoutResolver();
    HashChangeRenamePass(f);
    var noPairs: seq<(FileData, FileData)> := [];
    assert noPairs + [(OldApp, NewApp)] == [(OldApp, NewApp)];
  }

  /** The rename pass of that scenario pairs the two entries. */
  lemma HashChangeRenamePass(f: Resolver)
    requires f(OldApp.path, [NewApp.path]) == Some(NewApp.path)
    ensures RenamePass(f, [OldApp], [NewApp]) == Success(Renaming([], [], [(OldApp, NewApp)]))
  {
    assert Paths([NewApp]) == [NewApp.path];
    assert FindByPath([NewApp], NewApp.path) == Some(0);
    assert RemoveAt([NewApp], 0) == [];
    assert [OldApp][1..] == [];
    assert |NewApp.path| > 0;
    var rest := RenamePass(f, [], []);
    assert rest == Success(Renaming([], [], []));
    var none: seq<FileData> := [];
    assert none + none == none && [(OldApp, NewApp)] + [] == [(OldApp, NewApp)];
    assert RenamePass(f, [OldApp], [NewApp]) == Prefixed([], [(OldApp, NewApp)], rest);
  }
}
