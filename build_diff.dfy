/**
 * The build diff engine: previous-build records are matched to current-build
 * records by path and sorted into deleted, new and changed entries; an
 * optional resolver may then pair deleted entries with new ones as renames.
 */
module BuildDiff {
  import opened Wrappers
  import opened JsStrings

  /** One build artifact: display name, path, raw size and gzip size in bytes. */
  datatype FileData = FileData(name: string, path: string, size: nat, gzipSize: nat)

  /**
   * `findRenamed(deletedPath, newPaths)`: picks one of the still-unclaimed new
   * paths for a deleted path, or answers `None` (undefined).
   */
  type Resolver = (string, seq<string>) -> Option<string>

  /** The result of `getChanges`; `changedItems` lists the pairs in the insertion order of its `Map`. */
  datatype BuildChanges = BuildChanges(
    newItems: seq<FileData>,
    deletedItems: seq<FileData>,
    changedItems: seq<(FileData, FileData)>)

  /** The error `getChanges` throws: "findRenamed: File isn't part of the new build". */
  datatype RenameError = FileNotInNewBuild(path: string)

  /** What the rename pass leaves: the deleted entries it kept, the new entries left and the pairs it made. */
  datatype Renaming = Renaming(deleted: seq<FileData>, added: seq<FileData>, renamed: seq<(FileData, FileData)>)

  /** `items.map(i => i.path)`. */
  function Paths(items: seq<FileData>): (ps: seq<string>)
    ensures |ps| == |items| && forall i :: 0 <= i < |items| ==> ps[i] == items[i].path
  {
    seq(|items|, i requires 0 <= i < |items| => items[i].path)
  }

  /** `items.findIndex(e => e.path === path)`, with `None` for -1. */
  function FindByPath(items: seq<FileData>, path: string): (r: Option<nat>)
    ensures r.None? <==> path !in Paths(items)
    ensures r.Some? ==> r.value < |items| && items[r.value].path == path
    ensures r.Some? ==> forall i :: 0 <= i < r.value ==> items[i].path != path
  {
    var k := IndexOfElem(Paths(items), path);
    if k == -1 then None else Some(k)
  }

  /** No two entries share a path (what the current build gets from de-duplicating its file list). */
  predicate PathUnique(items: seq<FileData>) {
    forall i, j :: 0 <= i < j < |items| ==> items[i].path != items[j].path
  }

  // ---------------------------------------------------------------------------
  // Specification of getChanges
  // ---------------------------------------------------------------------------

  /** Previous entries with no current entry of the same path, in previous-build order. */
  function InitialDeleted(prev: seq<FileData>, cur: seq<FileData>): seq<FileData>
  {
    if prev == [] then []
    else
      var last := prev[|prev| - 1];
      InitialDeleted(prev[..|prev| - 1], cur) + (if last.path in Paths(cur) then [] else [last])
  }

  /**
   * Pairs of a previous entry and the first current entry with its path, for
   * those whose gzip sizes differ, in previous-build order.
   */
  function InitialChanged(prev: seq<FileData>, cur: seq<FileData>): seq<(FileData, FileData)>
  {
    if prev == [] then []
    else InitialChanged(prev[..|prev| - 1], cur) + ChangedPairOf(prev[|prev| - 1], cur)
  }

  /** The pair a previous entry contributes to `changedItems` in the first loop: none or one. */
  function ChangedPairOf(x: FileData, cur: seq<FileData>): seq<(FileData, FileData)>
  {
    match FindByPath(cur, x.path)
    case Some(j) => if cur[j].gzipSize != x.gzipSize then [(x, cur[j])] else []
    case None => []
  }

  /** The positions in `cur` of the entries that some previous entry's path lookup returns. */
  function MatchedEntries(prev: seq<FileData>, cur: seq<FileData>): set<nat>
  {
    if prev == [] then {}
    else MatchedEntries(prev[..|prev| - 1], cur) + MatchOf(prev[|prev| - 1], cur)
  }

  /** The position a previous entry's path lookup returns, as a set of none or one. */
  function MatchOf(x: FileData, cur: seq<FileData>): set<nat>
  {
    match FindByPath(cur, x.path)
    case Some(j) => {j}
    case None => {}
  }

  /** `cur[..n]` without the entries at the positions in `matched`, in current-build order. */
  function Unmatched(cur: seq<FileData>, matched: set<nat>, n: nat): seq<FileData>
    requires n <= |cur|
  {
    if n == 0 then []
    else Unmatched(cur, matched, n - 1) + (if n - 1 in matched then [] else [cur[n - 1]])
  }

  /** Current entries no previous entry matched, in current-build order. */
  function InitialNew(prev: seq<FileData>, cur: seq<FileData>): seq<FileData>
  {
    Unmatched(cur, MatchedEntries(prev, cur), |cur|)
  }

  /**
   * The rename pass over the deleted entries `ds`, in order, against the new
   * entries `news`: an answer that is undefined or empty keeps the entry
   * deleted; an answer outside the current new paths is an error; any other
   * answer pairs the entry with the first new entry of that path, whatever
   * their sizes, and takes that entry out of the new ones.
   */
  function RenamePass(findRenamed: Resolver, ds: seq<FileData>, news: seq<FileData>): Result<Renaming, RenameError>
    decreases |ds|
  {
    if ds == [] then Success(Renaming([], news, []))
    else
      var result := findRenamed(ds[0].path, Paths(news));
      if result.None? || result.value == "" then
        Prefixed([ds[0]], [], RenamePass(findRenamed, ds[1..], news))
      else if result.value !in Paths(news) then
        Failure(FileNotInNewBuild(result.value))
      else
        var j := FindByPath(news, result.value).value;
        Prefixed([], [(ds[0], news[j])], RenamePass(findRenamed, ds[1..], RemoveAt(news, j)))
  }

  /** A rename outcome with `kept` in front of its deleted entries and `pairs` in front of its renames. */
  function Prefixed(kept: seq<FileData>, pairs: seq<(FileData, FileData)>, r: Result<Renaming, RenameError>)
    : Result<Renaming, RenameError>
  {
    match r
    case Failure(e) => Failure(e)
    case Success(o) => Success(Renaming(kept + o.deleted, o.added, pairs + o.renamed))
  }

  /** Prefixing nothing changes nothing. */
  lemma PrefixedNothing(r: Result<Renaming, RenameError>)
    ensures Prefixed([], [], r) == r
  {
    if r.Success? {
      assert [] + r.value.deleted == r.value.deleted;
      assert [] + r.value.renamed == r.value.renamed;
    }
  }

  /** What `getChanges(previousBuildInfo, buildInfo, findRenamed)` returns or throws. */
  function Changes(prev: seq<FileData>, cur: seq<FileData>, findRenamed: Option<Resolver>)
    : Result<BuildChanges, RenameError>
  {
    var deleted, added, changed := InitialDeleted(prev, cur), InitialNew(prev, cur), InitialChanged(prev, cur);
    if findRenamed.None? then Success(BuildChanges(added, deleted, changed))
    else
      match RenamePass(findRenamed.value, deleted, added)
      case Failure(e) => Failure(e)
      case Success(o) => Success(BuildChanges(o.added, o.deleted, changed + o.renamed))
  }

  // ---------------------------------------------------------------------------
  // getChanges
  // ---------------------------------------------------------------------------

  /** Strictly increasing references, as a filtered list of positions is. */
  predicate Increasing(refs: seq<nat>) {
    forall a, b :: 0 <= a < b < |refs| ==> refs[a] < refs[b]
  }

  /** Appending a reference above all others keeps references increasing. */
  lemma IncreasingAppend(refs: seq<nat>, x: nat)
    requires Increasing(refs) && forall k :: 0 <= k < |refs| ==> refs[k] < x
    ensures Increasing(refs + [x])
  {
  }

  /** References that all point into `items`. */
  predicate ValidRefs(items: seq<FileData>, refs: seq<nat>) {
    forall k :: 0 <= k < |refs| ==> refs[k] < |items|
  }

  /** The entries the references `refs` point to. */
  function Deref(items: seq<FileData>, refs: seq<nat>): (r: seq<FileData>)
    requires ValidRefs(items, refs)
    ensures |r| == |refs| && forall k :: 0 <= k < |refs| ==> r[k] == items[refs[k]]
  {
    seq(|refs|, k requires 0 <= k < |refs| => items[refs[k]])
  }

  /** One more previous entry extends each of the initial lists by at most one element. */
  lemma InitialStep(prev: seq<FileData>, cur: seq<FileData>, i: nat)
    requires i < |prev|
    ensures var p, last := prev[..i + 1], prev[i];
      && InitialDeleted(p, cur) == InitialDeleted(prev[..i], cur) + (if last.path in Paths(cur) then [] else [last])
      && InitialChanged(p, cur) == InitialChanged(prev[..i], cur) + ChangedPairOf(last, cur)
      && MatchedEntries(p, cur) == MatchedEntries(prev[..i], cur) + MatchOf(last, cur)
  {
    assert prev[..i + 1][..i] == prev[..i];
  }

  /** The positions in `prev[..n]` of the entries `InitialDeleted` keeps. */
  function DeletedRefs(prev: seq<FileData>, cur: seq<FileData>, n: nat): seq<nat>
    requires n <= |prev|
  {
    if n == 0 then []
    else DeletedRefs(prev, cur, n - 1) + (if prev[n - 1].path in Paths(cur) then [] else [n - 1])
  }

  /** The deleted references are increasing positions below `n` that point at `InitialDeleted(prev[..n], cur)`. */
  lemma {:induction false} DeletedRefsDeref(prev: seq<FileData>, cur: seq<FileData>, n: nat)
    requires n <= |prev|
    ensures Increasing(DeletedRefs(prev, cur, n))
    ensures forall k :: 0 <= k < |DeletedRefs(prev, cur, n)| ==> DeletedRefs(prev, cur, n)[k] < n
    ensures Deref(prev, DeletedRefs(prev, cur, n)) == InitialDeleted(prev[..n], cur)
  {
    if n > 0 {
      DeletedRefsDeref(prev, cur, n - 1);
      assert prev[..n][..n - 1] == prev[..n - 1];
      if prev[n - 1].path !in Paths(cur) {
        IncreasingAppend(DeletedRefs(prev, cur, n - 1), n - 1);
      }
    }
  }

  /** The state of the first loop of `getChanges` after the first `i` previous entries. */
  predicate MatchState(prev: seq<FileData>, cur: seq<FileData>, i: nat, deletedItems: seq<nat>,
                       changedItems: seq<(FileData, FileData)>, matchedNewEntries: set<nat>)
  {
    && i <= |prev|
    && deletedItems == DeletedRefs(prev, cur, i)
    && changedItems == InitialChanged(prev[..i], cur)
    && matchedNewEntries == MatchedEntries(prev[..i], cur)
  }

  /** Visiting entry `i` whose path the current build lacks adds its reference to the deleted ones. */
  lemma MatchStateMissing(prev: seq<FileData>, cur: seq<FileData>, i: nat, deletedItems: seq<nat>,
                          changedItems: seq<(FileData, FileData)>, matchedNewEntries: set<nat>)
    requires MatchState(prev, cur, i, deletedItems, changedItems, matchedNewEntries) && i < |prev|
    requires FindByPath(cur, prev[i].path).None?
    ensures MatchState(prev, cur, i + 1, deletedItems + [i], changedItems, matchedNewEntries)
  {
    InitialStep(prev, cur, i);
  }

  /**
   * Visiting entry `i` whose path is found at `j` records the match, and a
   * pair when the gzip sizes differ.
   */
  lemma MatchStateFound(prev: seq<FileData>, cur: seq<FileData>, i: nat, deletedItems: seq<nat>,
                        changedItems: seq<(FileData, FileData)>, matchedNewEntries: set<nat>, j: nat)
    requires MatchState(prev, cur, i, deletedItems, changedItems, matchedNewEntries) && i < |prev|
    requires FindByPath(cur, prev[i].path) == Some(j)
    ensures MatchState(prev, cur, i + 1, deletedItems,
                       changedItems + (if prev[i].gzipSize != cur[j].gzipSize then [(prev[i], cur[j])] else []),
                       matchedNewEntries + {j})
  {
    InitialStep(prev, cur, i);
  }

  /**
   * The first loop of `getChanges`: each previous entry is looked up by path
   * in the current build; unmatched ones are referenced in `deletedItems`,
   * matched current entries are recorded, and a pair is kept when the gzip
   * sizes differ.
   */
  method MatchPrevious(prev: seq<FileData>, cur: seq<FileData>)
    returns (deletedItems: seq<nat>, changedItems: seq<(FileData, FileData)>, matchedNewEntries: set<nat>)
    ensures Increasing(deletedItems) && ValidRefs(prev, deletedItems)
    ensures Deref(prev, deletedItems) == InitialDeleted(prev, cur)
    ensures changedItems == InitialChanged(prev, cur)
    ensures matchedNewEntries == MatchedEntries(prev, cur)
  {
    deletedItems, changedItems, matchedNewEntries := [], [], {};
    var i := 0;
    while i < |prev|
      invariant MatchState(prev, cur, i, deletedItems, changedItems, matchedNewEntries)
    {
      var oldEntry := prev[i];
      var newEntry := FindByPath(cur, oldEntry.path);
      if newEntry.None? {
        MatchStateMissing(prev, cur, i, deletedItems, changedItems, matchedNewEntries);
        deletedItems := deletedItems + [i];
      } else {
        MatchStateFound(prev, cur, i, deletedItems, changedItems, matchedNewEntries, newEntry.value);
        matchedNewEntries := matchedNewEntries + {newEntry.value};
        if oldEntry.gzipSize != cur[newEntry.value].gzipSize {
          changedItems := changedItems + [(oldEntry, cur[newEntry.value])];
        } else {
          assert changedItems + [] == changedItems;
        }
      }
      i := i + 1;
    }
    MatchStateDone(prev, cur, deletedItems, changedItems, matchedNewEntries);
  }

  /** After the last previous entry, the loop state is the specification of the first loop. */
  lemma MatchStateDone(prev: seq<FileData>, cur: seq<FileData>, deletedItems: seq<nat>,
                       changedItems: seq<(FileData, FileData)>, matchedNewEntries: set<nat>)
    requires MatchState(prev, cur, |prev|, deletedItems, changedItems, matchedNewEntries)
    ensures Increasing(deletedItems) && ValidRefs(prev, deletedItems)
    ensures Deref(prev, deletedItems) == InitialDeleted(prev, cur)
    ensures changedItems == InitialChanged(prev, cur)
    ensures matchedNewEntries == MatchedEntries(prev, cur)
  {
    assert prev[..|prev|] == prev;
    DeletedRefsDeref(prev, cur, |prev|);
  }

  /** The second loop of `getChanges`: current entries not in `matchedNewEntries`, in order. */
  method CollectNew(cur: seq<FileData>, matchedNewEntries: set<nat>) returns (newItems: seq<FileData>)
    ensures newItems == Unmatched(cur, matchedNewEntries, |cur|)
  {
    newItems := [];
    var j := 0;
    while j < |cur|
      invariant j <= |cur|
      invariant newItems == Unmatched(cur, matchedNewEntries, j)
    {
      if j !in matchedNewEntries {
        newItems := newItems + [cur[j]];
      }
      j := j + 1;
    }
  }

  /** An answer that is undefined or empty keeps the deleted entry and moves on. */
  lemma RenameStepKept(f: Resolver, ds: seq<FileData>, news: seq<FileData>,
                       kept: seq<FileData>, pairs: seq<(FileData, FileData)>)
    requires ds != []
    requires f(ds[0].path, Paths(news)).None? || f(ds[0].path, Paths(news)).value == ""
    ensures Prefixed(kept, pairs, RenamePass(f, ds, news)) == Prefixed(kept + [ds[0]], pairs, RenamePass(f, ds[1..], news))
  {
    var rest := RenamePass(f, ds[1..], news);
    assert RenamePass(f, ds, news) == Prefixed([ds[0]], [], rest);
    PrefixedPrefixed(kept, pairs, [ds[0]], [], rest);
    assert pairs + [] == pairs;
  }

  /** An answer naming a current new path pairs the deleted entry with the first new entry of that path. */
  lemma RenameStepPaired(f: Resolver, ds: seq<FileData>, news: seq<FileData>,
                         kept: seq<FileData>, pairs: seq<(FileData, FileData)>, j: nat)
    requires ds != [] && f(ds[0].path, Paths(news)).Some?
    requires f(ds[0].path, Paths(news)).value != "" && f(ds[0].path, Paths(news)).value in Paths(news)
    requires FindByPath(news, f(ds[0].path, Paths(news)).value) == Some(j)
    ensures Prefixed(kept, pairs, RenamePass(f, ds, news))
      == Prefixed(kept, pairs + [(ds[0], news[j])], RenamePass(f, ds[1..], RemoveAt(news, j)))
  {
    var rest := RenamePass(f, ds[1..], RemoveAt(news, j));
    assert RenamePass(f, ds, news) == Prefixed([], [(ds[0], news[j])], rest);
    PrefixedPrefixed(kept, pairs, [], [(ds[0], news[j])], rest);
    assert kept + [] == kept;
  }

  /** Prefixing twice is prefixing the concatenations. */
  lemma PrefixedPrefixed(kept: seq<FileData>, pairs: seq<(FileData, FileData)>,
                         kept': seq<FileData>, pairs': seq<(FileData, FileData)>, r: Result<Renaming, RenameError>)
    ensures Prefixed(kept, pairs, Prefixed(kept', pairs', r)) == Prefixed(kept + kept', pairs + pairs', r)
  {
    if r.Success? {
      assert kept + (kept' + r.value.deleted) == kept + kept' + r.value.deleted;
      assert pairs + (pairs' + r.value.renamed) == pairs + pairs' + r.value.renamed;
    }
  }

  /** Taking out one entry takes out its path at the same position. */
  lemma PathsRemoveAt(items: seq<FileData>, j: nat)
    requires j < |items|
    ensures Paths(RemoveAt(items, j)) == RemoveAt(Paths(items), j)
  {
  }

  /**
   * In increasing references `kept + rest`, the first of `rest` is found
   * right after `kept`, and taking it out leaves increasing references.
   */
  lemma RemoveNextRef(kept: seq<nat>, rest: seq<nat>)
    requires rest != [] && Increasing(kept + rest)
    ensures IndexOfElem(kept + rest, rest[0]) == |kept|
    ensures RemoveAt(kept + rest, |kept|) == kept + rest[1..]
    ensures Increasing(kept + rest[1..])
  {
    var all := kept + rest;
    assert all[|kept|] == rest[0];
    forall i | 0 <= i < |kept| ensures all[i] != rest[0] {
      assert all[i] < all[|kept|];
    }
    assert RemoveAt(all, |kept|) == kept + rest[1..];
    IncreasingRemoveAt(all, |kept|);
  }

  /** Removing one reference keeps references increasing. */
  lemma IncreasingRemoveAt(refs: seq<nat>, i: nat)
    requires i < |refs| && Increasing(refs)
    ensures Increasing(RemoveAt(refs, i))
  {
    var r := RemoveAt(refs, i);
    forall a, b | 0 <= a < b < |r| ensures r[a] < r[b] {
      var a', b' := if a < i then a else a + 1, if b < i then b else b + 1;
      assert r[a] == refs[a'] && r[b] == refs[b'];
    }
  }

  /** The entries behind a suffix of references, split into the first and the others. */
  lemma DerefSuffix(prev: seq<FileData>, refs: seq<nat>, k: nat)
    requires ValidRefs(prev, refs) && k < |refs|
    ensures ValidRefs(prev, refs[k..]) && ValidRefs(prev, refs[k + 1..])
    ensures Deref(prev, refs[k..]) == [prev[refs[k]]] + Deref(prev, refs[k + 1..])
  {
  }

  /**
   * The state of the rename loop after `k` of the snapshot `orig` of the
   * deleted references: the references still deleted are the kept ones
   * followed by those not yet visited, `newPaths` mirrors `newItems`, and
   * what is left of the pass completes the whole pass `spec`.
   */
  predicate RenameState(resolve: Resolver, prev: seq<FileData>, orig: seq<nat>, k: nat,
                        deletedItems: seq<nat>, keptRefs: seq<nat>, renamed: seq<(FileData, FileData)>,
                        newItems: seq<FileData>, newPaths: seq<string>, spec: Result<Renaming, RenameError>)
  {
    && k <= |orig| && ValidRefs(prev, orig) && ValidRefs(prev, keptRefs)
    && newPaths == Paths(newItems)
    && deletedItems == keptRefs + orig[k..]
    && Increasing(deletedItems)
    && ValidRefs(prev, orig[k..])
    && spec == Prefixed(Deref(prev, keptRefs), renamed, RenamePass(resolve, Deref(prev, orig[k..]), newItems))
  }

  /** Before the loop, the whole pass is still ahead. */
  lemma RenameStateInit(resolve: Resolver, prev: seq<FileData>, deleted: seq<nat>, added: seq<FileData>)
    requires Increasing(deleted) && ValidRefs(prev, deleted)
    ensures RenameState(resolve, prev, deleted, 0, deleted, [], [], added, Paths(added),
                        RenamePass(resolve, Deref(prev, deleted), added))
  {
    assert deleted[0..] == deleted && [] + deleted == deleted;
    assert Deref(prev, []) == [];
    PrefixedNothing(RenamePass(resolve, Deref(prev, deleted), added));
  }

  /** An undefined or empty answer moves the visited reference to the kept ones. */
  lemma RenameStateKept(resolve: Resolver, prev: seq<FileData>, orig: seq<nat>, k: nat,
                        deletedItems: seq<nat>, keptRefs: seq<nat>, renamed: seq<(FileData, FileData)>,
                        newItems: seq<FileData>, newPaths: seq<string>, spec: Result<Renaming, RenameError>)
    requires RenameState(resolve, prev, orig, k, deletedItems, keptRefs, renamed, newItems, newPaths, spec)
    requires k < |orig|
    requires resolve(prev[orig[k]].path, newPaths).None? || resolve(prev[orig[k]].path, newPaths).value == ""
    ensures RenameState(resolve, prev, orig, k + 1, deletedItems, keptRefs + [orig[k]], renamed, newItems, newPaths, spec)
  {
    DerefSuffix(prev, orig, k);
    var ds := Deref(prev, orig[k..]);
    assert ds[0] == prev[orig[k]] && ds[1..] == Deref(prev, orig[k + 1..]);
    RenameStepKept(resolve, ds, newItems, Deref(prev, keptRefs), renamed);
    KeepRef(prev, orig, k, keptRefs, deletedItems);
  }

  /** Moving the visited reference to the kept ones leaves the deleted references as they are. */
  lemma KeepRef(prev: seq<FileData>, orig: seq<nat>, k: nat, keptRefs: seq<nat>, deletedItems: seq<nat>)
    requires ValidRefs(prev, orig) && ValidRefs(prev, keptRefs) && k < |orig|
    requires deletedItems == keptRefs + orig[k..]
    ensures ValidRefs(prev, keptRefs + [orig[k]])
    ensures Deref(prev, keptRefs + [orig[k]]) == Deref(prev, keptRefs) + [prev[orig[k]]]
    ensures deletedItems == (keptRefs + [orig[k]]) + orig[k + 1..]
  {
    assert orig[k..] == [orig[k]] + orig[k + 1..];
  }

  /** An answer outside the current new paths makes the whole pass fail with it. */
  lemma RenameStateFailed(resolve: Resolver, prev: seq<FileData>, orig: seq<nat>, k: nat,
                          deletedItems: seq<nat>, keptRefs: seq<nat>, renamed: seq<(FileData, FileData)>,
                          newItems: seq<FileData>, newPaths: seq<string>, spec: Result<Renaming, RenameError>)
    requires RenameState(resolve, prev, orig, k, deletedItems, keptRefs, renamed, newItems, newPaths, spec)
    requires k < |orig|
    requires resolve(prev[orig[k]].path, newPaths).Some?
    requires resolve(prev[orig[k]].path, newPaths).value != ""
    requires resolve(prev[orig[k]].path, newPaths).value !in newPaths
    ensures spec == Failure(FileNotInNewBuild(resolve(prev[orig[k]].path, newPaths).value))
  {
    DerefSuffix(prev, orig, k);
    var ds := Deref(prev, orig[k..]);
    assert ds[0] == prev[orig[k]];
  }

  /**
   * An answer naming a current new path takes the visited reference out of
   * the deleted ones, the path out of `newPaths` at the position where
   * `newItems` has its first entry, and pairs the two entries.
   */
  lemma RenameStatePaired(resolve: Resolver, prev: seq<FileData>, orig: seq<nat>, k: nat,
                          deletedItems: seq<nat>, keptRefs: seq<nat>, renamed: seq<(FileData, FileData)>,
                          newItems: seq<FileData>, newPaths: seq<string>, spec: Result<Renaming, RenameError>)
    requires RenameState(resolve, prev, orig, k, deletedItems, keptRefs, renamed, newItems, newPaths, spec)
    requires k < |orig|
    requires resolve(prev[orig[k]].path, newPaths).Some?
    requires resolve(prev[orig[k]].path, newPaths).value != ""
    requires resolve(prev[orig[k]].path, newPaths).value in newPaths
    ensures var path := resolve(prev[orig[k]].path, newPaths).value;
      var j := FindByPath(newItems, path).value;
      && IndexOfElem(newPaths, path) == j
      && IndexOfElem(deletedItems, orig[k]) == |keptRefs|
      && RenameState(resolve, prev, orig, k + 1, RemoveAt(deletedItems, |keptRefs|), keptRefs,
                     renamed + [(prev[orig[k]], newItems[j])], RemoveAt(newItems, j), RemoveAt(newPaths, j), spec)
  {
    var path := resolve(prev[orig[k]].path, newPaths).value;
    var j := FindByPath(newItems, path).value;
    DerefSuffix(prev, orig, k);
    var ds := Deref(prev, orig[k..]);
    assert ds[0] == prev[orig[k]] && ds[1..] == Deref(prev, orig[k + 1..]);
    RenameStepPaired(resolve, ds, newItems, Deref(prev, keptRefs), renamed, j);
    PathsRemoveAt(newItems, j);
    RemoveNextRef(keptRefs, orig[k..]);
    assert orig[k..][1..] == orig[k + 1..];
  }

  /** After the last reference, the state is the outcome of the whole pass. */
  lemma RenameStateDone(resolve: Resolver, prev: seq<FileData>, orig: seq<nat>,
                        deletedItems: seq<nat>, keptRefs: seq<nat>, renamed: seq<(FileData, FileData)>,
                        newItems: seq<FileData>, newPaths: seq<string>, spec: Result<Renaming, RenameError>)
    requires RenameState(resolve, prev, orig, |orig|, deletedItems, keptRefs, renamed, newItems, newPaths, spec)
    ensures ValidRefs(prev, deletedItems)
    ensures spec == Success(Renaming(Deref(prev, deletedItems), newItems, renamed))
  {
    assert orig[|orig|..] == [] && deletedItems == keptRefs;
    assert Deref(prev, []) == [];
    var d := Deref(prev, keptRefs);
    assert d + [] == d && renamed + [] == renamed;
  }

  /**
   * The rename loop of `getChanges`, over a snapshot of the deleted
   * references, with `newPaths` kept equal to the paths of `newItems`.
   */
  method ResolveRenames(resolve: Resolver, prev: seq<FileData>, deleted: seq<nat>, added: seq<FileData>)
    returns (r: Result<Renaming, RenameError>)
    requires Increasing(deleted) && ValidRefs(prev, deleted)
    ensures r == RenamePass(resolve, Deref(prev, deleted), added)
  {
    var deletedItems, newItems := deleted, added;
    var originalDeletedItems := deletedItems;
    var newPaths := Paths(newItems);
    ghost var spec := RenamePass(resolve, Deref(prev, deleted), added);
    ghost var keptRefs: seq<nat> := [];
    var renamed: seq<(FileData, FileData)> := [];
    RenameStateInit(resolve, prev, deleted, added);
    for k := 0 to |originalDeletedItems|
      invariant RenameState(resolve, prev, originalDeletedItems, k, deletedItems, keptRefs, renamed, newItems, newPaths, spec)
    {
      var deletedItem := originalDeletedItems[k];
      var result := resolve(prev[deletedItem].path, newPaths);
      if result.None? || result.value == "" {
        RenameStateKept(resolve, prev, originalDeletedItems, k, deletedItems, keptRefs, renamed, newItems, newPaths, spec);
        keptRefs := keptRefs + [deletedItem];
        continue;
      }
      if result.value !in newPaths {
        RenameStateFailed(resolve, prev, originalDeletedItems, k, deletedItems, keptRefs, renamed, newItems, newPaths, spec);
        return Failure(FileNotInNewBuild(result.value));
      }
      RenameStatePaired(resolve, prev, originalDeletedItems, k, deletedItems, keptRefs, renamed, newItems, newPaths, spec);
      newPaths := RemoveAt(newPaths, IndexOfElem(newPaths, result.value));
      deletedItems := RemoveAt(deletedItems, IndexOfElem(deletedItems, deletedItem));
      var newItemIndex := FindByPath(newItems, result.value).value;
      renamed := renamed + [(prev[deletedItem], newItems[newItemIndex])];
      newItems := RemoveAt(newItems, newItemIndex);
    }
    RenameStateDone(resolve, prev, originalDeletedItems, deletedItems, keptRefs, renamed, newItems, newPaths, spec);
    r := Success(Renaming(Deref(prev, deletedItems), newItems, renamed));
  }

  /**
   * `getChanges`. Objects are compared by identity in the source
   * (`matchedNewEntries`, `deletedItems.indexOf`); here a reference to a
   * previous or current entry is its position in its build list.
   */
  method GetChanges(previousBuildInfo: seq<FileData>, buildInfo: seq<FileData>, findRenamed: Option<Resolver>)
    returns (r: Result<BuildChanges, RenameError>)
    ensures r == Changes(previousBuildInfo, buildInfo, findRenamed)
  {
    var deletedItems, changedItems, matchedNewEntries := MatchPrevious(previousBuildInfo, buildInfo);
    var newItems := CollectNew(buildInfo, matchedNewEntries);
    if findRenamed.None? {
      return Success(BuildChanges(newItems, Deref(previousBuildInfo, deletedItems), changedItems));
    }
    var renaming := ResolveRenames(findRenamed.value, previousBuildInfo, deletedItems, newItems);
    match renaming
    case Failure(e) => r := Failure(e);
    case Success(o) => r := Success(BuildChanges(o.added, o.deleted, changedItems + o.renamed));
  }
}
