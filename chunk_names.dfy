/**
 * The display name of a build artifact: the part of its file name between the
 * last `/` and the last `-` (which strips a content-hash suffix such as
 * `app-abc123.js` to `app`), with every `~` escaped for a markdown table.
 */
module ChunkNames {
  import opened JsStrings

  /** The number of times `c` occurs in `s`. */
  function Count(s: string, c: char): (n: nat)
    ensures n <= |s|
  {
    if s == [] then 0 else (if s[0] == c then 1 else 0) + Count(s[1..], c)
  }

  /** Every `~` of `r` has a backslash right before it. */
  predicate TildesEscaped(r: string) {
    forall i :: 0 <= i < |r| && r[i] == '~' ==> i > 0 && r[i - 1] == '\\'
  }

  /** `str.replace(/\~/g, '\\~')`: every tilde gets a backslash in front of it. */
  function EscapeTilde(s: string): (r: string)
    ensures |r| == |s| + Count(s, '~')
    ensures r == [] <==> s == []
    ensures TildesEscaped(r)
  {
    if s == [] then []
    else
      var rest := EscapeTilde(s[1..]);
      var r := (if s[0] == '~' then "\\~" else [s[0]]) + rest;
      assert forall i :: 1 <= i < |r| - |rest| ==> r[i] == '~';
      assert forall i :: |r| - |rest| <= i < |r| ==> r[i] == rest[i - (|r| - |rest|)];
      r
  }

  /** Reads an escaped name back: a backslash followed by a tilde stands for the tilde. */
  function UnescapeTilde(r: string): string
  {
    if r == [] then []
    else if |r| >= 2 && r[0] == '\\' && r[1] == '~' then "~" + UnescapeTilde(r[2..])
    else [r[0]] + UnescapeTilde(r[1..])
  }

  /** Escaping loses nothing: it only inserts the backslashes, and they can be taken out again. */
  lemma {:induction false} EscapeTildeInvertible(s: string)
    ensures UnescapeTilde(EscapeTilde(s)) == s
  {
    if s != [] {
      EscapeTildeInvertible(s[1..]);
      var rest := EscapeTilde(s[1..]);
      if s[0] == '~' {
        assert EscapeTilde(s) == "\\~" + rest;
        assert (EscapeTilde(s))[2..] == rest;
      } else {
        assert EscapeTilde(s) == [s[0]] + rest;
        assert (EscapeTilde(s))[1..] == rest;
      }
    }
  }

  /** A string without tildes is its own escaped form. */
  lemma {:induction false} EscapeTildeIdentity(s: string)
    requires '~' !in s
    ensures EscapeTilde(s) == s
  {
    if s != [] {
      EscapeTildeIdentity(s[1..]);
      assert s == [s[0]] + s[1..];
    }
  }

  /**
   * The `name` of a `FileData`:
   * `escapeTilde(path.substring(path.lastIndexOf('/') + 1, path.lastIndexOf('-')))`.
   */
  function DisplayName(path: string): (r: string)
    ensures TildesEscaped(r)
    ensures |r| <= 2 * |path|
  {
    EscapeTilde(Substring(path, LastIndexOf(path, '/') + 1, LastIndexOf(path, '-')))
  }

  /**
   * The three shapes of a display name. With the last hyphen after the last
   * slash it is the text between them; with no hyphen at all it is the whole
   * directory prefix up to and including the last slash; with the last hyphen
   * before the last slash `substring` swaps its bounds and it runs from that
   * hyphen to just past the slash.
   */
  lemma DisplayNameCases(path: string)
    ensures var slash, hyphen := LastIndexOf(path, '/'), LastIndexOf(path, '-');
      && (slash < hyphen ==> DisplayName(path) == EscapeTilde(path[slash + 1..hyphen]))
      && (hyphen == -1 ==> DisplayName(path) == EscapeTilde(path[..slash + 1]))
      && (0 <= hyphen < slash ==> DisplayName(path) == EscapeTilde(path[hyphen..slash + 1]))
  {
  }

  /** A hashed file name `dir/stem-hash` is displayed as its stem. */
  lemma StemOfHashedName(dir: string, stem: string, hash: string)
    requires '/' !in stem && '/' !in hash && '-' !in hash
    ensures DisplayName(dir + ['/'] + stem + ['-'] + hash) == EscapeTilde(stem)
  {
    HashedNameParts(dir, stem, hash);
    DisplayNameBetween(dir + ['/'] + stem + ['-'] + hash, |dir|, |dir| + 1 + |stem|, stem);
  }

  /** Where the separators of `dir/stem-hash` are, and what lies between them. */
  lemma HashedNameParts(dir: string, stem: string, hash: string)
    requires '/' !in stem && '/' !in hash && '-' !in hash
    ensures var path := dir + ['/'] + stem + ['-'] + hash;
      && LastIndexOf(path, '/') == |dir|
      && LastIndexOf(path, '-') == |dir| + 1 + |stem|
      && path[|dir| + 1..|dir| + 1 + |stem|] == stem
  {
    SlashBeforeStem(dir, stem, hash);
    LastIndexOfSplit(dir + ['/'] + stem, '-', hash);
    StemSlice(dir, stem, hash);
  }

  /** The characters between the separators of `dir/stem-hash` are the stem. */
  lemma StemSlice(dir: string, stem: string, hash: string)
    ensures (dir + ['/'] + stem + ['-'] + hash)[|dir| + 1..|dir| + 1 + |stem|] == stem
  {
  }

  /** The last slash of `dir/stem-hash` is the one after `dir`. */
  lemma SlashBeforeStem(dir: string, stem: string, hash: string)
    requires '/' !in stem && '/' !in hash
    ensures LastIndexOf(dir + ['/'] + stem + ['-'] + hash, '/') == |dir|
  {
    var tail := stem + ['-'] + hash;
    assert dir + ['/'] + stem + ['-'] + hash == dir + ['/'] + tail;
    LastIndexOfSplit(dir, '/', tail);
  }

  /** With the last slash before the last hyphen, the name is the text between them. */
  lemma DisplayNameBetween(path: string, slash: nat, hyphen: nat, name: string)
    requires LastIndexOf(path, '/') == slash < hyphen == LastIndexOf(path, '-')
    requires path[slash + 1..hyphen] == name
    ensures DisplayName(path) == EscapeTilde(name)
  {
    DisplayNameCases(path);
  }

  /** The last `c` of `a + [c] + b` is the separator when `b` has none. */
  lemma LastIndexOfSplit(a: string, c: char, b: string)
    requires c !in b
    ensures LastIndexOf(a + [c] + b, c) == |a|
  {
    var s := a + [c] + b;
    forall i | |a| < i < |s| ensures s[i] != c {
      assert s[i] == b[i - |a| - 1];
    }
    LastIndexOfAt(s, c, |a|);
  }
}
