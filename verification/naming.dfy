/** Output paths: `os.path.join`, `os.path.splitext` and the "first free
    `_k` suffix" loop that both the main window (main.py:888-896) and the
    quick extractor (quick_transcript_extractor.py:232-241) use to avoid
    overwriting a file.

    The file system is a set of existing paths. The path functions follow
    POSIX `posixpath`.
 */
module Naming {
  import opened Wrappers
  import opened Text

  /** `os.path.join(folder, name)` for two components. */
  function JoinPath(folder: string, name: string): (p: string)
    ensures |name| > 0 && name[0] == '/' ==> p == name
    ensures !(|name| > 0 && name[0] == '/') ==> StartsWith(p, folder) && EndsWith(p, name)
    ensures !(|name| > 0 && name[0] == '/') ==>
              |p| == |folder| + |name| + (if folder == [] || folder[|folder| - 1] == '/' then 0 else 1)
    ensures !(|name| > 0 && name[0] == '/') && |p| > |folder| + |name| ==> p[|folder|] == '/'
  {
    if |name| > 0 && name[0] == '/' then name
    else if folder == [] || folder[|folder| - 1] == '/' then folder + name
    else folder + "/" + name
  }

  /** The last position of `c` in `s`. */
  function LastIndex(s: string, c: char): (r: Option<nat>)
    ensures r.Some? ==> r.value < |s| && s[r.value] == c
    ensures r.Some? ==> forall k :: r.value < k < |s| ==> s[k] != c
    ensures r.None? ==> forall k :: 0 <= k < |s| ==> s[k] != c
  {
    if s == [] then None
    else if s[|s| - 1] == c then Some(|s| - 1)
    else LastIndex(s[..|s| - 1], c)
  }

  /** `os.path.splitext(p)`: the extension starts at the last dot of the
      last path component, unless everything before that dot in the
      component is dots (so `.bashrc` has no extension). */
  function SplitExt(p: string): (r: (string, string))
    ensures r.0 + r.1 == p
    ensures r.1 == [] || (r.1[0] == '.' && forall k :: 0 <= k < |r.1| ==> r.1[k] != '/')
  {
    var sep := LastIndex(p, '/');
    var dot := LastIndex(p, '.');
    var start: int := if sep.Some? then sep.value + 1 else 0;
    if dot.Some? && dot.value >= start && exists k :: start <= k < dot.value && p[k] != '.' then
      (p[..dot.value], p[dot.value..])
    else (p, [])
  }

  /** The `k`-th alternative name `f"{name}_{k}{ext}"`. */
  function Numbered(name: string, k: nat, ext: string): string {
    name + "_" + NatToString(k) + ext
  }

  /** The path tried at round `k`: the original path first, then its
      numbered alternatives. */
  function TriedPath(original: string, k: nat): string {
    if k == 0 then original
    else
      var (name, ext) := SplitExt(original);
      Numbered(name, k, ext)
  }

  /** Different rounds try different paths. */
  lemma TriedPathInjective(original: string, i: nat, j: nat)
    requires TriedPath(original, i) == TriedPath(original, j)
    ensures i == j
  {
    var (name, ext) := SplitExt(original);
    if i > 0 && j > 0 {
      var a, b := NatToString(i), NatToString(j);
      var ci := name + "_" + a + ext;
      assert |a| == |b|;
      assert ci[|name| + 1..|name| + 1 + |a|] == a;
      assert b == a;
      NatToStringInjective(i, j);
    }
  }

  /** `path` is the least free path tried for `original` among `taken`,
      found at round `round`. */
  predicate Chosen(original: string, round: nat, path: string, taken: set<string>) {
    path == TriedPath(original, round) && path !in taken
    && forall j :: 0 <= j < round ==> TriedPath(original, j) in taken
  }

  /** The duplicate-name loop: the original path when it is free, otherwise
      the numbered alternative with the least free `k >= 1`. It returns the
      counter used (0 for the original). */
  method UniquePath(original: string, existing: set<string>) returns (path: string, k: nat)
    ensures Chosen(original, k, path, existing)
  {
    path := original;
    k := 0;
    ghost var seen: map<string, nat> := map[];
    while path in existing
      invariant path == TriedPath(original, k)
      invariant forall j :: 0 <= j < k ==> TriedPath(original, j) in existing
      invariant seen.Keys <= existing && |seen.Keys| == k
      invariant forall t :: t in seen ==> seen[t] < k && TriedPath(original, seen[t]) == t
      decreases |existing| - |seen.Keys|
    {
      if path in seen {
        TriedPathInjective(original, seen[path], k);
      }
      seen := seen[path := k];
      SubsetSize(seen.Keys, existing);
      var (name, ext) := SplitExt(original);
      k := k + 1;
      path := Numbered(name, k, ext);
    }
  }

  /** A name ending in `.txt` whose last component has a character other
      than a dot splits into the stem and `.txt`. */
  lemma SplitTxt(head: string, tail: string)
    requires forall k :: 0 <= k < |tail| ==> tail[k] != '/' && tail[k] != '.'
    requires tail != []
    ensures SplitExt(head + tail + ".txt") == (head + tail, ".txt")
  {
    var p := head + tail + ".txt";
    var dot := |head| + |tail|;
    assert p[dot] == '.';
    assert forall k :: dot < k < |p| ==> p[k] != '.' && p[k] != '/';
    assert LastIndex(p, '.') == Some(dot) by {
      LastIndexAt(p, '.', dot);
    }
    var sep := LastIndex(p, '/');
    assert sep.Some? ==> sep.value < |head|;
    assert p[dot - 1] == tail[|tail| - 1] != '.';
  }

  /** A `.txt` name without '/' or '.' in its stem, joined to a folder,
      splits into the joined stem and `.txt`. */
  lemma JoinTxt(folder: string, stem: string)
    requires stem != [] && forall k :: 0 <= k < |stem| ==> stem[k] != '/' && stem[k] != '.'
    ensures SplitExt(JoinPath(folder, stem + ".txt")) == (JoinPath(folder, stem), ".txt")
  {
    var head := if folder == [] || folder[|folder| - 1] == '/' then folder else folder + "/";
    assert (stem + ".txt")[0] == stem[0];
    assert JoinPath(folder, stem + ".txt") == head + stem + ".txt";
    SplitTxt(head, stem);
  }

  /** The last occurrence is found at the position after which `c` no
      longer occurs. */
  lemma {:induction false} LastIndexAt(s: string, c: char, i: nat)
    requires i < |s| && s[i] == c
    requires forall k :: i < k < |s| ==> s[k] != c
    ensures LastIndex(s, c) == Some(i)
    decreases |s|
  {
    if i < |s| - 1 {
      var t := s[..|s| - 1];
      assert forall k :: i < k < |t| ==> t[k] == s[k];
      LastIndexAt(t, c, i);
    }
  }
}
