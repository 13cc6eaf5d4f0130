/** The relative-path index `main` builds for each directory:
    `{os.path.relpath(path, directory): path for path in files}`. */
module PathIndex {
  import opened Common

  /** `os.path.join(root, rest)` for a root without a trailing separator and
      a `rest` that does not start with a separator, as every name `os.walk`
      lists; `os.path.join` returns an absolute `rest` unchanged, which this
      function does not model. Under that reading, the joined path is one the
      walk of `root` produces exactly when `rest` is non-empty and does not
      start with a separator. */
  function Join(root: Path, rest: Path): (p: Path)
    ensures Under(root, p) <==> rest != [] && rest[0] != '/'
  {
    var p := root + "/" + rest;
    assert p[..|root|] == root && p[|root|] == '/';
    assert |rest| > 0 ==> p[|root| + 1] == rest[0];
    p
  }

  /** A path as the walk of `root` produces it: the root, a separator, then
      a non-empty remainder that does not start with a separator. */
  predicate Under(root: Path, p: Path) {
    |p| > |root| + 1 && p[..|root|] == root && p[|root|] == '/' && p[|root| + 1] != '/'
  }

  /** `os.path.relpath(p, root)` for a path the walk of `root` produced. */
  function RelPath(root: Path, p: Path): (rel: Path)
    requires Under(root, p)
    ensures Join(root, rel) == p
    ensures rel != [] && rel[0] != '/'
  {
    assert p == p[..|root|] + "/" + p[|root| + 1..];
    p[|root| + 1..]
  }

  /** Joining a relative path to the root and taking it relative again
      gives the relative path back. */
  lemma RelPathOfJoin(root: Path, rel: Path)
    requires rel != [] && rel[0] != '/'
    ensures Under(root, Join(root, rel)) && RelPath(root, Join(root, rel)) == rel
  {
  }

  /** Two walked paths with the same relative path are the same path. */
  lemma RelPathInjective(root: Path, p: Path, q: Path)
    requires Under(root, p) && Under(root, q)
    ensures RelPath(root, p) == RelPath(root, q) <==> p == q
  {
  }

  /** The dictionary from relative path to walked path. */
  function RelIndex(root: Path, files: set<Path>): (index: map<Path, Path>)
    requires forall p | p in files :: Under(root, p)
    ensures forall p | p in files :: RelPath(root, p) in index && index[RelPath(root, p)] == p
    ensures forall k | k in index :: index[k] in files && RelPath(root, index[k]) == k
  {
    map p | p in files :: RelPath(root, p) := p
  }

  /** Every walked path contributes its own entry: the index has exactly as
      many entries as there are walked files. */
  lemma {:induction false} RelIndexSize(root: Path, files: set<Path>)
    requires forall p | p in files :: Under(root, p)
    ensures |RelIndex(root, files)| == |files|
    decreases |files|
  {
    if files != {} {
      var p :| p in files;
      var rest := files - {p};
      RelIndexSize(root, rest);
      var index, smaller := RelIndex(root, files), RelIndex(root, rest);
      assert index.Keys == smaller.Keys + {RelPath(root, p)};
      assert RelPath(root, p) !in smaller.Keys;
    }
  }
}
