/** Two-component `os.path.join` with POSIX semantics, used to build the
    href of each public-file link. */
module PosixPath {

  /** A path component that starts with the separator discards what precedes it. */
  predicate IsAbsolute(s: string) {
    |s| > 0 && s[0] == '/'
  }

  /** `os.path.join(base, f)`. */
  function Join(base: string, f: string): string {
    if IsAbsolute(f) then f
    else if base == [] || base[|base| - 1] == '/' then base + f
    else base + "/" + f
  }

  /** What `Join` produces, stated without its case split: an absolute `f`
      replaces `base`; otherwise the result is `base`, then at most one
      separator, then `f`, and the separator is there exactly when `base` is
      non-empty and does not already end in one. The result always ends in `f`. */
  lemma JoinLayout(base: string, f: string)
    ensures var r := Join(base, f);
      && (IsAbsolute(f) ==> r == f)
      && |f| <= |r| && r[|r| - |f|..] == f
      && (!IsAbsolute(f) ==> |base| <= |r| && r[..|base|] == base)
      && (!IsAbsolute(f) ==> (|r| == |base| + |f| <==> base == [] || base[|base| - 1] == '/'))
      && (!IsAbsolute(f) && |r| != |base| + |f| ==> |r| == |base| + 1 + |f| && r[|base|] == '/')
  {
  }

  /** When `base` already ends in a separator and `f` is relative, the two are
      concatenated and no second separator appears at the seam. */
  lemma JoinNoDoubledSeparator(base: string, f: string)
    requires |base| > 0 && base[|base| - 1] == '/' && !IsAbsolute(f)
    ensures Join(base, f) == base + f
    ensures |f| > 0 ==> Join(base, f)[|base|] != '/'
  {
  }
}
