/**
  Resolution of cover-image paths against the site base and the directory of
  the post (`cwdFromUrl` and `withBase` in the theme's blog data loader).
  The path library's `join` and `dirname` are foreign code: they are kept
  uninterpreted, as function-valued fields of `PathLib`.
 */
module Paths {
  import opened Wrappers
  import opened Strings

  /** The two operations borrowed from the path library. `join` is variadic
      in the library; it receives its arguments as a sequence here. */
  datatype PathLib = PathLib(join: seq<string> -> string, dirname: string -> string)

  /** The directory a post lives in: a URL ending in `/` already names a
      directory, any other URL is replaced by its parent. */
  function CwdFromUrl(lib: PathLib, url: string): (cwd: string)
    ensures EndsWith(url, "/") ==> cwd == url
    ensures !EndsWith(url, "/") ==> cwd == lib.dirname(url)
  {
    if EndsWith(url, "/") then url else lib.dirname(url)
  }

  /** What the model assumes of the path library's `dirname` when it reasons
      about directories: the directory of a site-absolute path is itself
      site-absolute and a prefix of the path (`/blog/post` gives `/blog`,
      `/post` gives `/`). `pathe` turns `\` into `/` before splitting, so this
      holds only for paths without a backslash (`/a\b\c` gives `/a/b`); the
      content loader's URLs contain none. */
  ghost predicate DirnameKeepsAbsolutePrefix(lib: PathLib)
  {
    forall p :: StartsWith(p, "/") ==> StartsWith(lib.dirname(p), "/") && StartsWith(p, lib.dirname(p))
  }

  /** With such a `dirname`, the working directory of a site-absolute post URL
      is a site-absolute prefix of that URL, in both branches. */
  lemma CwdFromUrlIsPrefixOfUrl(lib: PathLib, url: string)
    requires DirnameKeepsAbsolutePrefix(lib)
    requires StartsWith(url, "/")
    ensures var cwd := CwdFromUrl(lib, url);
      StartsWith(cwd, "/") && StartsWith(url, cwd) && cwd != ""
  {
  }

  /** Across the whole domain of post URLs: a non-empty relative cover of a
      site-absolute post is joined under the base and the post's directory,
      which is never empty. A post whose URL ends in `/` is its own directory. */
  lemma RelativeCoverResolvesUnderPostDirectory(lib: PathLib, url: string, base: string, cover: string)
    requires DirnameKeepsAbsolutePrefix(lib)
    requires StartsWith(url, "/") && base != ""
    requires cover != "" && !StartsWith(cover, "/")
    ensures var cwd := CwdFromUrl(lib, url);
      && WithBase(lib, Some(cover), base, cwd) == Some(lib.join([base, cwd, cover]))
      && StartsWith(url, cwd)
      && (EndsWith(url, "/") ==> WithBase(lib, Some(cover), base, cwd) == Some(lib.join([base, url, cover])))
  {
  }

  // The four mutually exclusive situations `withBase` distinguishes.

  /** The input is `undefined` or the empty string (falsy). */
  predicate IsMissing(url: Option<string>)
  {
    url.None? || url.value == ""
  }

  /** A site-absolute path and a non-empty base. */
  predicate IsAbsoluteUnderBase(url: Option<string>, base: string)
  {
    url.Some? && StartsWith(url.value, "/") && base != ""
  }

  /** A path relative to the post, a non-empty base and a non-empty directory. */
  predicate IsRelativeUnderBase(url: Option<string>, base: string, cwd: string)
  {
    url.Some? && url.value != "" && !StartsWith(url.value, "/") && base != "" && cwd != ""
  }

  /** A non-empty path that cannot be resolved: no base, or a relative path
      with no directory to resolve it in. */
  predicate IsUnresolvable(url: Option<string>, base: string, cwd: string)
  {
    url.Some? && url.value != "" && (base == "" || (!StartsWith(url.value, "/") && cwd == ""))
  }

  /** Every input falls in exactly one of the four situations. */
  lemma WithBaseCasesPartition(url: Option<string>, base: string, cwd: string)
    ensures IsMissing(url) || IsAbsoluteUnderBase(url, base) ||
            IsRelativeUnderBase(url, base, cwd) || IsUnresolvable(url, base, cwd)
    ensures IsMissing(url) ==>
              !IsAbsoluteUnderBase(url, base) && !IsRelativeUnderBase(url, base, cwd) && !IsUnresolvable(url, base, cwd)
    ensures IsAbsoluteUnderBase(url, base) ==>
              !IsRelativeUnderBase(url, base, cwd) && !IsUnresolvable(url, base, cwd)
    ensures IsRelativeUnderBase(url, base, cwd) ==> !IsUnresolvable(url, base, cwd)
  {
  }

  /** Prefixes a path with the site base. A missing path stays missing, a
      site-absolute path is joined under the base, a relative path is joined
      under the base and the post's directory; when that is impossible the
      path is returned untouched. `base` and `cwd` are only examined for being
      non-empty, so an `undefined` base or directory behaves as `""`. */
  function WithBase(lib: PathLib, url: Option<string>, base: string, cwd: string): (r: Option<string>)
    ensures IsMissing(url) ==> r == url
    ensures IsAbsoluteUnderBase(url, base) ==> r == Some(lib.join([base, url.value]))
    ensures IsRelativeUnderBase(url, base, cwd) ==> r == Some(lib.join([base, cwd, url.value]))
    ensures IsUnresolvable(url, base, cwd) ==> r == url
    ensures r.None? <==> url.None?
  {
    if url.None? || url.value == "" then url
    else if StartsWith(url.value, "/") && base != "" then Some(lib.join([base, url.value]))
    else if !StartsWith(url.value, "/") && base != "" && cwd != "" then Some(lib.join([base, cwd, url.value]))
    else url
  }

  /** Whatever the path library does, a changed path is always the library's
      join of a segment list that starts with the base and ends with the
      original path. */
  lemma WithBaseJoinsUnderBase(lib: PathLib, url: Option<string>, base: string, cwd: string)
    ensures var r := WithBase(lib, url, base, cwd);
      r == url ||
      exists segments: seq<string> ::
        2 <= |segments| && segments[0] == base && segments[|segments| - 1] == url.value &&
        r == Some(lib.join(segments))
  {
    var r := WithBase(lib, url, base, cwd);
    WithBaseCasesPartition(url, base, cwd);
    if IsAbsoluteUnderBase(url, base) {
      var segments := [base, url.value];
      assert r == Some(lib.join(segments));
    } else if IsRelativeUnderBase(url, base, cwd) {
      var segments := [base, cwd, url.value];
      assert r == Some(lib.join(segments));
    }
  }
}
