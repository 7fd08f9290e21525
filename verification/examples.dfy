/**
  Worked cases of the loader's behaviour on concrete URLs, including the
  places where the raw prefix test and the unanchored replacement differ
  from a path-segment reading.
 */
module Examples {
  import opened Wrappers
  import opened Strings
  import opened Paths
  import opened Locales

  /** A root locale in English and a French locale, in that order. */
  const EnglishAndFrench: seq<Locale> := [Locale(Some("en")), Locale(Some("fr"))]

  lemma EnglishAndFrenchPrefixes()
    ensures NormalizedPrefix(EnglishAndFrench[0]) == "/en"
    ensures NormalizedPrefix(EnglishAndFrench[1]) == "/fr"
  {
    assert "en"[0] != '/';
    assert "fr"[0] != '/';
  }

  /** `/fr` is the first prefix that starts `url` when `url` begins with `/fr`. */
  lemma FrenchMatchesFirst(url: string)
    requires |url| >= 3 && url[..3] == "/fr"
    ensures IsFirstMatch(EnglishAndFrench, url, 1)
  {
    EnglishAndFrenchPrefixes();
    assert url[..3][1] != "/en"[1];
  }

  /** A French post loses its `/fr` prefix. */
  lemma FrenchPost()
    ensures ResolveLang(EnglishAndFrench, "/fr/blog/my-post") == "fr"
    ensures UrlWithoutLang(EnglishAndFrench, "/fr/blog/my-post") == "/blog/my-post"
  {
    var url := "/fr/blog/my-post";
    assert url[..3] == "/fr";
    FrenchMatchesFirst(url);
    MatchedPrefixIsStripped(EnglishAndFrench, url, 1);
    assert url[3..] == "/blog/my-post";
  }

  /** A post outside every locale prefix is English and keeps its URL. */
  lemma UnprefixedPost()
    ensures ResolveLang(EnglishAndFrench, "/blog/my-post") == "en"
    ensures UrlWithoutLang(EnglishAndFrench, "/blog/my-post") == "/blog/my-post"
  {
    var url := "/blog/my-post";
    EnglishAndFrenchPrefixes();
    assert url[..3][1] != "/en"[1];
    assert url[..3][1] != "/fr"[1];
    assert NoMatch(EnglishAndFrench, url);
    AbsentWithoutCharacter(url, "/en", 1);
  }

  /** The prefix test is not segment-aware: `/fr` claims `/fresh/...`, and
      the cut leaves a URL without its leading slash. */
  lemma PrefixMatchIsNotSegmentAware()
    ensures ResolveLang(EnglishAndFrench, "/fresh/notes") == "fr"
    ensures UrlWithoutLang(EnglishAndFrench, "/fresh/notes") == "esh/notes"
  {
    var url := "/fresh/notes";
    assert url[..3] == "/fr";
    FrenchMatchesFirst(url);
    MatchedPrefixIsStripped(EnglishAndFrench, url, 1);
    assert url[3..] == "esh/notes";
  }

  lemma FirstEnInBlogEnable()
    ensures IsFirstOccurrence("/blog/enable", "/en", 5)
  {
    var url := "/blog/enable";
    assert url[5..8] == "/en";
    forall j | 0 <= j < 5
      ensures !OccursAt(url, "/en", j)
    {
      assert url[j..j + 3][0] == url[j];
      assert url[j..j + 3][1] == url[j + 1];
      assert url[j] != '/' || url[j + 1] != 'e';
    }
  }

  /** Without a matching locale, `/en` is still cut out of the middle of the URL. */
  lemma UnmatchedPostLosesInnerEn()
    ensures ResolveLang([Locale(Some("fr"))], "/blog/enable") == "en"
    ensures UrlWithoutLang([Locale(Some("fr"))], "/blog/enable") == "/blogable"
  {
    var locales := [Locale(Some("fr"))];
    var url := "/blog/enable";
    assert "fr"[0] != '/';
    assert url[..3][1] != "/fr"[1];
    assert NoMatch(locales, url);
    FirstEnInBlogEnable();
    assert url[..5] + url[8..] == "/blogable";
  }

  lemma NoDoubleSlashInFrPost()
    ensures !Contains("/fr/post", "//fr")
  {
    var url := "/fr/post";
    forall i | 0 <= i <= |url|
      ensures !OccursAt(url, "//fr", i)
    {
      if i + 4 <= |url| {
        assert url[i..i + 4][0] == url[i];
        assert url[i..i + 4][1] == url[i + 1];
        assert url[i] != '/' || url[i + 1] != '/';
      }
    }
  }

  /** A code written with its slash claims `/fr`, but the cut looks for
      `//fr`, which the URL does not contain: nothing is removed. */
  lemma SlashedCodeIsNotStripped()
    ensures ResolveLang([Locale(Some("/fr"))], "/fr/post") == "/fr"
    ensures UrlWithoutLang([Locale(Some("/fr"))], "/fr/post") == "/fr/post"
  {
    var locales := [Locale(Some("/fr"))];
    var url := "/fr/post";
    assert url[..3] == "/fr";
    assert IsFirstMatch(locales, url, 0);
    NoDoubleSlashInFrPost();
    assert "/" + "/fr" == "//fr";
  }

  /** A relative cover in a post at `/blog/my-post` resolves under the base
      and the post's directory; an absolute one under the base alone. */
  lemma CoverResolution(lib: PathLib)
    requires lib.dirname("/blog/my-post") == "/blog"
    ensures WithBase(lib, Some("cover.png"), "/site", CwdFromUrl(lib, "/blog/my-post")) ==
            Some(lib.join(["/site", "/blog", "cover.png"]))
    ensures WithBase(lib, Some("/images/cover.png"), "/site", CwdFromUrl(lib, "/blog/my-post")) ==
            Some(lib.join(["/site", "/images/cover.png"]))
  {
    assert "/blog/my-post"[12..] != "/";
    assert "cover.png"[..1] != "/";
    assert "/images/cover.png"[..1] == "/";
  }
}
