/**
  The blog data loader's `transform`: every raw page record becomes a `Post`
  (language, URL without language, formatted date, cover images resolved
  against the site base), and the list is ordered newest first.
  Site configuration and the host library are explicit parameters.
 */
module BlogData {
  import opened Wrappers
  import opened Values
  import opened Strings
  import opened Paths
  import opened Locales
  import opened Posts

  /** The part of the site configuration the loader reads. `locales` is
      `None` when the site configures no locales: the loader's non-null
      assertion on it is erased at run time, so nothing stops `undefined`
      from reaching `Object.values`. */
  datatype SiteConfig = SiteConfig(base: string, locales: Option<seq<Locale>>)

  /** Host-library behaviour the loader calls but does not define: path
      joining and directory names, and date parsing and formatting. */
  datatype Host = Host(paths: PathLib, formatDate: Value -> PostDate)

  /** A page record as the content loader delivers it. */
  datatype RawPost = RawPost(url: string, frontmatter: map<string, Value>, excerpt: Option<string>)

  /** The two ways the `.map` callback for the record at `url` throws a
      `TypeError`: `Object.values` is called on missing locales, or
      `withBase` is handed a truthy value that is not a string and calls
      `startsWith` on it. */
  datatype TypeError =
    | LocalesMissing(url: string)
    | CoverNotAString(url: string, field: string)

  const CoverKey: string := "preview-cover"

  /** `userConfig.base || env.BASE_URL || '/'` */
  function ResolveBase(userBase: Option<string>, envBase: Option<string>): (base: string)
    ensures base != ""
    ensures userBase.Some? && userBase.value != "" ==> base == userBase.value
    ensures (userBase.None? || userBase.value == "") && envBase.Some? && envBase.value != "" ==> base == envBase.value
    ensures (userBase.None? || userBase.value == "") && (envBase.None? || envBase.value == "") ==> base == "/"
  {
    if userBase.Some? && userBase.value != "" then userBase.value
    else if envBase.Some? && envBase.value != "" then envBase.value
    else "/"
  }

  /** The base is never empty, so a site-absolute cover is always joined under it. */
  lemma ResolvedBaseJoinsAbsolutePaths(lib: PathLib, userBase: Option<string>, envBase: Option<string>, path: string, cwd: string)
    requires StartsWith(path, "/")
    ensures WithBase(lib, Some(path), ResolveBase(userBase, envBase), cwd) ==
            Some(lib.join([ResolveBase(userBase, envBase), path]))
  {
    assert IsAbsoluteUnderBase(Some(path), ResolveBase(userBase, envBase));
  }

  /** `frontmatter['preview-cover']?.[field]` */
  function CoverField(frontmatter: map<string, Value>, field: string): Value
  {
    OptionalProperty(Get(frontmatter, CoverKey), field)
  }

  /** `withBase` applied to a frontmatter value of any type: falsy values come
      back as they are, strings are resolved, anything else throws. */
  function RewriteCover(lib: PathLib, v: Value, base: string, cwd: string, url: string, field: string): (r: Result<Value, TypeError>)
    ensures r.Failure? <==> Truthy(v) && !v.Str?
    ensures r.Failure? ==> r.error == CoverNotAString(url, field)
    ensures !Truthy(v) ==> r == Success(v)
    ensures v.Str? ==> r == Success(Str(WithBase(lib, Some(v.s), base, cwd).value))
  {
    match v
    case Str(s) => Success(Str(WithBase(lib, Some(s), base, cwd).value))
    case _ => if Truthy(v) then Failure(CoverNotAString(url, field)) else Success(v)
  }

  /** Whether the record's cover fields can be handed to `withBase` without it throwing. */
  predicate CoverFieldsWellTyped(raw: RawPost)
  {
    && (!Truthy(CoverField(raw.frontmatter, "light")) || CoverField(raw.frontmatter, "light").Str?)
    && (!Truthy(CoverField(raw.frontmatter, "dark")) || CoverField(raw.frontmatter, "dark").Str?)
  }

  /** What the `.map` callback promises about the post it builds from `raw`:
      the locales are configured; title, URL, excerpt and date come from the
      record, language and URL without language from the locales; every
      frontmatter entry but `preview-cover` is kept as it was, and
      `preview-cover` is an object holding exactly the resolved `light` and
      `dark` values. */
  ghost predicate IsPostOf(cfg: SiteConfig, host: Host, raw: RawPost, p: Post)
  {
    cfg.locales.Some? &&
    var locales := cfg.locales.value;
    var cwd := CwdFromUrl(host.paths, raw.url);
    var light := RewriteCover(host.paths, CoverField(raw.frontmatter, "light"), cfg.base, cwd, raw.url, "light");
    var dark := RewriteCover(host.paths, CoverField(raw.frontmatter, "dark"), cfg.base, cwd, raw.url, "dark");
    && p.title == Get(raw.frontmatter, "title")
    && p.url == raw.url
    && p.excerpt == raw.excerpt
    && p.date == host.formatDate(Get(raw.frontmatter, "date"))
    && p.lang == ResolveLang(locales, raw.url)
    && p.urlWithoutLang == UrlWithoutLang(locales, raw.url)
    && p.frontmatter.Keys == raw.frontmatter.Keys + {CoverKey}
    && (forall k :: k in raw.frontmatter && k != CoverKey ==> p.frontmatter[k] == raw.frontmatter[k])
    && light.Success? && dark.Success?
    && p.frontmatter[CoverKey] == Obj(map["light" := light.value, "dark" := dark.value])
  }

  /** The `.map` callback: builds one post from one record. It throws when
      the locales are missing, which is found before the covers are looked
      at, and otherwise exactly when a cover value is truthy but not a string. */
  function MapPost(cfg: SiteConfig, host: Host, raw: RawPost): (r: Result<Post, TypeError>)
    ensures r.Success? <==> cfg.locales.Some? && CoverFieldsWellTyped(raw)
    ensures cfg.locales.None? ==> r == Failure(LocalesMissing(raw.url))
    ensures r.Failure? ==> r.error.url == raw.url
    ensures r.Success? ==> IsPostOf(cfg, host, raw, r.value)
  {
    if cfg.locales.None? then Failure(LocalesMissing(raw.url))
    else
      var locales := cfg.locales.value;
      var fm := raw.frontmatter;
      var cwd := CwdFromUrl(host.paths, raw.url);
      var light := RewriteCover(host.paths, CoverField(fm, "light"), cfg.base, cwd, raw.url, "light");
      var dark := RewriteCover(host.paths, CoverField(fm, "dark"), cfg.base, cwd, raw.url, "dark");
      if light.Failure? then Failure(light.error)
      else if dark.Failure? then Failure(dark.error)
      else
        Success(Post(
          title := Get(fm, "title"),
          url := raw.url,
          urlWithoutLang := UrlWithoutLang(locales, raw.url),
          excerpt := raw.excerpt,
          date := host.formatDate(Get(fm, "date")),
          lang := ResolveLang(locales, raw.url),
          frontmatter := fm[CoverKey := Obj(map["light" := light.value, "dark" := dark.value])]))
  }

  /** `xs.map(f)` where `f` may throw: the elements are mapped in order and
      the first one whose callback throws aborts the mapping with its error. */
  function MapOrThrow<A, B, E>(xs: seq<A>, f: A -> Result<B, E>): (r: Result<seq<B>, E>)
    ensures r.Success? <==> forall i :: 0 <= i < |xs| ==> f(xs[i]).Success?
    ensures r.Success? ==> |r.value| == |xs| && forall i :: 0 <= i < |xs| ==> f(xs[i]) == Success(r.value[i])
    ensures r.Failure? ==>
      exists i :: 0 <= i < |xs| && f(xs[i]) == Failure(r.error) && forall j :: 0 <= j < i ==> f(xs[j]).Success?
  {
    if xs == [] then Success([])
    else
      var first := f(xs[0]);
      if first.Failure? then Failure(first.error)
      else
        var rest := MapOrThrow(xs[1..], f);
        if rest.Failure? then
          ghost var k :| 0 <= k < |xs| - 1 && f(xs[1..][k]) == Failure(rest.error) &&
            forall j :: 0 <= j < k ==> f(xs[1..][j]).Success?;
          assert f(xs[k + 1]) == Failure(rest.error);
          assert forall j :: 1 <= j < k + 1 ==> xs[j] == xs[1..][j - 1];
          Failure(rest.error)
        else
          Success([first.value] + rest.value)
  }

  /** `raw.map(...)` with the loader's callback. */
  function MapAll(cfg: SiteConfig, host: Host, raws: seq<RawPost>): (r: Result<seq<Post>, TypeError>)
    ensures r.Success? <==> (raws == [] || cfg.locales.Some?) && forall i :: 0 <= i < |raws| ==> CoverFieldsWellTyped(raws[i])
    ensures r.Success? ==> |r.value| == |raws|
    ensures r.Success? ==> forall i :: 0 <= i < |raws| ==> MapPost(cfg, host, raws[i]) == Success(r.value[i])
    ensures r.Failure? ==>
      exists i :: 0 <= i < |raws| && MapPost(cfg, host, raws[i]) == Failure(r.error) &&
        forall j :: 0 <= j < i ==> MapPost(cfg, host, raws[j]).Success?
  {
    MapOrThrow(raws, (raw: RawPost) => MapPost(cfg, host, raw))
  }

  /** The loader's `transform`: all records mapped, then sorted newest first.
      Missing locales only matter once there is a record to map. */
  function Transform(cfg: SiteConfig, host: Host, raws: seq<RawPost>): (r: Result<seq<Post>, TypeError>)
    ensures r.Success? <==> (raws == [] || cfg.locales.Some?) && forall i :: 0 <= i < |raws| ==> CoverFieldsWellTyped(raws[i])
    ensures raws != [] && cfg.locales.None? ==> r == Failure(LocalesMissing(raws[0].url))
    ensures r.Success? ==> |r.value| == |raws| && SortedNewestFirst(r.value)
    ensures r.Success? ==> multiset(r.value) == multiset(MapAll(cfg, host, raws).value)
    ensures r.Success? ==> forall p :: p in r.value ==> p.lang != ""
    ensures r.Failure? ==>
      exists i :: 0 <= i < |raws| && MapPost(cfg, host, raws[i]) == Failure(r.error) &&
        (cfg.locales.None? || !CoverFieldsWellTyped(raws[i]))
  {
    var mapped := MapAll(cfg, host, raws);
    if mapped.Failure? then Failure(mapped.error)
    else
      var sorted := SortNewestFirst(mapped.value);
      MappedPostsHaveLanguage(cfg, host, raws, sorted);
      Success(sorted)
  }

  lemma MappedPostsHaveLanguage(cfg: SiteConfig, host: Host, raws: seq<RawPost>, posts: seq<Post>)
    requires MapAll(cfg, host, raws).Success?
    requires multiset(posts) == multiset(MapAll(cfg, host, raws).value)
    ensures forall p :: p in posts ==> p.lang != ""
  {
    var mapped := MapAll(cfg, host, raws).value;
    forall p | p in posts
      ensures p.lang != ""
    {
      assert p in multiset(mapped);
      var i :| 0 <= i < |mapped| && mapped[i] == p;
      assert MapPost(cfg, host, raws[i]) == Success(p);
    }
  }

  /** Posts with the same timestamp leave `transform` in the order their
      records came in. */
  lemma TransformIsStable(cfg: SiteConfig, host: Host, raws: seq<RawPost>, t: int)
    requires Transform(cfg, host, raws).Success?
    ensures WithTime(Transform(cfg, host, raws).value, t) == WithTime(MapAll(cfg, host, raws).value, t)
  {
    SortNewestFirstIsStable(MapAll(cfg, host, raws).value, t);
  }

  /** Every post the transform returns was built from one of the records. */
  lemma TransformPostsComeFromRecords(cfg: SiteConfig, host: Host, raws: seq<RawPost>, p: Post)
    requires Transform(cfg, host, raws).Success?
    requires p in Transform(cfg, host, raws).value
    ensures exists i :: 0 <= i < |raws| && MapPost(cfg, host, raws[i]) == Success(p) && IsPostOf(cfg, host, raws[i], p)
  {
    var mapped := MapAll(cfg, host, raws).value;
    assert p in multiset(mapped);
    var i :| 0 <= i < |mapped| && mapped[i] == p;
    assert MapPost(cfg, host, raws[i]) == Success(p);
  }
}
