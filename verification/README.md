# Blog post list of the documentation site, in Dafny

This project models the post-normalisation step of the documentation site's
blog data loader (`docs/.vitepress/theme/blog.data.ts`). The content loader
hands the step a list of page records (URL, frontmatter, optional excerpt).
The step turns each record into a `Post`:

- it resolves the post's language from the configured locales;
- it computes the URL without the language;
- it formats the date;
- it rewrites the `preview-cover` frontmatter entry so that its `light` and
  `dark` image paths are resolved against the site base and the post's
  directory.

It then sorts the posts newest first.

Modules, one per concern of the loader:

- `Wrappers`: `Option` (a JavaScript `undefined`-able value) and `Result` (a computation that may throw).
- `Values`: frontmatter values as JavaScript sees them, truthiness (`||`, `!x`) and optional property access (`?.`).
- `Strings`: `startsWith`, `endsWith`, `indexOf`, and `replace` with a string pattern (first occurrence only).
- `Paths`: `cwdFromUrl` and `withBase`. The path library's `join` and `dirname` are uninterpreted function-valued fields of `PathLib`.
- `Locales`: locale prefix normalisation, the first-match `find`, `lang`, and `urlWithoutLang`.
- `Posts`: the `Post` record and the sort by `date.time`, newest first. The sort is stable, as `Array.prototype.sort` is. The model sorts by insertion, and the uniqueness lemmas show that any stable newest-first sort gives the same list, so the engine's algorithm makes no difference.
- `BlogData`: the base fallback chain, the cover rewrite, the per-record `.map` callback and `transform`.
- `Examples`: concrete URLs that show the behaviour, including its sharp edges.

Behaviour kept exactly as the code performs it:

- The locale test is a raw string prefix, so `/fr` also claims `/fresh/...`.
- `urlWithoutLang` is `url.replace('/' + lang, '')`. This removes the first occurrence of `'/' + lang` anywhere in the URL, not only a leading segment.
- When no locale matches, the language is `en` and `/en` is still removed wherever it first occurs (`/blog/enable` becomes `/blogable`).
- A locale code written with its own leading `/` claims the prefix `/fr` but makes the replacement look for `//fr`.
- The field's name suggests that only a leading language segment is meant to go, and nothing when no locale matches. The code removes the first occurrence anywhere, and removes `/en` even without a match. The model follows the code.
- The locale configuration is read with a non-null assertion, which has no effect at run time. When a site configures no locales, `Object.values(undefined)` throws a `TypeError` in the callback of the first record, so `transform` fails on any non-empty input and returns an empty list for an empty one.
- A truthy cover value that is not a string (a number, an object, an array, `true`) makes `withBase` call `startsWith` on it, which throws a `TypeError`. `transform` then fails as a whole; the model returns `Failure` carrying the URL of the first offending record.

## Model

| member | source | states |
|---|---|---|
| `Strings.IndexOf` | docs/.vitepress/theme/blog.data.ts:69 | the result is the leftmost position where the pattern occurs, and it is absent exactly when the pattern occurs nowhere |
| `Strings.RemoveFirst` | docs/.vitepress/theme/blog.data.ts:69 | `replace` with a string pattern cuts out the first occurrence only, leaving everything before and after it; with no occurrence the string is returned unchanged |
| `Strings.RemoveFirstRoundTrip` | docs/.vitepress/theme/blog.data.ts:69 | putting the pattern back at the position of its first occurrence restores the original string |
| `Strings.RemoveFirstOfPrefix` | docs/.vitepress/theme/blog.data.ts:63-69 | when the string starts with the pattern, exactly that prefix is removed: `pat + result == s` |
| `Paths.CwdFromUrl` | docs/.vitepress/theme/blog.data.ts:27-33 | a URL ending in `/` is its own directory; any other URL gives its `dirname` |
| `Paths.CwdFromUrlIsPrefixOfUrl` | docs/.vitepress/theme/blog.data.ts:27-33 | assuming `dirname` maps a site-absolute path to a site-absolute prefix of it, the working directory of a site-absolute post URL is a non-empty, site-absolute prefix of the URL |
| `Paths.RelativeCoverResolvesUnderPostDirectory` | docs/.vitepress/theme/blog.data.ts:27-45 | under the same assumption, for every site-absolute post URL and non-empty base, a non-empty relative cover becomes `join(base, cwd, cover)` with `cwd` a prefix of the post URL, and `join(base, url, cover)` when the URL ends in `/` |
| `Paths.WithBaseCasesPartition` | docs/.vitepress/theme/blog.data.ts:36-47 | every input is in exactly one of four situations: missing, absolute under a base, relative under a base and directory, or unresolvable |
| `Paths.WithBase` | docs/.vitepress/theme/blog.data.ts:35-48 | a missing or empty path comes back unchanged; an absolute path with a base becomes `join(base, url)`; a relative path with base and directory becomes `join(base, cwd, url)`; otherwise the path is unchanged; absence is preserved |
| `Paths.WithBaseJoinsUnderBase` | docs/.vitepress/theme/blog.data.ts:40-45 | a changed path is always a join whose first segment is the base and whose last segment is the original path |
| `Locales.LangOrDefault` | docs/.vitepress/theme/blog.data.ts:58 | `lang \|\| 'en'` is never empty, keeps a non-empty code and is `en` exactly when the code is absent, empty or `en` |
| `Locales.NormalizedPrefix` | docs/.vitepress/theme/blog.data.ts:58-61 | the claimed prefix always starts with `/`; it is the code itself when the code has a leading `/`, else `/` followed by the code |
| `Locales.NormalizedPrefixIdempotent` | docs/.vitepress/theme/blog.data.ts:59-61 | normalising an already normalised prefix returns it unchanged |
| `Locales.FindLocaleFrom` | docs/.vitepress/theme/blog.data.ts:57-64 | the result is the first locale at or after the start index whose prefix starts the URL; absent when none does |
| `Locales.FindLocale` | docs/.vitepress/theme/blog.data.ts:57-64 | `find` returns the first locale in configuration order whose prefix starts the URL, and `undefined` exactly when none does |
| `Locales.ResolveLang` | docs/.vitepress/theme/blog.data.ts:72 | the language is never empty; it is the first matching locale's code (or `en` when that code is absent or empty), and `en` when nothing matches |
| `Locales.ResolveLangIsMatchedOrDefault` | docs/.vitepress/theme/blog.data.ts:57-72 | the language is `en` or the code of the locale that matched first |
| `Locales.UrlWithoutLang` | docs/.vitepress/theme/blog.data.ts:69 | the URL with the first occurrence of `'/' + lang` cut out; the URL itself when `'/' + lang` does not occur |
| `Locales.MatchedPrefixIsStripped` | docs/.vitepress/theme/blog.data.ts:57-69 | when the first matching locale's code has no leading `/`, `'/' + lang + urlWithoutLang == url`, so exactly the leading `'/' + lang` is removed |
| `Locales.UnmatchedUrlLosesFirstEn` | docs/.vitepress/theme/blog.data.ts:69-72 | without a matching locale the language is `en` and `/en` is removed wherever it first occurs |
| `Posts.Insert` | docs/.vitepress/theme/blog.data.ts:84 | inserting into a newest-first list keeps it newest first and adds exactly the one post |
| `Posts.SortNewestFirst` | docs/.vitepress/theme/blog.data.ts:84 | the sorted list is a permutation of the input (same multiset, same length) with `date.time` non-increasing |
| `Posts.SortNewestFirstIsStable` | docs/.vitepress/theme/blog.data.ts:84 | for every timestamp, the posts carrying it keep their input order |
| `Posts.StableOrderIsUnique` | docs/.vitepress/theme/blog.data.ts:84 | two newest-first lists that list the posts of every timestamp in the same order are the same list |
| `Posts.StableSortIsUnique` | docs/.vitepress/theme/blog.data.ts:84 | any newest-first ordering that keeps equal timestamps in input order, which is what a stable engine sort produces, is exactly the model's result |
| `Posts.SortNewestFirstOfSorted` | docs/.vitepress/theme/blog.data.ts:84 | a list already newest first is left exactly as it is |
| `BlogData.ResolveBase` | docs/.vitepress/theme/blog.data.ts:9 | the base is never empty; it is the configured base if non-empty, else the environment's base if non-empty, else `/` |
| `BlogData.ResolvedBaseJoinsAbsolutePaths` | docs/.vitepress/theme/blog.data.ts:40-41 | because the resolved base is never empty, a site-absolute cover is always joined under it |
| `BlogData.RewriteCover` | docs/.vitepress/theme/blog.data.ts:76-77 | a falsy cover value is kept as it is, a string is resolved by `withBase`, and any other value throws |
| `BlogData.MapPost` | docs/.vitepress/theme/blog.data.ts:56-83 | on success the post satisfies `IsPostOf`: title, URL, excerpt and date come from the record; the language and URL without language come from the locales; every other frontmatter key is copied; `preview-cover` becomes exactly `{light, dark}` resolved. It fails when the locales are missing, and otherwise exactly when a cover value is truthy and not a string |
| `BlogData.MapOrThrow` | docs/.vitepress/theme/blog.data.ts:55-83 | `.map` with a callback that may throw succeeds exactly when every callback succeeds, keeps length and order, and otherwise fails with the error of the first failing element |
| `BlogData.MapAll` | docs/.vitepress/theme/blog.data.ts:55-83 | mapping succeeds exactly when every record maps (there are no records, or the locales are present and every cover is well typed), gives one post per record in order, and otherwise fails with the error of the first failing record |
| `BlogData.Transform` | docs/.vitepress/theme/blog.data.ts:54-85 | the output is a newest-first permutation of the mapped records, one per input, each with a non-empty language; it fails on missing locales with the first record, and otherwise only on a record with an ill-typed cover |
| `BlogData.MappedPostsHaveLanguage` | docs/.vitepress/theme/blog.data.ts:72 | every post built from the records, in any order, has a non-empty language |
| `BlogData.TransformIsStable` | docs/.vitepress/theme/blog.data.ts:84 | posts with equal timestamps leave the transform in input order |
| `BlogData.TransformPostsComeFromRecords` | docs/.vitepress/theme/blog.data.ts:66-79 | every output post is the callback's result on some input record, and so has that record's title, URL, excerpt, date, language, other frontmatter entries and resolved covers |
| `Examples.FrenchPost` | docs/.vitepress/theme/blog.data.ts:57-72 | `/fr/blog/my-post` with locales `en`, `fr` has language `fr` and URL without language `/blog/my-post` |
| `Examples.UnprefixedPost` | docs/.vitepress/theme/blog.data.ts:57-72 | `/blog/my-post` matches no locale, is `en` and keeps its URL |
| `Examples.PrefixMatchIsNotSegmentAware` | docs/.vitepress/theme/blog.data.ts:63-69 | `/fresh/notes` is claimed by `fr` and becomes `esh/notes` |
| `Examples.UnmatchedPostLosesInnerEn` | docs/.vitepress/theme/blog.data.ts:69-72 | `/blog/enable` matches nothing and becomes `/blogable` |
| `Examples.SlashedCodeIsNotStripped` | docs/.vitepress/theme/blog.data.ts:58-69 | a locale coded `/fr` claims `/fr/post`, gives language `/fr` and removes nothing |
| `Examples.CoverResolution` | docs/.vitepress/theme/blog.data.ts:27-45 | given `dirname("/blog/my-post") == "/blog"`, in a post at `/blog/my-post` under base `/site`, `cover.png` becomes `join(/site, /blog, cover.png)` and `/images/cover.png` becomes `join(/site, /images/cover.png)` |

## Left out

- `formatDate` (lines 88-100): date parsing and `en-US` long-date formatting belong to the host's `Date` library. It is the parameter `Host.formatDate`, and a post's `date.time` is an `int`.
- Unparseable dates: they give a NaN timestamp, and the comparator's behaviour on NaN is floating point and engine specific.
- `pathe`'s `join` and `dirname`: they are foreign code whose source is not part of this model. They are uninterpreted. Three members assume something of `dirname`, each as a stated hypothesis. `Paths.CwdFromUrlIsPrefixOfUrl` and `Paths.RelativeCoverResolvesUnderPostDirectory` assume `DirnameKeepsAbsolutePrefix`. `Examples.CoverResolution` assumes `dirname("/blog/my-post") == "/blog"`. `DirnameKeepsAbsolutePrefix` holds for URLs without a backslash only: `pathe` turns `\` into `/` first, so `/a\b\c` gives `/a/b`. The content loader's URLs contain no backslash.
- Strings are sequences of Unicode scalar values, while JavaScript strings are sequences of UTF-16 code units. For well-formed strings, `startsWith`, `endsWith` and first-occurrence `replace` give the same results either way. A string holding a lone surrogate cannot be represented.
- `createContentLoader` (lines 50-53): file globbing, markdown rendering and excerpt extraction are I/O in the framework. Its records are the input `RawPost` sequence.
- The reads of the global site configuration and of `env.BASE_URL` (lines 8-9): `base` and the locales are parameters (`SiteConfig`); the locales are optional, since a site need not configure them. `ResolveBase` models the `||` fallback chain on the two values read.
- The locale map is an ordered sequence of locales in the order `Object.values` yields them. Only each locale's `lang` is represented.
- Frontmatter objects are maps, so the key order that the object spread preserves is not represented.
- Frontmatter numbers are integers. Objects such as the `Date` the YAML reader may produce for a date field are represented by `Obj`, which has the same truthiness and makes `withBase` throw in the same way.
- `Paths.WithBase`: `base` and `cwd` are strings, so an `undefined` base or directory is represented by `""`. `withBase` only looks at their truthiness, so the two behave the same.
