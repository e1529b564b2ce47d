# Archive page generator

A Dafny model of the blog's archive-page generator, `src/archive.tmpl.js`.
The site builder calls the generator with a query capability `search`. The
generator asks for the pages tagged `"post"`, sorted `"date=desc"`. It scans
their tags into an insertion-ordered `Set` and skips the reserved labels in
`blocked`. It then yields two kinds of page descriptor:

- the archive index at `/archive/`, with every collected tag and every post;
- one page per collected tag at `/archive/<tag>/`, listing the posts that
  `search.pages(tag)` returns.

Files:

- `archive_template.dfy`, module `ArchiveTemplate`, holds the data model:
  - `Post` with an optional `data` that has an optional `tags`. This mirrors
    the guard `article.data && article.data.tags`.
  - `Descriptor`, with the variants `Index` and `TagPage`.
  - The constant `Blocked`.
  - The query capability `Search`, a function parameter
    `(query, sort) -> seq<Post>`. Its sort key is `None` when the generator
    leaves the sort to the builder's default.

  The same file holds the specification functions, the two methods that
  follow the generator's loops, and the one-step lemmas those loops use:
  - `AddAll` is the inner scan loop. It applies `Set.add` to each tag that
    is not blocked.
  - `CollectTags` is the outer scan loop.
  - `TagPages` is the emission loop, including its re-check of the block
    list.
  - `Pages` is the whole output.
  - `Archive(search)` is `Pages(Blocked, search)`.

  The specification functions take the block list as a parameter. This keeps
  the proofs independent of the five literal strings. Every lemma below
  therefore holds for every block list, and in particular for `Blocked`,
  which is what `Archive` and the methods use.
- `archive_properties.dfy`, module `ArchiveProperties`, holds what the
  generator guarantees:
  - the index tag list has no blocked tag and no duplicates;
  - it holds exactly the tags posts carry;
  - its tags are in first-encounter order;
  - posts without tags contribute nothing;
  - the pages after the index are exactly one per listed tag, in list order;
  - the re-check never filters anything;
  - URLs are pairwise distinct, and no blocked tag gets a page;
  - the output for posts without tags is the index alone.

  The file ends with a worked example.

First-encounter order is stated against `Stream(articles)`. That sequence
holds every tag the scan visits: posts in the order `search` returned them,
and within a post its tags in order. `FirstIndex(s, t)` is the position of
the first `t` in `s`.

The generator is a function of its input `search`, so two runs on the same
posts produce the same descriptors.

## Model

| member | source | states |
|---|---|---|
| `ArchiveTemplate.GenerateArchive` | src/archive.tmpl.js:7-38 | The generator, with its scan, the index yield and the per-tag loop (re-check included). Its output is exactly `Archive(search)`: the loop invariants tie each appended descriptor to `TagPages` over the tags handled so far. |
| `ArchiveTemplate.CollectArchiveTags` | src/archive.tmpl.js:10-18 | The nested scan over posts and their tags, with `Set.add` written as "append if absent". It returns exactly `CollectTags(Blocked, articles)`. |
| `ArchiveTemplate.AddAll` | src/archive.tmpl.js:14-16 | Adding tags to the insertion-ordered set never removes or reorders what is there: the old set is a prefix of the new one. Every new member is a non-blocked tag that was offered. |
| `ArchiveTemplate.TagPages` | src/archive.tmpl.js:28-37 | The per-tag loop yields at most one page per tag. Each page is a `TagPage` for a tag outside the block list. |
| `ArchiveTemplate.AddAllSnoc` | src/archive.tmpl.js:15 | One step of the inner loop: the set grows by the tag exactly when the tag is neither blocked nor already present. |
| `ArchiveTemplate.CollectTagsSnoc` | src/archive.tmpl.js:12-17 | One step of the outer loop: a post's tags are offered to the set accumulated from the earlier posts. |
| `ArchiveTemplate.TagPagesSnoc` | src/archive.tmpl.js:28-36 | One step of the emission loop: a page for the tag is appended unless the tag is blocked. |
| `ArchiveProperties.AddAllAppend` | src/archive.tmpl.js:11-16 | Offering two runs of tags one after the other gives the same set as offering their concatenation. |
| `ArchiveProperties.AddAllComplete` | src/archive.tmpl.js:15 | Every non-blocked tag offered to the set ends up in it. |
| `ArchiveProperties.AddAllDistinct` | src/archive.tmpl.js:11 | A set without duplicates stays without duplicates, as a `Set` does. |
| `ArchiveProperties.AddAllFirstEncounter` | src/archive.tmpl.js:11-16 | Starting from the empty set, the tags are listed in the order of their first occurrence among the offered tags. |
| `ArchiveProperties.CollectTagsIsScanOfStream` | src/archive.tmpl.js:12-17 | The nested scan equals one scan of the flattened tag stream: posts in order, each post's tags in order. |
| `ArchiveProperties.StreamMembership` | src/archive.tmpl.js:12-14 | A tag is in the stream exactly when some post contributes it. |
| `ArchiveProperties.StreamAppend` | src/archive.tmpl.js:12 | The stream of two post lists joined is the two streams joined. |
| `ArchiveProperties.IndexTagsNotBlocked` | src/archive.tmpl.js:5-15 | No tag on the index list is in the block list. |
| `ArchiveProperties.IndexTagsDistinct` | src/archive.tmpl.js:11-15 | The index tag list has no duplicates. |
| `ArchiveProperties.IndexTagsComplete` | src/archive.tmpl.js:12-17 | A tag is on the index list if and only if it is not blocked and some post with present `data` and `tags` lists it. |
| `ArchiveProperties.IndexTagsInFirstEncounterOrder` | src/archive.tmpl.js:10-23 | The index tag list is ordered by first occurrence across the date-descending scan. |
| `ArchiveProperties.UntaggedPostIgnored` | src/archive.tmpl.js:13 | A post lacking `data` or `tags` changes nothing, wherever it stands in the list. |
| `ArchiveProperties.FirstIndex` | src/archive.tmpl.js:10-16 | Position of the first occurrence: `s[r] == t` and no earlier `t`, or `|s|` exactly when `t` is absent. |
| `ArchiveProperties.TagUrlInjective` | src/archive.tmpl.js:32 | `/archive/<a>/` and `/archive/<b>/` are equal if and only if `a` and `b` are. |
| `ArchiveProperties.TagPagesUnfiltered` | src/archive.tmpl.js:29 | When no listed tag is blocked, the re-check skips nothing. Page `k` is `TagPage("/archive/" + tags[k] + "/", tags[k], search(tags[k]))`, and there are as many pages as tags. |
| `ArchiveProperties.PagesShape` | src/archive.tmpl.js:21-37 | The output has `1 + |tags|` descriptors. First comes `Index("/archive/", tags, search("post", "date=desc"))`. Then page `k + 1` is the page of `tags[k]`, with the posts `search(tags[k])` returns. |
| `ArchiveProperties.PagesUrlsDistinct` | src/archive.tmpl.js:22-32 | No two descriptors share a URL. |
| `ArchiveProperties.PagePerTag` | src/archive.tmpl.js:12-35 | Take a non-blocked tag that some tagged post carries. Exactly one descriptor has the URL `/archive/<tag>/`. It is that tag's page, and its articles are `search(tag)`. |
| `ArchiveProperties.NoBlockedPage` | src/archive.tmpl.js:29-32 | No descriptor has the URL `/archive/<t>/` for a blocked `t`. |
| `ArchiveProperties.PagesWithoutTags` | src/archive.tmpl.js:13-37 | If no post has `tags`, the output is exactly the index with an empty tag list. |
| `ArchiveProperties.ExampleFirstPost` | src/archive.tmpl.js:5-15 | With the site's block list, offering `["guides", "deno-tetris-guide"]` to the empty set gives `["guides"]`. |
| `ArchiveProperties.ExampleSecondPost` | src/archive.tmpl.js:15 | Offering `["guides", "js"]` to `["guides"]` gives `["guides", "js"]`. |
| `ArchiveProperties.ExampleTags` | src/archive.tmpl.js:10-18 | The three example posts yield the index tags `["guides", "js"]`. |
| `ArchiveProperties.ExampleArchive` | src/archive.tmpl.js:21-37 | On the example posts the generator yields `/archive/`, `/archive/guides/` and `/archive/js/`, in that order. |

## Left out

- The exported `layout` and `priority` constants (src/archive.tmpl.js:1-3): metadata that the site builder reads. They have no behaviour.
- `_config.ts` is not part of this model. It is plugin wiring and site configuration for the external site builder.
- The implementation of `search.pages`: query matching and the `"date=desc"` sort belong to the site builder. Its results are uninterpreted inputs (the function parameter `search`).
- Generator laziness and the consume-once iterator protocol: the yielded descriptors are modelled as a finite sequence in yield order.
- Post metadata other than `data.tags` (title, date, intro) is not modelled. A post carries only a `url` that identifies it.
- JavaScript dynamic typing: `tags` is modelled as a sequence of strings. A non-array `tags` value (such as a bare string, which `for…of` would iterate by character) and non-string tags are not modelled. An empty `tags` array passes the guard and contributes nothing, as in the model.
- Template rendering of the descriptors and page materialisation are done by the external site builder.
