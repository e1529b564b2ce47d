/** The archive-page generator of the blog (src/archive.tmpl.js).

    It reads the posts of the site, date-descending, collects every tag that is
    not reserved into an insertion-ordered set, and produces the page
    descriptors the site builder renders: the archive index at "/archive/"
    followed by one page per collected tag at "/archive/<tag>/".

    The specification functions below describe the output as a value; the
    method GenerateArchive follows the generator's loops statement by statement
    and is proved to produce exactly that value. */
module ArchiveTemplate {

  datatype Option<+T> = None | Some(value: T)

  type Tag = string

  /** The front matter of a post, as far as the generator looks at it:
      `tags` may be missing. */
  datatype PageData = PageData(tags: Option<seq<Tag>>)

  /** A page returned by the site's query capability. `data` may be missing;
      `url` only identifies the page (its other metadata is passed through
      untouched and is not modelled). */
  datatype Post = Post(url: string, data: Option<PageData>)

  /** The query capability `search.pages(query, sort)`. The sort key is
      `None` when the caller leaves it to the site builder's default. What the
      builder returns is an input of this model. */
  type Search = (string, Option<string>) -> seq<Post>

  /** One page the generator asks the site builder to render. */
  datatype Descriptor =
    | Index(url: string, tags: seq<Tag>, articles: seq<Post>)
    | TagPage(url: string, tag: Tag, articles: seq<Post>)

  /** Reserved labels used to classify posts internally; they never become
      archive categories. */
  const Blocked: seq<Tag> := ["standalone", "post", "index", "guide-to-js", "deno-tetris-guide"]

  const IndexUrl: string := "/archive/"

  /** The query and sort key of the index page's article list. */
  const PostQuery: string := "post"
  const DateDescending: string := "date=desc"

  function TagUrl(tag: Tag): string
  {
    IndexUrl + tag + "/"
  }

  /** The guard `article.data && article.data.tags`. */
  predicate HasTags(p: Post)
  {
    p.data.Some? && p.data.value.tags.Some?
  }

  /** The tags a post contributes to the scan: none when the guard fails. */
  function TagsOf(p: Post): seq<Tag>
  {
    if HasTags(p) then p.data.value.tags.value else []
  }

  predicate Distinct(s: seq<Tag>)
  {
    forall i, j :: 0 <= i < j < |s| ==> s[i] != s[j]
  }

  /** Every tag the scan visits, articles in order and each article's tags in
      order, blocked ones included. */
  function Stream(articles: seq<Post>): seq<Tag>
  {
    if articles == [] then []
    else Stream(articles[..|articles| - 1]) + TagsOf(articles[|articles| - 1])
  }

  // The specification functions take the block list as a parameter
  // `blocked`; the generator uses them with `Blocked`.

  /** Offers the tags of `s`, left to right, to the insertion-ordered set
      `acc`, skipping blocked tags (the inner loop of the scan). A tag already
      present leaves the set as it is, as `Set.prototype.add` does. */
  function AddAll(blocked: seq<Tag>, acc: seq<Tag>, s: seq<Tag>): (r: seq<Tag>)
    ensures |acc| <= |r| && r[..|acc|] == acc
    ensures forall t :: t in r ==> t in acc || (t in s && t !in blocked)
  {
    if s == [] then acc
    else
      var prev := AddAll(blocked, acc, s[..|s| - 1]);
      var tag := s[|s| - 1];
      if tag in blocked || tag in prev then prev else prev + [tag]
  }

  /** The tag set after scanning `articles` (the outer loop of the scan). */
  function CollectTags(blocked: seq<Tag>, articles: seq<Post>): seq<Tag>
  {
    if articles == [] then []
    else AddAll(blocked, CollectTags(blocked, articles[..|articles| - 1]), TagsOf(articles[|articles| - 1]))
  }

  /** The per-tag pages for the tags `tags`, in order; a blocked tag is
      skipped (the second loop, with its re-check of the block list). */
  function TagPages(blocked: seq<Tag>, search: Search, tags: seq<Tag>): (r: seq<Descriptor>)
    ensures |r| <= |tags|
    ensures forall k :: 0 <= k < |r| ==>
      r[k].TagPage? && r[k].tag !in blocked
  {
    if tags == [] then []
    else
      var prev := TagPages(blocked, search, tags[..|tags| - 1]);
      var tag := tags[|tags| - 1];
      if tag in blocked then prev
      else prev + [TagPage(TagUrl(tag), tag, search(tag, None))]
  }

  /** Everything the generator yields, in order, for a given block list. */
  function Pages(blocked: seq<Tag>, search: Search): seq<Descriptor>
  {
    var articles := search(PostQuery, Some(DateDescending));
    var tags := CollectTags(blocked, articles);
    [Index(IndexUrl, tags, articles)] + TagPages(blocked, search, tags)
  }

  /** Everything the generator yields, in order. */
  function Archive(search: Search): seq<Descriptor>
  {
    Pages(Blocked, search)
  }

  /** The scan at the top of the generator: every post returned for "post",
      in the order given, and every tag of each post that has tags, offered to
      the set unless it is blocked. */
  method CollectArchiveTags(articles: seq<Post>) returns (tags: seq<Tag>)
    ensures tags == CollectTags(Blocked, articles)
  {
    tags := [];
    for i := 0 to |articles|
      invariant tags == CollectTags(Blocked, articles[..i])
    {
      var article := articles[i];
      ghost var before := tags;
      CollectTagsSnoc(Blocked, articles, i);
      if article.data.Some? && article.data.value.tags.Some? {
        var articleTags := article.data.value.tags.value;
        for j := 0 to |articleTags|
          invariant tags == AddAll(Blocked, before, articleTags[..j])
        {
          var tag := articleTags[j];
          AddAllSnoc(Blocked, before, articleTags, j);
          if tag !in Blocked {
            // tags.add(tag)
            if tag !in tags {
              tags := tags + [tag];
            }
          }
        }
        assert articleTags[..|articleTags|] == articleTags;
      }
    }
    assert articles[..|articles|] == articles;
  }

  /** The generator: the scan, the index page, then the loop over the tag set
      that emits one page per tag. The yielded descriptors are appended to
      `pages` in the order they are yielded. */
  method GenerateArchive(search: Search) returns (pages: seq<Descriptor>)
    ensures pages == Archive(search)
  {
    var articles := search(PostQuery, Some(DateDescending));
    var tags := CollectArchiveTags(articles);

    pages := [Index(IndexUrl, tags, articles)];
    for k := 0 to |tags|
      invariant pages == [Index(IndexUrl, tags, articles)] + TagPages(Blocked, search, tags[..k])
    {
      var tag := tags[k];
      TagPagesSnoc(Blocked, search, tags, k);
      if tag !in Blocked {
        pages := pages + [TagPage(TagUrl(tag), tag, search(tag, None))];
      }
    }
    assert tags[..|tags|] == tags;
  }

  // One more step of each specification function, as the loops take it.

  lemma AddAllSnoc(blocked: seq<Tag>, acc: seq<Tag>, s: seq<Tag>, j: nat)
    requires j < |s|
    ensures AddAll(blocked, acc, s[..j + 1])
      == if s[j] in blocked || s[j] in AddAll(blocked, acc, s[..j]) then AddAll(blocked, acc, s[..j])
         else AddAll(blocked, acc, s[..j]) + [s[j]]
  {
    assert s[..j + 1][..j] == s[..j];
  }

  lemma CollectTagsSnoc(blocked: seq<Tag>, articles: seq<Post>, i: nat)
    requires i < |articles|
    ensures CollectTags(blocked, articles[..i + 1])
      == AddAll(blocked, CollectTags(blocked, articles[..i]), TagsOf(articles[i]))
  {
    assert articles[..i + 1][..i] == articles[..i];
  }

  lemma TagPagesSnoc(blocked: seq<Tag>, search: Search, tags: seq<Tag>, k: nat)
    requires k < |tags|
    ensures TagPages(blocked, search, tags[..k + 1])
      == TagPages(blocked, search, tags[..k])
         + if tags[k] in blocked then [] else [TagPage(TagUrl(tags[k]), tags[k], search(tags[k], None))]
  {
    assert tags[..k + 1][..k] == tags[..k];
  }
}
