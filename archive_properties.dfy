/** What the archive generator guarantees: the index tag list is free of
    blocked tags and of duplicates, holds exactly the tags the posts carry,
    in order of first encounter; and the pages that follow the index are
    exactly one per listed tag, at "/archive/<tag>/". */
module ArchiveProperties {
  import opened ArchiveTemplate

  /** Position of the first occurrence of `t` in `s`; `|s|` when there is
      none. */
  function FirstIndex(s: seq<Tag>, t: Tag): (r: nat)
    ensures r <= |s|
    ensures r < |s| <==> t in s
    ensures r < |s| ==> s[r] == t
    ensures forall k :: 0 <= k < r ==> s[k] != t
  {
    if s == [] then 0
    else if s[0] == t then 0
    else
      1 + FirstIndex(s[1..], t)
  }

  // ---------------------------------------------------------------------
  // The insertion-ordered set (AddAll)

  lemma {:induction false} AddAllAppend(blocked: seq<Tag>, acc: seq<Tag>, s: seq<Tag>, u: seq<Tag>)
    ensures AddAll(blocked, acc, s + u) == AddAll(blocked, AddAll(blocked, acc, s), u)
    decreases |u|
  {
    if u == [] {
      assert s + u == s;
    } else {
      var u' := u[..|u| - 1];
      assert (s + u)[..|s + u| - 1] == s + u';
      assert (s + u)[|s + u| - 1] == u[|u| - 1];
      AddAllAppend(blocked, acc, s, u');
    }
  }

  /** Every non-blocked tag offered to the set ends up in it. */
  lemma {:induction false} AddAllComplete(blocked: seq<Tag>, acc: seq<Tag>, s: seq<Tag>)
    ensures forall t :: t in s && t !in blocked ==> t in AddAll(blocked, acc, s)
    decreases |s|
  {
    if s != [] {
      var s' := s[..|s| - 1];
      AddAllComplete(blocked, acc, s');
      forall t | t in s && t !in blocked
        ensures t in AddAll(blocked, acc, s)
      {
        if t != s[|s| - 1] {
          assert s == s' + [s[|s| - 1]];
          assert t in s';
        }
      }
    }
  }

  /** Adding to a set without duplicates keeps it without duplicates. */
  lemma {:induction false} AddAllDistinct(blocked: seq<Tag>, acc: seq<Tag>, s: seq<Tag>)
    requires Distinct(acc)
    ensures Distinct(AddAll(blocked, acc, s))
    decreases |s|
  {
    if s != [] {
      AddAllDistinct(blocked, acc, s[..|s| - 1]);
    }
  }

  lemma {:induction false} FirstIndexOfPrefix(s: seq<Tag>, u: seq<Tag>, t: Tag)
    requires t in s
    ensures FirstIndex(s + u, t) == FirstIndex(s, t)
    decreases |s|
  {
    if s[0] != t {
      assert (s + u)[1..] == s[1..] + u;
      FirstIndexOfPrefix(s[1..], u, t);
    }
  }

  /** The tags of `r` appear in `r` in the order of their first occurrence in
      `s`. */
  predicate InFirstEncounterOrder(s: seq<Tag>, r: seq<Tag>)
  {
    forall i, j :: 0 <= i < j < |r| ==> FirstIndex(s, r[i]) < FirstIndex(s, r[j])
  }

  /** Starting from the empty set, the set lists the tags it holds in the
      order in which they first occur in `s`. */
  lemma {:induction false} AddAllFirstEncounter(blocked: seq<Tag>, s: seq<Tag>)
    ensures InFirstEncounterOrder(s, AddAll(blocked, [], s))
    decreases |s|
  {
    if s != [] {
      var s', x := s[..|s| - 1], s[|s| - 1];
      assert s == s' + [x];
      var r', r := AddAll(blocked, [], s'), AddAll(blocked, [], s);
      AddAllFirstEncounter(blocked, s');
      forall i | 0 <= i < |r'|
        ensures FirstIndex(s, r'[i]) == FirstIndex(s', r'[i]) < |s'|
      {
        assert r'[i] in r';
        FirstIndexOfPrefix(s', [x], r'[i]);
      }
      if r != r' {
        assert r == r' + [x] && x !in r' && x !in blocked;
        AddAllComplete(blocked, [], s');
        assert x !in s';
      }
    }
  }

  // ---------------------------------------------------------------------
  // The tag scan over the posts

  lemma {:induction false} StreamAppend(xs: seq<Post>, ys: seq<Post>)
    ensures Stream(xs + ys) == Stream(xs) + Stream(ys)
    decreases |ys|
  {
    if ys == [] {
      assert xs + ys == xs;
    } else {
      var ys' := ys[..|ys| - 1];
      assert (xs + ys)[..|xs + ys| - 1] == xs + ys';
      StreamAppend(xs, ys');
    }
  }

  lemma {:induction false} StreamMembership(articles: seq<Post>, t: Tag)
    ensures t in Stream(articles) <==> exists p :: p in articles && t in TagsOf(p)
    decreases |articles|
  {
    if articles != [] {
      var prefix, last := articles[..|articles| - 1], articles[|articles| - 1];
      assert articles == prefix + [last];
      StreamMembership(prefix, t);
      if exists p :: p in articles && t in TagsOf(p) {
        var p :| p in articles && t in TagsOf(p);
        if p != last {
          assert p in prefix;
        }
      }
    }
  }

  /** The nested scan is one scan of the flattened tag stream. */
  lemma {:induction false} CollectTagsIsScanOfStream(blocked: seq<Tag>, articles: seq<Post>)
    ensures CollectTags(blocked, articles) == AddAll(blocked, [], Stream(articles))
    decreases |articles|
  {
    if articles != [] {
      var prefix := articles[..|articles| - 1];
      CollectTagsIsScanOfStream(blocked, prefix);
      AddAllAppend(blocked, [], Stream(prefix), TagsOf(articles[|articles| - 1]));
    }
  }

  /** No blocked tag is ever listed on the index. */
  lemma {:induction false} IndexTagsNotBlocked(blocked: seq<Tag>, articles: seq<Post>)
    ensures forall t :: t in CollectTags(blocked, articles) ==> t !in blocked
  {
    CollectTagsIsScanOfStream(blocked, articles);
  }

  /** The index lists each tag at most once. */
  lemma IndexTagsDistinct(blocked: seq<Tag>, articles: seq<Post>)
    ensures Distinct(CollectTags(blocked, articles))
  {
    CollectTagsIsScanOfStream(blocked, articles);
    AddAllDistinct(blocked, [], Stream(articles));
  }

  /** A tag is listed exactly when it is not blocked and some post that has
      tags lists it. */
  lemma IndexTagsComplete(blocked: seq<Tag>, articles: seq<Post>, t: Tag)
    ensures t in CollectTags(blocked, articles)
      <==> t !in blocked && exists p :: p in articles && HasTags(p) && t in p.data.value.tags.value
  {
    CollectTagsIsScanOfStream(blocked, articles);
    AddAllComplete(blocked, [], Stream(articles));
    StreamMembership(articles, t);
  }

  /** The index lists the tags in the order of their first occurrence in the
      scan: posts in the order given, each post's tags in their order. */
  lemma IndexTagsInFirstEncounterOrder(blocked: seq<Tag>, articles: seq<Post>)
    ensures InFirstEncounterOrder(Stream(articles), CollectTags(blocked, articles))
  {
    CollectTagsIsScanOfStream(blocked, articles);
    AddAllFirstEncounter(blocked, Stream(articles));
  }

  /** A post without data or without tags contributes nothing, wherever it
      stands in the list. */
  lemma UntaggedPostIgnored(blocked: seq<Tag>, xs: seq<Post>, p: Post, ys: seq<Post>)
    requires !HasTags(p)
    ensures CollectTags(blocked, xs + [p] + ys) == CollectTags(blocked, xs + ys)
  {
    assert [p][..0] == [];
    calc {
      Stream(xs + [p] + ys);
      { StreamAppend(xs + [p], ys); }
      Stream(xs + [p]) + Stream(ys);
      { StreamAppend(xs, [p]); }
      Stream(xs) + Stream([p]) + Stream(ys);
      { assert Stream([p]) == []; }
      Stream(xs) + Stream(ys);
      { StreamAppend(xs, ys); }
      Stream(xs + ys);
    }
    CollectTagsIsScanOfStream(blocked, xs + [p] + ys);
    CollectTagsIsScanOfStream(blocked, xs + ys);
  }

  // ---------------------------------------------------------------------
  // The emitted pages

  lemma TagUrlInjective(a: Tag, b: Tag)
    ensures TagUrl(a) == TagUrl(b) <==> a == b
  {
    if TagUrl(a) == TagUrl(b) {
      assert a == TagUrl(a)[|IndexUrl|..|TagUrl(a)| - 1];
      assert b == TagUrl(b)[|IndexUrl|..|TagUrl(b)| - 1];
    }
  }

  /** The re-check of the block list in the page loop never skips a tag of
      the set: every tag gets its page, in order. */
  lemma {:induction false} TagPagesUnfiltered(blocked: seq<Tag>, search: Search, tags: seq<Tag>)
    requires forall t :: t in tags ==> t !in blocked
    ensures |TagPages(blocked, search, tags)| == |tags|
    ensures forall k :: 0 <= k < |tags| ==>
      TagPages(blocked, search, tags)[k] == TagPage(TagUrl(tags[k]), tags[k], search(tags[k], None))
    decreases |tags|
  {
    if tags != [] {
      var prefix, last := tags[..|tags| - 1], tags[|tags| - 1];
      assert tags == prefix + [last];
      TagPagesUnfiltered(blocked, search, prefix);
      assert TagPages(blocked, search, tags)
        == TagPages(blocked, search, prefix) + [TagPage(TagUrl(last), last, search(last, None))];
    }
  }

  /** The generator's output: the index page first, with all posts
      date-descending and the collected tags, then one page per tag in the
      order of the tag list, each with the posts the query for that tag
      returns. */
  lemma PagesShape(blocked: seq<Tag>, search: Search)
    ensures var out, articles := Pages(blocked, search), search(PostQuery, Some(DateDescending));
      var tags := CollectTags(blocked, articles);
      && |out| == 1 + |tags|
      && out[0] == Index(IndexUrl, tags, articles)
      && forall k :: 0 <= k < |tags| ==>
           out[k + 1] == TagPage(TagUrl(tags[k]), tags[k], search(tags[k], None))
  {
    var articles := search(PostQuery, Some(DateDescending));
    var tags := CollectTags(blocked, articles);
    var out, pages := Pages(blocked, search), TagPages(blocked, search, tags);
    assert out == [Index(IndexUrl, tags, articles)] + pages;
    IndexTagsNotBlocked(blocked, articles);
    TagPagesUnfiltered(blocked, search, tags);
    forall k | 0 <= k < |tags|
      ensures out[k + 1] == TagPage(TagUrl(tags[k]), tags[k], search(tags[k], None))
    {
      assert out[k + 1] == pages[k];
    }
  }

  /** No two pages share a URL. */
  lemma PagesUrlsDistinct(blocked: seq<Tag>, search: Search)
    ensures var out := Pages(blocked, search);
      forall k1, k2 :: 0 <= k1 < k2 < |out| ==> out[k1].url != out[k2].url
  {
    var articles := search(PostQuery, Some(DateDescending));
    var out, tags := Pages(blocked, search), CollectTags(blocked, articles);
    PagesShape(blocked, search);
    IndexTagsDistinct(blocked, articles);
    forall k1, k2 | 0 <= k1 < k2 < |out|
      ensures out[k1].url != out[k2].url
    {
      if k1 == 0 {
        assert |out[k2].url| == |tags[k2 - 1]| + 10;
      } else {
        TagUrlInjective(tags[k1 - 1], tags[k2 - 1]);
      }
    }
  }

  /** For each tag some post carries and the block list does not hold,
      exactly one page has the URL "/archive/<tag>/", and it lists the posts
      the query for that tag returns. */
  lemma PagePerTag(blocked: seq<Tag>, search: Search, t: Tag)
    requires t !in blocked
    requires exists p :: p in search(PostQuery, Some(DateDescending)) && HasTags(p) && t in p.data.value.tags.value
    ensures var out := Pages(blocked, search);
      exists k :: 1 <= k < |out| && out[k] == TagPage(TagUrl(t), t, search(t, None))
        && forall k' :: 0 <= k' < |out| && out[k'].url == TagUrl(t) ==> k' == k
  {
    var articles := search(PostQuery, Some(DateDescending));
    var out, tags := Pages(blocked, search), CollectTags(blocked, articles);
    IndexTagsComplete(blocked, articles, t);
    PagesShape(blocked, search);
    PagesUrlsDistinct(blocked, search);
    var i :| 0 <= i < |tags| && tags[i] == t;
    assert out[i + 1] == TagPage(TagUrl(t), t, search(t, None));
  }

  /** No page is ever generated for a blocked tag. */
  lemma NoBlockedPage(blocked: seq<Tag>, search: Search, t: Tag)
    requires t in blocked
    ensures var out := Pages(blocked, search);
      forall k :: 0 <= k < |out| ==> out[k].url != TagUrl(t)
  {
    var articles := search(PostQuery, Some(DateDescending));
    var out, tags := Pages(blocked, search), CollectTags(blocked, articles);
    PagesShape(blocked, search);
    IndexTagsNotBlocked(blocked, articles);
    forall k | 0 <= k < |out|
      ensures out[k].url != TagUrl(t)
    {
      if k == 0 {
        assert |TagUrl(t)| == |t| + 10;
      } else {
        TagUrlInjective(tags[k - 1], t);
      }
    }
  }

  /** When no post has tags, the index with an empty tag list is the only
      page. */
  lemma PagesWithoutTags(blocked: seq<Tag>, search: Search)
    requires forall p :: p in search(PostQuery, Some(DateDescending)) ==> !HasTags(p)
    ensures Pages(blocked, search) == [Index(IndexUrl, [], search(PostQuery, Some(DateDescending)))]
  {
    var articles := search(PostQuery, Some(DateDescending));
    var tags := CollectTags(blocked, articles);
    if tags != [] {
      IndexTagsComplete(blocked, articles, tags[0]);
      assert false;
    }
  }

  // ---------------------------------------------------------------------
  // A worked example with the site's own block list

  /** Three posts: one tagged with a blocked label among others, one with two
      plain tags, one without tags. */
  function ExamplePosts(): seq<Post>
  {
    [ Post("/posts/a/", Some(PageData(Some(["guides", "deno-tetris-guide"])))),
      Post("/posts/b/", Some(PageData(Some(["guides", "js"])))),
      Post("/posts/c/", Some(PageData(None))) ]
  }

  function ExampleSearch(query: string, sort: Option<string>): seq<Post>
  {
    if query == PostQuery then ExamplePosts() else []
  }

  /** The first post adds "guides" and skips the blocked label. */
  lemma ExampleFirstPost()
    ensures AddAll(Blocked, [], ["guides", "deno-tetris-guide"]) == ["guides"]
  {
  }

  /** The second post repeats "guides" and adds "js". */
  lemma ExampleSecondPost()
    ensures AddAll(Blocked, ["guides"], ["guides", "js"]) == ["guides", "js"]
  {
  }

  /** The scan keeps "guides" once, drops the blocked "deno-tetris-guide"
      and adds "js"; the post without tags adds nothing. */
  lemma ExampleTags()
    ensures CollectTags(Blocked, ExamplePosts()) == ["guides", "js"]
  {
    var posts := ExamplePosts();
    assert posts[..0] == [] && posts[..3] == posts;
    assert TagsOf(posts[0]) == ["guides", "deno-tetris-guide"];
    assert TagsOf(posts[1]) == ["guides", "js"];
    assert TagsOf(posts[2]) == [];
    ExampleFirstPost();
    ExampleSecondPost();
    CollectTagsSnoc(Blocked, posts, 0);
    CollectTagsSnoc(Blocked, posts, 1);
    CollectTagsSnoc(Blocked, posts, 2);
  }

  /** The pages are "/archive/", "/archive/guides/" and "/archive/js/". */
  lemma ExampleArchive()
    ensures var out := Archive(ExampleSearch);
      && |out| == 3
      && out[0] == Index(IndexUrl, ["guides", "js"], ExamplePosts())
      && out[1] == TagPage(TagUrl("guides"), "guides", [])
      && out[2] == TagPage(TagUrl("js"), "js", [])
  {
    ExampleTags();
    PagesShape(Blocked, ExampleSearch);
  }
}
