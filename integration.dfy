/**
 * integration/authors-as-taxonomy/functions.php: the filters that put the
 * author terms in place of WordPress's user-based author: the admin column
 * and metabox tweaks, the author URL, the author name and the author link.
 * The post whose authors are shown is passed in as `postId` (the
 * `get_the_ID()` of the source) together with what the term query returns.
 */
module Integration {
  import opened Host
  import opened PhpString
  import PhpArray
  import Internal

  /** The handle of the owner metabox. */
  const OWNER_METABOX_HANDLE: string := "clam_ownerdiv"

  /** The separator between authors in the rendered name and links. */
  const AUTHORS_SEPARATOR: string := ", "

  // ---------------------------------------------------------------------------
  // Admin screens
  // ---------------------------------------------------------------------------

  /**
   * `change_author_to_owner`: the heading of the `author` column becomes the
   * translated "Owner"; every other column, and the order of all of them,
   * stays as it was.  Without an `author` column nothing changes.
   */
  function ChangeAuthorToOwner(h: Host, postsColumns: seq<(string, string)>): (r: seq<(string, string)>)
    ensures |r| == |postsColumns|
    ensures forall i :: 0 <= i < |r| ==> r[i].0 == postsColumns[i].0
    ensures forall i :: 0 <= i < |r| && postsColumns[i].0 != "author" ==> r[i] == postsColumns[i]
    ensures forall i :: 0 <= i < |r| && postsColumns[i].0 == "author" ==> r[i].1 == h.translate("Owner")
    ensures !PhpArray.HasKey(postsColumns, "author") ==> r == postsColumns
  {
    if PhpArray.HasKey(postsColumns, "author") then PhpArray.Assign(postsColumns, "author", h.translate("Owner"))
    else postsColumns
  }

  /** `hide_owner_metabox_by_default`: the owner metabox handle is appended to the hidden ones. */
  function HideOwnerMetaboxByDefault(hidden: seq<string>): (r: seq<string>)
    ensures |r| == |hidden| + 1
    ensures r[..|hidden|] == hidden && r[|hidden|] == OWNER_METABOX_HANDLE
    ensures OWNER_METABOX_HANDLE in r
  {
    hidden + [OWNER_METABOX_HANDLE]
  }

  // ---------------------------------------------------------------------------
  // the_author
  // ---------------------------------------------------------------------------

  /** The names of the terms, in order. */
  function Names(authors: seq<Term>): (r: seq<string>)
    ensures |r| == |authors|
    ensures forall i :: 0 <= i < |authors| ==> r[i] == authors[i].name
  {
    if authors == [] then [] else [authors[0].name] + Names(authors[1..])
  }

  /**
   * `the_author`: the names of the post's authors separated by ", ", a
   * separator coming only once the text is non-empty, so that authors with
   * an empty name before the first named one leave no separator behind.
   */
  method TheAuthor(postId: int, fetched: TermsResult) returns (text: string)
    ensures text == Join(SkipLeadingEmpty(Names(Internal.PostAuthors(postId, fetched))), AUTHORS_SEPARATOR)
    ensures text == "" <==> forall a :: a in Internal.PostAuthors(postId, fetched) ==> a.name == ""
  {
    var authors := Internal.PostAuthors(postId, fetched);
    ghost var names := Names(authors);
    text := "";
    for i := 0 to |authors|
      invariant text == Join(SkipLeadingEmpty(names[..i]), AUTHORS_SEPARATOR)
    {
      AccumulateStep(names, i, AUTHORS_SEPARATOR, text);
      if text != "" {
        text := text + AUTHORS_SEPARATOR;
      }
      text := text + authors[i].name;
    }
    assert names[..|authors|] == names;
    JoinSkipEmptyIff(names, AUTHORS_SEPARATOR);
    forall a | a in authors ensures a.name in names {
      var j :| 0 <= j < |authors| && authors[j] == a;
      assert names[j] == a.name;
    }
  }

  /** A post without authors has the empty name; with authors that all have names, their names joined by ", ". */
  lemma TheAuthorNames(authors: seq<Term>)
    ensures authors == [] ==> Join(SkipLeadingEmpty(Names(authors)), AUTHORS_SEPARATOR) == ""
    ensures (forall i :: 0 <= i < |authors| ==> authors[i].name != "") ==>
              Join(SkipLeadingEmpty(Names(authors)), AUTHORS_SEPARATOR) == Join(Names(authors), AUTHORS_SEPARATOR)
  {
    if forall i :: 0 <= i < |authors| ==> authors[i].name != "" {
      SkipLeadingEmptyNoEmpty(Names(authors));
    }
  }

  // ---------------------------------------------------------------------------
  // the_author_posts_link
  // ---------------------------------------------------------------------------

  /** The link to one author's archive, titled "Content by <name>"; never empty. */
  function PostsLink(h: Host, author: Term): (r: string)
    ensures "<a href=\"" <= r
  {
    "<a href=\"" + h.escUrl(h.termLink(author)) + "\" title=\""
      + h.escAttr(h.sprintf(h.translate("Content by %s"), author.name)) + "\" rel=\"author\">"
      + author.name + "</a>"
  }

  /** The archive links of the authors, in order. */
  function PostsLinks(h: Host, authors: seq<Term>): (r: seq<string>)
    ensures |r| == |authors|
    ensures forall i :: 0 <= i < |authors| ==> r[i] == PostsLink(h, authors[i])
  {
    if authors == [] then [] else [PostsLink(h, authors[0])] + PostsLinks(h, authors[1..])
  }

  /**
   * `the_author_posts_link`: '' for a post without authors, otherwise the
   * authors' archive links separated by ", ": since no link is empty, N
   * links carry exactly N - 1 separators.
   */
  method TheAuthorPostsLink(h: Host, postId: int, fetched: TermsResult) returns (html: string)
    ensures var authors := Internal.PostAuthors(postId, fetched);
            html == Join(PostsLinks(h, authors), AUTHORS_SEPARATOR)
    ensures Internal.PostAuthors(postId, fetched) == [] ==> html == ""
    ensures var authors := Internal.PostAuthors(postId, fetched);
            authors != [] ==>
              |html| == TotalLength(PostsLinks(h, authors)) + (|authors| - 1) * |AUTHORS_SEPARATOR|
  {
    var authors := Internal.PostAuthors(postId, fetched);
    ghost var links := PostsLinks(h, authors);
    html := "";
    for i := 0 to |authors|
      invariant html == Join(SkipLeadingEmpty(links[..i]), AUTHORS_SEPARATOR)
    {
      AccumulateStep(links, i, AUTHORS_SEPARATOR, html);
      if html != "" {
        html := html + AUTHORS_SEPARATOR;
      }
      html := html + PostsLink(h, authors[i]);
    }
    assert links[..|authors|] == links;
    SkipLeadingEmptyNoEmpty(links);
    if authors != [] {
      JoinLength(links, AUTHORS_SEPARATOR);
    }
  }

  // ---------------------------------------------------------------------------
  // author_link
  // ---------------------------------------------------------------------------

  /** The slugs of the terms, in order. */
  function Slugs(authors: seq<Term>): (r: seq<string>)
    ensures |r| == |authors|
    ensures forall i :: 0 <= i < |authors| ==> r[i] == authors[i].slug
  {
    if authors == [] then [] else [authors[0].slug] + Slugs(authors[1..])
  }

  /**
   * The loop of `author_link` building the combined slug: the slugs joined
   * by ',', a comma coming only once the text is non-empty.  When the first
   * slug is non-empty that is every slug joined by ','.
   */
  method CombinedSlug(authors: seq<Term>) returns (slug: string)
    ensures slug == Join(SkipLeadingEmpty(Slugs(authors)), ",")
    ensures authors != [] && authors[0].slug != "" ==> slug == Join(Slugs(authors), ",")
  {
    ghost var slugs := Slugs(authors);
    slug := "";
    for i := 0 to |authors|
      invariant slug == Join(SkipLeadingEmpty(slugs[..i]), ",")
    {
      AccumulateStep(slugs, i, ",", slug);
      if slug != "" {
        slug := slug + ",";
      }
      slug := slug + authors[i].slug;
    }
    assert slugs[..|authors|] == slugs;
  }

  /**
   * `author_link`: '' for a post without authors; the first author's term
   * link for a single author; for several, when the first author's slug
   * occurs exactly once in that link, that occurrence replaced by all the
   * slugs joined by ',', and otherwise the first author's link unchanged.
   */
  method AuthorLink(h: Host, postId: int, fetched: TermsResult) returns (url: string)
    ensures Internal.PostAuthors(postId, fetched) == [] ==> url == ""
    ensures var authors := Internal.PostAuthors(postId, fetched);
            |authors| == 1 ==> url == h.termLink(authors[0])
    ensures var authors := Internal.PostAuthors(postId, fetched);
            |authors| >= 2 && SubstrCount(h.termLink(authors[0]), authors[0].slug) != 1 ==>
              url == h.termLink(authors[0])
    ensures var authors := Internal.PostAuthors(postId, fetched);
            |authors| >= 2 && SubstrCount(h.termLink(authors[0]), authors[0].slug) == 1 ==>
              var link, first := h.termLink(authors[0]), authors[0].slug;
              StrPos(link, first).Some?
              && var at := StrPos(link, first).value;
                 url == link[..at] + Join(Slugs(authors), ",") + link[at + |first|..]
  {
    var authors := Internal.PostAuthors(postId, fetched);
    if authors == [] {
      return "";
    }
    url := h.termLink(authors[0]);
    if |authors| == 1 {
      return url;
    }
    if SubstrCount(url, authors[0].slug) == 1 {
      var slug := CombinedSlug(authors);
      StrReplaceSingle(authors[0].slug, slug, url);
      url := StrReplace(authors[0].slug, slug, url);
    }
  }
}
