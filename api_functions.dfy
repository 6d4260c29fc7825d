/**
 * api/authors-as-taxonomy/functions.php: the HTML helpers that list a
 * post's authors as links or as text, and the collection accessor.
 */
module Api {
  import opened Host
  import opened PhpString
  import Internal
  import PhpArray
  import AuthorsCollections

  // ---------------------------------------------------------------------------
  // The attribute pieces of one author link
  // ---------------------------------------------------------------------------

  /**
   * An optional ` name="value"` attribute, the value escaped: absent exactly
   * when the value is '' (the ` rel` attribute, and the ` class` attribute
   * as documented).
   */
  function OptionalAttr(h: Host, name: string, value: string): (r: string)
    ensures r == "" <==> value == ""
    ensures value != "" ==> " " + name + "=\"" <= r
  {
    if value == "" then "" else " " + name + "=\"" + h.escAttr(value) + "\""
  }

  /**
   * The class attribute as written: the test reads the undefined variable
   * `$class`, which is null, so `'' === $class` fails and the attribute is
   * built from `esc_attr(null)`, the escape of ''.  `linkClass` is never read.
   */
  function ClassAttrAsWritten(h: Host, linkClass: string): (r: string)
    ensures r != ""
  {
    " class=\"" + h.escAttr("") + "\""
  }

  /** The title attribute text: absent exactly when no title format is given. */
  function TitleAttr(h: Host, titleFormat: string, name: string): (r: string)
    ensures r == "" <==> titleFormat == ""
  {
    if titleFormat == "" then "" else " " + h.sprintf(titleFormat, h.escAttr(name))
  }

  /**
   * An author's name put through a format, as both the anchor of a link and
   * the name text are built: empty when no format is given, otherwise the
   * format applied to the HTML-escaped name.
   */
  function FormattedName(h: Host, format: string, name: string): (r: string)
    ensures format == "" ==> r == ""
    ensures format != "" ==> r == h.sprintf(format, h.escHtml(name))
  {
    if format == "" then "" else h.sprintf(format, h.escHtml(name))
  }

  /** One author's link; never empty. */
  function Link(h: Host, author: Term, classAttr: string, titleFormat: string, relType: string, anchorFormat: string): (r: string)
    ensures "<a" <= r && r != ""
  {
    var href := " href=\"" + h.escUrl(h.termLink(author)) + "\"";
    "<a" + classAttr + href + TitleAttr(h, titleFormat, author.name) + OptionalAttr(h, "rel", relType) + ">"
      + FormattedName(h, anchorFormat, author.name) + "</a>"
  }

  /** The links of all the authors, in order. */
  function Links(h: Host, authors: seq<Term>, classAttr: string, titleFormat: string, relType: string, anchorFormat: string): (r: seq<string>)
    ensures |r| == |authors|
    ensures forall i :: 0 <= i < |authors| ==> r[i] == Link(h, authors[i], classAttr, titleFormat, relType, anchorFormat)
  {
    if authors == [] then []
    else [Link(h, authors[0], classAttr, titleFormat, relType, anchorFormat)] + Links(h, authors[1..], classAttr, titleFormat, relType, anchorFormat)
  }

  // ---------------------------------------------------------------------------
  // formatted_authors_links
  // ---------------------------------------------------------------------------

  /**
   * The loop of `formatted_authors_links`: starting from the prefix, each
   * link is appended after a separator once the text differs from the
   * prefix; then the postfix.  Because every link is non-empty, the
   * separators are exactly those of the join of the links.
   */
  method LinksHtml(h: Host, authors: seq<Term>, prefix: string, separator: string, postfix: string,
                   classAttr: string, titleFormat: string, relType: string, anchorFormat: string)
    returns (html: string)
    ensures html == prefix + Join(Links(h, authors, classAttr, titleFormat, relType, anchorFormat), separator) + postfix
  {
    ghost var links := Links(h, authors, classAttr, titleFormat, relType, anchorFormat);
    html := prefix;
    for i := 0 to |authors|
      invariant html == prefix + Join(SkipLeadingEmpty(links[..i]), separator)
    {
      var link := Link(h, authors[i], classAttr, titleFormat, relType, anchorFormat);
      assert links[i] == link;
      PrefixedStep(prefix, links, i, separator, html);
      if html != prefix {
        html := html + separator;
      }
      html := html + link;
    }
    assert links[..|authors|] == links;
    SkipLeadingEmptyNoEmpty(links);
    html := html + postfix;
  }

  /**
   * The text of N >= 1 links is as long as the prefix, the links, exactly
   * N - 1 separators and the postfix.
   */
  lemma LinksHtmlLength(links: seq<string>, prefix: string, separator: string, postfix: string)
    requires |links| >= 1
    ensures |prefix + Join(links, separator) + postfix|
         == |prefix| + TotalLength(links) + (|links| - 1) * |separator| + |postfix|
  {
    JoinLength(links, separator);
  }

  /**
   * `formatted_authors_links` as written: '' for an invalid post id or a
   * post without authors; otherwise the prefix, the links separated by the
   * separator, and the postfix, every link carrying the class attribute
   * built from the undefined `$class`, whatever `linkClass` is.
   */
  method FormattedAuthorsLinksAsWritten(h: Host, postId: int, fetched: TermsResult,
                                        prefix: string, separator: string, postfix: string,
                                        linkClass: string, titleFormat: string, relType: string, anchorFormat: string)
    returns (html: string)
    ensures Internal.PostAuthors(postId, fetched) == [] ==> html == ""
    ensures var authors := Internal.PostAuthors(postId, fetched);
            authors != [] ==>
              html == prefix + Join(Links(h, authors, ClassAttrAsWritten(h, ""), titleFormat, relType, anchorFormat), separator) + postfix
  {
    if postId < 1 {
      return "";
    }
    var authors := Internal.PostAuthors(postId, fetched);
    if authors == [] {
      return "";
    }
    html := LinksHtml(h, authors, prefix, separator, postfix, ClassAttrAsWritten(h, linkClass), titleFormat, relType, anchorFormat);
  }

  /**
   * `formatted_authors_links` with the class attribute taken from
   * `linkClass`, as its documentation describes: '' for an invalid post id
   * or a post without authors; otherwise prefix, links, postfix, where a
   * link has a class attribute exactly when `linkClass` is not ''.
   */
  method FormattedAuthorsLinks(h: Host, postId: int, fetched: TermsResult,
                               prefix: string, separator: string, postfix: string,
                               linkClass: string, titleFormat: string, relType: string, anchorFormat: string)
    returns (html: string)
    ensures Internal.PostAuthors(postId, fetched) == [] ==> html == ""
    ensures var authors := Internal.PostAuthors(postId, fetched);
            authors != [] ==>
              html == prefix + Join(Links(h, authors, OptionalAttr(h, "class", linkClass), titleFormat, relType, anchorFormat), separator) + postfix
  {
    if postId < 1 {
      return "";
    }
    var authors := Internal.PostAuthors(postId, fetched);
    if authors == [] {
      return "";
    }
    html := LinksHtml(h, authors, prefix, separator, postfix, OptionalAttr(h, "class", linkClass), titleFormat, relType, anchorFormat);
  }

  /**
   * What the undefined `$class` does: links of the as-written version are
   * the same whatever class is asked for, and carry a class attribute even
   * when none is asked for, while the documented version has none.
   */
  lemma LinkClassIgnored(h: Host, author: Term, linkClass: string, titleFormat: string, relType: string, anchorFormat: string)
    ensures Link(h, author, ClassAttrAsWritten(h, linkClass), titleFormat, relType, anchorFormat)
         == Link(h, author, ClassAttrAsWritten(h, ""), titleFormat, relType, anchorFormat)
    ensures ClassAttrAsWritten(h, "") != OptionalAttr(h, "class", "")
  {
  }

  // ---------------------------------------------------------------------------
  // formatted_authors_text
  // ---------------------------------------------------------------------------

  /** The name texts of all the authors, in order. */
  function NameTexts(h: Host, authors: seq<Term>, nameFormat: string): (r: seq<string>)
    ensures |r| == |authors|
  {
    if authors == [] then [] else [FormattedName(h, nameFormat, authors[0].name)] + NameTexts(h, authors[1..], nameFormat)
  }

  /** The `i`-th name text is that of the `i`-th author. */
  lemma {:induction false} NameTextsAt(h: Host, authors: seq<Term>, nameFormat: string, i: nat)
    requires i < |authors|
    ensures NameTexts(h, authors, nameFormat)[i] == FormattedName(h, nameFormat, authors[i].name)
    decreases i
  {
    if i > 0 {
      NameTextsAt(h, authors[1..], nameFormat, i - 1);
    }
  }

  /**
   * The loop of `formatted_authors_text`: starting from the prefix, each
   * name text is appended, after a separator once the text differs from
   * the prefix (so empty leading texts add nothing); then the postfix.
   */
  method TextsHtml(h: Host, authors: seq<Term>, prefix: string, separator: string, postfix: string, nameFormat: string)
    returns (html: string)
    ensures html == prefix + Join(SkipLeadingEmpty(NameTexts(h, authors, nameFormat)), separator) + postfix
  {
    ghost var texts := NameTexts(h, authors, nameFormat);
    html := prefix;
    for i := 0 to |authors|
      invariant html == prefix + Join(SkipLeadingEmpty(texts[..i]), separator)
    {
      var nameText := FormattedName(h, nameFormat, authors[i].name);
      NameTextsAt(h, authors, nameFormat, i);
      PrefixedStep(prefix, texts, i, separator, html);
      if html != prefix {
        html := html + separator;
      }
      html := html + nameText;
    }
    assert texts[..|authors|] == texts;
    html := html + postfix;
  }

  /**
   * `formatted_authors_text`: '' for an invalid post id or a post without
   * authors; otherwise the text `TextsHtml` builds, which starts with the
   * prefix and ends with the postfix.
   */
  method FormattedAuthorsText(h: Host, postId: int, fetched: TermsResult,
                              prefix: string, separator: string, postfix: string, nameFormat: string)
    returns (html: string)
    ensures Internal.PostAuthors(postId, fetched) == [] ==> html == ""
    ensures var authors := Internal.PostAuthors(postId, fetched);
            authors != [] ==>
              html == prefix + Join(SkipLeadingEmpty(NameTexts(h, authors, nameFormat)), separator) + postfix
    ensures html != "" ==> prefix <= html && postfix <= html[|html| - |postfix|..] 
  {
    if postId < 1 {
      return "";
    }
    var authors := Internal.PostAuthors(postId, fetched);
    if authors == [] {
      return "";
    }
    html := TextsHtml(h, authors, prefix, separator, postfix, nameFormat);
  }

  /** With an empty name format every name text is empty, so the text is just prefix and postfix. */
  lemma EmptyNameFormat(h: Host, authors: seq<Term>, separator: string)
    ensures Join(SkipLeadingEmpty(NameTexts(h, authors, "")), separator) == ""
  {
    JoinSkipEmptyIff(NameTexts(h, authors, ""), separator);
  }

  // ---------------------------------------------------------------------------
  // post_authors
  // ---------------------------------------------------------------------------

  /**
   * `post_authors`: an empty collection for an invalid post id, otherwise
   * the collection of the post's author terms (the terms spread into the
   * variadic constructor).
   */
  method PostAuthors(postId: int, fetched: TermsResult) returns (c: AuthorsCollections.AuthorsCollection)
    ensures fresh(c) && c.Inv() && c.position == 0
    ensures postId < 1 ==> c.terms == []
    ensures c.terms == PhpArray.Keep(PhpArray.Indexed(Internal.PostAuthors(postId, fetched)), AuthorsCollections.IsAuthorTerm)
  {
    if postId < 1 {
      c := new AuthorsCollections.AuthorsCollection([]);
      return;
    }
    c := new AuthorsCollections.AuthorsCollection(Internal.PostAuthors(postId, fetched));
  }
}
