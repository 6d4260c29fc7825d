/**
 * internal/authors-as-taxonomy/functions.php: the persisted settings (the
 * taxonomy slug), the post types authors attach to, and the guarded lookup
 * of a post's author terms.
 */
module Internal {
  import opened Wrappers
  import opened Host
  import PhpArray

  /** The version stored with the settings. */
  const VERSION: string := "1.0.0"

  /** The slug used until one is set. */
  const DEFAULT_SLUG: string := "authors"

  /** The settings option: an associative array of strings. */
  type Settings = map<string, string>

  /** What `get_settings` stores when the option is missing. */
  function DefaultSettings(): (s: Settings)
    ensures s.Keys == {"version", "slug"}
    ensures s["version"] == VERSION && s["slug"] == DEFAULT_SLUG
  {
    map["version" := VERSION, "slug" := DEFAULT_SLUG]
  }

  /** The plugin only ever stores settings that carry a slug. */
  predicate HasSlug(stored: Option<Settings>)
  {
    stored.Some? ==> "slug" in stored.value
  }

  /** The settings `get_settings` returns for a given stored option. */
  function Loaded(stored: Option<Settings>): (s: Settings)
    ensures HasSlug(stored) ==> "slug" in s
    ensures stored.Some? ==> s == stored.value
    ensures stored.None? ==> s == DefaultSettings()
  {
    if stored.Some? then stored.value else DefaultSettings()
  }

  /** The number of writes and flushes `get_settings` performs: one of each on first use. */
  function InitCost(stored: Option<Settings>): nat
  {
    if stored.None? then 1 else 0
  }

  /** The option `set_taxonomy_slug(slug)` leaves stored: only the slug differs. */
  function SlugUpdated(stored: Option<Settings>, slug: string): (s: Settings)
    requires HasSlug(stored)
    ensures "slug" in s && s["slug"] == slug
    ensures s.Keys == Loaded(stored).Keys
    ensures forall k :: k in s && k != "slug" ==> s[k] == Loaded(stored)[k]
  {
    Loaded(stored)["slug" := slug]
  }

  /**
   * The number of rewrite-rule flushes (and option writes) of
   * `set_taxonomy_slug(slug)`: none exactly when the stored slug already is
   * `slug`, and at most one for initialising plus one for the change.
   */
  function SetSlugFlushes(stored: Option<Settings>, slug: string): (n: nat)
    requires HasSlug(stored)
    ensures n <= 2
    ensures n == 0 <==> stored.Some? && stored.value["slug"] == slug
    ensures stored.None? ==> n == if slug == DEFAULT_SLUG then 1 else 2
    ensures stored.Some? && stored.value["slug"] != slug ==> n == 1
  {
    InitCost(stored) + (if slug != Loaded(stored)["slug"] then 1 else 0)
  }

  /** After setting a slug, reading it gives that slug, and the read writes and flushes nothing. */
  lemma SetThenGet(stored: Option<Settings>, slug: string)
    requires HasSlug(stored)
    ensures Loaded(Some(SlugUpdated(stored, slug)))["slug"] == slug
    ensures InitCost(Some(SlugUpdated(stored, slug))) == 0
  {
  }

  /** Setting the slug that is already stored changes nothing and flushes nothing. */
  lemma SetCurrentSlugIsNoop(m: Settings, slug: string)
    requires "slug" in m && m["slug"] == slug
    ensures SlugUpdated(Some(m), slug) == m
    ensures SetSlugFlushes(Some(m), slug) == 0
  {
  }

  /** Setting the same slug twice leaves what setting it once leaves, and the second call does not flush. */
  lemma SetSlugIdempotent(stored: Option<Settings>, slug: string)
    requires HasSlug(stored)
    ensures SlugUpdated(Some(SlugUpdated(stored, slug)), slug) == SlugUpdated(stored, slug)
    ensures SetSlugFlushes(Some(SlugUpdated(stored, slug)), slug) == 0
  {
    SetCurrentSlugIsNoop(SlugUpdated(stored, slug), slug);
  }

  /**
   * The WordPress option store as the settings functions see it, with
   * counters for `update_option` and `flush_rewrite_rules` calls.
   */
  class OptionStore {
    /** `get_option(__NAMESPACE__, false)`: None while the option is absent. */
    var stored: Option<Settings>
    var writes: nat
    var flushes: nat

    ghost predicate Inv()
      reads this
    {
      HasSlug(stored)
    }

    constructor (initial: Option<Settings>)
      requires HasSlug(initial)
      ensures Inv()
      ensures stored == initial && writes == 0 && flushes == 0
    {
      stored := initial;
      writes := 0;
      flushes := 0;
    }

    /** `get_settings`: initialises the option with the defaults on first use. */
    method GetSettings() returns (settings: Settings)
      requires Inv()
      modifies this
      ensures Inv()
      ensures old(stored).None? ==>
        && settings == DefaultSettings() && stored == Some(DefaultSettings())
        && writes == old(writes) + 1 && flushes == old(flushes) + 1
      ensures old(stored).Some? ==>
        && settings == old(stored).value && stored == old(stored)
        && writes == old(writes) && flushes == old(flushes)
    {
      if stored.None? {
        settings := DefaultSettings();
        stored := Some(settings);
        writes := writes + 1;
        flushes := flushes + 1;
      } else {
        settings := stored.value;
      }
    }

    /** `get_taxonomy_slug`. */
    method GetTaxonomySlug() returns (slug: string)
      requires Inv()
      modifies this
      ensures Inv()
      ensures slug == Loaded(old(stored))["slug"]
      ensures stored == Some(Loaded(old(stored)))
      ensures writes == old(writes) + InitCost(old(stored))
      ensures flushes == old(flushes) + InitCost(old(stored))
    {
      var settings := GetSettings();
      slug := settings["slug"];
    }

    /** `set_taxonomy_slug`: writes and flushes only when the slug changes. */
    method SetTaxonomySlug(slug: string)
      requires Inv()
      modifies this
      ensures Inv()
      ensures stored == Some(SlugUpdated(old(stored), slug))
      ensures writes == old(writes) + SetSlugFlushes(old(stored), slug)
      ensures flushes == old(flushes) + SetSlugFlushes(old(stored), slug)
    {
      var settings := GetSettings();
      var currentSlug := settings["slug"];
      if slug != currentSlug {
        settings := settings["slug" := slug];
        stored := Some(settings);
        writes := writes + 1;
        flushes := flushes + 1;
      } else {
        SetCurrentSlugIsNoop(settings, slug);
      }
    }
  }

  /**
   * `post_types_supporting_authors`: walks the registered post types
   * (`get_post_types()`, given as `postTypes`) and unsets those for which
   * `post_type_supports(type, 'author')` (given as `supportsAuthor`) fails.
   */
  method PostTypesSupportingAuthors(postTypes: seq<(string, string)>, supportsAuthor: string -> bool)
    returns (r: seq<(string, string)>)
    requires PhpArray.DistinctKeys(postTypes)
    ensures r == PhpArray.Keep(postTypes, supportsAuthor)
    ensures forall e :: e in r <==> e in postTypes && supportsAuthor(e.1)
  {
    r := postTypes;
    for i := 0 to |postTypes|
      invariant r == PhpArray.Keep(postTypes[..i], supportsAuthor) + postTypes[i..]
    {
      PhpArray.UnsetStep(postTypes, supportsAuthor, i);
      if !supportsAuthor(postTypes[i].1) {
        r := PhpArray.Unset(r, postTypes[i].0);
      }
    }
    assert postTypes[..|postTypes|] == postTypes;
  }

  /**
   * `post_authors`: the author terms of a post.  `fetched` is what
   * `get_the_terms(postId, TAXONOMY_NAME)` returns; it is not consulted
   * for an id below 1.
   */
  function PostAuthors(postId: int, fetched: TermsResult): (authors: seq<Term>)
    ensures postId < 1 ==> authors == []
    ensures fetched.WpError? || fetched.NotArray? ==> authors == []
    ensures postId >= 1 && fetched.Found? ==> authors == fetched.terms
  {
    if postId < 1 then []
    else if fetched.WpError? then []
    else if !fetched.Found? then []
    else fetched.terms
  }
}
