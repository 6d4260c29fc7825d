# authors-as-taxonomy, modelled in Dafny

The calmPress plugin "authors as taxonomy" keeps a post's authors as terms of
the taxonomy `calm_authors` instead of as the single WordPress user who owns
the post. This project models the plugin's logic and proves properties of it:

- **internal** (`internal.dfy`): the persisted settings and their taxonomy slug,
  with counts of option writes and rewrite-rule flushes; the filter that keeps
  the post types supporting authors; the guarded lookup of a post's author
  terms.
- **api** (`api_functions.dfy`): `formatted_authors_links`,
  `formatted_authors_text` and `post_authors`.
- **Authors_Collection** (`authors_collection.dfy`): the iterable collection of
  author terms. It is a class whose `terms` array is filtered in place by its
  constructor and whose iteration position is moved by `next` and `rewind`.
  `Author` is a value wrapping one term.
- **integration** (`integration.dfy`): the WordPress filters `change_author_to_owner`,
  `hide_owner_metabox_by_default`, `the_author`, `the_author_posts_link` and
  `author_link`.
- **autoloader** (`autoloader.dfy`): the mapping from a `calmpress\...` class
  name to the file to include.

Supporting modules:

- `php_string.dfy` gives the PHP string builtins the code uses: `implode`/`join`,
  `explode`, `strpos`, `substr`, `substr_count`, `str_replace`, `strtolower`,
  `trailingslashit`. It also proves the general fact behind every accumulator
  loop of the plugin. Appending each piece, with a separator only once the text
  differs from its start, gives the start followed by the join of the pieces
  that remain once the leading empty ones are dropped (`SkipLeadingEmpty`).
- `php_array.dfy` models PHP's ordered, key-preserving arrays as sequences of
  (key, value) pairs, with `unset` and filtering.
- `host.dfy` holds the term record and the WordPress host functions
  (`esc_attr`, `esc_html`, `esc_url`, `get_term_link`, `sprintf`, `__`).
  These are uninterpreted function fields of a `Host` value.
- `wrappers.dfy` holds `Option`.

PHP loops become `for` loops with invariants, and each is proved against a
function of its inputs. Properties that relate several calls are lemmas.

## Model

| member | source | states |
|---|---|---|
| Internal.DefaultSettings | internal/authors-as-taxonomy/functions.php:36-39 | the defaults hold exactly the keys `version` and `slug`, with values "1.0.0" and "authors" |
| Internal.Loaded | internal/authors-as-taxonomy/functions.php:33-43 | `get_settings` returns the stored option, or the defaults when none is stored; the result has a slug whenever what is stored has one |
| Internal.OptionStore.GetSettings | internal/authors-as-taxonomy/functions.php:33-43 | with no stored option it returns and stores the defaults, with one write and one flush; otherwise it returns the stored option and writes and flushes nothing |
| Internal.OptionStore.GetTaxonomySlug | internal/authors-as-taxonomy/functions.php:53-57 | returns the loaded settings' slug; only the first-use initialisation writes or flushes |
| Internal.SlugUpdated | internal/authors-as-taxonomy/functions.php:69-79 | after `set_taxonomy_slug(slug)` the stored slug is `slug`; the option has the same keys, and every other entry keeps its value |
| Internal.SetSlugFlushes | internal/authors-as-taxonomy/functions.php:69-79 | `set_taxonomy_slug` flushes (and writes) nothing exactly when the stored slug already equals the new one; exactly once when a stored slug changes; with nothing stored, once for initialising and once more if the new slug is not the default |
| Internal.OptionStore.SetTaxonomySlug | internal/authors-as-taxonomy/functions.php:69-79 | the new stored option is `SlugUpdated`, and the write and flush counters grow by `SetSlugFlushes` |
| Internal.SetThenGet | internal/authors-as-taxonomy/functions.php:53-79 | after setting a slug, `get_taxonomy_slug` returns it and initialises nothing |
| Internal.SetCurrentSlugIsNoop | internal/authors-as-taxonomy/functions.php:72-74 | setting the slug already stored leaves the option unchanged, with no flush |
| Internal.SetSlugIdempotent | internal/authors-as-taxonomy/functions.php:69-79 | setting the same slug twice leaves what setting it once leaves; the second call flushes nothing |
| Internal.PostTypesSupportingAuthors | internal/authors-as-taxonomy/functions.php:88-97 | the loop that unsets unsupported types leaves exactly the input entries whose type supports `author`, with their keys and in their order |
| Internal.PostAuthors | internal/authors-as-taxonomy/functions.php:169-192 | an empty list for an id below 1, for an error result and for a non-array result; otherwise the fetched terms unchanged |
| PhpArray.Keep | internal/authors-as-taxonomy/functions.php:90-94 | the filtered array is no longer than the input and holds exactly the input entries that satisfy the predicate |
| PhpArray.Unset | internal/authors-as-taxonomy/functions.php:92 | `unset($a[$k])` adds no entry, leaves no entry under `k`, and keeps every entry under another key |
| PhpArray.Assign | integration/authors-as-taxonomy/functions.php:38 | assigning to an existing key keeps the length, every key and its place, and changes only the value under that key; a new key is appended with its value |
| PhpArray.UnsetStep | api/authors-as-taxonomy/class-authors-collection.php:34-36 | with distinct keys, one turn of a `foreach` that unsets the current key when its value fails the predicate extends the kept prefix by that entry or by nothing |
| PhpArray.KeepKeysIncreasing | api/authors-as-taxonomy/class-authors-collection.php:34-36 | unsetting entries keeps the remaining keys in increasing order, because `unset` does not reindex |
| PhpArray.KeepRejectLength | api/authors-as-taxonomy/class-authors-collection.php:34-38 | the kept and the removed entries together number as many as the input |
| AuthorsCollections.UnsetForeignTerms | api/authors-as-taxonomy/class-authors-collection.php:34-39 | the constructor's loop leaves exactly the author-taxonomy entries, and warns with the term ids of the removed ones, in order |
| AuthorsCollections.RetainedTerms | api/authors-as-taxonomy/class-authors-collection.php:33-39 | every retained entry is an author term under its original index; no author term of the input is missing; keys increase; kept plus removed equals the input count |
| AuthorsCollections.WarningIds | api/authors-as-taxonomy/class-authors-collection.php:37 | one warning per removed entry, carrying its term id, in order |
| AuthorsCollections.AuthorsCollection.constructor | api/authors-as-taxonomy/class-authors-collection.php:32-40 | the terms are the input's author terms under their original keys; one warning per removed term; at most as many terms as given; the position is at the first entry |
| AuthorsCollections.AuthorsCollection.Count | api/authors-as-taxonomy/class-authors-collection.php:49-51 | the number of retained terms |
| AuthorsCollections.Author.Name | api/authors-as-taxonomy/class-author.php:52-54 | an author's name is the name of its term |
| AuthorsCollections.AuthorsCollection.Current | api/authors-as-taxonomy/class-authors-collection.php:60-62 | the author wrapping the term at the position, whose name is that term's name; nothing past the end |
| AuthorsCollections.AuthorsCollection.Key | api/authors-as-taxonomy/class-authors-collection.php:71-73 | the original key of the entry at the position; nothing past the end |
| AuthorsCollections.AuthorsCollection.Next | api/authors-as-taxonomy/class-authors-collection.php:80-82 | the position moves by one, and stays put past the end; only the position changes |
| AuthorsCollections.AuthorsCollection.Valid | api/authors-as-taxonomy/class-authors-collection.php:91-93 | true exactly when the collection is non-empty, wherever the position is |
| AuthorsCollections.AuthorsCollection.Rewind | api/authors-as-taxonomy/class-authors-collection.php:100-102 | the position is at the first entry; only the position changes |
| AuthorsCollections.AuthorsCollection.HasCurrent | api/authors-as-taxonomy/class-authors-collection.php:91-93 | corrected `valid()`: true exactly when there is an entry at the position |
| AuthorsCollections.ForeachPastLastAuthor | api/authors-as-taxonomy/class-authors-collection.php:80-93 | a `foreach` over a one-author collection, calling `rewind`, `valid`, `current`, `next` in PHP's order: the first turn sees the author; after `next()`, `valid()` still says true while `current()` has nothing to return |
| AuthorsCollections.ForeachAuthors | api/authors-as-taxonomy/class-authors-collection.php:60-102 | iterating with the position-aware test visits every retained author once, in order, and leaves the terms unchanged |
| Api.OptionalAttr | api/authors-as-taxonomy/functions.php:100-101 | the rel attribute (and the class attribute as documented) is empty exactly when its value is empty, and otherwise starts with ` name="` |
| Api.ClassAttrAsWritten | api/authors-as-taxonomy/functions.php:101 | as written, the class attribute is never empty, whatever class is asked for |
| Api.TitleAttr | api/authors-as-taxonomy/functions.php:110 | the title part is empty exactly when the title format is empty |
| Api.FormattedName | api/authors-as-taxonomy/functions.php:111 | the anchor text (and, at line 169, the name text) is empty for an empty format, and otherwise the format applied to the HTML-escaped name |
| Api.Link | api/authors-as-taxonomy/functions.php:108-112 | every link starts with `<a`, and so is never empty |
| Api.Links | api/authors-as-taxonomy/functions.php:104-113 | one link per author, in the authors' order |
| Api.LinksHtml | api/authors-as-taxonomy/functions.php:103-114 | the loop gives the prefix, then the links joined by the separator, then the postfix |
| Api.LinksHtmlLength | api/authors-as-taxonomy/functions.php:103-114 | for N >= 1 links the text holds exactly N - 1 separators besides the prefix, the links and the postfix |
| Api.FormattedAuthorsLinksAsWritten | api/authors-as-taxonomy/functions.php:82-117 | as written: '' for an invalid id or no authors; otherwise prefix, links joined, postfix, each link built with the class attribute of `ClassAttrAsWritten` |
| Api.FormattedAuthorsLinks | api/authors-as-taxonomy/functions.php:82-117 | corrected: the same, with the class attribute taken from the link class |
| Api.LinkClassIgnored | api/authors-as-taxonomy/functions.php:86-101 | as written, a link is the same whatever link class is given, and it carries a class attribute even when none is asked for |
| Api.NameTextsAt | api/authors-as-taxonomy/functions.php:168-169 | the i-th name text is the i-th author's `FormattedName`: the name format applied to the escaped name, or '' for an empty format |
| Api.TextsHtml | api/authors-as-taxonomy/functions.php:163-172 | the loop gives the prefix, the name texts joined by the separator once leading empty texts are dropped, and the postfix |
| Api.FormattedAuthorsText | api/authors-as-taxonomy/functions.php:148-175 | '' for an invalid id or no authors; otherwise the text of `TextsHtml`; a non-empty result starts with the prefix and ends with the postfix |
| Api.EmptyNameFormat | api/authors-as-taxonomy/functions.php:165-170 | with an empty name format the body between prefix and postfix is empty; no separator is added |
| Api.PostAuthors | api/authors-as-taxonomy/functions.php:192-199 | a fresh collection at its first entry; empty for an id below 1; otherwise it holds the post's author terms under their original keys |
| Integration.ChangeAuthorToOwner | integration/authors-as-taxonomy/functions.php:36-42 | same columns in the same order; only the `author` heading changes, to the translated "Owner"; without an `author` column the input is returned unchanged |
| Integration.HideOwnerMetaboxByDefault | integration/authors-as-taxonomy/functions.php:96-99 | the hidden list gains one element at its end, `clam_ownerdiv`, and keeps every existing element |
| Integration.Names | integration/authors-as-taxonomy/functions.php:205-211 | one name per author, in order |
| Integration.TheAuthor | integration/authors-as-taxonomy/functions.php:201-215 | the names joined by ", " once leading empty names are dropped; '' exactly when every author's name is empty (in particular with no authors) |
| Integration.TheAuthorNames | integration/authors-as-taxonomy/functions.php:201-215 | no authors give ''; when every author has a name, the result is all the names joined by ", " |
| Integration.PostsLinks | integration/authors-as-taxonomy/functions.php:130-142 | one archive link per author, in order, each the link to that author's term |
| Integration.PostsLink | integration/authors-as-taxonomy/functions.php:136-141 | an archive link starts with `<a href="`, and so is never empty |
| Integration.TheAuthorPostsLink | integration/authors-as-taxonomy/functions.php:125-145 | the archive links joined by ", "; '' with no authors; for N authors exactly N - 1 separators |
| Integration.Slugs | integration/authors-as-taxonomy/functions.php:178-184 | one slug per author, in order |
| Integration.CombinedSlug | integration/authors-as-taxonomy/functions.php:177-184 | the slugs joined by ',' once leading empty slugs are dropped; when the first slug is non-empty, all slugs joined by ',' |
| Integration.AuthorLink | integration/authors-as-taxonomy/functions.php:161-189 | '' with no authors; the first author's term link for one author; for several, the link unchanged unless the first slug occurs exactly once, in which case that occurrence is replaced by all the slugs joined by ',' |
| PhpString.StrReplaceSingle | integration/authors-as-taxonomy/functions.php:176-185 | when the search string occurs exactly once, `str_replace` replaces exactly that occurrence, at its `strpos` |
| PhpString.SubstrCount | integration/authors-as-taxonomy/functions.php:176 | `substr_count` is 0 for an empty needle; for a non-empty one it is 0 exactly when `strpos` finds no occurrence |
| PhpString.StrReplace | integration/authors-as-taxonomy/functions.php:185 | `str_replace` with an empty search string leaves the subject unchanged, and a replacement as long as the search string keeps the length |
| PhpString.StrReplaceAbsent | integration/authors-as-taxonomy/functions.php:176-185 | `str_replace` leaves the subject unchanged when `substr_count` finds no occurrence (by `SubstrCount`, when the search string occurs nowhere) |
| PhpString.JoinSkipEmptyIff | integration/authors-as-taxonomy/functions.php:204-214 | the accumulated text is empty exactly when every piece is empty |
| PhpString.AccumulateStep | integration/authors-as-taxonomy/functions.php:204-212 | one turn of an accumulator loop that adds a separator only to non-empty text appends the piece to the join of the pieces so far, after a separator exactly when the text was non-empty |
| PhpString.PrefixedStep | api/authors-as-taxonomy/functions.php:104-112 | the same step for a loop that starts from a prefix and compares the text with the prefix |
| PhpString.Join | wordpress-plugins/autoloader.php:49 | `join` of no parts is '', and a join of one or more parts starts with the first part |
| PhpString.JoinLength | integration/authors-as-taxonomy/functions.php:129-144 | the join of N >= 1 pieces is as long as the pieces plus N - 1 separators |
| PhpString.SkipLeadingEmptyNoEmpty | api/authors-as-taxonomy/functions.php:103-114 | with no empty piece, nothing is skipped |
| PhpString.SkipLeadingEmptySuffix | api/authors-as-taxonomy/functions.php:163-172 | the kept pieces are a suffix of the pieces, and every skipped piece is empty |
| PhpString.Split | wordpress-plugins/autoloader.php:47 | `explode` gives at least one segment, none containing the delimiter, and the segments joined by the delimiter give the input back |
| PhpString.SplitJoin | wordpress-plugins/autoloader.php:47-49 | exploding the join of delimiter-free segments gives the segments back |
| PhpString.Substr | wordpress-plugins/autoloader.php:43 | the string from the start index, or '' when the index is past the end |
| PhpString.StrPos | wordpress-plugins/autoloader.php:38 | the first index where the needle occurs, or nothing when it occurs nowhere |
| PhpString.StrReplaceChar | wordpress-plugins/autoloader.php:48 | `str_replace` of one character by another is the per-character replacement |
| PhpString.ToLower | wordpress-plugins/autoloader.php:48 | `strtolower` keeps the length and lower-cases every ASCII letter |
| PhpString.UntrailingSlashIt | wordpress-plugins/autoloader.php:53 | the input without its trailing slashes and backslashes |
| PhpString.TrailingSlashIt | wordpress-plugins/autoloader.php:53 | `trailingslashit` ends in exactly one '/', with no slash or backslash before it; what precedes it is a prefix of the input, and only slashes and backslashes of the input are dropped |
| Autoloader.ClassFileName | wordpress-plugins/autoloader.php:48 | the file name is `class-` followed by the segment with every '_' turned into '-' and every other character lower-cased; it has no '_' and no upper-case letter |
| Autoloader.Segments | wordpress-plugins/autoloader.php:43-47 | the class name without its first ten characters, split on `\` into at least one segment, none containing `\` |
| Autoloader.RelativePath | wordpress-plugins/autoloader.php:43-49 | splitting the relative path on `\` gives back the segments of the class name after its first ten characters, the last one replaced by its file name |
| Autoloader.RelativePathSegments | wordpress-plugins/autoloader.php:47-49 | the relative path has as many segments as the class name after its first ten characters; all but the last are unchanged, and the last is its file name |
| Autoloader.Autoload | wordpress-plugins/autoloader.php:35-53 | nothing for a class name that does not contain `calmpress`; otherwise the plugin root with one trailing slash, followed by the relative path |
| Autoloader.CollectionFileName | wordpress-plugins/autoloader.php:48 | `Authors_Collection` maps to `class-authors-collection` |
| Autoloader.AuthorsCollectionPath | wordpress-plugins/autoloader.php:42-49 | `calmpress\api\authors_as_taxonomy\Authors_Collection` maps to the relative path `api\authors_as_taxonomy\class-authors-collection` |

## Left out

- Host functions (`esc_attr`, `esc_html`, `esc_url`, `get_term_link`, `sprintf`, `__`) are uninterpreted parameters, so nothing is proved about escaping or formatting.
- `get_the_terms`, `is_wp_error` and `get_the_ID` are inputs. The term query's result is the `fetched` parameter, and the current post is the `postId` parameter.
- `get_option`, `update_option` and `flush_rewrite_rules` are modelled as the stored option plus write and flush counters.
- The autoloader's `include` (file I/O) is left out, and so is the `function_exists` guard against loading the file twice. Also out is `dirname(__FILE__, 2)`: the plugin root is a parameter.
- Autoloader.Autoload: the path is as the source builds it. It has no `.php` suffix and keeps `\` as the directory separator; the model does not say whether such a file exists.
- The `trigger_error` calls of `post_authors` and of the two formatters are not modelled. The collection constructor's warnings are kept as the list of term ids they report.
- PHP name-resolution and type defects are not modelled; the intended logic over lists is modelled instead. These are: `internal\` used without a `use`, `implements iterator` resolving inside the namespace, the unqualified `TAXONOMY_NAME` and `post_authors` in the integration file, and the array the API `post_authors` passes to the variadic constructor. The terms are taken as spread into that constructor.
- `isset($posts_columns['author'])` is false for a null heading; headings are strings here, so the model tests for the key.
- `get_term_link` returning a `WP_Error` is left out: term links are strings.
- The ignored filter parameters (`$link`, `$author_id`, `$author_nicename`, `$author`, `$screen`) are not modelled.
- Pure pass-throughs to WordPress are not modelled: `register_taxonomy`, `attach_to_relevant_post_types`, `change_author_meta_box_to_owner`, `post_owner_meta_box`, `set_authors_as_top_admin_menu`, and the `add_action`/`add_filter` registrations.
- `Author::archive_url` is a host call. The `Author` constructor's own taxonomy warning cannot fire for terms taken from the collection, which holds only author terms.
- The main plugin file `authors-as-taxonomy.php` and the template `feed-atom.php` are not part of this model.
- Api.FormattedName: the anchor and name texts are proved empty for an empty format, but not non-empty for a non-empty one, because the result of `sprintf` is uninterpreted.
- PHP 7 behaviour is assumed where versions differ, with `false` results folded into what the code makes of them. `substr($class_name, 10)` past the end gives `false`, which `explode` reads as '', so `Substr` gives ''. `substr_count` with an empty needle warns and gives `false`, which `1 === ...` rejects, so `SubstrCount` gives 0.
- `strtolower` is modelled as changing only the ASCII letters A-Z, as PHP 7 does under the C locale. Other locales are not modelled.
- Strings are sequences of characters, while PHP strings are bytes. `substr($class_name, 10)` cuts ten bytes and the length lemmas count characters, so the two agree only for single-byte (ASCII) text; multi-byte characters are not modelled.
- PHP arrays are ordered lists of (key, value) pairs, and list-like arrays (`$hidden`, the term lists) are plain sequences.
- Iteration over the collection with PHP's `foreach` is modelled by `ForeachPastLastAuthor` and `ForeachAuthors`, which call `rewind`, then `valid`/`current`/`next` for each turn, as PHP does for a `foreach` without a key; `key()` is not called.

## Findings

| source | as written | input that shows it | evidently intended | confidence | as-written member | corrected member |
|---|---|---|---|---|---|---|
| api/authors-as-taxonomy/functions.php:101 | the class test and the attribute read the undefined `$class`, which is null, so every link gets ` class=""` and `$link_class` is ignored | `formatted_authors_links` with any post that has one author and `link_class` = `byline` gives a link with an empty class attribute | test and escape `$link_class`: no class attribute for '', otherwise ` class="byline"` | not executed | Api.FormattedAuthorsLinksAsWritten | Api.FormattedAuthorsLinks |
| api/authors-as-taxonomy/class-authors-collection.php:91-93 | `valid()` answers whether the collection is non-empty, whatever the position | `foreach` over a collection holding one author term: after `next()`, `valid()` is still true and `current()` gets `false`, so `new Author(false)` fails | `valid()` true exactly when the position is at an entry | not executed | AuthorsCollections.ForeachPastLastAuthor | AuthorsCollections.AuthorsCollection.HasCurrent |
