/**
 * wordpress-plugins/autoloader.php: the file a class of the `calmpress`
 * namespace is loaded from.  A class name is mapped to the plugin root, one
 * '/', and the name without its first ten characters (the `calmpress\`
 * part) in which the last `\`-separated segment becomes
 * `class-<name in lower case, '_' turned into '-'>`.
 */
module Autoloader {
  import opened Wrappers
  import opened PhpString

  /** The namespace whose classes this autoloader serves. */
  const NAMESPACE_ROOT: string := "calmpress"

  /** The length of `calmpress\`, cut from the front of a class name. */
  const PREFIX_LENGTH: nat := 10

  /**
   * The file name a class name segment maps to: `str_replace('_', '-', ..)`
   * (which is `ReplaceChar`, by `StrReplaceChar`), then `strtolower`.
   */
  function ClassFileName(segment: string): (r: string)
    ensures |r| == |segment| + 6 && r[..6] == "class-"
    ensures '_' !in r
    ensures forall i :: 0 <= i < |r| ==> !IsUpper(r[i])
    ensures '\\' !in segment ==> '\\' !in r
    ensures forall i :: 0 <= i < |segment| && segment[i] != '_' ==> r[6 + i] == LowerChar(segment[i])
    ensures forall i :: 0 <= i < |segment| && segment[i] == '_' ==> r[6 + i] == '-'
  {
    var name := ToLower(ReplaceChar(segment, '_', '-'));
    assert forall i :: 0 <= i < |name| ==> name[i] != '_';
    "class-" + name
  }

  /** The `\`-separated segments of the class name after its first ten characters. */
  function Segments(className: string): (parts: seq<string>)
    ensures |parts| >= 1
    ensures forall i :: 0 <= i < |parts| ==> '\\' !in parts[i]
  {
    Split(Substr(className, PREFIX_LENGTH), '\\')
  }

  /**
   * `$relative_path` after line 49: the segments rejoined by `\`, the last
   * one rewritten; splitting it again gives exactly those segments.
   */
  function RelativePath(className: string): (r: string)
    ensures var parts := Segments(className);
            Split(r, '\\') == parts[|parts| - 1 := ClassFileName(parts[|parts| - 1])]
  {
    var parts := Segments(className);
    var last := |parts| - 1;
    var rewritten := parts[last := ClassFileName(parts[last])];
    assert forall i :: 0 <= i < |rewritten| ==> '\\' !in rewritten[i];
    SplitJoin(rewritten, '\\');
    Join(rewritten, "\\")
  }

  /**
   * The relative path has exactly as many segments as the class name after
   * its first ten characters; every segment but the last is unchanged and
   * the last is its file name.
   */
  lemma RelativePathSegments(className: string)
    ensures var parts, path := Segments(className), Split(RelativePath(className), '\\');
            |path| == |parts|
            && (forall i :: 0 <= i < |parts| - 1 ==> path[i] == parts[i])
            && path[|path| - 1] == ClassFileName(parts[|parts| - 1])
  {
  }

  /**
   * `autoload(className)` up to the `include`: nothing for a class name that
   * does not contain `calmpress` anywhere; otherwise the file to include,
   * the plugin root with one trailing '/' followed by the relative path.
   */
  function Autoload(className: string, pluginRoot: string): (r: Option<string>)
    ensures r.None? <==> forall j :: !OccursAt(className, NAMESPACE_ROOT, j)
    ensures r.Some? ==> r.value == TrailingSlashIt(pluginRoot) + RelativePath(className)
  {
    if StrPos(className, NAMESPACE_ROOT).None? then None
    else Some(TrailingSlashIt(pluginRoot) + RelativePath(className))
  }

  /** Cutting `k` characters from a concatenation whose left part is `k` long. */
  lemma DropFromAppend(x: string, y: string)
    ensures (x + y)[|x|..] == y
  {
  }

  lemma CollectionDashed()
    ensures ReplaceChar("Authors_Collection", '_', '-') == "Authors-Collection"
  {
  }

  lemma CollectionLowered()
    ensures ToLower("Authors-Collection") == "authors-collection"
  {
  }

  /** The file name of the plugin's collection class. */
  lemma CollectionFileName()
    ensures ClassFileName("Authors_Collection") == "class-authors-collection"
  {
    CollectionDashed();
    CollectionLowered();
    assert "class-" + "authors-collection" == "class-authors-collection";
  }

  /**
   * The plugin's own collection class, `calmpress\api\authors_as_taxonomy\Authors_Collection`,
   * is looked up at `api\authors_as_taxonomy\class-authors-collection`.
   */
  lemma AuthorsCollectionPath()
    ensures RelativePath(Join(["calmpress", "api", "authors_as_taxonomy", "Authors_Collection"], "\\"))
         == Join(["api", "authors_as_taxonomy", "class-authors-collection"], "\\")
  {
    var names := ["calmpress", "api", "authors_as_taxonomy", "Authors_Collection"];
    var parts := names[1..];
    assert parts == ["api", "authors_as_taxonomy", "Authors_Collection"];
    var className := Join(names, "\\");
    assert className == ("calmpress" + "\\") + Join(parts, "\\");
    DropFromAppend("calmpress" + "\\", Join(parts, "\\"));
    assert Substr(className, PREFIX_LENGTH) == Join(parts, "\\");
    assert '\\' !in "api" && '\\' !in "authors_as_taxonomy" && '\\' !in "Authors_Collection";
    SplitJoin(parts, '\\');
    assert Segments(className) == parts;
    CollectionFileName();
    assert parts[2 := ClassFileName(parts[2])] == ["api", "authors_as_taxonomy", "class-authors-collection"];
  }
}
