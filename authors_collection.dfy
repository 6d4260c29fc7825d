/**
 * api/authors-as-taxonomy/class-authors-collection.php and class-author.php:
 * an iterable, countable collection of author terms.  The terms are kept in
 * a PHP array whose internal position is the field `position` (an index into the
 * retained entries; `|terms|` is "past the end").
 */
module AuthorsCollections {
  import opened Wrappers
  import opened Host
  import PhpArray

  /** A post author: a wrapper around its term. */
  datatype Author = Author(term: Term) {
    /** `Author::name`: the name of the author's term. */
    function Name(): (r: string)
      ensures r == term.name
    {
      term.name
    }
  }

  /** The collection keeps exactly the terms of the author taxonomy. */
  predicate IsAuthorTerm(t: Term)
  {
    t.taxonomy == TAXONOMY_NAME
  }

  /** The term ids the constructor warns about, one per removed entry, in order. */
  function WarningIds(removed: seq<(int, Term)>): (ids: seq<int>)
    ensures |ids| == |removed|
    ensures forall i :: 0 <= i < |removed| ==> ids[i] == removed[i].1.termId
  {
    seq(|removed|, i requires 0 <= i < |removed| => removed[i].1.termId)
  }

  /** The warnings after one more turn of the constructor's loop. */
  lemma RejectStep(all: seq<(int, Term)>, i: nat)
    requires i < |all|
    ensures WarningIds(PhpArray.Reject(all[..i + 1], IsAuthorTerm))
         == WarningIds(PhpArray.Reject(all[..i], IsAuthorTerm)) + (if IsAuthorTerm(all[i].1) then [] else [all[i].1.termId])
  {
    assert all[..i + 1][..i] == all[..i];
  }

  /**
   * The retained entries of a list of terms: author terms only, each under
   * its original index, in increasing key order, none missing, and the
   * removed ones make up the difference in number.
   */
  lemma RetainedTerms(given: seq<Term>, kept: seq<(int, Term)>)
    requires kept == PhpArray.Keep(PhpArray.Indexed(given), IsAuthorTerm)
    ensures PhpArray.KeysIncreasing(kept)
    ensures forall i :: 0 <= i < |kept| ==> IsAuthorTerm(kept[i].1)
    ensures forall e :: e in kept ==> 0 <= e.0 < |given| && given[e.0] == e.1
    ensures forall i :: 0 <= i < |given| && IsAuthorTerm(given[i]) ==> (i, given[i]) in kept
    ensures |kept| + |PhpArray.Reject(PhpArray.Indexed(given), IsAuthorTerm)| == |given|
  {
    var all := PhpArray.Indexed(given);
    PhpArray.KeepIndexed(given, IsAuthorTerm);
    PhpArray.KeepRejectLength(all, IsAuthorTerm);
    forall i | 0 <= i < |kept| ensures IsAuthorTerm(kept[i].1) {
      assert kept[i] in kept;
    }
    forall i | 0 <= i < |given| && IsAuthorTerm(given[i]) ensures (i, given[i]) in kept {
      assert all[i] == (i, given[i]);
    }
  }

  /**
   * The constructor's loop: `foreach ($this->terms as $key => $term)`,
   * unsetting and warning about each term of another taxonomy.
   */
  method UnsetForeignTerms(all: seq<(int, Term)>) returns (kept: seq<(int, Term)>, warned: seq<int>)
    requires PhpArray.DistinctKeys(all)
    ensures kept == PhpArray.Keep(all, IsAuthorTerm)
    ensures warned == WarningIds(PhpArray.Reject(all, IsAuthorTerm))
  {
    kept := all;
    warned := [];
    for i := 0 to |all|
      invariant kept == PhpArray.Keep(all[..i], IsAuthorTerm) + all[i..]
      invariant warned == WarningIds(PhpArray.Reject(all[..i], IsAuthorTerm))
    {
      PhpArray.UnsetStep(all, IsAuthorTerm, i);
      RejectStep(all, i);
      if !IsAuthorTerm(all[i].1) {
        kept := PhpArray.Unset(kept, all[i].0);
        warned := warned + [all[i].1.termId];
      }
    }
    assert all[..|all|] == all;
  }

  class AuthorsCollection {
    /** `$terms`: (key, term) entries in iteration order. */
    var terms: seq<(int, Term)>
    /** The array's internal position. */
    var position: nat
    /** The ids reported with `trigger_error`, in order. */
    var warnings: seq<int>

    ghost predicate Inv()
      reads this
    {
      && position <= |terms|
      && (forall i :: 0 <= i < |terms| ==> IsAuthorTerm(terms[i].1))
      && PhpArray.KeysIncreasing(terms)
    }

    /**
     * `__construct(WP_Term ...$terms)`: takes the terms as a list, unsets
     * every entry of another taxonomy (warning once for each), and leaves
     * the position on the first retained entry.
     */
    constructor (given: seq<Term>)
      ensures Inv()
      ensures terms == PhpArray.Keep(PhpArray.Indexed(given), IsAuthorTerm)
      ensures forall e :: e in terms ==> 0 <= e.0 < |given| && given[e.0] == e.1
      ensures forall i :: 0 <= i < |given| && IsAuthorTerm(given[i]) ==> (i, given[i]) in terms
      ensures warnings == WarningIds(PhpArray.Reject(PhpArray.Indexed(given), IsAuthorTerm))
      ensures |terms| <= |given| && |terms| + |warnings| == |given|
      ensures position == 0
    {
      var all := PhpArray.Indexed(given);
      var kept, warned := UnsetForeignTerms(all);
      RetainedTerms(given, kept);
      terms := kept;
      warnings := warned;
      position := 0;
    }

    /** `count()`. */
    method Count() returns (n: nat)
      ensures n == |terms|
    {
      n := |terms|;
    }

    /**
     * `current()`: the author at the position.  Past the end PHP's `current`
     * gives `false` and `new Author(false)` raises a TypeError: None.
     */
    method Current() returns (a: Option<Author>)
      requires Inv()
      ensures position < |terms| ==> a == Some(Author(terms[position].1))
      ensures position < |terms| ==> a.value.Name() == terms[position].1.name && IsAuthorTerm(a.value.term)
      ensures position == |terms| ==> a.None?
    {
      if position < |terms| {
        a := Some(Author(terms[position].1));
      } else {
        a := None;
      }
    }

    /** `key()`: the original key of the entry at the position; `null` past the end. */
    method Key() returns (k: Option<int>)
      requires Inv()
      ensures position < |terms| ==> k == Some(terms[position].0)
      ensures position == |terms| ==> k.None?
    {
      if position < |terms| {
        k := Some(terms[position].0);
      } else {
        k := None;
      }
    }

    /** `next()`: advances the position; past the end it stays there. */
    method Next()
      requires Inv()
      modifies this`position
      ensures Inv()
      ensures position == if old(position) < |terms| then old(position) + 1 else old(position)
    {
      if position < |terms| {
        position := position + 1;
      }
    }

    /** `valid()`: whether the collection is non-empty, wherever the position is. */
    method Valid() returns (b: bool)
      ensures b <==> |terms| != 0
    {
      b := |terms| != 0;
    }

    /** `rewind()`: moves the position to the first entry. */
    method Rewind()
      requires Inv()
      modifies this`position
      ensures Inv()
      ensures position == 0
    {
      position := 0;
    }

    /** What `valid()` is meant to answer for PHP's `Iterator`: is there a current entry. */
    method HasCurrent() returns (b: bool)
      requires Inv()
      ensures b <==> position < |terms|
    {
      b := position < |terms|;
    }
  }

  /**
   * `foreach` over a one-author collection as written, calling the methods
   * in PHP's order (`rewind`, then `valid`, `current` and `next` for each
   * turn): the first turn sees the only author; after `next()`, `valid()`
   * still says true, so PHP calls `current()` again, which fails.
   */
  method ForeachPastLastAuthor(t: Term)
    returns (firstValid: bool, first: Option<Author>, stillValid: bool, afterLast: Option<Author>)
    requires IsAuthorTerm(t)
    ensures firstValid && first == Some(Author(t))
    ensures stillValid && afterLast.None?
  {
    var c := new AuthorsCollection([t]);
    assert PhpArray.Indexed([t]) == [(0, t)];
    c.Rewind();
    firstValid := c.Valid();
    first := c.Current();
    c.Next();
    stillValid := c.Valid();
    afterLast := c.Current();
  }

  /**
   * `foreach ($collection as $author)` with the position-aware validity
   * test: visits every author once, in order, and stops.
   */
  method ForeachAuthors(c: AuthorsCollection) returns (names: seq<string>)
    requires c.Inv()
    modifies c
    ensures c.Inv() && c.terms == old(c.terms)
    ensures |names| == |c.terms|
    ensures forall i :: 0 <= i < |names| ==> names[i] == c.terms[i].1.name
  {
    c.Rewind();
    names := [];
    var more := c.HasCurrent();
    while more
      invariant c.Inv() && c.terms == old(c.terms)
      invariant |names| == c.position
      invariant more <==> c.position < |c.terms|
      invariant forall i :: 0 <= i < |names| ==> names[i] == c.terms[i].1.name
      decreases |c.terms| - c.position
    {
      var a := c.Current();
      names := names + [a.value.Name()];
      c.Next();
      more := c.HasCurrent();
    }
  }
}
