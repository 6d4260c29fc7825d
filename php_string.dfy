/**
 * The PHP string functions the plugin relies on, with PHP 7 semantics:
 * `implode`/`join`, `explode`, `strpos`, `substr`, `substr_count`,
 * `str_replace`, `strtolower` (ASCII), and WordPress's `trailingslashit`.
 */
module PhpString {
  import opened Wrappers

  // ---------------------------------------------------------------------------
  // implode / join
  // ---------------------------------------------------------------------------

  /** `implode(sep, parts)`: the parts with `sep` between neighbours; it starts with the first part. */
  function Join(parts: seq<string>, sep: string): (r: string)
    ensures parts == [] ==> r == ""
    ensures |parts| >= 1 ==> parts[0] <= r
    decreases |parts|
  {
    if |parts| == 0 then ""
    else if |parts| == 1 then parts[0]
    else parts[0] + sep + Join(parts[1..], sep)
  }

  /** The sum of the lengths of the parts. */
  function TotalLength(parts: seq<string>): nat
  {
    if parts == [] then 0 else |parts[0]| + TotalLength(parts[1..])
  }

  /** A join of N >= 1 parts holds the parts and exactly N - 1 separators. */
  lemma {:induction false} JoinLength(parts: seq<string>, sep: string)
    requires |parts| >= 1
    ensures |Join(parts, sep)| == TotalLength(parts) + (|parts| - 1) * |sep|
  {
    if |parts| > 1 {
      JoinLength(parts[1..], sep);
      assert TotalLength(parts) == |parts[0]| + TotalLength(parts[1..]);
    }
  }

  /** Appending one part to a join adds the separator and the part. */
  lemma {:induction false} JoinSnoc(parts: seq<string>, p: string, sep: string)
    ensures Join(parts + [p], sep) == if parts == [] then p else Join(parts, sep) + sep + p
    decreases |parts|
  {
    if |parts| > 1 {
      assert (parts + [p])[1..] == parts[1..] + [p];
      JoinSnoc(parts[1..], p, sep);
    } else if |parts| == 1 {
      assert parts + [p] == [parts[0], p];
    }
  }

  // ---------------------------------------------------------------------------
  // The "append the separator once the accumulator is non-empty" idiom
  // ---------------------------------------------------------------------------

  /** The parts from the first non-empty one on. */
  function SkipLeadingEmpty(parts: seq<string>): (r: seq<string>)
    ensures r == [] || r[0] != ""
  {
    if parts == [] then []
    else if parts[0] == "" then SkipLeadingEmpty(parts[1..])
    else parts
  }

  /** What is skipped is a run of empty parts at the front. */
  lemma {:induction false} SkipLeadingEmptySuffix(parts: seq<string>)
    ensures var r := SkipLeadingEmpty(parts);
            |r| <= |parts| && r == parts[|parts| - |r|..]
            && forall i :: 0 <= i < |parts| - |r| ==> parts[i] == ""
    decreases |parts|
  {
    if parts != [] && parts[0] == "" {
      SkipLeadingEmptySuffix(parts[1..]);
      var r := SkipLeadingEmpty(parts);
      assert parts[1..][|parts| - 1 - |r|..] == parts[|parts| - |r|..];
      forall i | 0 <= i < |parts| - |r| ensures parts[i] == "" {
        if i > 0 {
          assert parts[i] == parts[1..][i - 1];
        }
      }
    }
  }

  /** When no part is empty, nothing is skipped. */
  lemma SkipLeadingEmptyNoEmpty(parts: seq<string>)
    requires forall i :: 0 <= i < |parts| ==> parts[i] != ""
    ensures SkipLeadingEmpty(parts) == parts
  {
  }

  /** The join of the parts after the leading empty ones is empty exactly when every part is. */
  lemma JoinSkipEmptyIff(parts: seq<string>, sep: string)
    ensures Join(SkipLeadingEmpty(parts), sep) == "" <==> forall i :: 0 <= i < |parts| ==> parts[i] == ""
  {
    var r := SkipLeadingEmpty(parts);
    SkipLeadingEmptySuffix(parts);
    if r != [] {
      assert parts[|parts| - |r|] == r[0];
    }
  }

  /**
   * One step of the loop `if ($acc !== '') { $acc .= $sep; } $acc .= $p;`
   * started from '': the accumulator is always the join of the parts seen so
   * far, leading empty parts skipped.
   */
  lemma {:induction false} AppendPiece(parts: seq<string>, p: string, sep: string)
    ensures var acc := Join(SkipLeadingEmpty(parts), sep);
            Join(SkipLeadingEmpty(parts + [p]), sep) == if acc == "" then p else acc + sep + p
    decreases |parts|
  {
    if parts == [] {
      assert parts + [p] == [p];
    } else if parts[0] == "" {
      assert (parts + [p])[1..] == parts[1..] + [p];
      AppendPiece(parts[1..], p, sep);
    } else {
      JoinSnoc(parts, p, sep);
    }
  }

  /**
   * One turn of the same loop started from a prefix and testing
   * `$html !== $prefix`, over the list `parts`: after `i` turns the text is
   * the prefix followed by the join of the first `i` parts, leading empty
   * ones skipped.
   */
  lemma PrefixedStep(prefix: string, parts: seq<string>, i: nat, sep: string, html: string)
    requires i < |parts|
    requires html == prefix + Join(SkipLeadingEmpty(parts[..i]), sep)
    ensures html != prefix ==> prefix + Join(SkipLeadingEmpty(parts[..i + 1]), sep) == html + sep + parts[i]
    ensures html == prefix ==> prefix + Join(SkipLeadingEmpty(parts[..i + 1]), sep) == html + parts[i]
  {
    var acc := Join(SkipLeadingEmpty(parts[..i]), sep);
    assert parts[..i + 1] == parts[..i] + [parts[i]];
    AppendPiece(parts[..i], parts[i], sep);
    if acc == "" {
      assert html == prefix;
    } else {
      assert |html| > |prefix|;
      ConcatAssoc(prefix, acc + sep, parts[i]);
      ConcatAssoc(prefix, acc, sep);
    }
  }

  /** `PrefixedStep` for a loop started from '' that tests `$acc !== ''`. */
  lemma AccumulateStep(parts: seq<string>, i: nat, sep: string, acc: string)
    requires i < |parts|
    requires acc == Join(SkipLeadingEmpty(parts[..i]), sep)
    ensures acc != "" ==> Join(SkipLeadingEmpty(parts[..i + 1]), sep) == acc + sep + parts[i]
    ensures acc == "" ==> Join(SkipLeadingEmpty(parts[..i + 1]), sep) == acc + parts[i]
  {
    assert parts[..i + 1] == parts[..i] + [parts[i]];
    AppendPiece(parts[..i], parts[i], sep);
    if acc == "" {
      assert acc + parts[i] == parts[i];
    }
  }

  lemma ConcatAssoc(a: string, b: string, c: string)
    ensures a + (b + c) == (a + b) + c
  {
  }

  // ---------------------------------------------------------------------------
  // explode
  // ---------------------------------------------------------------------------

  /** `explode(d, s)`: the pieces of `s` between occurrences of `d`. */
  function Split(s: string, d: char): (parts: seq<string>)
    ensures |parts| >= 1
    ensures forall i :: 0 <= i < |parts| ==> d !in parts[i]
    ensures Join(parts, [d]) == s
    decreases |s|
  {
    if s == [] then [""]
    else
      var rest := Split(s[1..], d);
      if s[0] == d then
        assert Join([""] + rest, [d]) == [d] + Join(rest, [d]);
        [""] + rest
      else
        var parts := [[s[0]] + rest[0]] + rest[1..];
        assert Join(parts, [d]) == [s[0]] + Join(rest, [d]) by {
          if |rest| > 1 {
            assert parts[1..] == rest[1..];
          }
        }
        parts
  }

  /** Splitting a string that starts with a delimiter-free piece. */
  lemma {:induction false} SplitPrefix(x: string, s: string, d: char)
    requires d !in x
    ensures var r := Split(s, d); Split(x + s, d) == [x + r[0]] + r[1..]
    decreases |x|
  {
    if x != [] {
      var r := Split(s, d);
      assert (x + s)[1..] == x[1..] + s;
      SplitPrefix(x[1..], s, d);
      var rest := Split(x[1..] + s, d);
      assert rest == [x[1..] + r[0]] + r[1..];
      assert rest[0] == x[1..] + r[0] && rest[1..] == r[1..];
      assert (x + s)[0] == x[0] && x[0] != d;
      assert Split(x + s, d) == [[x[0]] + rest[0]] + rest[1..];
      ConcatAssoc([x[0]], x[1..], r[0]);
      assert [x[0]] + x[1..] == x;
    } else {
      var r := Split(s, d);
      assert x + s == s && x + r[0] == r[0];
      assert [r[0]] + r[1..] == r;
    }
  }

  /** `explode` undoes `implode` when no piece holds the delimiter. */
  lemma {:induction false} SplitJoin(parts: seq<string>, d: char)
    requires |parts| >= 1
    requires forall i :: 0 <= i < |parts| ==> d !in parts[i]
    ensures Split(Join(parts, [d]), d) == parts
    decreases |parts|
  {
    if |parts| == 1 {
      SplitPrefix(parts[0], "", d);
      assert parts[0] + "" == parts[0];
    } else {
      SplitJoin(parts[1..], d);
      var tail := Join(parts[1..], [d]);
      assert Join(parts, [d]) == parts[0] + ([d] + tail);
      SplitPrefix(parts[0], [d] + tail, d);
      assert ([d] + tail)[1..] == tail;
      assert parts[0] + "" == parts[0];
    }
  }

  // ---------------------------------------------------------------------------
  // strpos, substr, substr_count, str_replace
  // ---------------------------------------------------------------------------

  /** `t` occurs in `s` at index `j`. */
  predicate OccursAt(s: string, t: string, j: int)
  {
    0 <= j && j + |t| <= |s| && s[j..j + |t|] == t
  }

  /** An occurrence in `s[1..]` is an occurrence in `s`, one index further. */
  lemma OccursAtTail(s: string, t: string, j: int)
    requires s != [] && 1 <= j
    ensures OccursAt(s, t, j) <==> OccursAt(s[1..], t, j - 1)
  {
    if j + |t| <= |s| {
      var x, y := s[j..j + |t|], s[1..][j - 1..j - 1 + |t|];
      forall k | 0 <= k < |t| ensures x[k] == y[k] {
        assert x[k] == s[j + k];
        assert y[k] == s[1..][j - 1 + k];
      }
      assert x == y;
    }
  }

  /** `strpos(s, t)`: the first index at which `t` occurs in `s`, if any. */
  function StrPos(s: string, t: string): (r: Option<nat>)
    ensures r.Some? ==> OccursAt(s, t, r.value)
    ensures r.Some? ==> forall j :: 0 <= j < r.value ==> !OccursAt(s, t, j)
    ensures r.None? ==> forall j :: !OccursAt(s, t, j)
    decreases |s|
  {
    if |s| < |t| then None
    else if t <= s then Some(0)
    else
      match StrPos(s[1..], t)
      case None =>
        assert forall j :: 1 <= j ==> !OccursAt(s, t, j) by {
          forall j | 1 <= j { OccursAtTail(s, t, j); }
        }
        None
      case Some(k) =>
        OccursAtTail(s, t, k + 1);
        assert forall j :: 1 <= j < k + 1 ==> !OccursAt(s, t, j) by {
          forall j | 1 <= j < k + 1 { OccursAtTail(s, t, j); }
        }
        Some(k + 1)
  }

  /** `substr(s, start)` for `start >= 0`; past the end PHP 7 gives `false`, which later reads as ''. */
  function Substr(s: string, start: nat): (r: string)
    ensures start <= |s| ==> r == s[start..]
    ensures start >= |s| ==> r == ""
  {
    if start >= |s| then "" else s[start..]
  }

  /**
   * `substr_count(s, t)`: the number of non-overlapping occurrences of `t`,
   * scanned from the left.  An empty needle gives PHP 7's `false`, read here as 0.
   */
  function SubstrCount(s: string, t: string): (n: nat)
    ensures t == [] ==> n == 0
    ensures t != [] ==> (n == 0 <==> StrPos(s, t).None?)
    decreases |s|
  {
    if t == [] || |s| < |t| then 0
    else if t <= s then 1 + SubstrCount(s[|t|..], t)
    else SubstrCount(s[1..], t)
  }

  /** `str_replace(search, replace, subject)`: every non-overlapping occurrence, from the left. */
  function StrReplace(search: string, replace: string, subject: string): (r: string)
    ensures search == [] ==> r == subject
    ensures |replace| == |search| ==> |r| == |subject|
    decreases |subject|
  {
    if search == [] || |subject| < |search| then subject
    else if search <= subject then replace + StrReplace(search, replace, subject[|search|..])
    else [subject[0]] + StrReplace(search, replace, subject[1..])
  }

  /** Replacing a string that does not occur changes nothing. */
  lemma {:induction false} StrReplaceAbsent(search: string, replace: string, subject: string)
    requires SubstrCount(subject, search) == 0
    ensures StrReplace(search, replace, subject) == subject
    decreases |subject|
  {
    if search != [] && |subject| >= |search| {
      StrReplaceAbsent(search, replace, subject[1..]);
      assert [subject[0]] + subject[1..] == subject;
    }
  }

  /** Where `search` does not start `subject`, `strpos` looks one character further on. */
  lemma StrPosShift(search: string, subject: string)
    requires |subject| >= |search| && !(search <= subject)
    ensures StrPos(subject, search).Some? <==> StrPos(subject[1..], search).Some?
    ensures StrPos(subject, search).Some? ==> StrPos(subject, search).value == StrPos(subject[1..], search).value + 1
  {
  }

  /** Where `search` does not start `subject`, `str_replace` keeps the first character. */
  lemma StrReplaceShift(search: string, replace: string, subject: string)
    requires search != [] && |subject| >= |search| && !(search <= subject)
    ensures StrReplace(search, replace, subject) == [subject[0]] + StrReplace(search, replace, subject[1..])
  {
  }

  /** Slicing around index `k` of the tail of `s`. */
  lemma SliceAroundInTail(s: string, k: nat, n: nat)
    requires 1 + k + n <= |s|
    ensures s[..k + 1] == [s[0]] + s[1..][..k]
    ensures s[k + 1 + n..] == s[1..][k + n..]
  {
  }

  /**
   * When `search` occurs exactly once, `str_replace` replaces that
   * occurrence, the first one, and keeps everything around it.
   */
  lemma {:induction false} StrReplaceSingle(search: string, replace: string, subject: string)
    requires SubstrCount(subject, search) == 1
    ensures StrPos(subject, search).Some?
    ensures var i := StrPos(subject, search).value;
            StrReplace(search, replace, subject) == subject[..i] + replace + subject[i + |search|..]
    decreases |subject|
  {
    assert search != [] && |subject| >= |search|;
    if search <= subject {
      var rest := subject[|search|..];
      StrReplaceAbsent(search, replace, rest);
      assert StrPos(subject, search) == Some(0);
      assert StrReplace(search, replace, subject) == replace + rest;
      assert subject[..0] + replace == replace;
    } else {
      var tail := subject[1..];
      assert SubstrCount(tail, search) == 1;
      StrReplaceSingle(search, replace, tail);
      StrPosShift(search, subject);
      StrReplaceShift(search, replace, subject);
      var k := StrPos(tail, search).value;
      var before, after := tail[..k], tail[k + |search|..];
      SliceAroundInTail(subject, k, |search|);
      ConcatAssoc([subject[0]], before + replace, after);
      ConcatAssoc([subject[0]], before, replace);
    }
  }

  // ---------------------------------------------------------------------------
  // strtolower, single-character str_replace, trailingslashit
  // ---------------------------------------------------------------------------

  predicate IsUpper(c: char) { 'A' <= c <= 'Z' }

  /** `strtolower` on one character: ASCII letters only. */
  function LowerChar(c: char): (r: char)
    ensures !IsUpper(r)
    ensures !IsUpper(c) ==> r == c
  {
    if IsUpper(c) then (c as int + 32) as char else c
  }

  /** `strtolower(s)`. */
  function ToLower(s: string): (r: string)
    ensures |r| == |s|
    ensures forall i :: 0 <= i < |s| ==> r[i] == LowerChar(s[i])
  {
    seq(|s|, i requires 0 <= i < |s| => LowerChar(s[i]))
  }

  /** `str_replace(from, to, s)` for single characters `from` and `to`. */
  function ReplaceChar(s: string, from: char, to: char): (r: string)
    ensures |r| == |s|
    ensures forall i :: 0 <= i < |s| ==> r[i] == if s[i] == from then to else s[i]
  {
    seq(|s|, i requires 0 <= i < |s| => if s[i] == from then to else s[i])
  }

  predicate IsSlash(c: char) { c == '/' || c == '\\' }

  /** `str_replace` of one character by another is `ReplaceChar`. */
  lemma {:induction false} StrReplaceChar(s: string, from: char, to: char)
    ensures StrReplace([from], [to], s) == ReplaceChar(s, from, to)
    decreases |s|
  {
    if s != [] {
      StrReplaceChar(s[1..], from, to);
      var r, rest := ReplaceChar(s, from, to), ReplaceChar(s[1..], from, to);
      assert r == [r[0]] + rest;
      assert s[|[from]|..] == s[1..];
      if [from] <= s {
        assert s[0] == from;
      } else {
        assert s[0] != from;
      }
    }
  }

  /** WordPress's `untrailingslashit`: `rtrim(s, '/\\')`. */
  function UntrailingSlashIt(s: string): (r: string)
    ensures r <= s
    ensures r == [] || !IsSlash(r[|r| - 1])
    ensures forall i :: |r| <= i < |s| ==> IsSlash(s[i])
    decreases |s|
  {
    if s != [] && IsSlash(s[|s| - 1]) then UntrailingSlashIt(s[..|s| - 1]) else s
  }

  /**
   * WordPress's `trailingslashit`: the input without its trailing slashes
   * and backslashes, then exactly one '/'.
   */
  function TrailingSlashIt(s: string): (r: string)
    ensures |r| >= 1 && r[|r| - 1] == '/'
    ensures |r| == 1 || !IsSlash(r[|r| - 2])
    ensures r[..|r| - 1] <= s
    ensures forall i :: |r| - 1 <= i < |s| ==> IsSlash(s[i])
  {
    UntrailingSlashIt(s) + "/"
  }
}
