/**
 * The JavaScript string operations the policy engine relies on:
 * `Array.prototype.join` and `String.prototype.replace` with a string
 * pattern, which rewrites only the first occurrence. The engine never
 * splits text; `Split` (one-character separator) is here only as the
 * partner against which the round trip of `Join` is stated.
 */
module Strings {

  /** `parts.join(sep)`: the parts with `sep` between neighbours, none at either end. */
  function Join(parts: seq<string>, sep: string): (r: string)
    ensures |parts| > 0 ==> |parts[0]| <= |r| && r[..|parts[0]|] == parts[0]
    decreases |parts|
  {
    if |parts| == 0 then ""
    else if |parts| == 1 then parts[0]
    else parts[0] + sep + Join(parts[1..], sep)
  }

  /** `s.split(c)`: the maximal pieces of `s` between occurrences of `c`; never empty. */
  function Split(s: string, c: char): (r: seq<string>)
    ensures |r| >= 1
    decreases |s|
  {
    if |s| == 0 then [""]
    else
      var rest := Split(s[1..], c);
      if s[0] == c then [""] + rest else [[s[0]] + rest[0]] + rest[1..]
  }

  /** Splitting a piece free of `c` followed by `c` and more text yields that piece first. */
  lemma {:induction false} SplitAfterPiece(a: string, c: char, b: string)
    requires c !in a
    ensures Split(a + [c] + b, c) == [a] + Split(b, c)
    decreases |a|
  {
    if |a| == 0 {
      assert a + [c] + b == [c] + b;
      assert ([c] + b)[1..] == b;
    } else {
      SplitAfterPiece(a[1..], c, b);
      assert (a + [c] + b)[1..] == a[1..] + [c] + b;
      assert [a[0]] + a[1..] == a;
    }
  }

  /** A string free of `c` splits into itself alone. */
  lemma {:induction false} SplitNoSeparator(a: string, c: char)
    requires c !in a
    ensures Split(a, c) == [a]
    decreases |a|
  {
    if |a| > 0 {
      SplitNoSeparator(a[1..], c);
      assert [a[0]] + a[1..] == a;
    }
  }

  /** Join and split are inverse when no part contains the separator. */
  lemma {:induction false} SplitJoin(parts: seq<string>, c: char)
    requires |parts| > 0
    requires forall i :: 0 <= i < |parts| ==> c !in parts[i]
    ensures Split(Join(parts, [c]), c) == parts
    decreases |parts|
  {
    if |parts| == 1 {
      SplitNoSeparator(parts[0], c);
    } else {
      SplitJoin(parts[1..], c);
      SplitAfterPiece(parts[0], c, Join(parts[1..], [c]));
      assert parts == [parts[0]] + parts[1..];
    }
  }

  /** A head piece free of `c`, then `c`, then a join of pieces free of `c`, splits into the head and the pieces. */
  lemma SplitHeadJoin(head: string, parts: seq<string>, c: char)
    requires c !in head && |parts| > 0
    requires forall i :: 0 <= i < |parts| ==> c !in parts[i]
    ensures Split(head + [c] + Join(parts, [c]), c) == [head] + parts
  {
    SplitJoin(parts, c);
    SplitAfterPiece(head, c, Join(parts, [c]));
  }

  /** The pieces of two runs free of `c` are free of `c` once the runs are put together. */
  lemma FreeOfConcat(xs: seq<string>, ys: seq<string>, c: char)
    requires forall i :: 0 <= i < |xs| ==> c !in xs[i]
    requires forall i :: 0 <= i < |ys| ==> c !in ys[i]
    ensures forall i :: 0 <= i < |xs + ys| ==> c !in (xs + ys)[i]
  {
    forall i | 0 <= i < |xs + ys| ensures c !in (xs + ys)[i] {
      if i >= |xs| { assert (xs + ys)[i] == ys[i - |xs|]; }
    }
  }

  /** Joining two non-empty runs of parts puts one separator between their joins. */
  lemma {:induction false} JoinAppend(a: seq<string>, b: seq<string>, sep: string)
    requires |a| > 0 && |b| > 0
    ensures Join(a + b, sep) == Join(a, sep) + sep + Join(b, sep)
    decreases |a|
  {
    assert (a + b)[0] == a[0];
    if |a| == 1 {
      assert (a + b)[1..] == b;
    } else {
      JoinAppend(a[1..], b, sep);
      assert (a + b)[1..] == a[1..] + b;
      var tail := Join(a[1..], sep);
      assert a[0] + sep + (tail + sep + Join(b, sep)) == (a[0] + sep + tail) + sep + Join(b, sep);
    }
  }

  /** Dropping the first element of a concatenation whose left run is non-empty. */
  lemma TailOfAppend<T>(a: seq<T>, b: seq<T>)
    requires |a| > 0
    ensures (a + b)[0] == a[0] && (a + b)[1..] == a[1..] + b
  {
  }

  /** Parts none of which is empty join to empty text exactly when there are none. */
  lemma JoinEmpty(parts: seq<string>, sep: string)
    requires forall i :: 0 <= i < |parts| ==> parts[i] != ""
    ensures Join(parts, sep) == "" <==> parts == []
  {
    if |parts| > 0 {
      JoinNonEmpty(parts, sep);
    }
  }

  /** Joining parts whose first one is non-empty gives non-empty text. */
  lemma JoinNonEmpty(parts: seq<string>, sep: string)
    requires |parts| > 0 && parts[0] != ""
    ensures Join(parts, sep) != ""
  {
    if |parts| > 1 {
      assert Join(parts, sep)[0] == parts[0][0];
    }
  }

  /** `pat` occurs in `s` at index `i`. */
  predicate OccursAt(s: string, pat: string, i: int)
  {
    0 <= i && i + |pat| <= |s| && s[i..i + |pat|] == pat
  }

  /** Occurrences past the first character are the occurrences in the tail, shifted by one. */
  lemma OccursShift(s: string, pat: string)
    requires |s| > 0
    ensures forall i :: 1 <= i ==> (OccursAt(s, pat, i) <==> OccursAt(s[1..], pat, i - 1))
    ensures forall j :: 0 <= j ==> (OccursAt(s[1..], pat, j) <==> OccursAt(s, pat, j + 1))
  {
    forall i | 1 <= i
      ensures OccursAt(s, pat, i) <==> OccursAt(s[1..], pat, i - 1)
    {
      if i + |pat| <= |s| {
        assert s[1..][i - 1..i - 1 + |pat|] == s[i..i + |pat|];
      }
    }
    forall j | 0 <= j
      ensures OccursAt(s[1..], pat, j) <==> OccursAt(s, pat, j + 1)
    {
      if j + 1 + |pat| <= |s| {
        assert s[1..][j..j + |pat|] == s[j + 1..j + 1 + |pat|];
      }
    }
  }

  /**
   * `s.replace(pat, rep)` for a non-empty string pattern: only the first
   * occurrence of `pat` is replaced (ReplaceAbsent, ReplaceAtFirst).
   */
  function ReplaceFirst(s: string, pat: string, rep: string): (r: string)
    requires |pat| > 0
    ensures |r| == |s| || |r| == |s| - |pat| + |rep|
    decreases |s|
  {
    if |s| < |pat| then s
    else if s[..|pat|] == pat then rep + s[|pat|..]
    else [s[0]] + ReplaceFirst(s[1..], pat, rep)
  }

  /** Text without the pattern is returned unchanged. */
  lemma {:induction false} ReplaceAbsent(s: string, pat: string, rep: string)
    requires |pat| > 0
    requires forall i :: !OccursAt(s, pat, i)
    ensures ReplaceFirst(s, pat, rep) == s
    decreases |s|
  {
    if |s| >= |pat| {
      assert !OccursAt(s, pat, 0);
      OccursShift(s, pat);
      ReplaceAbsent(s[1..], pat, rep);
      assert [s[0]] + s[1..] == s;
    }
  }

  /** The first occurrence, and only it, is replaced. */
  lemma {:induction false} ReplaceAtFirst(s: string, pat: string, rep: string, i: int)
    requires |pat| > 0
    requires OccursAt(s, pat, i)
    requires forall j :: 0 <= j < i ==> !OccursAt(s, pat, j)
    ensures ReplaceFirst(s, pat, rep) == s[..i] + rep + s[i + |pat|..]
    decreases |s|
  {
    if i == 0 {
      assert s[..|pat|] == pat;
    } else {
      var t := s[1..];
      assert s[..|pat|] != pat by { assert !OccursAt(s, pat, 0); }
      assert OccursAt(t, pat, i - 1) by {
        assert t[i - 1..i - 1 + |pat|] == s[i..i + |pat|];
      }
      forall j | 0 <= j < i - 1 ensures !OccursAt(t, pat, j) {
        assert !OccursAt(s, pat, j + 1);
        if j + |pat| <= |t| {
          assert t[j..j + |pat|] == s[j + 1..j + 1 + |pat|];
        }
      }
      ReplaceAtFirst(t, pat, rep, i - 1);
      calc {
        ReplaceFirst(s, pat, rep);
        [s[0]] + ReplaceFirst(t, pat, rep);
        [s[0]] + (t[..i - 1] + rep + t[i - 1 + |pat|..]);
        { assert [s[0]] + t[..i - 1] == s[..i]; assert t[i - 1 + |pat|..] == s[i + |pat|..]; }
        s[..i] + rep + s[i + |pat|..];
      }
    }
  }

  /** A joined list seen around one of its parts. */
  lemma JoinAround(p: seq<string>, c: string, q: seq<string>, sep: string)
    ensures Join(p + [c] + q, sep)
      == (if p == [] then "" else Join(p, sep) + sep) + c + (if q == [] then "" else sep + Join(q, sep))
  {
    var cq := [c] + q;
    assert cq[1..] == q;
    assert Join(cq, sep) == c + (if q == [] then "" else sep + Join(q, sep));
    if p == [] {
      assert p + [c] + q == cq;
    } else {
      JoinAppend(p, cq, sep);
      assert p + [c] + q == p + cq;
    }
  }

  /** An occurrence that starts before a separator the pattern lacks lies wholly before it. */
  lemma NoEarlyOccurrence(jp: string, sep: char, rest: string, pat: string)
    requires |pat| > 0 && sep !in pat
    requires forall j :: !OccursAt(jp, pat, j)
    ensures forall j :: 0 <= j < |jp| + 1 ==> !OccursAt(jp + [sep] + rest, pat, j)
  {
    var s := jp + [sep] + rest;
    forall j | 0 <= j < |jp| + 1 ensures !OccursAt(s, pat, j) {
      if j + |pat| <= |jp| {
        assert s[j..j + |pat|] == jp[j..j + |pat|];
        assert !OccursAt(jp, pat, j);
      } else {
        assert s[|jp|] == sep;
      }
    }
  }

  /** Replacing the first occurrence when it is where a middle piece starts. */
  lemma ReplaceAtPiece(pre: string, c: string, post: string, pat: string, rep: string)
    requires |pat| > 0 && |pat| <= |c| && c[..|pat|] == pat
    requires forall j :: 0 <= j < |pre| ==> !OccursAt(pre + c + post, pat, j)
    ensures ReplaceFirst(pre + c + post, pat, rep) == pre + (rep + c[|pat|..]) + post
  {
    var s := pre + c + post;
    var i := |pre|;
    assert s[i..i + |pat|] == c[..|pat|];
    ReplaceAtFirst(s, pat, rep, i);
    assert s[..i] == pre;
    assert s[i + |pat|..] == c[|pat|..] + post;
  }

  /**
   * In a list joined by a separator the pattern does not contain, when no
   * occurrence lies in the parts before `c` and `c` starts with the pattern,
   * the first replacement rewrites the start of `c` and nothing else.
   */
  lemma ReplaceInJoin(p: seq<string>, c: string, q: seq<string>, sep: char, pat: string, rep: string)
    requires |pat| > 0 && sep !in pat
    requires |pat| <= |c| && c[..|pat|] == pat
    requires forall j :: !OccursAt(Join(p, [sep]), pat, j)
    ensures ReplaceFirst(Join(p + [c] + q, [sep]), pat, rep) == Join(p + [rep + c[|pat|..]] + q, [sep])
  {
    var jp := Join(p, [sep]);
    var pre := if p == [] then "" else jp + [sep];
    var post := if q == [] then "" else [sep] + Join(q, [sep]);
    var s := pre + c + post;
    JoinAround(p, c, q, [sep]);
    if p != [] {
      NoEarlyOccurrence(jp, sep, c + post, pat);
      assert s == jp + [sep] + (c + post);
    }
    ReplaceAtPiece(pre, c, post, pat, rep);
    JoinAround(p, rep + c[|pat|..], q, [sep]);
  }
}
