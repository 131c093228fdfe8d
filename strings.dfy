/** The few JavaScript string operations the client relies on, over `seq<char>`:
    `trim`, `split` on a one-character separator, `join`, `includes`, `indexOf`
    and `replace` with a string pattern (first occurrence only). */
module Strings {

  datatype Option<+T> = None | Some(value: T)

  /** The characters `String.prototype.trim` removes: ECMAScript WhiteSpace
      and LineTerminator code points. */
  predicate IsSpace(c: char)
  {
    || c == ' ' || c == '\t' || c == '\n' || c == '\r'
    || c == '\U{000B}' || c == '\U{000C}' || c == '\U{00A0}' || c == '\U{1680}'
    || ('\U{2000}' <= c <= '\U{200A}')
    || c == '\U{2028}' || c == '\U{2029}' || c == '\U{202F}' || c == '\U{205F}'
    || c == '\U{3000}' || c == '\U{FEFF}'
  }

  /** True when `trim()` leaves nothing, i.e. JavaScript's `!s.trim()`. */
  predicate IsBlank(s: string)
  {
    forall i :: 0 <= i < |s| ==> IsSpace(s[i])
  }

  /** `trimStart()`. */
  function TrimStart(s: string): string
  {
    if s != [] && IsSpace(s[0]) then TrimStart(s[1..]) else s
  }

  /** `trimEnd()`. */
  function TrimEnd(s: string): string
  {
    if s != [] && IsSpace(s[|s| - 1]) then TrimEnd(s[..|s| - 1]) else s
  }

  /** `trimStart()` removes a white-space prefix, and all of it. */
  lemma {:induction false} TrimStartShape(s: string)
    ensures var r := TrimStart(s);
            && |r| <= |s| && r == s[|s| - |r|..]
            && (forall i :: 0 <= i < |s| - |r| ==> IsSpace(s[i]))
            && (r == [] || !IsSpace(r[0]))
  {
    if s != [] && IsSpace(s[0]) {
      var t, r := s[1..], TrimStart(s);
      TrimStartShape(t);
      assert r == TrimStart(t);
      assert t[|t| - |r|..] == s[|s| - |r|..];
      forall i | 0 <= i < |s| - |r| ensures IsSpace(s[i]) {
        if i > 0 {
          assert s[i] == t[i - 1];
        }
      }
    }
  }

  /** `trimEnd()` removes a white-space suffix, and all of it. */
  lemma {:induction false} TrimEndShape(s: string)
    ensures var r := TrimEnd(s);
            && |r| <= |s| && r == s[..|r|]
            && (forall i :: |r| <= i < |s| ==> IsSpace(s[i]))
            && (r == [] || !IsSpace(r[|r| - 1]))
  {
    if s != [] && IsSpace(s[|s| - 1]) {
      var t, r := s[..|s| - 1], TrimEnd(s);
      TrimEndShape(t);
      assert r == TrimEnd(t);
      assert t[..|r|] == s[..|r|];
      forall i | |r| <= i < |s| ensures IsSpace(s[i]) {
        if i < |t| {
          assert s[i] == t[i];
        }
      }
    }
  }

  /** `r` is `s` with the white space before position `a` and after `r`
      removed: an infix of `s` with only white space around it. */
  predicate TrimmedAt(s: string, r: string, a: int)
  {
    && 0 <= a && a + |r| <= |s| && r == s[a..a + |r|]
    && (forall i :: 0 <= i < a ==> IsSpace(s[i]))
    && (forall i :: a + |r| <= i < |s| ==> IsSpace(s[i]))
  }

  /** `s.trim()`: the longest infix of `s` that neither starts nor ends with
      white space; it is empty exactly when `s` is blank. */
  function Trim(s: string): (r: string)
    ensures |r| <= |s|
    ensures exists a :: TrimmedAt(s, r, a)
    ensures r == [] <==> IsBlank(s)
    ensures r == [] || (!IsSpace(r[0]) && !IsSpace(r[|r| - 1]))
  {
    var a := TrimStart(s);
    TrimStartShape(s);
    var r := TrimEnd(a);
    TrimEndShape(a);
    assert r != [] ==> r[0] == a[0];
    assert r == [] ==> a == [];
    TrimIsInfix(s);
    r
  }

  /** The white space `trimStart` and then `trimEnd` remove surrounds what is
      left. */
  lemma TrimIsInfix(s: string)
    ensures TrimmedAt(s, TrimEnd(TrimStart(s)), |s| - |TrimStart(s)|)
  {
    var a := TrimStart(s);
    var r := TrimEnd(a);
    var k := |s| - |a|;
    assert a == s[k..] && forall i :: 0 <= i < k ==> IsSpace(s[i]) by {
      TrimStartShape(s);
    }
    assert r == a[..|r|] && forall i :: |r| <= i < |a| ==> IsSpace(a[i]) by {
      TrimEndShape(a);
    }
    forall i | k + |r| <= i < |s| ensures IsSpace(s[i]) {
      assert s[i] == a[i - k];
    }
    assert r == s[k..k + |r|];
  }

  /** `parts.join(sep)`. */
  function Join(parts: seq<string>, sep: string): string
  {
    if parts == [] then []
    else if |parts| == 1 then parts[0]
    else parts[0] + sep + Join(parts[1..], sep)
  }

  /** `s.split(sep)` for a one-character separator: the maximal separator-free
      pieces, never an empty list, and joining them back gives `s`. */
  function Split(s: string, sep: char): (r: seq<string>)
    ensures |r| >= 1
    ensures forall i :: 0 <= i < |r| ==> sep !in r[i]
  {
    if s == [] then [[]]
    else
      var rest := Split(s[1..], sep);
      if s[0] == sep then [[]] + rest
      else [[s[0]] + rest[0]] + rest[1..]
  }

  /** Joining the pieces of `s` with the separator gives `s` back. */
  lemma {:induction false} SplitJoinsBack(s: string, sep: char)
    ensures Join(Split(s, sep), [sep]) == s
  {
    if s != [] {
      var rest := Split(s[1..], sep);
      SplitJoinsBack(s[1..], sep);
      if s[0] == sep {
        assert Join([[]] + rest, [sep]) == [sep] + Join(rest, [sep]);
      } else {
        var r := [[s[0]] + rest[0]] + rest[1..];
        assert r[1..] == rest[1..];
        assert Join(r, [sep]) == [s[0]] + Join(rest, [sep]);
      }
      assert [s[0]] + s[1..] == s;
    }
  }

  lemma {:induction false} JoinAppend(xs: seq<string>, ys: seq<string>, sep: string)
    requires xs != [] && ys != []
    ensures Join(xs + ys, sep) == Join(xs, sep) + sep + Join(ys, sep)
  {
    if |xs| == 1 {
      assert (xs + ys)[1..] == ys;
    } else {
      assert (xs + ys)[1..] == xs[1..] + ys;
      JoinAppend(xs[1..], ys, sep);
    }
  }

  lemma {:induction false} SplitNoSeparator(x: string, sep: char)
    requires sep !in x
    ensures Split(x, sep) == [x]
  {
    if x != [] {
      SplitNoSeparator(x[1..], sep);
      assert [x[0]] + x[1..] == x;
    }
  }

  lemma {:induction false} SplitAfterPiece(x: string, y: string, sep: char)
    requires sep !in x
    ensures Split(x + [sep] + y, sep) == [x] + Split(y, sep)
  {
    if x == [] {
      assert (x + [sep] + y)[1..] == y;
    } else {
      assert (x + [sep] + y)[1..] == x[1..] + [sep] + y;
      SplitAfterPiece(x[1..], y, sep);
      var rest := Split(x[1..] + [sep] + y, sep);
      assert rest[0] == x[1..] && rest[1..] == Split(y, sep);
      assert [x[0]] + x[1..] == x;
    }
  }

  /** Splitting undoes joining: a non-empty list of separator-free pieces is
      the only split of its join. */
  lemma {:induction false} SplitJoin(parts: seq<string>, sep: char)
    requires parts != []
    requires forall i :: 0 <= i < |parts| ==> sep !in parts[i]
    ensures Split(Join(parts, [sep]), sep) == parts
  {
    if |parts| == 1 {
      SplitNoSeparator(parts[0], sep);
    } else {
      SplitJoin(parts[1..], sep);
      SplitAfterPiece(parts[0], Join(parts[1..], [sep]), sep);
      assert parts == [parts[0]] + parts[1..];
    }
  }

  lemma {:induction false} JoinAroundLast(init: seq<string>, last: string, pb: seq<string>, a: string, b: string, sep: char)
    requires pb != []
    requires Join(init + [last], [sep]) == a
    requires Join(pb, [sep]) == last + b
    ensures Join(init + pb, [sep]) == a + b
  {
    if init == [] {
      assert init + [last] == [last];
      assert init + pb == pb;
    } else {
      var j := Join(init, [sep]);
      JoinAppend(init, [last], [sep]);
      assert Join([last], [sep]) == last;
      assert a == j + [sep] + last;
      JoinAppend(init, pb, [sep]);
      assert Join(init + pb, [sep]) == j + [sep] + (last + b);
    }
  }

  /** Splitting `a + b` keeps every complete piece of `a` and re-splits the
      unterminated last piece of `a` together with `b`. */
  lemma {:induction false} SplitAppend(a: string, b: string, sep: char)
    ensures var pa := Split(a, sep);
            Split(a + b, sep) == pa[..|pa| - 1] + Split(pa[|pa| - 1] + b, sep)
  {
    var pa := Split(a, sep);
    var init, last := pa[..|pa| - 1], pa[|pa| - 1];
    assert pa == init + [last];
    var pb := Split(last + b, sep);
    SplitJoinsBack(a, sep);
    SplitJoinsBack(last + b, sep);
    JoinAroundLast(init, last, pb, a, b, sep);
    var whole := init + pb;
    forall i | 0 <= i < |whole| ensures sep !in whole[i] {
      if i < |init| { assert whole[i] == pa[i]; } else { assert whole[i] == pb[i - |init|]; }
    }
    SplitJoin(whole, sep);
  }

  /** A separator-free piece added after a separator becomes the last piece. */
  lemma {:induction false} SplitLastPiece(a: string, b: string, sep: char)
    requires sep !in b
    ensures Split(a + [sep] + b, sep) == Split(a, sep) + [b]
  {
    if a == [] {
      assert a + [sep] + b == [sep] + b;
      assert ([sep] + b)[1..] == b;
      SplitNoSeparator(b, sep);
    } else {
      var t := a + [sep] + b;
      assert t[0] == a[0] && t[1..] == a[1..] + [sep] + b;
      SplitLastPiece(a[1..], b, sep);
      var pa := Split(a[1..], sep);
      if a[0] != sep {
        assert (pa + [b])[0] == pa[0] && (pa + [b])[1..] == pa[1..] + [b];
      }
    }
  }

  /** `pat` occurs in `s` starting at position `i`. */
  predicate OccursAt(s: string, pat: string, i: int)
  {
    0 <= i && i + |pat| <= |s| && s[i..i + |pat|] == pat
  }

  /** The first position of `pat` in `s` at or after `from` (a helper of
      `IndexOf`). */
  function IndexFrom(s: string, pat: string, from: nat): (r: Option<nat>)
    requires from <= |s| + 1
    ensures r.Some? ==> from <= r.value && OccursAt(s, pat, r.value)
    ensures forall j :: from <= j && (r.None? || j < r.value) ==> !OccursAt(s, pat, j)
    decreases |s| + 1 - from
  {
    if from + |pat| > |s| then None
    else if s[from..from + |pat|] == pat then Some(from)
    else IndexFrom(s, pat, from + 1)
  }

  /** `s.indexOf(pat)`, with `None` for -1. */
  function IndexOf(s: string, pat: string): (r: Option<nat>)
    ensures r.Some? ==> OccursAt(s, pat, r.value)
    ensures forall j :: 0 <= j && (r.None? || j < r.value) ==> !OccursAt(s, pat, j)
  {
    IndexFrom(s, pat, 0)
  }

  /** `s.includes(pat)`. */
  predicate Includes(s: string, pat: string)
  {
    IndexOf(s, pat).Some?
  }

  /** Whatever stands in the middle of a string is included in it. */
  lemma IncludesPiece(a: string, m: string, b: string)
    ensures Includes(a + m + b, m)
  {
    assert OccursAt(a + m + b, m, |a|) by {
      assert (a + m + b)[|a|..|a| + |m|] == m;
    }
  }

  /** What a string includes, a longer string around it includes too. */
  lemma IncludesWithin(x: string, s: string, y: string, pat: string)
    requires Includes(s, pat)
    ensures Includes(x + s + y, pat)
  {
    var k := IndexOf(s, pat).value;
    assert OccursAt(x + s + y, pat, |x| + k) by {
      assert (x + s + y)[|x| + k..|x| + k + |pat|] == s[k..k + |pat|];
    }
  }

  /** Each part stands whole in the joined string. */
  lemma {:induction false} JoinPieces(parts: seq<string>, sep: string, i: nat) returns (a: string, b: string)
    requires i < |parts|
    ensures Join(parts, sep) == a + parts[i] + b
  {
    if |parts| == 1 {
      a, b := [], [];
    } else if i == 0 {
      a, b := [], sep + Join(parts[1..], sep);
    } else {
      var a', b' := JoinPieces(parts[1..], sep, i - 1);
      a, b := parts[0] + sep + a', b';
    }
  }

  /** `s.replace(pat, rep)` with a string pattern: only the first occurrence is
      replaced, wherever it is. */
  function ReplaceFirst(s: string, pat: string, rep: string): string
  {
    match IndexOf(s, pat)
    case None => s
    case Some(i) => s[..i] + rep + s[i + |pat|..]
  }
}
