/** `parseContent` of the message bubble: a message is cut into plain-text
    parts and fenced code parts by the global regular expression
    /```(\w*)\n([\s\S]*?)```/g. */
module Markdown {
  import opened Strings

  const Fence: string := "```"

  /** Regular-expression `\w`. */
  predicate IsWordChar(c: char)
  {
    ('a' <= c <= 'z') || ('A' <= c <= 'Z') || ('0' <= c <= '9') || c == '_'
  }

  predicate IsWord(s: string)
  {
    forall i :: 0 <= i < |s| ==> IsWordChar(s[i])
  }

  /** A message part: text, or a code block with its language tag. */
  datatype Part = Text(content: string) | Code(language: string, content: string)

  /** One match of the expression: where it starts and ends in the message
      and its two groups. */
  datatype FenceMatch = FenceMatch(start: nat, language: string, code: string, end: nat)

  /** The length of the run of word characters starting at `i`; greedy `\w*`
      never gives any of it back, since the character after it must be a
      line feed. */
  function WordRun(s: string, i: nat): (n: nat)
    requires i <= |s|
    ensures i + n <= |s|
    ensures forall k :: i <= k < i + n ==> IsWordChar(s[k])
    ensures i + n == |s| || !IsWordChar(s[i + n])
    decreases |s| - i
  {
    if i < |s| && IsWordChar(s[i]) then 1 + WordRun(s, i + 1) else 0
  }

  lemma WordRunIsWord(s: string, i: nat)
    requires i <= |s|
    ensures IsWord(s[i..i + WordRun(s, i)])
  {
    var w := s[i..i + WordRun(s, i)];
    forall k | 0 <= k < |w| ensures IsWordChar(w[k]) {
      assert w[k] == s[i + k];
    }
  }

  /** No fence occurs anywhere in `c`. */
  predicate HasNoFence(c: string)
  {
    forall j :: 0 <= j <= |c| ==> !OccursAt(c, Fence, j)
  }

  lemma NoFenceInGap(s: string, a: nat, e: nat)
    requires a <= e <= |s|
    requires forall j :: a <= j < e ==> !OccursAt(s, Fence, j)
    ensures HasNoFence(s[a..e])
  {
    var w := s[a..e];
    forall j | 0 <= j <= |w| ensures !OccursAt(w, Fence, j) {
      if j + |Fence| <= |w| {
        InfixSlice(s, a, w, j, j + |Fence|);
        assert !OccursAt(s, Fence, a + j);
      }
    }
  }

  lemma FenceShape(s: string, p: nat, nl: nat, e: nat)
    requires p + |Fence| <= nl < e && e + |Fence| <= |s|
    requires s[p..p + |Fence|] == Fence && s[nl] == '\n' && s[e..e + |Fence|] == Fence
    ensures s[p..e + |Fence|] == Fence + s[p + |Fence|..nl] + "\n" + s[nl + 1..e] + Fence
  {
    assert s[p..e + |Fence|] == s[p..p + |Fence|] + s[p + |Fence|..nl] + [s[nl]] + s[nl + 1..e] + s[e..e + |Fence|];
  }

  /** The proof step of `MatchAt` for a fence, a language, a line feed and
      the next fence. */
  lemma MatchShape(s: string, p: nat, nl: nat, e: nat)
    requires p + |Fence| <= nl < |s| && s[p..p + |Fence|] == Fence && s[nl] == '\n'
    requires nl == p + |Fence| + WordRun(s, p + |Fence|)
    requires IndexFrom(s, Fence, nl + 1) == Some(e)
    ensures e + |Fence| <= |s|
    ensures s[p..e + |Fence|] == Fence + s[p + |Fence|..nl] + "\n" + s[nl + 1..e] + Fence
    ensures IsWord(s[p + |Fence|..nl]) && HasNoFence(s[nl + 1..e])
  {
    WordRunIsWord(s, p + |Fence|);
    FenceShape(s, p, nl, e);
    NoFenceInGap(s, nl + 1, e);
  }

  /** The match anchored at `p`, if any: the fence, the word-character
      language, a line feed, then the shortest run up to the next fence. */
  function MatchAt(s: string, p: nat): (r: Option<FenceMatch>)
    ensures r.Some? ==> r.value.start == p && p + |Fence| < r.value.end - |Fence| && r.value.end <= |s|
  {
    if p + |Fence| <= |s| && s[p..p + |Fence|] == Fence then
      AfterLanguage(s, p, p + |Fence| + WordRun(s, p + |Fence|))
    else None
  }

  /** The rest of a match once the language ends at `nl`: a line feed, then
      the code up to the next fence. */
  function AfterLanguage(s: string, p: nat, nl: nat): (r: Option<FenceMatch>)
    requires p + |Fence| <= nl <= |s|
    ensures r.Some? ==> r.value.start == p && p + |Fence| < r.value.end - |Fence| && r.value.end <= |s|
  {
    if nl < |s| && s[nl] == '\n' then
      match IndexFrom(s, Fence, nl + 1)
      case None => None
      case Some(e) => Some(FenceMatch(p, s[p + |Fence|..nl], s[nl + 1..e], e + |Fence|))
    else None
  }

  /** Everything matched is a fenced block: the fence, a word-only language,
      a line feed, code without a fence, and the closing fence. */
  lemma MatchAtSound(s: string, p: nat)
    ensures var r := MatchAt(s, p);
            r.Some? ==>
              && s[p..r.value.end] == Fence + r.value.language + "\n" + r.value.code + Fence
              && IsWord(r.value.language)
              && HasNoFence(r.value.code)
  {
    if p + |Fence| <= |s| && s[p..p + |Fence|] == Fence {
      var nl := p + |Fence| + WordRun(s, p + |Fence|);
      if nl < |s| && s[nl] == '\n' && IndexFrom(s, Fence, nl + 1).Some? {
        var e := IndexFrom(s, Fence, nl + 1).value;
        var l, c := s[p + |Fence|..nl], s[nl + 1..e];
        MatchAtFound(s, p, nl, e);
        MatchShape(s, p, nl, e);
        assert s[p..e + |Fence|] == Fence + l + "\n" + c + Fence && IsWord(l) && HasNoFence(c);
      } else {
        assert MatchAt(s, p) == AfterLanguage(s, p, nl) == None;
      }
    } else {
      assert MatchAt(s, p) == None;
    }
  }

  /** `regex.exec(content)` with `regex.lastIndex == from`: the leftmost
      match starting at or after `from`. */
  function FindMatch(s: string, from: nat): (r: Option<FenceMatch>)
    requires from <= |s|
    ensures r.Some? ==> from <= r.value.start < r.value.end <= |s|
    decreases |s| - from
  {
    var m := MatchAt(s, from);
    if m.Some? then m
    else if from == |s| then None
    else FindMatch(s, from + 1)
  }

  /** What `exec` finds is a match, and no match starts between `from` and
      it. */
  lemma {:induction false} FindMatchIsLeftmost(s: string, from: nat)
    requires from <= |s|
    ensures var r := FindMatch(s, from);
            && (r.Some? ==> MatchAt(s, r.value.start) == r)
            && (forall p :: from <= p <= |s| && (r.None? || p < r.value.start) ==> MatchAt(s, p).None?)
    decreases |s| - from
  {
    var r := FindMatch(s, from);
    if MatchAt(s, from).None? && from < |s| {
      FindMatchIsLeftmost(s, from + 1);
      assert r == FindMatch(s, from + 1);
      forall p | from <= p <= |s| && (r.None? || p < r.value.start) ensures MatchAt(s, p).None? {
        if p > from {
          assert from + 1 <= p;
        }
      }
    }
  }

  /** The parts of `s` from position `from` on: text before each match (when
      there is any), the match's code part, and the rest of the text after
      the last match. */
  function PartsFrom(s: string, from: nat): seq<Part>
    requires from <= |s|
    decreases |s| - from
  {
    match FindMatch(s, from)
    case None => if from < |s| then [Text(s[from..])] else []
    case Some(f) =>
      (if f.start > from then [Text(s[from..f.start])] else []) + [Code(f.language, f.code)] + PartsFrom(s, f.end)
  }

  /** How a part reads in the message it came from. */
  function Rendered(p: Part): string
  {
    match p
    case Text(c) => c
    case Code(l, c) => Fence + l + "\n" + c + Fence
  }

  function Render(ps: seq<Part>): string
  {
    if ps == [] then [] else Rendered(ps[0]) + Render(ps[1..])
  }

  lemma {:induction false} RenderAppend(a: seq<Part>, b: seq<Part>)
    ensures Render(a + b) == Render(a) + Render(b)
  {
    if a != [] {
      assert (a + b)[1..] == a[1..] + b;
      RenderAppend(a[1..], b);
    } else {
      assert a + b == b;
    }
  }

  /** Nothing is lost or reordered: the parts, re-rendered and concatenated,
      give back the text they were cut from. */
  lemma {:induction false} PartsReconstruct(s: string, from: nat)
    requires from <= |s|
    ensures Render(PartsFrom(s, from)) == s[from..]
    decreases |s| - from
  {
    var m := FindMatch(s, from);
    FindMatchIsLeftmost(s, from);
    if m.Some? {
      var f := m.value;
      var before := if f.start > from then [Text(s[from..f.start])] else [];
      var code := [Code(f.language, f.code)];
      var rest := PartsFrom(s, f.end);
      MatchAtSound(s, f.start);
      assert PartsFrom(s, from) == before + code + rest;
      PartsReconstruct(s, f.end);
      RenderAppend(before + code, rest);
      RenderAppend(before, code);
      assert Render(code) == Rendered(code[0]) + Render([]);
      assert Render(code) == s[f.start..f.end];
      assert Render(before) == s[from..f.start] by {
        if before != [] {
          assert Render(before) == Rendered(before[0]) + Render([]);
        }
      }
      SliceThree(s, from, f.start, f.end);
    }
  }

  lemma SliceThree(s: string, a: nat, b: nat, c: nat)
    requires a <= b <= c <= |s|
    ensures s[a..] == s[a..b] + s[b..c] + s[c..]
  {
  }

  /** Every part is well formed: text parts are never empty, a language tag
      is word characters only, and a code part holds no fence. */
  predicate WellFormed(p: Part)
  {
    match p
    case Text(c) => c != []
    case Code(l, c) => IsWord(l) && HasNoFence(c)
  }

  predicate AllWellFormed(ps: seq<Part>)
  {
    forall i :: 0 <= i < |ps| ==> WellFormed(ps[i])
  }

  lemma AllWellFormedConcat(a: seq<Part>, b: seq<Part>)
    requires AllWellFormed(a) && AllWellFormed(b)
    ensures AllWellFormed(a + b)
  {
    forall i | 0 <= i < |a + b| ensures WellFormed((a + b)[i]) {
      if i >= |a| {
        assert (a + b)[i] == b[i - |a|];
      }
    }
  }

  lemma {:induction false} PartsWellFormed(s: string, from: nat)
    requires from <= |s|
    ensures AllWellFormed(PartsFrom(s, from))
    decreases |s| - from
  {
    var m := FindMatch(s, from);
    FindMatchIsLeftmost(s, from);
    if m.Some? {
      var f := m.value;
      var before := if f.start > from then [Text(s[from..f.start])] else [];
      var code := [Code(f.language, f.code)];
      assert PartsFrom(s, from) == before + code + PartsFrom(s, f.end);
      MatchAtSound(s, f.start);
      PartsWellFormed(s, f.end);
      assert AllWellFormed(code);
      AllWellFormedConcat(before, code);
      AllWellFormedConcat(before + code, PartsFrom(s, f.end));
    }
  }

  /** An empty message has no parts. */
  lemma EmptyHasNoParts()
    ensures PartsFrom([], 0) == []
  {
  }

  /** A message without a complete fenced block is a single text part. */
  lemma {:induction false} UnfencedIsOneText(s: string)
    requires s != []
    requires forall p :: 0 <= p <= |s| ==> MatchAt(s, p).None?
    ensures PartsFrom(s, 0) == [Text(s)]
  {
    FindMatchIsLeftmost(s, 0);
  }

  /** A match starts with a fence and ends with a later one. */
  lemma MatchFences(s: string, p: nat)
    ensures MatchAt(s, p).Some? ==>
              && OccursAt(s, Fence, p)
              && p + |Fence| < MatchAt(s, p).value.end - |Fence|
              && OccursAt(s, Fence, MatchAt(s, p).value.end - |Fence|)
  {
  }

  /** An opening fence that is never closed stays in the text: a message
      whose only fence is the one at `p` is a single text part. */
  lemma UnclosedFenceIsText(s: string, p: nat)
    requires OccursAt(s, Fence, p)
    requires forall j :: 0 <= j <= |s| && (j < p || p + |Fence| <= j) ==> !OccursAt(s, Fence, j)
    ensures PartsFrom(s, 0) == [Text(s)]
  {
    forall q | 0 <= q <= |s| ensures MatchAt(s, q).None? {
      MatchFences(s, q);
    }
    UnfencedIsOneText(s);
  }

  /** `s[p + a..p + b]` of an infix `m` at `p` is `m[a..b]`. */
  lemma InfixSlice(s: string, p: nat, m: string, a: nat, b: nat)
    requires p + |m| <= |s| && s[p..p + |m|] == m && a <= b <= |m|
    ensures s[p + a..p + b] == m[a..b]
  {
    var x, y := s[p + a..p + b], m[a..b];
    forall k | 0 <= k < |x| ensures x[k] == y[k] {
      assert x[k] == s[p..p + |m|][a + k];
    }
  }

  /** The run of word characters at `i` ends where the first non-word
      character is. */
  lemma {:induction false} WordRunExact(s: string, i: nat, n: nat)
    requires i + n < |s|
    requires forall k :: i <= k < i + n ==> IsWordChar(s[k])
    requires !IsWordChar(s[i + n])
    ensures WordRun(s, i) == n
    decreases n
  {
    if n > 0 {
      WordRunExact(s, i + 1, n - 1);
    }
  }

  /** No fence starts inside an infix `w` of `s` that holds none. */
  lemma NoFenceInInfix(s: string, from: nat, w: string)
    requires from + |w| <= |s| && s[from..from + |w|] == w && HasNoFence(w)
    ensures forall j :: from <= j && j + |Fence| <= from + |w| ==> !OccursAt(s, Fence, j)
  {
    forall j | from <= j && j + |Fence| <= from + |w| ensures !OccursAt(s, Fence, j) {
      var k := j - from;
      InfixSlice(s, from, w, k, k + |Fence|);
      assert !OccursAt(w, Fence, k);
    }
  }

  /** The closing fence is the first one after the line feed when the code
      and the fence's first two backticks hold none. */
  lemma ClosingFenceIsFirst(s: string, from: nat, e: nat, c: string)
    requires e == from + |c| && e + |Fence| <= |s|
    requires s[from..e] == c && s[e..e + |Fence|] == Fence
    requires HasNoFence(c + "``")
    ensures IndexFrom(s, Fence, from) == Some(e)
  {
    var w := c + "``";
    assert s[from..from + |w|] == w by {
      assert s[e..e + 2] == s[e..e + |Fence|][..2] == "``";
      assert s[from..from + |w|] == s[from..e] + s[e..e + 2];
    }
    NoFenceInInfix(s, from, w);
    assert OccursAt(s, Fence, e);
    var r := IndexFrom(s, Fence, from);
    assert r.Some? && r.value <= e;
  }

  /** The five pieces of a fenced block at `p`. */
  lemma BlockPieces(s: string, p: nat, l: string, c: string)
    requires var m := Fence + l + "\n" + c + Fence;
             p + |m| <= |s| && s[p..p + |m|] == m
    ensures var nl := p + |Fence| + |l|;
            var e := nl + 1 + |c|;
            && e + |Fence| <= |s| && s[p..p + |Fence|] == Fence && s[p + |Fence|..nl] == l
            && s[nl] == '\n' && s[nl + 1..e] == c && s[e..e + |Fence|] == Fence
  {
    var a := Fence + l + "\n";
    var nl := p + |Fence| + |l|;
    SplitInfix(s, p, a + c, Fence);
    SplitInfix(s, p, a, c);
    SplitInfix(s, p, Fence + l, "\n");
    SplitInfix(s, p, Fence, l);
    assert s[nl] == s[nl..nl + 1][0];
  }

  /** `MatchAt` at the five pieces of a fenced block. */
  lemma MatchAtPieces(s: string, p: nat, nl: nat, e: nat, l: string, c: string)
    requires IsWord(l) && HasNoFence(c + "``")
    requires nl == p + |Fence| + |l| && e == nl + 1 + |c| && e + |Fence| <= |s|
    requires s[p..p + |Fence|] == Fence && s[p + |Fence|..nl] == l
    requires s[nl] == '\n' && s[nl + 1..e] == c && s[e..e + |Fence|] == Fence
    ensures MatchAt(s, p) == Some(FenceMatch(p, l, c, e + |Fence|))
  {
    var found := FenceMatch(p, s[p + |Fence|..nl], s[nl + 1..e], e + |Fence|);
    assert found == FenceMatch(p, l, c, e + |Fence|);
    WordRunOfLanguage(s, p + |Fence|, l);
    ClosingFenceIsFirst(s, nl + 1, e, c);
    MatchAtFound(s, p, nl, e);
    assert MatchAt(s, p) == Some(found);
  }

  /** A word-only language followed by a line feed is exactly the run of
      word characters after the opening fence. */
  lemma WordRunOfLanguage(s: string, q: nat, l: string)
    requires IsWord(l) && q + |l| < |s| && s[q..q + |l|] == l && s[q + |l|] == '\n'
    ensures WordRun(s, q) == |l|
  {
    forall k | q <= k < q + |l| ensures IsWordChar(s[k]) {
      assert s[k] == s[q..q + |l|][k - q];
    }
    WordRunExact(s, q, |l|);
  }

  /** Every fenced block is found: a fence, a word-only language, a line
      feed, code in which no fence starts, and a closing fence at `p` are
      matched at `p` with exactly that language and code. */
  lemma MatchAtComplete(s: string, p: nat, l: string, c: string)
    requires IsWord(l) && HasNoFence(c + "``")
    requires var m := Fence + l + "\n" + c + Fence;
             p + |m| <= |s| && s[p..p + |m|] == m
    ensures var m := Fence + l + "\n" + c + Fence;
            MatchAt(s, p) == Some(FenceMatch(p, l, c, p + |m|))
  {
    var nl := p + |Fence| + |l|;
    BlockPieces(s, p, l, c);
    MatchAtPieces(s, p, nl, nl + 1 + |c|, l, c);
  }

  /** The two halves of an infix `x + y` at `p`. */
  lemma SplitInfix(s: string, p: nat, x: string, y: string)
    requires p + |x + y| <= |s| && s[p..p + |x + y|] == x + y
    ensures s[p..p + |x|] == x && s[p + |x|..p + |x| + |y|] == y
  {
    InfixSlice(s, p, x + y, 0, |x|);
    assert (x + y)[..|x|] == x;
    InfixSlice(s, p, x + y, |x|, |x + y|);
    assert (x + y)[|x|..] == y;
  }

  /** `MatchAt` at a fence followed by the language `l`, a line feed, the
      code `c` and a later fence. */
  lemma MatchAtFound(s: string, p: nat, nl: nat, e: nat)
    requires p + |Fence| <= |s| && s[p..p + |Fence|] == Fence
    requires nl == p + |Fence| + WordRun(s, p + |Fence|) && nl < |s| && s[nl] == '\n'
    requires IndexFrom(s, Fence, nl + 1) == Some(e)
    ensures e + |Fence| <= |s|
    ensures MatchAt(s, p) == Some(FenceMatch(p, s[p + |Fence|..nl], s[nl + 1..e], e + |Fence|))
  {
    assert MatchAt(s, p) == AfterLanguage(s, p, nl);
    AfterLanguageFound(s, p, nl, e);
  }

  /** Past the language, a line feed and a later fence complete the match. */
  lemma AfterLanguageFound(s: string, p: nat, nl: nat, e: nat)
    requires p + |Fence| <= nl < |s| && s[nl] == '\n'
    requires IndexFrom(s, Fence, nl + 1) == Some(e)
    ensures e + |Fence| <= |s|
    ensures AfterLanguage(s, p, nl) == Some(FenceMatch(p, s[p + |Fence|..nl], s[nl + 1..e], e + |Fence|))
  {
  }

  /** A message that is exactly one fenced block is one code part. */
  lemma OneBlockIsCode(l: string, c: string)
    requires IsWord(l) && HasNoFence(c + "``")
    ensures var m := Fence + l + "\n" + c + Fence;
            PartsFrom(m, 0) == [Code(l, c)]
  {
    var m := Fence + l + "\n" + c + Fence;
    assert m[0..|m|] == m;
    MatchAtComplete(m, 0, l, c);
    assert PartsFrom(m, |m|) == [];
  }

  /** One match contributes the text before it, if any, and its code part. */
  lemma PartsAtMatch(s: string, from: nat)
    requires from <= |s| && FindMatch(s, from).Some?
    ensures var f := FindMatch(s, from).value;
            PartsFrom(s, from)
            == (if f.start > from then [Text(s[from..f.start])] else []) + [Code(f.language, f.code)] + PartsFrom(s, f.end)
  {
  }

  /** After the last match only the remaining text, if any, is left. */
  lemma PartsAtEnd(s: string, from: nat)
    requires from <= |s| && FindMatch(s, from).None?
    ensures PartsFrom(s, from) == if from < |s| then [Text(s[from..])] else []
  {
  }

  /** The `while ((match = regex.exec(content)) !== null)` loop. */
  method ParseContent(content: string) returns (parts: seq<Part>)
    ensures parts == PartsFrom(content, 0)
    ensures Render(parts) == content
    ensures AllWellFormed(parts)
  {
    parts := [];
    var lastIndex := 0;
    var m := FindMatch(content, 0);
    while m.Some?
      invariant 0 <= lastIndex <= |content|
      invariant m == FindMatch(content, lastIndex)
      invariant parts + PartsFrom(content, lastIndex) == PartsFrom(content, 0)
      decreases |content| - lastIndex
    {
      var f := m.value;
      PartsAtMatch(content, lastIndex);
      var step: seq<Part> := [];
      if f.start > lastIndex {
        step := [Text(content[lastIndex..f.start])];
      }
      step := step + [Code(f.language, f.code)];
      assert parts + PartsFrom(content, lastIndex) == (parts + step) + PartsFrom(content, f.end);
      parts := parts + step;
      lastIndex := f.end;
      m := FindMatch(content, lastIndex);
    }
    PartsAtEnd(content, lastIndex);
    if lastIndex < |content| {
      parts := parts + [Text(content[lastIndex..])];
    }
    PartsReconstruct(content, 0);
    PartsWellFormed(content, 0);
  }
}
