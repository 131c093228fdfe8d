/** `agentService.getAgents()`: one agent preset per bundled markdown file,
    named after the file, sorted by name. The bundled files arrive as
    (path, content) pairs in the order the module map lists them; the
    collation `localeCompare` is a parameter `leq`, where `leq(a, b)` means
    `a.localeCompare(b) <= 0`. */
module Agents {
  import opened Strings
  import opened Types

  const UnknownId: string := "Unknown"
  const MarkdownSuffix: string := ".md"

  /** The last `/`-separated segment of a path. */
  function LastSegment(path: string): (r: string)
    ensures '/' !in r
  {
    var parts := Split(path, '/');
    parts[|parts| - 1]
  }

  /** `path.split('/').pop()?.replace('.md', '') || 'Unknown'`. */
  function AgentId(path: string): (r: string)
    ensures r != []
  {
    var stem := ReplaceFirst(LastSegment(path), MarkdownSuffix, "");
    if stem == [] then UnknownId else stem
  }

  lemma LastSegmentOf(dir: string, name: string)
    requires '/' !in name
    ensures LastSegment(dir + "/" + name) == name
  {
    assert dir + "/" + name == dir + ['/'] + name;
    SplitLastPiece(dir, name, '/');
  }

  lemma SuffixFoundAtEnd(stem: string)
    requires !Includes(stem, MarkdownSuffix)
    ensures IndexOf(stem + MarkdownSuffix, MarkdownSuffix) == Some(|stem|)
  {
    var s := stem + MarkdownSuffix;
    assert OccursAt(s, MarkdownSuffix, |stem|) by {
      assert s[|stem|..|stem| + |MarkdownSuffix|] == MarkdownSuffix;
    }
    forall j | 0 <= j < |stem| ensures !OccursAt(s, MarkdownSuffix, j) {
      if j + |MarkdownSuffix| <= |stem| {
        assert !OccursAt(stem, MarkdownSuffix, j);
        assert s[j..j + |MarkdownSuffix|] == stem[j..j + |MarkdownSuffix|];
      } else if j == |stem| - 1 {
        assert s[j + 1] == '.';
        assert s[j..j + |MarkdownSuffix|][1] == s[j + 1];
      } else {
        assert s[j + 2] == '.';
        assert s[j..j + |MarkdownSuffix|][2] == s[j + 2];
      }
    }
  }

  /** A bundled file `dir/name.md` whose name holds no further ".md" gives
      the id `name`. */
  lemma IdOfMarkdownFile(dir: string, stem: string)
    requires stem != [] && '/' !in stem && !Includes(stem, MarkdownSuffix)
    ensures AgentId(dir + "/" + stem + MarkdownSuffix) == stem
  {
    assert '/' !in stem + MarkdownSuffix;
    assert dir + "/" + stem + MarkdownSuffix == dir + "/" + (stem + MarkdownSuffix);
    LastSegmentOf(dir, stem + MarkdownSuffix);
    SuffixFoundAtEnd(stem);
    var s := stem + MarkdownSuffix;
    assert s[..|stem|] == stem && s[|stem| + |MarkdownSuffix|..] == [];
  }

  /** A file called just ".md" has no name left and becomes "Unknown". */
  lemma BareSuffixIsUnknown(dir: string)
    ensures AgentId(dir + "/" + MarkdownSuffix) == UnknownId
  {
    LastSegmentOf(dir, MarkdownSuffix);
    assert OccursAt(MarkdownSuffix, MarkdownSuffix, 0);
  }

  /** `toUpperCase()` on one character; only ASCII letters are mapped. */
  function Upper(c: char): (r: char)
    ensures ('a' <= c <= 'z') ==> 'A' <= r <= 'Z' && r as int == c as int - 32
    ensures !('a' <= c <= 'z') ==> r == c
    ensures r == ' ' <==> c == ' '
    ensures r == '-' <==> c == '-'
  {
    if 'a' <= c <= 'z' then (c as int - 32) as char else c
  }

  /** `word.charAt(0).toUpperCase() + word.slice(1)`. */
  function Capitalize(w: string): (r: string)
    ensures |r| == |w|
    ensures w != [] ==> r[0] == Upper(w[0]) && r[1..] == w[1..]
  {
    if w == [] then [] else [Upper(w[0])] + w[1..]
  }

  function CapitalizeAll(ws: seq<string>): (r: seq<string>)
    ensures |r| == |ws|
    ensures forall i :: 0 <= i < |ws| ==> r[i] == Capitalize(ws[i])
  {
    if ws == [] then [] else [Capitalize(ws[0])] + CapitalizeAll(ws[1..])
  }

  /** The display name: the id's `-`-separated words, capitalised, joined by
      spaces. */
  function FormatName(id: string): string
  {
    Join(CapitalizeAll(Split(id, '-')), " ")
  }

  /** Total length of a list of strings. */
  function TotalLength(ps: seq<string>): nat
  {
    if ps == [] then 0 else |ps[0]| + TotalLength(ps[1..])
  }

  lemma {:induction false} JoinLength(ps: seq<string>, sep: string)
    requires ps != []
    ensures |Join(ps, sep)| == TotalLength(ps) + (|ps| - 1) * |sep|
  {
    if |ps| > 1 {
      JoinLength(ps[1..], sep);
    }
  }

  lemma {:induction false} CapitalizeKeepsLength(ws: seq<string>)
    ensures TotalLength(CapitalizeAll(ws)) == TotalLength(ws)
  {
    if ws != [] {
      CapitalizeKeepsLength(ws[1..]);
      assert CapitalizeAll(ws)[1..] == CapitalizeAll(ws[1..]);
    }
  }

  /** Capitalising ASCII words changes no length: the name is exactly as long
      as the id. */
  lemma NameLength(id: string)
    ensures |FormatName(id)| == |id|
  {
    var words := Split(id, '-');
    SplitJoinsBack(id, '-');
    JoinLength(words, "-");
    JoinLength(CapitalizeAll(words), " ");
    CapitalizeKeepsLength(words);
  }

  /** The words of the name are the id's words, each capitalised: as many
      words, in the same order (for ids without spaces). */
  lemma NameWords(id: string)
    requires ' ' !in id
    ensures Split(FormatName(id), ' ') == CapitalizeAll(Split(id, '-'))
    ensures |Split(FormatName(id), ' ')| == |Split(id, '-')|
  {
    var words := Split(id, '-');
    var caps := CapitalizeAll(words);
    forall i | 0 <= i < |caps| ensures ' ' !in caps[i] {
      var w := words[i];
      forall k | 0 <= k < |w| ensures caps[i][k] != ' ' {
        WordCharInSource(id, i, k);
        if k > 0 {
          assert caps[i][k] == caps[i][1..][k - 1];
        }
      }
    }
    SplitJoin(caps, ' ');
  }

  lemma {:induction false} WordCharInSource(s: string, i: nat, k: nat)
    requires i < |Split(s, '-')| && k < |Split(s, '-')[i]|
    ensures Split(s, '-')[i][k] in s
  {
    var parts := Split(s, '-');
    if s == [] {
    } else {
      var rest := Split(s[1..], '-');
      if s[0] == '-' {
        assert i >= 1 && parts[i] == rest[i - 1];
        WordCharInSource(s[1..], i - 1, k);
      } else if i == 0 {
        if k == 0 {
          assert parts[0][0] == s[0];
        } else {
          assert parts[0][k] == rest[0][k - 1];
          WordCharInSource(s[1..], 0, k - 1);
        }
      } else {
        assert parts[i] == rest[i];
        WordCharInSource(s[1..], i, k);
      }
    }
  }

  /** The agent one bundled file gives. */
  function MakeAgent(path: string, content: string): (a: Agent)
    ensures a.id == AgentId(path) && a.name == FormatName(a.id)
    ensures a.systemPrompt == Trim(content)
  {
    Agent(AgentId(path), FormatName(AgentId(path)), Trim(content))
  }

  /** The unsorted list, one agent per file, in the order of the files. */
  function Built(modules: seq<(string, string)>): (r: seq<Agent>)
    ensures |r| == |modules|
  {
    if modules == [] then []
    else
      var last := modules[|modules| - 1];
      Built(modules[..|modules| - 1]) + [MakeAgent(last.0, last.1)]
  }

  /** The `k`-th agent comes from the `k`-th file. */
  lemma {:induction false} BuiltInFileOrder(modules: seq<(string, string)>, k: nat)
    requires k < |modules|
    ensures Built(modules)[k] == MakeAgent(modules[k].0, modules[k].1)
  {
    var init, last := modules[..|modules| - 1], modules[|modules| - 1];
    var head, x := Built(init), MakeAgent(last.0, last.1);
    assert Built(modules) == head + [x];
    if k < |init| {
      BuiltInFileOrder(init, k);
      assert init[k] == modules[k];
      assert (head + [x])[k] == head[k];
    } else {
      assert (head + [x])[k] == x;
    }
  }

  // -----------------------------------------------------------------------
  // Sorting by name

  ghost predicate TotalPreorder(leq: (string, string) -> bool)
  {
    && (forall a, b :: leq(a, b) || leq(b, a))
    && (forall a, b, c :: leq(a, b) && leq(b, c) ==> leq(a, c))
  }

  predicate SortedByName(s: seq<Agent>, leq: (string, string) -> bool)
  {
    forall i, j :: 0 <= i < j < |s| ==> leq(s[i].name, s[j].name)
  }

  /** Insert `x` after every agent whose name does not come strictly after
      it, so that agents with equal names keep their order. */
  function Insert(x: Agent, s: seq<Agent>, leq: (string, string) -> bool): seq<Agent>
  {
    if s == [] then [x]
    else if leq(x.name, s[0].name) && !leq(s[0].name, x.name) then [x] + s
    else [s[0]] + Insert(x, s[1..], leq)
  }

  /** `agents.sort((a, b) => a.name.localeCompare(b.name))`, as a stable
      insertion sort. */
  function SortByName(s: seq<Agent>, leq: (string, string) -> bool): seq<Agent>
  {
    if s == [] then [] else Insert(s[|s| - 1], SortByName(s[..|s| - 1], leq), leq)
  }

  lemma {:induction false} InsertPermutes(x: Agent, s: seq<Agent>, leq: (string, string) -> bool)
    ensures multiset(Insert(x, s, leq)) == multiset(s) + multiset{x}
  {
    if s != [] && !(leq(x.name, s[0].name) && !leq(s[0].name, x.name)) {
      InsertPermutes(x, s[1..], leq);
      assert s == [s[0]] + s[1..];
    }
  }

  /** An agent ordered before every agent of a sorted list can head it. */
  lemma ConsSorted(y: Agent, r: seq<Agent>, leq: (string, string) -> bool)
    requires SortedByName(r, leq)
    requires forall j :: 0 <= j < |r| ==> leq(y.name, r[j].name)
    ensures SortedByName([y] + r, leq)
  {
    var t := [y] + r;
    forall i, j | 0 <= i < j < |t| ensures leq(t[i].name, t[j].name) {
      assert t[j] == r[j - 1];
      if i > 0 {
        assert t[i] == r[i - 1];
      }
    }
  }

  lemma {:induction false} InsertSorted(x: Agent, s: seq<Agent>, leq: (string, string) -> bool)
    requires TotalPreorder(leq)
    requires SortedByName(s, leq)
    ensures SortedByName(Insert(x, s, leq), leq)
  {
    if s == [] {
    } else if !(leq(x.name, s[0].name) && !leq(s[0].name, x.name)) {
      var tail := s[1..];
      assert SortedByName(tail, leq);
      InsertSorted(x, tail, leq);
      InsertPermutes(x, tail, leq);
      var r := Insert(x, tail, leq);
      assert leq(s[0].name, x.name);
      forall j | 0 <= j < |r| ensures leq(s[0].name, r[j].name) {
        assert r[j] in multiset(tail) + multiset{x};
        if r[j] != x {
          assert r[j] in tail;
          var k :| 0 <= k < |tail| && tail[k] == r[j];
          assert s[k + 1] == r[j];
        }
      }
      ConsSorted(s[0], r, leq);
    } else {
      forall j | 0 <= j < |s| ensures leq(x.name, s[j].name) {
        if j > 0 {
          assert leq(s[0].name, s[j].name);
        }
      }
      ConsSorted(x, s, leq);
    }
  }

  /** The result of the sort is ordered by name and holds exactly the agents
      it was given. */
  lemma {:induction false} SortSortsAndPermutes(s: seq<Agent>, leq: (string, string) -> bool)
    requires TotalPreorder(leq)
    ensures SortedByName(SortByName(s, leq), leq)
    ensures multiset(SortByName(s, leq)) == multiset(s)
  {
    if s != [] {
      var init := s[..|s| - 1];
      SortSortsAndPermutes(init, leq);
      InsertSorted(s[|s| - 1], SortByName(init, leq), leq);
      InsertPermutes(s[|s| - 1], SortByName(init, leq), leq);
      assert s == init + [s[|s| - 1]];
    }
  }

  /** The `for (const path in agentModules)` loop: one agent per bundled
      file, in the order the files are listed. */
  method BuildAgents(modules: seq<(string, string)>) returns (built: seq<Agent>)
    ensures built == Built(modules)
  {
    built := [];
    for i := 0 to |modules|
      invariant built == Built(modules[..i])
    {
      assert modules[..i + 1][..i] == modules[..i];
      built := built + [MakeAgent(modules[i].0, modules[i].1)];
    }
    assert modules[..|modules|] == modules;
  }

  /** `getAgents()`: build one agent per bundled file, then sort by name. */
  method GetAgents(modules: seq<(string, string)>, leq: (string, string) -> bool) returns (agents: seq<Agent>)
    requires TotalPreorder(leq)
    ensures agents == SortByName(Built(modules), leq)
    ensures |agents| == |modules| && multiset(agents) == multiset(Built(modules))
    ensures SortedByName(agents, leq)
  {
    var built := BuildAgents(modules);
    agents := SortByName(built, leq);
    SortSortsAndPermutes(built, leq);
    assert |agents| == |built| by {
      assert |multiset(agents)| == |multiset(built)|;
    }
  }
}
