/**
 * svelte.go: finding the npm modules a Svelte component imports
 * (`parseSvelte`), installing them for every component of the workspace
 * (`moduleParser`), and the workspace bookkeeping of `compileSvelteFile`
 * around the external build: staging checks, the bootstrap entry file that
 * imports the component, and its restoration once the workspace is cleaned.
 */
module Svelte {
  import opened Wrappers
  import opened GoStd
  import opened Utils

  // ---------------------------------------------------------------------------
  // The import regex  import\s+(\w+)\s+from\s+['"](\w+)['"]
  // ---------------------------------------------------------------------------

  predicate IsQuote(c: char) { c == '\'' || c == '"' }

  /** The end of the run of `\s` characters starting at `i`. */
  function SpaceRun(s: string, i: nat): (j: nat)
    requires i <= |s|
    ensures i <= j <= |s|
    ensures forall k :: i <= k < j ==> IsSpace(s[k])
    ensures j == |s| || !IsSpace(s[j])
    decreases |s| - i
  {
    if i < |s| && IsSpace(s[i]) then SpaceRun(s, i + 1) else i
  }

  /** The end of the run of `\w` characters starting at `i`. */
  function WordRun(s: string, i: nat): (j: nat)
    requires i <= |s|
    ensures i <= j <= |s|
    ensures forall k :: i <= k < j ==> IsWordChar(s[k])
    ensures j == |s| || !IsWordChar(s[j])
    decreases |s| - i
  {
    if i < |s| && IsWordChar(s[i]) then WordRun(s, i + 1) else i
  }

  /** One match of the import regex: where it starts and ends, and its two groups. */
  datatype ImportMatch = ImportMatch(start: nat, end: nat, binding: string, modName: string)

  /**
   * The match of the import regex that starts at `p`, if any. Every
   * repetition in the regex is followed by a character its class excludes,
   * so each run is taken whole and there is at most one match at `p`.
   */
  function MatchAt(s: string, p: nat): (r: Option<ImportMatch>)
    requires p <= |s|
    ensures r.Some? ==> r.value.start == p && p < r.value.end <= |s|
    ensures r.Some? ==> IsWord(r.value.binding) && IsWord(r.value.modName)
    ensures r.Some? ==> HasPrefix(s[p..], "import")
  {
    if !HasPrefix(s[p..], "import") then None
    else BindingAt(s, p, p + 6)
  }

  /** After "import" at `p`: a run of spaces from `i`, then the binding. */
  function BindingAt(s: string, p: nat, i: nat): (r: Option<ImportMatch>)
    requires p < i <= |s|
    ensures r.Some? ==> r.value.start == p && i < r.value.end <= |s|
    ensures r.Some? ==> IsWord(r.value.binding) && IsWord(r.value.modName)
  {
    var a := SpaceRun(s, i);
    if a == i then None
    else
      var b := WordRun(s, a);
      if b == a then None
      else
        var binding := s[a..b];
        assert forall k :: 0 <= k < |binding| ==> binding[k] == s[a + k];
        FromAt(s, p, binding, b)
  }

  /** After the binding: a run of spaces from `i`, then "from". */
  function FromAt(s: string, p: nat, binding: string, i: nat): (r: Option<ImportMatch>)
    requires i <= |s|
    ensures r.Some? ==> r.value.start == p && i < r.value.end <= |s|
    ensures r.Some? ==> r.value.binding == binding && IsWord(r.value.modName)
  {
    var c := SpaceRun(s, i);
    if c == i || !HasPrefix(s[c..], "from") then None
    else ModuleAt(s, p, binding, c + 4)
  }

  /** After "from": a run of spaces from `i`, a quote, the module, a quote. */
  function ModuleAt(s: string, p: nat, binding: string, i: nat): (r: Option<ImportMatch>)
    requires i <= |s|
    ensures r.Some? ==> r.value.start == p && i < r.value.end <= |s|
    ensures r.Some? ==> r.value.binding == binding && IsWord(r.value.modName)
  {
    var d := SpaceRun(s, i);
    if d == i || d == |s| || !IsQuote(s[d]) then None
    else
      var e := WordRun(s, d + 1);
      if e == d + 1 || e == |s| || !IsQuote(s[e]) then None
      else
        var modName := s[d + 1..e];
        assert forall k :: 0 <= k < |modName| ==> modName[k] == s[d + 1 + k];
        Some(ImportMatch(p, e + 1, binding, modName))
  }

  /**
   * FindAllStringSubmatch from position `p`: the leftmost match, then the
   * leftmost match from where it ends, and so on.
   */
  function FindAllFrom(s: string, p: nat): (r: seq<ImportMatch>)
    requires p <= |s|
    ensures forall k :: 0 <= k < |r| ==> p <= r[k].start < r[k].end <= |s| && IsWord(r[k].modName)
    decreases |s| - p
  {
    if p == |s| then []
    else
      match MatchAt(s, p)
      case Some(m) => [m] + FindAllFrom(s, m.end)
      case None => FindAllFrom(s, p + 1)
  }

  /** Matches that do not overlap, in the order of the text. */
  predicate InOrder(r: seq<ImportMatch>)
  {
    forall i, j :: 0 <= i < j < |r| ==> r[i].end <= r[j].start
  }

  /** The matches FindAllFrom reports do not overlap and come in the order of the text. */
  lemma {:induction false} FoundInOrder(s: string, p: nat)
    requires p <= |s|
    ensures InOrder(FindAllFrom(s, p))
    decreases |s| - p
  {
    if p < |s| {
      match MatchAt(s, p)
      case Some(m) =>
        FoundInOrder(s, m.end);
        ConsInOrder(m, FindAllFrom(s, m.end));
      case None =>
        FoundInOrder(s, p + 1);
    }
  }

  /** A match ending before every later match can be put in front of them. */
  lemma ConsInOrder(m: ImportMatch, rest: seq<ImportMatch>)
    requires InOrder(rest)
    requires forall k :: 0 <= k < |rest| ==> m.end <= rest[k].start
    ensures InOrder([m] + rest)
  {
    var r := [m] + rest;
    forall i, j | 0 <= i < j < |r| ensures r[i].end <= r[j].start {
      assert r[j] == rest[j - 1];
      if i > 0 {
        assert r[i] == rest[i - 1];
      }
    }
  }

  /** Each element FindAllFrom reports is the match of the regex at its start. */
  lemma {:induction false} FoundAreMatches(s: string, p: nat)
    requires p <= |s|
    ensures forall m :: m in FindAllFrom(s, p) ==> m.start <= |s| && MatchAt(s, m.start) == Some(m)
    decreases |s| - p
  {
    if p < |s| {
      var m := MatchAt(s, p);
      if m.Some? {
        FoundAreMatches(s, m.value.end);
      } else {
        FoundAreMatches(s, p + 1);
      }
    }
  }

  function ModulesOf(ms: seq<ImportMatch>): (r: seq<string>)
    ensures |r| == |ms|
    ensures forall k :: 0 <= k < |ms| ==> r[k] == ms[k].modName
  {
    if ms == [] then [] else [ms[0].modName] + ModulesOf(ms[1..])
  }

  /** The second group of every match, in textual order. */
  function ModuleNames(data: string): (r: seq<string>)
    ensures |r| == |FindAllFrom(data, 0)|
    ensures forall k :: 0 <= k < |r| ==> IsWord(r[k])
  {
    ModulesOf(FindAllFrom(data, 0))
  }

  /** A text in which "import" never occurs names no modules. */
  lemma NoImportNoModules(data: string)
    requires forall i :: 0 <= i <= |data| ==> !HasPrefix(data[i..], "import")
    ensures ModuleNames(data) == []
  {
    FirstMatchIsImport(data, FindAllFrom(data, 0));
  }

  lemma FirstMatchIsImport(data: string, r: seq<ImportMatch>)
    requires r == FindAllFrom(data, 0)
    ensures r != [] ==> exists i :: 0 <= i <= |data| && HasPrefix(data[i..], "import")
  {
    FoundAreMatches(data, 0);
    if r != [] {
      assert r[0] in r;
      assert HasPrefix(data[r[0].start..], "import");
    }
  }

  /**
   * FindAllFrom skips nothing: a position that no reported match covers is
   * not the start of a match. With FoundAreMatches, the result is exactly
   * the leftmost non-overlapping matches.
   */
  lemma {:induction false} FindAllFromMisses(s: string, p: nat, q: nat)
    requires p <= q < |s|
    requires forall m :: m in FindAllFrom(s, p) ==> !(m.start <= q < m.end)
    ensures MatchAt(s, q).None?
    decreases |s| - p
  {
    match MatchAt(s, p)
    case Some(m) =>
      assert FindAllFrom(s, p) == [m] + FindAllFrom(s, m.end);
      assert m in FindAllFrom(s, p);
      FindAllFromMisses(s, m.end, q);
    case None =>
      if q > p {
        FindAllFromMisses(s, p + 1, q);
      }
  }

  predicate IsSpaces(w: string) { |w| > 0 && forall i :: 0 <= i < |w| ==> IsSpace(w[i]) }

  /** The statement the regex is written for. The two quotes are checked
      separately, so `from 'x"` is accepted as well as `from "x"`. */
  function ImportStatement(sp1: string, binding: string, sp2: string, sp3: string, q1: char, modName: string, q2: char): string
  {
    StatementHead(sp1, binding, sp2) + StatementTail(sp3, q1, modName, q2)
  }

  /** `import`, the binding and the spaces around it. */
  function StatementHead(sp1: string, binding: string, sp2: string): string
  {
    "import" + sp1 + binding + sp2
  }

  /** `from`, then the quoted module name. */
  function StatementTail(sp3: string, q1: char, modName: string, q2: char): string
  {
    "from" + sp3 + Quoted(q1, modName, q2)
  }

  /** The module name between its two quotes. */
  function Quoted(q1: char, modName: string, q2: char): string
  {
    [q1] + modName + [q2]
  }

  lemma {:induction false} SpaceRunIs(s: string, i: nat, j: nat)
    requires i <= j <= |s| && AllSpace(s, i, j)
    requires j == |s| || !IsSpace(s[j])
    ensures SpaceRun(s, i) == j
    decreases j - i
  {
    if i < j {
      SpaceRunIs(s, i + 1, j);
    }
  }

  lemma {:induction false} WordRunIs(s: string, i: nat, j: nat)
    requires i <= j <= |s| && AllWord(s, i, j)
    requires j == |s| || !IsWordChar(s[j])
    ensures WordRun(s, i) == j
    decreases j - i
  {
    if i < j {
      WordRunIs(s, i + 1, j);
    }
  }

  /** s[i..j] is all whitespace, stated one character at a time. */
  predicate AllSpace(s: string, i: nat, j: nat)
    requires i <= j <= |s|
    decreases j - i
  {
    i == j || (IsSpace(s[i]) && AllSpace(s, i + 1, j))
  }

  /** s[i..j] is all word characters, stated one character at a time. */
  predicate AllWord(s: string, i: nat, j: nat)
    requires i <= j <= |s|
    decreases j - i
  {
    i == j || (IsWordChar(s[i]) && AllWord(s, i + 1, j))
  }

  /**
   * The regex matches at `p` when the text there is laid out as
   * "import", spaces [p+6, a), binding [a, b), spaces [b, c), "from",
   * spaces [c+4, d), a quote at d, module [d+1, e) and a quote at e.
   */
  lemma BindingAtLayout(s: string, p: nat, a: nat, b: nat)
    requires p + 6 < a < b <= |s|
    requires AllSpace(s, p + 6, a) && AllWord(s, a, b)
    requires b == |s| || !IsWordChar(s[b])
    ensures BindingAt(s, p, p + 6) == FromAt(s, p, s[a..b], b)
  {
    SpaceRunIs(s, p + 6, a);
    WordRunIs(s, a, b);
  }

  lemma FromAtLayout(s: string, p: nat, binding: string, b: nat, c: nat)
    requires b < c && c + 4 <= |s| && AllSpace(s, b, c) && s[c..c + 4] == "from"
    ensures FromAt(s, p, binding, b) == ModuleAt(s, p, binding, c + 4)
  {
    SpaceRunIs(s, b, c);
    PrefixAt(s, c, "from");
  }

  lemma ModuleAtLayout(s: string, p: nat, binding: string, i: nat, d: nat, e: nat)
    requires i < d && d + 1 < e < |s|
    requires AllSpace(s, i, d) && AllWord(s, d + 1, e)
    requires IsQuote(s[d]) && IsQuote(s[e])
    ensures ModuleAt(s, p, binding, i) == Some(ImportMatch(p, e + 1, binding, s[d + 1..e]))
  {
    SpaceRunIs(s, i, d);
    WordRunIs(s, d + 1, e);
  }

  lemma PrefixAt(s: string, p: nat, w: string)
    requires p + |w| <= |s| && s[p..p + |w|] == w
    ensures HasPrefix(s[p..], w)
  {
    assert s[p..][..|w|] == s[p..p + |w|];
  }

  lemma {:induction false} SpacesAt(s: string, i: nat, j: nat)
    requires i <= j <= |s| && IsSpaces(s[i..j])
    ensures i < j && AllSpace(s, i, j)
  {
    SpacesFrom(s, i, j);
  }

  lemma {:induction false} SpacesFrom(s: string, i: nat, j: nat)
    requires i <= j <= |s| && forall k :: 0 <= k < j - i ==> IsSpace(s[i..j][k])
    ensures AllSpace(s, i, j)
    decreases j - i
  {
    if i < j {
      var t, u := s[i..j], s[i + 1..j];
      assert IsSpace(t[0]);
      assert forall k :: 0 <= k < |u| ==> u[k] == t[k + 1];
      SpacesFrom(s, i + 1, j);
    }
  }

  lemma {:induction false} WordAt(s: string, i: nat, j: nat)
    requires i <= j <= |s| && IsWord(s[i..j])
    ensures i < j && AllWord(s, i, j)
  {
    WordFrom(s, i, j);
  }

  lemma {:induction false} WordFrom(s: string, i: nat, j: nat)
    requires i <= j <= |s| && forall k :: 0 <= k < j - i ==> IsWordChar(s[i..j][k])
    ensures AllWord(s, i, j)
    decreases j - i
  {
    if i < j {
      var t, u := s[i..j], s[i + 1..j];
      assert IsWordChar(t[0]);
      assert forall k :: 0 <= k < |u| ==> u[k] == t[k + 1];
      WordFrom(s, i + 1, j);
    }
  }

  /** Splitting a prefix `t + w` of s[p..] into its two parts. */
  lemma Peel(s: string, p: nat, t: string, w: string)
    requires p <= |s| && HasPrefix(s[p..], t + w)
    ensures HasPrefix(s[p..], t) && p + |t| + |w| <= |s| && s[p + |t|..p + |t| + |w|] == w
  {
    assert s[p..][..|t| + |w|] == t + w;
    assert (t + w)[..|t|] == t;
    assert s[p..][..|t|] == s[p..][..|t| + |w|][..|t|];
    assert (t + w)[|t|..] == w;
    assert s[p + |t|..p + |t| + |w|] == s[p..][..|t| + |w|][|t|..];
  }

  /**
   * Every import statement of that shape is matched where it starts, with
   * its binding and module as the two groups and the match ending at its
   * closing quote.
   */
  lemma ImportStatementMatches(s: string, p: nat, sp1: string, binding: string, sp2: string, sp3: string, q1: char, modName: string, q2: char)
    requires IsSpaces(sp1) && IsSpaces(sp2) && IsSpaces(sp3)
    requires IsWord(binding) && IsWord(modName) && IsQuote(q1) && IsQuote(q2)
    requires p <= |s| && HasPrefix(s[p..], ImportStatement(sp1, binding, sp2, sp3, q1, modName, q2))
    ensures var n := |ImportStatement(sp1, binding, sp2, sp3, q1, modName, q2)|;
      MatchAt(s, p) == Some(ImportMatch(p, p + n, binding, modName))
  {
    var a := p + 6 + |sp1|;
    var b := a + |binding|;
    var c := b + |sp2|;
    var d := c + 4 + |sp3|;
    var e := d + 1 + |modName|;
    StatementLayout(s, p, sp1, binding, sp2, sp3, q1, modName, q2, a, b, c, d, e);
    MatchAtLayout(s, p, a, b, c, d, e);
    assert ImportMatch(p, e + 1, s[a..b], s[d + 1..e])
      == ImportMatch(p, p + |ImportStatement(sp1, binding, sp2, sp3, q1, modName, q2)|, binding, modName);
  }

  /**
   * Conversely, every match is an import statement: "import", spaces, the
   * binding, spaces, "from", spaces, and the module between two quotes.
   */
  lemma MatchIsStatement(s: string, p: nat)
    requires p <= |s| && MatchAt(s, p).Some?
    ensures var m := MatchAt(s, p).value;
      exists sp1, sp2, sp3, q1, q2 ::
        && IsSpaces(sp1) && IsSpaces(sp2) && IsSpaces(sp3) && IsQuote(q1) && IsQuote(q2)
        && s[p..m.end] == ImportStatement(sp1, m.binding, sp2, sp3, q1, m.modName, q2)
  {
    var a, b, c, d, e := MatchParts(s, p);
    var m := MatchAt(s, p).value;
    SpacesIn(s, p + 6, a);
    SpacesIn(s, b, c);
    SpacesIn(s, c + 4, d);
    StatementPieces(s, p, a, b, c, d, e);
    StatementWitness(s[p..m.end], s[p + 6..a], m.binding, s[b..c], s[c + 4..d], s[d], m.modName, s[e]);
  }

  /** The positions the scanner found for a match, and what lies between them. */
  lemma MatchParts(s: string, p: nat) returns (a: nat, b: nat, c: nat, d: nat, e: nat)
    requires p <= |s| && MatchAt(s, p).Some?
    ensures p + 6 < a < b < c && c + 4 < d && d + 1 < e < |s|
    ensures MatchAt(s, p).value == ImportMatch(p, e + 1, s[a..b], s[d + 1..e])
    ensures forall k :: p + 6 <= k < a ==> IsSpace(s[k])
    ensures forall k :: b <= k < c ==> IsSpace(s[k])
    ensures forall k :: c + 4 <= k < d ==> IsSpace(s[k])
    ensures s[p..p + 6] == "import" && s[c..c + 4] == "from"
    ensures IsQuote(s[d]) && IsQuote(s[e])
  {
    ImportHead(s, p);
    a, b, c, d, e := BindingParts(s, p, p + 6, MatchAt(s, p).value);
  }

  /** A match starts with "import", and the scan goes on right after it. */
  lemma ImportHead(s: string, p: nat)
    requires p <= |s| && MatchAt(s, p).Some?
    ensures p + 6 <= |s| && s[p..p + 6] == "import"
    ensures BindingAt(s, p, p + 6) == MatchAt(s, p)
  {
    assert s[p..][..6] == s[p..p + 6];
  }

  /** The spaces after "import" end at `a`, the binding runs from `a` to `b`, and the rest follows. */
  lemma BindingParts(s: string, p: nat, i: nat, m: ImportMatch) returns (a: nat, b: nat, c: nat, d: nat, e: nat)
    requires p < i <= |s| && BindingAt(s, p, i) == Some(m)
    ensures i < a < b < c && c + 4 < d && d + 1 < e < |s|
    ensures m == ImportMatch(p, e + 1, s[a..b], s[d + 1..e])
    ensures forall k :: i <= k < a ==> IsSpace(s[k])
    ensures forall k :: b <= k < c ==> IsSpace(s[k])
    ensures forall k :: c + 4 <= k < d ==> IsSpace(s[k])
    ensures s[c..c + 4] == "from"
    ensures IsQuote(s[d]) && IsQuote(s[e])
  {
    a := SpaceRun(s, i);
    b := WordRun(s, a);
    var binding := s[a..b];
    assert FromAt(s, p, binding, b) == Some(m);
    c, d, e := FromParts(s, p, binding, b, m);
  }

  /** The spaces after the binding end at `c`, where "from" stands, and the module part follows. */
  lemma FromParts(s: string, p: nat, binding: string, i: nat, m: ImportMatch) returns (c: nat, d: nat, e: nat)
    requires i <= |s| && FromAt(s, p, binding, i) == Some(m)
    ensures i < c && c + 4 < d && d + 1 < e < |s|
    ensures m == ImportMatch(p, e + 1, binding, s[d + 1..e])
    ensures forall k :: i <= k < c ==> IsSpace(s[k])
    ensures forall k :: c + 4 <= k < d ==> IsSpace(s[k])
    ensures s[c..c + 4] == "from"
    ensures IsQuote(s[d]) && IsQuote(s[e])
  {
    c := SpaceRun(s, i);
    assert s[c..][..4] == s[c..c + 4];
    assert ModuleAt(s, p, binding, c + 4) == Some(m);
    d, e := ModuleParts(s, p, binding, c + 4, m);
  }

  /** The spaces after "from" end at the quote at `d`; the module runs to the quote at `e`. */
  lemma ModuleParts(s: string, p: nat, binding: string, i: nat, m: ImportMatch) returns (d: nat, e: nat)
    requires i <= |s| && ModuleAt(s, p, binding, i) == Some(m)
    ensures i < d && d + 1 < e < |s|
    ensures forall k :: i <= k < d ==> IsSpace(s[k])
    ensures IsQuote(s[d]) && IsQuote(s[e])
    ensures m == ImportMatch(p, e + 1, binding, s[d + 1..e])
  {
    d := SpaceRun(s, i);
    e := WordRun(s, d + 1);
  }

  /** Pieces of the right kinds that make up a text witness that it is an import statement. */
  lemma StatementWitness(t: string, sp1: string, binding: string, sp2: string, sp3: string, q1: char, modName: string, q2: char)
    requires IsSpaces(sp1) && IsSpaces(sp2) && IsSpaces(sp3) && IsQuote(q1) && IsQuote(q2)
    requires t == ImportStatement(sp1, binding, sp2, sp3, q1, modName, q2)
    ensures exists sp1', sp2', sp3', q1', q2' ::
      && IsSpaces(sp1') && IsSpaces(sp2') && IsSpaces(sp3') && IsQuote(q1') && IsQuote(q2')
      && t == ImportStatement(sp1', binding, sp2', sp3', q1', modName, q2')
  {
  }

  /** A run of spaces found by SpaceRun is a non-empty whitespace string. */
  lemma SpacesIn(s: string, i: nat, j: nat)
    requires i < j <= |s| && forall k :: i <= k < j ==> IsSpace(s[k])
    ensures IsSpaces(s[i..j])
  {
    forall k | 0 <= k < j - i
      ensures IsSpace(s[i..j][k])
    {
      assert s[i..j][k] == s[i + k];
    }
  }

  /** The text of a match, cut at the positions the scanner found. */
  lemma StatementPieces(s: string, p: nat, a: nat, b: nat, c: nat, d: nat, e: nat)
    requires p + 6 <= a <= b <= c && c + 4 <= d < e < |s|
    requires s[p..p + 6] == "import" && s[c..c + 4] == "from"
    ensures s[p..e + 1] == ImportStatement(s[p + 6..a], s[a..b], s[b..c], s[c + 4..d], s[d], s[d + 1..e], s[e])
  {
    assert s[p..c] == s[p..p + 6] + s[p + 6..a] + s[a..b] + s[b..c];
    assert s[c..e + 1] == s[c..c + 4] + s[c + 4..d] + ([s[d]] + s[d + 1..e] + [s[e]]);
    assert s[p..e + 1] == s[p..c] + s[c..e + 1];
  }

  /** Where each part of an import statement lies in the text. */
  lemma StatementLayout(s: string, p: nat, sp1: string, binding: string, sp2: string, sp3: string, q1: char, modName: string, q2: char,
                        a: nat, b: nat, c: nat, d: nat, e: nat)
    requires IsSpaces(sp1) && IsSpaces(sp2) && IsSpaces(sp3)
    requires IsWord(binding) && IsWord(modName) && IsQuote(q1) && IsQuote(q2)
    requires p <= |s| && HasPrefix(s[p..], ImportStatement(sp1, binding, sp2, sp3, q1, modName, q2))
    requires a == p + 6 + |sp1| && b == a + |binding| && c == b + |sp2|
    requires d == c + 4 + |sp3| && e == d + 1 + |modName|
    ensures e + 1 == p + |ImportStatement(sp1, binding, sp2, sp3, q1, modName, q2)|
    ensures p + 6 < a < b < c && c + 4 < d && d + 1 < e < |s|
    ensures s[p..p + 6] == "import" && s[c..c + 4] == "from"
    ensures AllSpace(s, p + 6, a) && AllWord(s, a, b) && AllSpace(s, b, c)
    ensures AllSpace(s, c + 4, d) && AllWord(s, d + 1, e)
    ensures IsQuote(s[d]) && IsQuote(s[e])
    ensures s[a..b] == binding && s[d + 1..e] == modName
  {
    var head := StatementHead(sp1, binding, sp2);
    var tail := StatementTail(sp3, q1, modName, q2);
    assert c == p + |head| && e + 1 == c + |tail|;
    Peel(s, p, head, tail);
    PrefixAt(s, c, tail);
    HeadLayout(s, p, sp1, binding, sp2, a, b, c);
    TailLayout(s, c, sp3, q1, modName, q2, d, e);
  }

  lemma MatchAtLayout(s: string, p: nat, a: nat, b: nat, c: nat, d: nat, e: nat)
    requires p + 6 < a < b < c && c + 4 < d && d + 1 < e < |s|
    requires s[p..p + 6] == "import" && s[c..c + 4] == "from"
    requires AllSpace(s, p + 6, a) && AllWord(s, a, b) && AllSpace(s, b, c)
    requires AllSpace(s, c + 4, d) && AllWord(s, d + 1, e)
    requires IsQuote(s[d]) && IsQuote(s[e])
    ensures MatchAt(s, p) == Some(ImportMatch(p, e + 1, s[a..b], s[d + 1..e]))
  {
    PrefixAt(s, p, "import");
    ModuleAtLayout(s, p, s[a..b], c + 4, d, e);
    FromAtLayout(s, p, s[a..b], b, c);
    BindingAtLayout(s, p, a, b);
  }

  /** Where `import`, the binding and the spaces around it lie. */
  lemma HeadLayout(s: string, p: nat, sp1: string, binding: string, sp2: string, a: nat, b: nat, c: nat)
    requires IsSpaces(sp1) && IsSpaces(sp2) && IsWord(binding)
    requires p <= |s| && HasPrefix(s[p..], StatementHead(sp1, binding, sp2))
    requires a == p + 6 + |sp1| && b == a + |binding| && c == b + |sp2|
    ensures p + 6 < a < b < c <= |s| && s[p..p + 6] == "import"
    ensures AllSpace(s, p + 6, a) && AllWord(s, a, b) && AllSpace(s, b, c)
    ensures s[a..b] == binding
  {
    var t2 := "import" + sp1;
    var t3 := t2 + binding;
    Peel(s, p, t3, sp2);
    Peel(s, p, t2, binding);
    Peel(s, p, "import", sp1);
    assert s[p..][..6] == s[p..p + 6];
    SpacesAt(s, p + 6, a);
    WordAt(s, a, b);
    SpacesAt(s, b, c);
  }

  /** Where `from`, the quotes and the module name lie. */
  lemma TailLayout(s: string, c: nat, sp3: string, q1: char, modName: string, q2: char, d: nat, e: nat)
    requires IsSpaces(sp3) && IsWord(modName) && IsQuote(q1) && IsQuote(q2)
    requires c <= |s| && HasPrefix(s[c..], StatementTail(sp3, q1, modName, q2))
    requires d == c + 4 + |sp3| && e == d + 1 + |modName|
    ensures c + 4 < d && d + 1 < e < |s| && s[c..c + 4] == "from"
    ensures AllSpace(s, c + 4, d) && AllWord(s, d + 1, e)
    ensures IsQuote(s[d]) && IsQuote(s[e])
    ensures s[d + 1..e] == modName
  {
    Peel(s, c, "from" + sp3, Quoted(q1, modName, q2));
    PrefixAt(s, d, Quoted(q1, modName, q2));
    QuotedLayout(s, d, q1, modName, q2, e);
    FromLayout(s, c, sp3, d);
  }

  /** Where the keyword `from` and the spaces after it lie. */
  lemma FromLayout(s: string, c: nat, sp3: string, d: nat)
    requires IsSpaces(sp3) && c <= |s| && HasPrefix(s[c..], "from" + sp3)
    requires d == c + 4 + |sp3|
    ensures d <= |s| && s[c..c + 4] == "from" && AllSpace(s, c + 4, d)
  {
    Peel(s, c, "from", sp3);
    assert s[c..][..4] == s[c..c + 4];
    SpacesAt(s, c + 4, d);
  }

  /** Where the quotes and the module name lie. */
  lemma QuotedLayout(s: string, d: nat, q1: char, modName: string, q2: char, e: nat)
    requires IsWord(modName) && IsQuote(q1) && IsQuote(q2)
    requires d <= |s| && HasPrefix(s[d..], Quoted(q1, modName, q2))
    requires e == d + 1 + |modName|
    ensures d + 1 < e < |s| && AllWord(s, d + 1, e)
    ensures IsQuote(s[d]) && IsQuote(s[e])
    ensures s[d + 1..e] == modName
  {
    var w := Quoted(q1, modName, q2);
    assert s[d..d + |w|] == w by { assert s[d..][..|w|] == s[d..d + |w|]; }
    assert s[d] == w[0] && s[e] == w[|w| - 1] by {
      assert s[d..d + |w|][0] == s[d] && s[d..d + |w|][|w| - 1] == s[e];
    }
    assert s[d + 1..e] == modName by {
      assert s[d + 1..e] == s[d..d + |w|][1..|w| - 1];
      assert w[1..|w| - 1] == modName;
    }
    WordAt(s, d + 1, e);
  }

  /** A text made of one import statement names its module and nothing else. */
  lemma SingleImportStatement(sp1: string, binding: string, sp2: string, sp3: string, q1: char, modName: string, q2: char)
    requires IsSpaces(sp1) && IsSpaces(sp2) && IsSpaces(sp3)
    requires IsWord(binding) && IsWord(modName) && IsQuote(q1) && IsQuote(q2)
    ensures ModuleNames(ImportStatement(sp1, binding, sp2, sp3, q1, modName, q2)) == [modName]
  {
    var s := ImportStatement(sp1, binding, sp2, sp3, q1, modName, q2);
    assert s[0..] == s;
    ImportStatementMatches(s, 0, sp1, binding, sp2, sp3, q1, modName, q2);
    assert FindAllFrom(s, 0) == [ImportMatch(0, |s|, binding, modName)] + FindAllFrom(s, |s|);
  }

  /** The two quotes are checked separately: `from 'axios"` names axios. */
  lemma MixedQuotes()
    ensures ModuleNames("import api from 'axios\"") == ["axios"]
  {
    assert "import api from 'axios\"" == ImportStatement(" ", "api", " ", " ", '\'', "axios", '"');
    SingleImportStatement(" ", "api", " ", " ", '\'', "axios", '"');
  }

  // ---------------------------------------------------------------------------
  // parseSvelte
  // ---------------------------------------------------------------------------

  /** Names the removal loop drops: Svelte files and paths. */
  predicate IsSvelteFile(name: string) { Ext(name) == ".svelte" }
  predicate HasSlash(name: string) { '/' in name }

  /**
   * What the backwards removal loop leaves of `mods`, or None when it
   * panics. The loop looks at each index once, from the back, so the suffix
   * after index i has already been filtered when index i is looked at. A
   * name that is a Svelte file and also contains '/' is deleted twice: the
   * second deletion removes the survivor that moved into its place, or
   * slices past the end when there is none.
   */
  function Survivors(mods: seq<string>): (r: Option<seq<string>>)
    ensures r.Some? ==> |r.value| <= |mods|
  {
    if mods == [] then Some([])
    else
      match Survivors(mods[1..])
      case None => None
      case Some(rest) =>
        var x := mods[0];
        if IsSvelteFile(x) && HasSlash(x) then
          if rest == [] then None else Some(rest[1..])
        else if IsSvelteFile(x) || HasSlash(x) then Some(rest)
        else Some([x] + rest)
  }

  /** parseSvelte's second loop, deleting in place by backwards index. */
  method RemoveRuntimeModules(mods: seq<string>) returns (r: Option<seq<string>>)
    ensures r == Survivors(mods)
  {
    var ms := mods;
    var i := |mods| - 1;
    ghost var done: seq<string> := [];
    while i >= 0
      invariant -1 <= i < |mods|
      invariant Survivors(mods[i + 1..]) == Some(done)
      invariant ms == mods[..i + 1] + done
    {
      var mod := ms[i];
      ghost var pre := mods[..i];
      ghost var tail := [mod] + done;
      AtIndex(mods, i, done, ms);
      SurvivorsStep(mods, i, done);
      var svelte := Ext(mod) == ".svelte";
      if svelte {
        DeleteFront(ms, pre, tail);
        ms := ms[..i] + ms[i + 1..];
        tail := tail[1..];
      }
      if '/' in mod {
        if i + 1 > |ms| {
          SurvivorsPanicSpreads(mods, i);
          return None;
        }
        DeleteFront(ms, pre, tail);
        ms := ms[..i] + ms[i + 1..];
        tail := tail[1..];
      }
      done := tail;
      i := i - 1;
    }
    assert mods[..0] == [] && mods[0..] == mods;
    assert ms == done;
    return Some(ms);
  }

  /** The loop's view of index i: the unvisited prefix, the name at i, and the survivors after it. */
  lemma AtIndex(mods: seq<string>, i: nat, done: seq<string>, ms: seq<string>)
    requires i < |mods| && ms == mods[..i + 1] + done
    ensures |mods[..i]| == i && ms[i] == mods[i]
    ensures ms == mods[..i] + ([ms[i]] + done)
    ensures ([ms[i]] + done)[1..] == done
  {
    assert mods[..i + 1] == mods[..i] + [mods[i]];
  }

  /** Deleting index |pre| of pre + post, as `append(s[:i], s[i+1:]...)` does. */
  lemma DeleteFront<T>(s: seq<T>, pre: seq<T>, post: seq<T>)
    requires s == pre + post && post != []
    ensures s[..|pre|] + s[|pre| + 1..] == pre + post[1..]
  {
    assert s[..|pre|] == pre;
    assert s[|pre| + 1..] == post[1..];
  }

  lemma SurvivorsStep(mods: seq<string>, i: nat, done: seq<string>)
    requires i < |mods| && Survivors(mods[i + 1..]) == Some(done)
    ensures var x := mods[i];
      Survivors(mods[i..]) ==
        if IsSvelteFile(x) && HasSlash(x) then (if done == [] then None else Some(done[1..]))
        else if IsSvelteFile(x) || HasSlash(x) then Some(done)
        else Some([x] + done)
  {
    assert mods[i..][0] == mods[i] && mods[i..][1..] == mods[i + 1..];
  }

  predicate Kept(x: string) { !IsSvelteFile(x) && !HasSlash(x) }

  function Filter(mods: seq<string>): (r: seq<string>)
    ensures |r| <= |mods|
    ensures forall k :: 0 <= k < |r| ==> Kept(r[k])
  {
    if mods == [] then [] else (if Kept(mods[0]) then [mods[0]] else []) + Filter(mods[1..])
  }

  /** When no name is both a Svelte file and a path, the loop is a filter:
      it keeps, in order, exactly the names that are neither. */
  lemma {:induction false} SurvivorsFilter(mods: seq<string>)
    requires forall k :: 0 <= k < |mods| ==> !(IsSvelteFile(mods[k]) && HasSlash(mods[k]))
    ensures Survivors(mods) == Some(Filter(mods))
  {
    if mods != [] {
      assert !(IsSvelteFile(mods[0]) && HasSlash(mods[0]));
      SurvivorsFilter(mods[1..]);
      var rest := Filter(mods[1..]);
      assert Kept(mods[0]) ==> Filter(mods) == [mods[0]] + rest;
      assert !Kept(mods[0]) ==> Filter(mods) == [] + rest == rest;
    }
  }

  /** Once a suffix panics, the whole loop panics. */
  lemma {:induction false} SurvivorsPanicSpreads(mods: seq<string>, i: nat)
    requires i <= |mods| && Survivors(mods[i..]).None?
    ensures Survivors(mods).None?
  {
    if i > 0 {
      assert mods[i - 1..][1..] == mods[i..];
      SurvivorsPanicSpreads(mods, i - 1);
    } else {
      assert mods[0..] == mods;
    }
  }

  /** A word has no '/' and no '.', so a list of words passes untouched. */
  lemma {:induction false} WordsSurvive(mods: seq<string>)
    requires forall k :: 0 <= k < |mods| ==> IsWord(mods[k])
    ensures Survivors(mods) == Some(mods)
  {
    if mods != [] {
      WordsSurvive(mods[1..]);
      var x := mods[0];
      WordIsKept(x);
      assert mods == [x] + mods[1..];
    }
  }

  /** A word has no '/' and no extension. */
  lemma WordIsKept(x: string)
    requires IsWord(x)
    ensures '/' !in x && Ext(x) == ""
  {
    assert forall i :: 0 <= i < |x| ==> x[i] != '/';
    ExtStartsWithDot(x);
  }

  lemma ExtStartsWithDot(x: string)
    ensures Ext(x) != "" ==> x[|x| - |Ext(x)|] == '.'
  {
  }

  /** A name that is both a Svelte file and a path deletes the survivor
      after it, or panics when nothing follows it. */
  lemma DoubleDeletion()
    ensures Survivors(["ui/Nav.svelte"]) == None
    ensures Survivors(["ui/Nav.svelte", "axios"]) == Some([])
  {
    ExtOfSuffix("ui/Nav.svelte", ".svelte");
    assert '/' in "ui/Nav.svelte" by { assert "ui/Nav.svelte"[2] == '/'; }
    assert Survivors(["axios"]) == Some(["axios"]) by {
      WordsSurvive(["axios"]);
    }
    assert ["ui/Nav.svelte", "axios"][1..] == ["axios"];
  }

  /** parseSvelte: the modName group of every import match, in order. */
  method ParseSvelte(data: string) returns (mods: seq<string>)
    ensures mods == ModuleNames(data)
  {
    var matches := FindAllFrom(data, 0);
    var found: seq<string> := [];
    for k := 0 to |matches|
      invariant found == ModulesOf(matches[..k])
    {
      assert matches[..k + 1][..k] == matches[..k];
      ModulesOfAppend(matches[..k], matches[k]);
      assert matches[..k + 1] == matches[..k] + [matches[k]];
      found := found + [matches[k].modName];
    }
    assert matches[..|matches|] == matches;
    assert found == ModuleNames(data);
    WordsSurvive(found);
    var r := RemoveRuntimeModules(found);
    mods := r.value;
  }

  lemma {:induction false} ModulesOfAppend(ms: seq<ImportMatch>, m: ImportMatch)
    ensures ModulesOf(ms + [m]) == ModulesOf(ms) + [m.modName]
  {
    if ms != [] {
      assert (ms + [m])[1..] == ms[1..] + [m];
      ModulesOfAppend(ms[1..], m);
    } else {
      assert ms + [m] == [m];
    }
  }

  // ---------------------------------------------------------------------------
  // moduleParser
  // ---------------------------------------------------------------------------

  /**
   * One call of the Walk callback: the path it is given, what isFile's own
   * os.Stat of that path reports, and what reading the file would give.
   * The walk order and the FileInfo Walk passes are the library's business.
   */
  datatype WalkItem = WalkItem(path: string, stat: StatResult, contents: Result<string>)

  /** How the walk ends: all items seen, stopped by an error the callback
      returned (Walk's result is discarded), or a panic on a stat error. */
  datatype WalkEnd = Completed | Stopped(error: string) | Panicked(error: string)

  /** The `npm i <modules>` arguments issued, in order, and how the walk ended. */
  datatype ModuleWalk = ModuleWalk(installs: seq<string>, end: WalkEnd)

  /** A file the callback reads: isFile says it is not a directory and its
      extension is exactly ".svelte". */
  predicate IsScanned(x: WalkItem) { IsFile(x.stat) == Ok(true) && Ext(x.path) == ".svelte" }

  /** The single argument of the install command for a component, if it imports anything. */
  function InstallArg(data: string): (r: Option<string>)
    ensures r.None? <==> ModuleNames(data) == []
  {
    var mods := ModuleNames(data);
    if mods == [] then None else Some(Join(mods, " "))
  }

  /**
   * The callback applied to the items in order; `npm` gives the error, if
   * any, of running `npm i` with an argument.
   */
  function WalkModules(items: seq<WalkItem>, npm: string -> Option<string>): (r: ModuleWalk)
  {
    if items == [] then ModuleWalk([], Completed)
    else
      var x := items[0];
      match IsFile(x.stat)
      case Err(e) => ModuleWalk([], Panicked(e))
      case Ok(isFile) =>
        if !isFile || Ext(x.path) != ".svelte" then WalkModules(items[1..], npm)
        else
          match x.contents
          case Err(e) => ModuleWalk([], Stopped(e))
          case Ok(data) =>
            match InstallArg(data)
            case None => WalkModules(items[1..], npm)
            case Some(arg) =>
              match npm(arg)
              case Some(e) => ModuleWalk([arg], Stopped(e))
              case None => PrependInstalls([arg], WalkModules(items[1..], npm))
  }

  function PrependInstalls(pre: seq<string>, w: ModuleWalk): ModuleWalk
  {
    ModuleWalk(pre + w.installs, w.end)
  }

  /** The install arguments of a walk in which nothing fails: one per scanned
      component that imports something, in walk order. */
  function InstallArgs(items: seq<WalkItem>): seq<string>
  {
    if items == [] then []
    else
      var x := items[0];
      (if IsScanned(x) && x.contents.Ok? && InstallArg(x.contents.value).Some?
       then [InstallArg(x.contents.value).value] else [])
      + InstallArgs(items[1..])
  }

  /** moduleParser: walks the items, parsing each component and installing
      what it imports; the first error stops it, a stat error panics. */
  method ModuleParser(items: seq<WalkItem>, npm: string -> Option<string>) returns (installs: seq<string>, end: WalkEnd)
    ensures ModuleWalk(installs, end) == WalkModules(items, npm)
  {
    installs := [];
    var i := 0;
    while i < |items|
      invariant 0 <= i <= |items|
      invariant WalkModules(items, npm) == PrependInstalls(installs, WalkModules(items[i..], npm))
    {
      var x := items[i];
      WalkModulesUnfold(items[i..], npm);
      assert items[i..][1..] == items[i + 1..];
      var isFile := IsFile(x.stat);
      if isFile.Err? {
        return installs, Panicked(isFile.error);
      }
      if isFile.value && Ext(x.path) == ".svelte" {
        if x.contents.Err? {
          return installs, Stopped(x.contents.error);
        }
        var mods := ParseSvelte(x.contents.value);
        if |mods| != 0 {
          var modules := Join(mods, " ");
          var err := npm(modules);
          if err.Some? {
            return installs + [modules], Stopped(err.value);
          }
          PrependInstallsAssoc(installs, modules, WalkModules(items[i + 1..], npm));
          installs := installs + [modules];
        }
      }
      i := i + 1;
    }
    assert items[i..] == [];
    assert installs + [] == installs;
    end := Completed;
  }

  lemma WalkModulesUnfold(items: seq<WalkItem>, npm: string -> Option<string>)
    requires items != []
    ensures var x := items[0];
      WalkModules(items, npm) ==
        match IsFile(x.stat)
        case Err(e) => ModuleWalk([], Panicked(e))
        case Ok(isFile) =>
          if !isFile || Ext(x.path) != ".svelte" then WalkModules(items[1..], npm)
          else
            match x.contents
            case Err(e) => ModuleWalk([], Stopped(e))
            case Ok(data) =>
              match InstallArg(data)
              case None => WalkModules(items[1..], npm)
              case Some(arg) =>
                match npm(arg)
                case Some(e) => ModuleWalk([arg], Stopped(e))
                case None => PrependInstalls([arg], WalkModules(items[1..], npm))
  {
  }

  lemma PrependInstallsAssoc(pre: seq<string>, arg: string, w: ModuleWalk)
    ensures PrependInstalls(pre, PrependInstalls([arg], w)) == PrependInstalls(pre + [arg], w)
  {
    assert pre + ([arg] + w.installs) == (pre + [arg]) + w.installs;
  }

  /**
   * The installs issued are the first ones of the failure-free list, and
   * all of it when the walk completes: each scanned component that imports
   * something yields exactly one command, and nothing else yields one.
   */
  lemma {:induction false} WalkInstallsPrefix(items: seq<WalkItem>, npm: string -> Option<string>)
    ensures WalkModules(items, npm).installs <= InstallArgs(items)
    ensures WalkModules(items, npm).end.Completed? ==> WalkModules(items, npm).installs == InstallArgs(items)
  {
    if items != [] {
      var x, rest := items[0], items[1..];
      WalkInstallsPrefix(rest, npm);
      WalkModulesUnfold(items, npm);
      var w := WalkModules(rest, npm);
      var own := if IsScanned(x) && x.contents.Ok? && InstallArg(x.contents.value).Some?
        then [InstallArg(x.contents.value).value] else [];
      assert InstallArgs(items) == own + InstallArgs(rest);
      if IsFile(x.stat).Ok? && IsScanned(x) && x.contents.Ok? && InstallArg(x.contents.value).Some? {
        var arg := InstallArg(x.contents.value).value;
        if npm(arg).None? {
          assert WalkModules(items, npm) == ModuleWalk([arg] + w.installs, w.end);
          PrefixCat([arg], w.installs, InstallArgs(rest));
        }
      }
    }
  }

  lemma PrefixCat(a: seq<string>, b: seq<string>, c: seq<string>)
    requires b <= c
    ensures a + b <= a + c
  {
    assert (a + c)[..|a + b|] == a + c[..|b|];
  }

  /** Directories and files whose extension is not ".svelte" are passed over:
      removing one from the walk changes nothing. */
  lemma {:induction false} WalkIgnoresOtherFiles(a: seq<WalkItem>, x: WalkItem, b: seq<WalkItem>, npm: string -> Option<string>)
    requires IsFile(x.stat).Ok? && !IsScanned(x)
    ensures WalkModules(a + [x] + b, npm) == WalkModules(a + b, npm)
  {
    if a == [] {
      assert a + [x] + b == [x] + b && ([x] + b)[1..] == b && a + b == b;
    } else {
      assert (a + [x] + b)[0] == a[0] && (a + [x] + b)[1..] == a[1..] + [x] + b;
      assert (a + b)[0] == a[0] && (a + b)[1..] == a[1..] + b;
      WalkIgnoresOtherFiles(a[1..], x, b, npm);
    }
  }

  /** strings.Split(s, string(sep)) */
  function SplitOn(s: string, sep: char): (r: seq<string>)
    ensures |r| >= 1
    ensures forall k :: 0 <= k < |r| ==> sep !in r[k]
    decreases |s|
  {
    if sep !in s then [s]
    else
      var i := FirstIndex(s, sep);
      [s[..i]] + SplitOn(s[i + 1..], sep)
  }

  function FirstIndex(s: string, c: char): (i: nat)
    requires c in s
    ensures i < |s| && s[i] == c && c !in s[..i]
  {
    if s[0] == c then 0 else 1 + FirstIndex(s[1..], c)
  }

  /** The install argument, cut at its spaces, gives back the module names
      in import order. */
  lemma {:induction false} InstallArgSplits(mods: seq<string>)
    requires mods != []
    requires forall k :: 0 <= k < |mods| ==> IsWord(mods[k])
    ensures SplitOn(Join(mods, " "), ' ') == mods
  {
    WordHasNoSpace(mods[0]);
    if |mods| == 1 {
    } else {
      InstallArgSplits(mods[1..]);
      var w, rest := mods[0], Join(mods[1..], " ");
      var s := w + " " + rest;
      assert s[|w|] == ' ' && ' ' in s;
      assert s[..|w|] == w;
      FirstIndexIs(s, ' ', |w|);
      assert s[|w| + 1..] == rest;
      assert SplitOn(s, ' ') == [w] + SplitOn(rest, ' ');
      assert Join(mods, " ") == s;
      assert mods == [mods[0]] + mods[1..];
    }
  }

  /**
   * The command line moduleParser runs for one component, as written: the
   * module names joined by spaces travel as a single argument after "npm i".
   */
  function InstallCommandAsWritten(mods: seq<string>): seq<string>
    requires mods != []
  {
    ["npm", "i", Join(mods, " ")]
  }

  /** The intended command line: "npm i", then each module as an argument of its own. */
  function InstallCommand(mods: seq<string>): seq<string>
  {
    ["npm", "i"] + mods
  }

  /** As written, two or more modules reach npm as one argument that holds a
      space, and the command is not the one that names each module. */
  lemma ModulesShareOneArgument(mods: seq<string>)
    requires |mods| >= 2
    ensures |InstallCommandAsWritten(mods)| == 3
    ensures ' ' in InstallCommandAsWritten(mods)[2]
    ensures InstallCommandAsWritten(mods) != InstallCommand(mods)
  {
    var s := Join(mods, " ");
    assert s == mods[0] + " " + Join(mods[1..], " ");
    assert s[|mods[0]|] == ' ';
    assert |InstallCommand(mods)| == |mods| + 2;
  }

  /** A component importing `a` and `b`: npm is asked for the one package "a b". */
  lemma TwoModulesAsWritten()
    ensures InstallCommandAsWritten(["a", "b"]) == ["npm", "i", "a b"]
    ensures InstallCommand(["a", "b"]) == ["npm", "i", "a", "b"]
  {
    var mods := ["a", "b"];
    assert mods[1..] == ["b"];
    assert Join(mods, " ") == "a" + " " + "b";
    assert "a" + " " + "b" == "a b";
  }

  /**
   * With the correction npm gets exactly the module names as its package
   * arguments, in import order and none holding a space: the pieces of the
   * argument as written.
   */
  lemma InstallCommandNamesEach(mods: seq<string>)
    requires mods != [] && forall k :: 0 <= k < |mods| ==> IsWord(mods[k])
    ensures InstallCommand(mods)[2..] == mods
    ensures forall k :: 2 <= k < |InstallCommand(mods)| ==> ' ' !in InstallCommand(mods)[k]
    ensures InstallCommand(mods)[2..] == SplitOn(InstallCommandAsWritten(mods)[2], ' ')
  {
    forall k | 0 <= k < |mods|
      ensures ' ' !in mods[k]
    {
      WordHasNoSpace(mods[k]);
    }
    InstallArgSplits(mods);
  }

  lemma {:induction false} FirstIndexIs(s: string, c: char, i: nat)
    requires i < |s| && s[i] == c && c !in s[..i]
    ensures FirstIndex(s, c) == i
  {
    if i > 0 {
      assert s[..i][0] == s[0];
      assert s[1..][..i - 1] == s[..i][1..];
      FirstIndexIs(s[1..], c, i - 1);
    }
  }

  lemma WordHasNoSpace(w: string)
    requires IsWord(w)
    ensures ' ' !in w
  {
    assert forall i :: 0 <= i < |w| ==> w[i] != ' ';
  }
}
