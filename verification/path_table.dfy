/** The path table builder: the redirect rules decoded from the document,
    and the fold that turns an ordered list of them into the lookup table. */
module PathTable {

  /** One redirect rule: a request path and the destination it redirects to.
      Neither field is validated; both are passed through uninterpreted. */
  datatype Rule = Rule(path: string, url: string)

  /** The set of paths mentioned by some rule. */
  function PathsOf(rules: seq<Rule>): set<string>
  {
    set i | 0 <= i < |rules| :: rules[i].path
  }

  /** Rule `i` is the last one in the list that mentions its path. */
  predicate IsLastWrite(rules: seq<Rule>, i: int)
  {
    && 0 <= i < |rules|
    && forall j :: i < j < |rules| ==> rules[j].path != rules[i].path
  }

  /** No two rules mention the same path. */
  predicate DistinctPaths(rules: seq<Rule>)
  {
    forall i, j :: 0 <= i < j < |rules| ==> rules[i].path != rules[j].path
  }

  lemma PathsOfAppend(a: seq<Rule>, b: seq<Rule>)
    ensures PathsOf(a + b) == PathsOf(a) + PathsOf(b)
  {
    var ab := a + b;
    forall p | p in PathsOf(a)
      ensures p in PathsOf(ab)
    {
      var i :| 0 <= i < |a| && a[i].path == p;
      assert ab[i] == a[i];
    }
    forall p | p in PathsOf(ab)
      ensures p in PathsOf(a) + PathsOf(b)
    {
      var i :| 0 <= i < |ab| && ab[i].path == p;
      if i < |a| {
        assert a[i] == ab[i];
      } else {
        assert b[i - |a|] == ab[i];
      }
    }
    forall p | p in PathsOf(b)
      ensures p in PathsOf(ab)
    {
      var i :| 0 <= i < |b| && b[i].path == p;
      assert ab[|a| + i] == b[i];
    }
  }

  /** The index of the last rule that mentions path `p`: the rule whose
      destination the table ends up holding for `p`. */
  function LastIndex(rules: seq<Rule>, p: string): (i: nat)
    requires p in PathsOf(rules)
    ensures i < |rules| && rules[i].path == p
    ensures IsLastWrite(rules, i)
    decreases |rules|
  {
    var n := |rules| - 1;
    if rules[n].path == p then n
    else
      assert p in PathsOf(rules[..n]) by {
        var k :| 0 <= k < |rules| && rules[k].path == p;
        assert rules[..n][k] == rules[k];
      }
      LastIndex(rules[..n], p)
  }

  /** The last write for a path is unique. */
  lemma LastWriteUnique(rules: seq<Rule>, i: int, j: int)
    requires IsLastWrite(rules, i) && IsLastWrite(rules, j)
    requires rules[i].path == rules[j].path
    ensures i == j
  {
  }

  /** `makeMap`: start from the empty table and, for each rule in order, set
      `table[rule.path] := rule.url`, overwriting any earlier value.  Written
      as the fold over the list's last element, which is the loop's meaning. */
  function MakeMap(rules: seq<Rule>): (table: map<string, string>)
    ensures table.Keys == PathsOf(rules)
    decreases |rules|
  {
    if |rules| == 0 then map[]
    else
      var n := |rules| - 1;
      assert rules == rules[..n] + [rules[n]];
      PathsOfAppend(rules[..n], [rules[n]]);
      MakeMap(rules[..n])[rules[n].path := rules[n].url]
  }

  /** The loop of `makeMap` as written, over a mutable table. */
  method BuildTable(rules: seq<Rule>) returns (table: map<string, string>)
    ensures table == MakeMap(rules)
  {
    table := map[];
    for i := 0 to |rules|
      invariant table == MakeMap(rules[..i])
    {
      assert rules[..i + 1][..i] == rules[..i];
      table := table[rules[i].path := rules[i].url];
    }
    assert rules[..|rules|] == rules;
  }

  /** An empty rule list gives the empty table. */
  lemma MakeMapEmpty()
    ensures MakeMap([]) == map[]
  {
  }

  /** Appending one rule sets its own path to its destination and leaves
      every other entry of the table as it was. */
  lemma MakeMapAppend(rules: seq<Rule>, r: Rule)
    ensures MakeMap(rules + [r]) == MakeMap(rules)[r.path := r.url]
    ensures forall p :: p != r.path ==>
      && (p in MakeMap(rules + [r]) <==> p in MakeMap(rules))
      && (p in MakeMap(rules) ==> MakeMap(rules + [r])[p] == MakeMap(rules)[p])
  {
    assert (rules + [r])[..|rules|] == rules;
  }

  /** Last write wins: the table holds, for every path some rule mentions,
      the destination of the last rule that mentions it. */
  lemma {:induction false} MakeMapLastWriteWins(rules: seq<Rule>, p: string)
    requires p in PathsOf(rules)
    ensures p in MakeMap(rules)
    ensures MakeMap(rules)[p] == rules[LastIndex(rules, p)].url
    decreases |rules|
  {
    var n := |rules| - 1;
    if rules[n].path != p {
      MakeMapLastWriteWins(rules[..n], p);
      assert rules[..n][LastIndex(rules[..n], p)] == rules[LastIndex(rules, p)];
    }
  }

  /** The same property phrased per rule: a rule that no later rule
      overrides has its destination in the table. */
  lemma MakeMapKeepsLastWrite(rules: seq<Rule>, i: int)
    requires IsLastWrite(rules, i)
    ensures rules[i].path in MakeMap(rules)
    ensures MakeMap(rules)[rules[i].path] == rules[i].url
  {
    var p := rules[i].path;
    MakeMapLastWriteWins(rules, p);
    LastWriteUnique(rules, i, LastIndex(rules, p));
  }

  /** With no duplicate paths every rule appears in the table unchanged. */
  lemma MakeMapDistinct(rules: seq<Rule>, i: int)
    requires DistinctPaths(rules)
    requires 0 <= i < |rules|
    ensures MakeMap(rules)[rules[i].path] == rules[i].url
  {
    MakeMapKeepsLastWrite(rules, i);
  }

  /** Building from two lists one after the other is the right-biased union
      of the two tables: entries of the later list win. */
  lemma {:induction false} MakeMapConcat(a: seq<Rule>, b: seq<Rule>)
    ensures MakeMap(a + b) == MakeMap(a) + MakeMap(b)
    decreases |b|
  {
    if |b| == 0 {
      assert a + b == a;
    } else {
      var n := |b| - 1;
      var r := b[n];
      calc {
        MakeMap(a + b);
        { assert a + b == (a + b[..n]) + [r]; }
        MakeMap((a + b[..n]) + [r]);
        { MakeMapAppend(a + b[..n], r); }
        MakeMap(a + b[..n])[r.path := r.url];
        { MakeMapConcat(a, b[..n]); }
        (MakeMap(a) + MakeMap(b[..n]))[r.path := r.url];
        { UnionUpdate(MakeMap(a), MakeMap(b[..n]), r.path, r.url); }
        MakeMap(a) + MakeMap(b[..n])[r.path := r.url];
        { MakeMapAppend(b[..n], r); assert b[..n] + [r] == b; }
        MakeMap(a) + MakeMap(b);
      }
    }
  }

  lemma UnionUpdate(m1: map<string, string>, m2: map<string, string>, k: string, v: string)
    ensures (m1 + m2)[k := v] == m1 + m2[k := v]
  {
  }

  /** Order matters only between rules for the same path: two adjacent rules
      for different paths can be swapped without changing the table. */
  lemma SwapDistinctNeighbours(pre: seq<Rule>, x: Rule, y: Rule, post: seq<Rule>)
    requires x.path != y.path
    ensures MakeMap(pre + [x, y] + post) == MakeMap(pre + [y, x] + post)
  {
    calc {
      MakeMap(pre + [x, y] + post);
      { MakeMapConcat(pre + [x, y], post); }
      MakeMap(pre + [x, y]) + MakeMap(post);
      { MakeMapConcat(pre, [x, y]); }
      MakeMap(pre) + MakeMap([x, y]) + MakeMap(post);
      { MakeMapPair(x, y); MakeMapPair(y, x); }
      MakeMap(pre) + MakeMap([y, x]) + MakeMap(post);
      { MakeMapConcat(pre, [y, x]); }
      MakeMap(pre + [y, x]) + MakeMap(post);
      { MakeMapConcat(pre + [y, x], post); }
      MakeMap(pre + [y, x] + post);
    }
  }

  lemma MakeMapPair(x: Rule, y: Rule)
    ensures MakeMap([x, y]) == map[x.path := x.url][y.path := y.url]
  {
    assert [x, y][..1] == [x];
    assert [x][..0] == [];
  }

  /** A list of rules mentions at most as many paths as it has rules, and
      exactly that many when no path repeats. */
  lemma {:induction false} PathsOfSize(rules: seq<Rule>)
    ensures |PathsOf(rules)| <= |rules|
    ensures DistinctPaths(rules) ==> |PathsOf(rules)| == |rules|
    decreases |rules|
  {
    if |rules| > 0 {
      var n := |rules| - 1;
      var prefix := rules[..n];
      assert rules == prefix + [rules[n]];
      PathsOfAppend(prefix, [rules[n]]);
      assert PathsOf([rules[n]]) == {rules[n].path};
      PathsOfSize(prefix);
      if DistinctPaths(rules) {
        assert DistinctPaths(prefix);
        assert rules[n].path !in PathsOf(prefix) by {
          forall k | 0 <= k < |prefix|
            ensures prefix[k].path != rules[n].path
          {
            assert prefix[k] == rules[k];
          }
        }
      }
    }
  }

  /** The table never has more entries than there are rules, and has exactly
      one per rule when no path repeats. */
  lemma MakeMapSize(rules: seq<Rule>)
    ensures |MakeMap(rules)| <= |rules|
    ensures DistinctPaths(rules) ==> |MakeMap(rules)| == |rules|
  {
    var table := MakeMap(rules);
    PathsOfSize(rules);
    assert |table| == |table.Keys|;
  }

  /** The duplicate-path example: `[("/a","x"), ("/a","y")]` yields `"/a" -> "y"`. */
  lemma DuplicatePathExample()
    ensures MakeMap([Rule("/a", "x"), Rule("/a", "y")]) == map["/a" := "y"]
  {
    MakeMapAppend([Rule("/a", "x")], Rule("/a", "y"));
    assert [Rule("/a", "x")] + [Rule("/a", "y")] == [Rule("/a", "x"), Rule("/a", "y")];
    assert [Rule("/a", "x")][..0] == [];
  }
}
