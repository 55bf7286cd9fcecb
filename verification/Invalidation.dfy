/** Transitive cache invalidation (src/common/cache/cache-dependency-graph.service.ts). The worklist is proved to
    compute a least closed set for any match predicate; the glob matcher is proved equivalent to substitution for
    the stars. */
module Invalidation {
  import opened Common

  type Pattern = string

  /** One entry of the dependency map: when `key` is invalidated, so are `deps`. */
  datatype Rule = Rule(key: Pattern, deps: seq<Pattern>)

  type Graph = seq<Rule>

  type Matcher = (Pattern, Pattern) -> bool

  /** A pattern fires a rule when either matches the other. */
  predicate Fires(m: Matcher, p: Pattern, rule: Rule) { m(p, rule.key) || m(rule.key, p) }

  ghost predicate Closed(m: Matcher, g: Graph, s: set<Pattern>) {
    forall p, i, d :: p in s && 0 <= i < |g| && Fires(m, p, g[i]) && d in g[i].deps ==> d in s
  }

  /** `x` lies in every closed set that contains the start pattern: the least such set. */
  ghost predicate Invalidated(m: Matcher, g: Graph, start: Pattern, x: Pattern) {
    forall s: set<Pattern> :: start in s && Closed(m, g, s) ==> x in s
  }

  lemma FollowsRule(m: Matcher, g: Graph, start: Pattern, p: Pattern, i: nat, d: Pattern)
    requires i < |g| && Invalidated(m, g, start, p) && Fires(m, p, g[i]) && d in g[i].deps
    ensures Invalidated(m, g, start, d)
  {
    forall s: set<Pattern> | start in s && Closed(m, g, s) ensures d in s {
      assert p in s;
    }
  }

  function Elements(s: seq<Pattern>): set<Pattern> { set x | x in s }

  predicate NoRepeats(s: seq<Pattern>) {
    forall i, j :: 0 <= i < j < |s| ==> s[i] != s[j]
  }

  /** Everything the worklist can ever hold. */
  function Universe(g: Graph, start: Pattern): set<Pattern> {
    {start} + set i, d | 0 <= i < |g| && d in g[i].deps :: d
  }

  lemma {:induction false} NoRepeatsSize(s: seq<Pattern>)
    requires NoRepeats(s)
    ensures |Elements(s)| == |s|
  {
    if s != [] {
      var t := s[..|s| - 1];
      NoRepeatsSize(t);
      assert Elements(s) == Elements(t) + {s[|s| - 1]};
    }
  }

  lemma FitsUniverse(g: Graph, start: Pattern, s: seq<Pattern>)
    requires NoRepeats(s) && Elements(s) <= Universe(g, start)
    ensures |s| <= |Universe(g, start)|
  {
    NoRepeatsSize(s);
    SubsetSize(Elements(s), Universe(g, start));
  }

  /** `g'` knows at least the dependencies of `g`. */
  ghost predicate Extends(g: Graph, g': Graph) {
    forall i, d :: 0 <= i < |g| && d in g[i].deps ==> exists j :: 0 <= j < |g'| && g'[j].key == g[i].key && d in g'[j].deps
  }

  /** Registering more dependencies only ever invalidates more. */
  lemma InvalidationGrows(m: Matcher, g: Graph, g': Graph, start: Pattern, x: Pattern)
    requires Extends(g, g') && Invalidated(m, g, start, x)
    ensures Invalidated(m, g', start, x)
  {
    forall s: set<Pattern> | start in s && Closed(m, g', s) ensures x in s {
      forall p, i, d | p in s && 0 <= i < |g| && Fires(m, p, g[i]) && d in g[i].deps ensures d in s {
        var j :| 0 <= j < |g'| && g'[j].key == g[i].key && d in g'[j].deps;
        assert Fires(m, p, g'[j]);
      }
      assert Closed(m, g, s);
    }
  }

  class CacheDependencyGraphService {
    const patternMatches: Matcher
    var graph: Graph

    constructor (patternMatches: Matcher, graph: Graph)
      ensures this.patternMatches == patternMatches && this.graph == graph
    {
      this.patternMatches, this.graph := patternMatches, graph;
    }

    method RegisterDependency(from: Pattern, to: Pattern)
      modifies this`graph
      ensures Extends(old(graph), graph)
      ensures exists j :: 0 <= j < |graph| && graph[j].key == from && to in graph[j].deps
      ensures forall j, d :: 0 <= j < |graph| && d in graph[j].deps ==>
        (graph[j].key == from && d == to) || exists i :: 0 <= i < |old(graph)| && old(graph)[i].key == graph[j].key && d in old(graph)[i].deps
    {
      var i := 0;
      while i < |graph| && graph[i].key != from
        invariant 0 <= i <= |graph|
      {
        i := i + 1;
      }
      if i == |graph| {
        graph := graph + [Rule(from, [])];
      }
      var deps := graph[i].deps;
      if to !in deps {
        deps := deps + [to];
      }
      graph := graph[i := Rule(from, deps)];
      assert graph[i].key == from && to in graph[i].deps;
      forall k, d | 0 <= k < |old(graph)| && d in old(graph)[k].deps
        ensures exists j :: 0 <= j < |graph| && graph[j].key == old(graph)[k].key && d in graph[j].deps
      {
        assert graph[k].key == old(graph)[k].key && d in graph[k].deps;
      }
    }

    /** All patterns to invalidate, without repeats, the start pattern first. */
    method GetInvalidationPatterns(pattern: Pattern) returns (result: seq<Pattern>)
      ensures NoRepeats(result) && |result| > 0 && result[0] == pattern
      ensures forall x :: x in result <==> Invalidated(patternMatches, graph, pattern, x)
    {
      result := [pattern];
      var queue := [pattern];
      while queue != []
        invariant Progress(pattern, result, queue)
        decreases |Universe(graph, pattern)| - |result|, |queue|
      {
        var current := queue[0];
        assert [current] + queue[1..] == queue;
        queue := queue[1..];
        result, queue := Expand(pattern, current, result, queue);
        FitsUniverse(graph, pattern, result);
      }
      assert Closed(patternMatches, graph, Elements(result));
      forall x ensures x in result <==> Invalidated(patternMatches, graph, pattern, x) {
        if Invalidated(patternMatches, graph, pattern, x) {
          assert x in Elements(result);
        }
      }
    }

    /** Every result is needed, and everything the results demand is there, except for what is still queued. */
    ghost predicate Progress(start: Pattern, result: seq<Pattern>, queue: seq<Pattern>)
      reads this
    {
      && NoRepeats(result) && |result| > 0 && result[0] == start
      && Elements(result) <= Universe(graph, start)
      && Elements(queue) <= Elements(result)
      && (forall x :: x in result ==> Invalidated(patternMatches, graph, start, x))
      && (forall p, i, d :: p in result && p !in queue && 0 <= i < |graph| && Fires(patternMatches, p, graph[i]) && d in graph[i].deps
            ==> d in result)
    }

    /** One turn of the worklist: collect the dependents of `current`. */
    method Expand(start: Pattern, current: Pattern, result0: seq<Pattern>, queue0: seq<Pattern>)
      returns (result: seq<Pattern>, queue: seq<Pattern>)
      requires Progress(start, result0, [current] + queue0)
      ensures Progress(start, result, queue)
      ensures result0 <= result && (result == result0 ==> queue == queue0)
    {
      result, queue := result0, queue0;
      var i := 0;
      while i < |graph|
        invariant 0 <= i <= |graph|
        invariant Progress(start, result, [current] + queue)
        invariant result0 <= result && (result == result0 ==> queue == queue0)
        invariant forall k :: 0 <= k < i ==> RuleDone(current, k, result)
      {
        ghost var before := result;
        if patternMatches(current, graph[i].key) || patternMatches(graph[i].key, current) {
          result, queue := ExpandRule(start, current, i, result, queue);
        }
        forall k | 0 <= k < i ensures RuleDone(current, k, result) {
          assert RuleDone(current, k, before);
        }
        i := i + 1;
      }
      CurrentDone(start, current, result, queue);
    }

    ghost predicate RuleDone(current: Pattern, k: nat, result: seq<Pattern>)
      reads this
    {
      k < |graph| && Fires(patternMatches, current, graph[k]) ==> forall d :: d in graph[k].deps ==> d in result
    }

    lemma CurrentDone(start: Pattern, current: Pattern, result: seq<Pattern>, queue: seq<Pattern>)
      requires Progress(start, result, [current] + queue)
      requires forall k :: 0 <= k < |graph| ==> RuleDone(current, k, result)
      ensures Progress(start, result, queue)
    {
      assert Elements(queue) <= Elements([current] + queue);
      forall p, i, d | p in result && p !in queue && 0 <= i < |graph| && Fires(patternMatches, p, graph[i]) && d in graph[i].deps
        ensures d in result
      {
        if p == current {
          assert RuleDone(current, i, result);
        }
      }
    }

    /** The dependents of one rule that `current` fires. */
    method ExpandRule(start: Pattern, current: Pattern, i: nat, result0: seq<Pattern>, queue0: seq<Pattern>)
      returns (result: seq<Pattern>, queue: seq<Pattern>)
      requires Progress(start, result0, [current] + queue0)
      requires i < |graph| && Fires(patternMatches, current, graph[i])
      ensures Progress(start, result, [current] + queue)
      ensures result0 <= result && (result == result0 ==> queue == queue0)
      ensures RuleDone(current, i, result)
    {
      result, queue := result0, queue0;
      var j := 0;
      while j < |graph[i].deps|
        invariant 0 <= j <= |graph[i].deps|
        invariant Progress(start, result, [current] + queue)
        invariant result0 <= result && (result == result0 ==> queue == queue0)
        invariant forall k :: 0 <= k < j ==> graph[i].deps[k] in result
      {
        var dep := graph[i].deps[j];
        if dep !in result {
          AddDependent(start, current, result, queue, i, dep);
          result := result + [dep];
          queue := queue + [dep];
        }
        j := j + 1;
      }
    }

    lemma AddDependent(start: Pattern, current: Pattern, result: seq<Pattern>, queue: seq<Pattern>, i: nat, dep: Pattern)
      requires Progress(start, result, [current] + queue)
      requires i < |graph| && Fires(patternMatches, current, graph[i]) && dep in graph[i].deps && dep !in result
      ensures Progress(start, result + [dep], [current] + (queue + [dep]))
    {
      var q, q' := [current] + queue, [current] + (queue + [dep]);
      assert current in Elements(q);
      FollowsRule(patternMatches, graph, start, current, i, dep);
      assert Elements(result + [dep]) == Elements(result) + {dep};
      assert Elements(q') == Elements(q) + {dep};
      assert forall x :: x in q' <==> x in q || x == dep;
    }
  }

  // ---------- The glob matcher ----------

  /** What the regular expression built from a pattern without `?` accepts: `*` became `.*`, where `.` is any
      character but a line break, and every other character stands for itself. */
  predicate Glob(value: string, pattern: Pattern)
    decreases |pattern|, |value|
  {
    if pattern == "" then value == ""
    else if pattern[0] == '*' then
      Glob(value, pattern[1..]) || (value != "" && !LineBreak(value[0]) && Glob(value[1..], pattern))
    else value != "" && value[0] == pattern[0] && Glob(value[1..], pattern[1..])
  }

  predicate LineBreak(c: char) { c == '\n' || c == '\r' || c == '\U{2028}' || c == '\U{2029}' }

  predicate OneLine(s: string) {
    forall i :: 0 <= i < |s| ==> !LineBreak(s[i])
  }

  function Stars(pattern: Pattern): nat {
    if pattern == "" then 0 else (if pattern[0] == '*' then 1 else 0) + Stars(pattern[1..])
  }

  /** The pattern with its stars replaced, in order, by the given strings. */
  function Substitute(pattern: Pattern, fills: seq<string>): string
    requires |fills| == Stars(pattern)
  {
    if pattern == "" then ""
    else if pattern[0] == '*' then fills[0] + Substitute(pattern[1..], fills[1..])
    else [pattern[0]] + Substitute(pattern[1..], fills)
  }

  ghost predicate Fills(value: string, pattern: Pattern, fills: seq<string>) {
    && |fills| == Stars(pattern)
    && (forall i :: 0 <= i < |fills| ==> OneLine(fills[i]))
    && Substitute(pattern, fills) == value
  }

  /** A match yields the strings that the stars stood for. */
  lemma {:induction false} GlobGivesFills(value: string, pattern: Pattern) returns (fills: seq<string>)
    requires Glob(value, pattern)
    ensures Fills(value, pattern, fills)
    decreases |pattern|, |value|
  {
    if pattern == "" {
      fills := [];
    } else if pattern[0] == '*' {
      if Glob(value, pattern[1..]) {
        var rest := GlobGivesFills(value, pattern[1..]);
        fills := [""] + rest;
        assert fills[1..] == rest;
      } else {
        var rest := GlobGivesFills(value[1..], pattern);
        fills := [[value[0]] + rest[0]] + rest[1..];
        assert fills[1..] == rest[1..];
        assert value == [value[0]] + value[1..];
      }
    } else {
      fills := GlobGivesFills(value[1..], pattern[1..]);
      assert value == [value[0]] + value[1..];
    }
  }

  lemma {:induction false} StarAbsorbs(line: string, value: string, pattern: Pattern)
    requires OneLine(line) && pattern != "" && pattern[0] == '*' && Glob(value, pattern[1..])
    ensures Glob(line + value, pattern)
  {
    if line == "" {
      assert line + value == value;
    } else {
      StarAbsorbs(line[1..], value, pattern);
      assert (line + value)[1..] == line[1..] + value;
    }
  }

  lemma {:induction false} FillsGiveGlob(value: string, pattern: Pattern, fills: seq<string>)
    requires Fills(value, pattern, fills)
    ensures Glob(value, pattern)
    decreases |pattern|
  {
    if pattern != "" {
      if pattern[0] == '*' {
        var rest := Substitute(pattern[1..], fills[1..]);
        FillsGiveGlob(rest, pattern[1..], fills[1..]);
        StarAbsorbs(fills[0], rest, pattern);
      } else {
        FillsGiveGlob(value[1..], pattern[1..], fills);
      }
    }
  }

  /** A value matches exactly when it is the pattern with one-line strings in place of the stars. */
  lemma GlobIffSubstitution(value: string, pattern: Pattern)
    ensures Glob(value, pattern) <==> exists fills :: Fills(value, pattern, fills)
  {
    if Glob(value, pattern) {
      var fills := GlobGivesFills(value, pattern);
    }
    forall fills | Fills(value, pattern, fills) ensures Glob(value, pattern) {
      FillsGiveGlob(value, pattern, fills);
    }
  }

  /** A one-line pattern matches itself, so invalidating a registered key always fires its own rule. */
  lemma {:induction false} GlobReflexive(pattern: Pattern)
    requires OneLine(pattern)
    ensures Glob(pattern, pattern)
  {
    if pattern != "" {
      GlobReflexive(pattern[1..]);
      if pattern[0] == '*' {
        StarAbsorbs("*", pattern[1..], pattern);
        assert "*" + pattern[1..] == pattern;
      }
    }
  }
}
