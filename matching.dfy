/**
  * `match(lines, paths)` (radish/__init__.py, maybe/__init__.py and radish/cli.py, three
  * copies of one function): which configured paths the changed files fall under.
  *
  * `Path` (path.py) is not part of this model, so the matching of one file against one
  * configured path is the parameter `m` (`path.match(line)`, `None` when Python returns
  * `None`) and the truthiness of a match is the parameter `truthy`.
  */
module Matching {
  import opened Wrappers

  /** Every `path.match(line)` the loops add, `None` included. */
  function RawMatches<P(==)>(lines: seq<string>, paths: seq<P>, m: (P, string) -> Option<P>): set<Option<P>>
  {
    set l, p | l in lines && p in paths :: m(p, l)
  }

  /** The matches the loops add for one line against a prefix of the paths. */
  function LineMatches<P(==)>(line: string, paths: seq<P>, m: (P, string) -> Option<P>): set<Option<P>>
  {
    set p | p in paths :: m(p, line)
  }

  /** The result `match` promises: each truthy match of some line under some configured path. */
  function MatchSet<P(==)>(lines: seq<string>, paths: seq<P>, m: (P, string) -> Option<P>, truthy: P -> bool): (r: set<P>)
    ensures forall x :: x in r ==> truthy(x)
    ensures lines == [] || paths == [] ==> r == {}
  {
    set l, p | l in lines && p in paths && m(p, l).Some? && truthy(m(p, l).value) :: m(p, l).value
  }

  /** `{x for x in matches if x}`. */
  function Truthful<P(==)>(matches: set<Option<P>>, truthy: P -> bool): set<P>
  {
    set x | x in matches && x.Some? && truthy(x.value) :: x.value
  }

  /**
    * `match(lines, paths)`: every line against every path into one set, then only the truthy
    * matches are kept.
    */
  method Match<P(==)>(lines: seq<string>, paths: seq<P>, m: (P, string) -> Option<P>, truthy: P -> bool) returns (r: set<P>)
    ensures r == MatchSet(lines, paths, m, truthy)
  {
    var matches: set<Option<P>> := {};
    for i := 0 to |lines|
      invariant matches == RawMatches(lines[..i], paths, m)
    {
      for k := 0 to |paths|
        invariant matches == RawMatches(lines[..i], paths, m) + LineMatches(lines[i], paths[..k], m)
      {
        assert paths[..k + 1] == paths[..k] + [paths[k]];
        matches := matches + {m(paths[k], lines[i])};
      }
      assert paths[..|paths|] == paths;
      assert lines[..i + 1] == lines[..i] + [lines[i]];
    }
    assert lines[..|lines|] == lines;
    r := set x | x in matches && x.Some? && truthy(x.value) :: x.value;
    assert r == Truthful(RawMatches(lines, paths, m), truthy);
    RawThenFilter(lines, paths, m, truthy);
  }

  /** Filtering the raw matches gives exactly the promised set. */
  lemma RawThenFilter<P>(lines: seq<string>, paths: seq<P>, m: (P, string) -> Option<P>, truthy: P -> bool)
    ensures Truthful(RawMatches(lines, paths, m), truthy) == MatchSet(lines, paths, m, truthy)
  {
    var raw := RawMatches(lines, paths, m);
    forall x | x in Truthful(raw, truthy) ensures x in MatchSet(lines, paths, m, truthy) {
      var l, p :| l in lines && p in paths && m(p, l) == Some(x);
    }
  }

  /**
    * Membership, both ways: `x` is in the result exactly when it is a truthy match of some
    * changed line under some configured path.
    */
  lemma MatchMembers<P>(lines: seq<string>, paths: seq<P>, m: (P, string) -> Option<P>, truthy: P -> bool, x: P)
    ensures x in MatchSet(lines, paths, m, truthy) <==>
              truthy(x) && exists l, p :: l in lines && p in paths && m(p, l) == Some(x)
  {
    if truthy(x) && exists l, p :: l in lines && p in paths && m(p, l) == Some(x) {
      var l, p :| l in lines && p in paths && m(p, l) == Some(x);
      assert m(p, l).value == x;
    }
  }

  /** No changed lines, or no configured paths, match nothing. */
  lemma MatchNothing<P>(lines: seq<string>, paths: seq<P>, m: (P, string) -> Option<P>, truthy: P -> bool)
    requires lines == [] || paths == []
    ensures MatchSet(lines, paths, m, truthy) == {}
  {
  }

  /** The result depends only on which lines and which paths there are, not on their order or repeats. */
  lemma MatchOrderIndependent<P>(lines: seq<string>, lines': seq<string>, paths: seq<P>, paths': seq<P>,
                                 m: (P, string) -> Option<P>, truthy: P -> bool)
    requires forall l :: l in lines <==> l in lines'
    requires forall p :: p in paths <==> p in paths'
    ensures MatchSet(lines, paths, m, truthy) == MatchSet(lines', paths', m, truthy)
  {
  }

  /** The lines can be matched in parts: the result for all of them is the union of the results. */
  lemma MatchSplitsOverLines<P>(lines: seq<string>, more: seq<string>, paths: seq<P>, m: (P, string) -> Option<P>, truthy: P -> bool)
    ensures MatchSet(lines + more, paths, m, truthy) == MatchSet(lines, paths, m, truthy) + MatchSet(more, paths, m, truthy)
  {
  }

  /**
    * Several changed lines under one configured path give that path once: when every line
    * matches `p` as itself, the result is just `p`.
    */
  lemma MatchCollapses<P>(lines: seq<string>, p: P, m: (P, string) -> Option<P>, truthy: P -> bool)
    requires lines != [] && truthy(p)
    requires forall l :: l in lines ==> m(p, l) == Some(p)
    ensures MatchSet(lines, [p], m, truthy) == {p}
  {
    assert lines[0] in lines;
  }

  /** A falsy match, or `None`, is never in the result. */
  lemma MatchDropsFalsy<P>(lines: seq<string>, paths: seq<P>, m: (P, string) -> Option<P>, truthy: P -> bool, x: P)
    requires !truthy(x)
    ensures x !in MatchSet(lines, paths, m, truthy)
  {
  }
}
