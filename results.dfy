/**
  * maybe/command.py: the outcome of running one command for one path, and the
  * append-only collection of such outcomes a run produces.
  */
module Results {
  import opened Wrappers

  /**
    * `CommandResult(exit_code, run_time, path)`. Equality compares all three attributes,
    * as `__eq__` compares the instances' dictionaries. `path` is `None` for the null response.
    */
  datatype CommandResult = CommandResult(exitCode: int, runTime: real, path: Option<string>)
  {
    /** `success` and `bool(result)`: the exit code is zero. */
    predicate Success() {
      exitCode == 0
    }
  }

  /**
    * The Python exceptions the modelled code raises, with their messages, and an exception
    * from outside the `Exception` hierarchy (KeyboardInterrupt, SystemExit, radish's
    * `DiffError`) passing through, with its `repr`.
    */
  datatype PyError = AttributeError(message: string) | KeyError(message: string) | ValueError(message: string)
                  | TypeError(message: string) | BaseException(repr: string)

  /**
    * The null response the executioners return for a missing command, `CommandResult.none()`
    * as the tests expect it (tests/test_executor.py:201-202): exit code 0, no run time, no path.
    */
  function NoneResult(): (r: CommandResult)
    ensures r.Success() && r.path.None?
  {
    CommandResult(0, 0.0, None)
  }

  /**
    * `CommandResult.none()` as written: maybe/command.py defines no `none`, so the attribute
    * lookup raises AttributeError.
    */
  function NoneResultAsWritten(): (r: Result<CommandResult, PyError>)
    ensures r.Failure? && r.error.AttributeError?
  {
    Failure(AttributeError("type object 'CommandResult' has no attribute 'none'"))
  }

  /** `all(results)`: every result is successful (vacuously so for none). */
  function AllSucceed(rs: seq<CommandResult>): (b: bool)
    ensures b <==> forall i :: 0 <= i < |rs| ==> rs[i].Success()
  {
    if rs == [] then true else rs[0].Success() && AllSucceed(rs[1..])
  }

  /** `CommandResults.success`: an empty collection is not a success. */
  function SuccessOf(rs: seq<CommandResult>): (b: bool)
    ensures b <==> |rs| > 0 && forall i :: 0 <= i < |rs| ==> rs[i].Success()
  {
    if rs != [] then AllSucceed(rs) else false
  }

  /** `sum(map(lambda x: x.run_time, results), 0.0)`, added left to right. */
  function TotalRunTime(rs: seq<CommandResult>): real
  {
    if rs == [] then 0.0 else TotalRunTime(rs[..|rs| - 1]) + rs[|rs| - 1].runTime
  }

  /** `map(lambda x: x.path, results)`: every path, `None` included, in insertion order. */
  function PathsOf(rs: seq<CommandResult>): (ps: seq<Option<string>>)
    ensures |ps| == |rs|
    ensures forall i :: 0 <= i < |rs| ==> ps[i] == rs[i].path
  {
    if rs == [] then [] else PathsOf(rs[..|rs| - 1]) + [rs[|rs| - 1].path]
  }

  /** `CommandResults`: results are only ever appended. */
  class CommandResults {
    var results: seq<CommandResult>

    constructor()
      ensures results == []
    {
      results := [];
    }

    /** `add(result)`: one more result at the end, nothing else changes. */
    method Add(r: CommandResult)
      modifies this
      ensures results == old(results) + [r]
    {
      results := results + [r];
    }

    /** `success` (and `bool(results)`). */
    function Success(): (b: bool)
      reads this
      ensures b <==> |results| > 0 && forall i :: 0 <= i < |results| ==> results[i].Success()
    {
      SuccessOf(results)
    }

    /** `run_time`. */
    function RunTime(): (t: real)
      reads this
      ensures results == [] ==> t == 0.0
    {
      TotalRunTime(results)
    }

    /** `paths`. */
    function Paths(): (ps: seq<Option<string>>)
      reads this
      ensures |ps| == |results|
      ensures forall i :: 0 <= i < |results| ==> ps[i] == results[i].path
    {
      PathsOf(results)
    }
  }

  // Properties of the folds.

  /** Nothing added is not a success. */
  lemma NoResultsNoSuccess()
    ensures !SuccessOf([])
  {
  }

  /** After an add, the collection succeeds exactly when it did before (or was empty) and the new result succeeds. */
  lemma {:induction false} SuccessAfterAdd(rs: seq<CommandResult>, r: CommandResult)
    ensures SuccessOf(rs + [r]) <==> (rs == [] || SuccessOf(rs)) && r.Success()
  {
    var rs' := rs + [r];
    assert rs'[|rs|] == r;
    if r.Success() && (rs == [] || SuccessOf(rs)) {
      forall i | 0 <= i < |rs'| ensures rs'[i].Success() {
        if i < |rs| {
          assert rs'[i] == rs[i];
        }
      }
    }
    if SuccessOf(rs') && rs != [] {
      forall i | 0 <= i < |rs| ensures rs[i].Success() {
        assert rs'[i] == rs[i];
      }
    }
  }

  /** Once a failing result has been added, no later additions make the collection succeed. */
  lemma {:induction false} FailurePersists(rs: seq<CommandResult>, r: CommandResult, later: seq<CommandResult>)
    requires !r.Success()
    ensures !SuccessOf(rs + [r] + later)
  {
    assert (rs + [r] + later)[|rs|] == r;
  }

  /** Run times that are never negative add up to a total that is not negative either. */
  lemma {:induction false} RunTimeNonNegative(rs: seq<CommandResult>)
    requires forall i :: 0 <= i < |rs| ==> rs[i].runTime >= 0.0
    ensures TotalRunTime(rs) >= 0.0
  {
    if rs != [] {
      RunTimeNonNegative(rs[..|rs| - 1]);
    }
  }

  /** Run times add up over a concatenation. */
  lemma {:induction false} RunTimeAppend(a: seq<CommandResult>, b: seq<CommandResult>)
    ensures TotalRunTime(a + b) == TotalRunTime(a) + TotalRunTime(b)
  {
    if b != [] {
      var ab := a + b;
      assert ab[..|ab| - 1] == a + b[..|b| - 1];
      RunTimeAppend(a, b[..|b| - 1]);
    } else {
      assert a + b == a;
    }
  }

  /** The total run time does not depend on the order the results were added in. */
  lemma {:induction false} RunTimeOfPermutation(a: seq<CommandResult>, b: seq<CommandResult>)
    requires multiset(a) == multiset(b)
    ensures TotalRunTime(a) == TotalRunTime(b)
    decreases |a|
  {
    if a != [] {
      var x := a[|a| - 1];
      var a' := a[..|a| - 1];
      assert a == a' + [x];
      assert multiset(a') == multiset(a) - multiset{x};
      assert x in multiset(b);
      var k :| 0 <= k < |b| && b[k] == x;
      var b' := b[..k] + b[k + 1..];
      MultisetWithout(b, k);
      RunTimeWithout(b, k);
      RunTimeOfPermutation(a', b');
    } else {
      assert |b| == |multiset(b)|;
    }
  }

  /** Taking one result out of a collection takes out one copy of it. */
  lemma MultisetWithout(b: seq<CommandResult>, k: nat)
    requires k < |b|
    ensures multiset(b[..k] + b[k + 1..]) == multiset(b) - multiset{b[k]}
  {
    var before, after := b[..k], b[k + 1..];
    assert b == before + [b[k]] + after;
    assert multiset(b) == multiset(before) + multiset{b[k]} + multiset(after);
  }

  /** Taking one result out of a collection takes out its run time. */
  lemma RunTimeWithout(b: seq<CommandResult>, k: nat)
    requires k < |b|
    ensures TotalRunTime(b) == TotalRunTime(b[..k] + b[k + 1..]) + b[k].runTime
  {
    var x, before, after := b[k], b[..k], b[k + 1..];
    assert b == before + [x] + after;
    RunTimeAppend(before + [x], after);
    RunTimeAppend(before, [x]);
    RunTimeAppend(before, after);
    RunTimeSingle(x);
  }

  /** One result's run time is its own. */
  lemma RunTimeSingle(x: CommandResult)
    ensures TotalRunTime([x]) == x.runTime
  {
    assert [x][..0] == [];
  }

  /**
    * The null response is neutral for a run's aggregate: it never makes a non-empty run fail,
    * adds no run time, and contributes no path.
    */
  lemma {:induction false} NoneResultNeutral(rs: seq<CommandResult>)
    ensures rs != [] ==> SuccessOf(rs + [NoneResult()]) == SuccessOf(rs)
    ensures TotalRunTime(rs + [NoneResult()]) == TotalRunTime(rs)
    ensures PathsOf(rs + [NoneResult()]) == PathsOf(rs) + [None]
  {
    SuccessAfterAdd(rs, NoneResult());
    RunTimeAppend(rs, [NoneResult()]);
    assert [NoneResult()][..0] == [];
    assert (rs + [NoneResult()])[..|rs|] == rs;
  }

  /** Success does not depend on the order the results were added in either. */
  lemma {:induction false} SuccessOfPermutation(a: seq<CommandResult>, b: seq<CommandResult>)
    requires multiset(a) == multiset(b)
    ensures SuccessOf(a) == SuccessOf(b)
  {
    assert |a| == |multiset(a)| && |b| == |multiset(b)|;
    if SuccessOf(a) {
      forall i | 0 <= i < |b| ensures b[i].Success() {
        assert b[i] in multiset(a);
      }
    }
    if SuccessOf(b) {
      forall i | 0 <= i < |a| ensures a[i].Success() {
        assert a[i] in multiset(b);
      }
    }
  }
}
