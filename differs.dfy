/**
  * radish/differs.py, `Git._list_of_files`: the changed files in the text `git diff
  * --name-only` prints. The diff call itself (GitPython) is not part of this model; its
  * output is the parameter.
  */
module Differs {
  import Text

  /** `s.split('\n')`: the pieces between newlines, empty ones included; never an empty list. */
  function SplitLines(s: string): (parts: seq<string>)
    ensures |parts| >= 1
    ensures forall i :: 0 <= i < |parts| ==> '\n' !in parts[i]
    decreases |s|
  {
    var i := Text.IndexOf(s, '\n');
    if i == |s| then
      assert forall k :: 0 <= k < |s| ==> s[k] != '\n';
      [s]
    else
      assert forall k :: 0 <= k < i ==> s[..i][k] != '\n';
      [s[..i]] + SplitLines(s[i + 1..])
  }

  /** Joining the pieces back with newlines gives the text that was split. */
  lemma {:induction false} SplitLinesJoin(s: string)
    ensures Text.JoinWith(SplitLines(s), "\n") == s
    decreases |s|
  {
    var i := Text.IndexOf(s, '\n');
    if i < |s| {
      SplitLinesJoin(s[i + 1..]);
      var parts := SplitLines(s);
      assert parts[1..] == SplitLines(s[i + 1..]);
      assert s == s[..i] + "\n" + s[i + 1..];
    }
  }

  /** `filter(lambda x: x, parts)`: the non-empty pieces, in order. */
  function NonEmpty(parts: seq<string>): (r: seq<string>)
    ensures |r| <= |parts|
    ensures forall f :: f in r <==> f in parts && f != ""
  {
    if parts == [] then []
    else (if parts[0] == "" then [] else [parts[0]]) + NonEmpty(parts[1..])
  }

  /**
    * `_list_of_files(files)`: the stripped output split at newlines, without the empty
    * pieces. No listed file is empty or holds a newline.
    */
  function ListOfFiles(output: string): (files: seq<string>)
    ensures forall i :: 0 <= i < |files| ==> files[i] != "" && '\n' !in files[i]
    ensures forall f :: f in files <==> f in SplitLines(Text.Strip(output)) && f != ""
  {
    var files := NonEmpty(SplitLines(Text.Strip(output)));
    assert forall i :: 0 <= i < |files| ==> files[i] in files;
    files
  }

  /** Output that is empty or only whitespace lists no files. */
  lemma NoChanges(output: string)
    requires forall k :: 0 <= k < |output| ==> Text.IsSpace(output[k])
    ensures ListOfFiles(output) == []
  {
    assert Text.Strip(output) == [];
    assert SplitLines([]) == [[]];
  }

  /** No two newlines in a row: the text has no blank line. */
  predicate NoBlankLine(t: string) {
    forall k :: 0 <= k < |t| - 1 ==> !(t[k] == '\n' && t[k + 1] == '\n')
  }

  /** Non-empty text that neither starts nor ends with a newline and has no blank line splits into non-empty pieces. */
  lemma {:induction false} SplitLinesNonEmpty(t: string)
    requires t != [] && t[0] != '\n' && t[|t| - 1] != '\n' && NoBlankLine(t)
    ensures forall i :: 0 <= i < |SplitLines(t)| ==> SplitLines(t)[i] != ""
    decreases |t|
  {
    var i := Text.IndexOf(t, '\n');
    if i < |t| {
      var rest := t[i + 1..];
      assert i + 1 < |t|;
      assert rest[0] == t[i + 1] != '\n';
      assert rest[|rest| - 1] == t[|t| - 1];
      forall k | 0 <= k < |rest| - 1 ensures !(rest[k] == '\n' && rest[k + 1] == '\n') {
        assert rest[k] == t[i + 1 + k] && rest[k + 1] == t[i + 1 + (k + 1)];
      }
      SplitLinesNonEmpty(rest);
      assert SplitLines(t) == [t[..i]] + SplitLines(rest);
      assert t[..i] != "" by {
        assert i > 0;
      }
    }
  }

  /** Filtering a list without empty pieces keeps it as it is. */
  lemma {:induction false} NonEmptyKeepsAll(parts: seq<string>)
    requires forall i :: 0 <= i < |parts| ==> parts[i] != ""
    ensures NonEmpty(parts) == parts
  {
    if parts != [] {
      NonEmptyKeepsAll(parts[1..]);
    }
  }

  /** The filter keeps a single piece exactly when it is not empty. */
  lemma NonEmptySingle(x: string)
    ensures NonEmpty([x]) == if x == "" then [] else [x]
  {
    assert [x][1..] == [];
  }

  /** The filter distributes over concatenation, so it keeps the order of the pieces it keeps. */
  lemma {:induction false} NonEmptyAppend(a: seq<string>, b: seq<string>)
    ensures NonEmpty(a + b) == NonEmpty(a) + NonEmpty(b)
  {
    if a == [] {
      assert a + b == b;
    } else {
      assert (a + b)[0] == a[0] && (a + b)[1..] == a[1..] + b;
      NonEmptyAppend(a[1..], b);
    }
  }

  /**
    * For diff output with no blank line inside it, the listed files, joined back with
    * newlines, are exactly the stripped output: nothing is lost, reordered or added.
    */
  lemma ListOfFilesRoundTrip(output: string)
    requires NoBlankLine(Text.Strip(output))
    ensures Text.JoinWith(ListOfFiles(output), "\n") == Text.Strip(output)
  {
    var t := Text.Strip(output);
    if t != [] {
      assert Text.IsSpace('\n');
      SplitLinesNonEmpty(t);
      NonEmptyKeepsAll(SplitLines(t));
    }
    SplitLinesJoin(t);
  }
}
