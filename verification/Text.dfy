/** Splitting and joining text, shared by the line framer and the field splitter of src/dump1090.cpp. */
module Text {

  /** std::string::find_first_of: the first position from `start` of any of the characters, or the end. */
  function FindFirstOf(s: string, seps: string, start: nat): (i: nat)
    requires start <= |s|
    ensures start <= i <= |s|
    ensures forall j | start <= j < i :: s[j] !in seps
    ensures i < |s| ==> s[i] in seps
    decreases |s| - start
  {
    if start == |s| || s[start] in seps then start else FindFirstOf(s, seps, start + 1)
  }

  predicate Free(s: string, seps: string) {
    forall i | 0 <= i < |s| :: s[i] !in seps
  }

  /** The pieces of s between separators; the last is what follows the last separator. */
  function Split(s: string, seps: string): (pieces: seq<string>)
    ensures pieces != []
    decreases |s|
  {
    var i := FindFirstOf(s, seps, 0);
    if i == |s| then [s] else [s[..i]] + Split(s[i + 1..], seps)
  }

  function Join(pieces: seq<string>, sep: char): string
    requires pieces != []
  {
    if |pieces| == 1 then pieces[0] else pieces[0] + [sep] + Join(pieces[1..], sep)
  }

  function Count(s: string, seps: string): nat {
    if s == "" then 0 else (if s[0] in seps then 1 else 0) + Count(s[1..], seps)
  }

  /** Where the first separator is, by where it is not. */
  lemma {:induction false} FirstIs(s: string, seps: string, start: nat, i: nat)
    requires start <= i <= |s|
    requires forall j | start <= j < i :: s[j] !in seps
    requires i < |s| ==> s[i] in seps
    ensures FindFirstOf(s, seps, start) == i
    decreases i - start
  {
    if start < i {
      FirstIs(s, seps, start + 1, i);
    }
  }

  lemma SplitFree(s: string, seps: string)
    requires Free(s, seps)
    ensures Split(s, seps) == [s]
  {
    FirstIs(s, seps, 0, |s|);
  }

  lemma SplitAt(a: string, sep: char, b: string, seps: string)
    requires Free(a, seps) && sep in seps
    ensures Split(a + [sep] + b, seps) == [a] + Split(b, seps)
  {
    var s := a + [sep] + b;
    FirstIs(s, seps, 0, |a|);
    assert s[..|a|] == a && s[|a| + 1..] == b;
  }

  lemma {:induction false} CountFree(a: string, b: string, seps: string)
    requires Free(a, seps)
    ensures Count(a + b, seps) == Count(b, seps)
  {
    if a == "" {
      assert a + b == b;
    } else {
      CountFree(a[1..], b, seps);
      assert (a + b)[1..] == a[1..] + b;
    }
  }

  lemma {:induction false} SplitCounts(s: string, seps: string)
    ensures |Split(s, seps)| == Count(s, seps) + 1
    decreases |s|
  {
    var i := FindFirstOf(s, seps, 0);
    CountFree(s[..i], s[i..], seps);
    assert s == s[..i] + s[i..];
    if i < |s| {
      assert s[i..][1..] == s[i + 1..];
      SplitCounts(s[i + 1..], seps);
    }
  }

  /** Splitting loses nothing: one more piece than there are separators, and they join to the original. */
  lemma {:induction false} SplitJoins(s: string, sep: char)
    ensures Join(Split(s, [sep]), sep) == s
    ensures |Split(s, [sep])| == Count(s, [sep]) + 1
    decreases |s|
  {
    SplitCounts(s, [sep]);
    var i := FindFirstOf(s, [sep], 0);
    if i < |s| {
      var rest := Split(s[i + 1..], [sep]);
      SplitJoins(s[i + 1..], sep);
      assert ([s[..i]] + rest)[1..] == rest;
      assert s == s[..i] + [sep] + s[i + 1..];
    }
  }

  /** And pieces without separators come back exactly as they were joined. */
  lemma {:induction false} JoinSplits(pieces: seq<string>, sep: char)
    requires pieces != [] && forall i | 0 <= i < |pieces| :: Free(pieces[i], [sep])
    ensures Split(Join(pieces, sep), [sep]) == pieces
  {
    if |pieces| == 1 {
      SplitFree(pieces[0], [sep]);
    } else {
      JoinSplits(pieces[1..], sep);
      SplitAt(pieces[0], sep, Join(pieces[1..], sep), [sep]);
    }
  }

  /** A prefix without separators belongs to the first piece. */
  lemma SplitAfterPrefix(p: string, s: string, seps: string)
    requires Free(p, seps)
    ensures Split(p + s, seps) == [p + Split(s, seps)[0]] + Split(s, seps)[1..]
  {
    var i := FindFirstOf(s, seps, 0);
    if i == |s| {
      SplitFree(p + s, seps);
    } else {
      assert p + s == (p + s[..i]) + [s[i]] + s[i + 1..];
      SplitAt(p + s[..i], s[i], s[i + 1..], seps);
    }
  }

  lemma {:induction false} PiecesAreFree(s: string, seps: string, i: nat)
    requires i < |Split(s, seps)|
    ensures Free(Split(s, seps)[i], seps)
    decreases |s|
  {
    var at := FindFirstOf(s, seps, 0);
    if at < |s| && i > 0 {
      PiecesAreFree(s[at + 1..], seps, i - 1);
    }
  }

  /** Splitting a stream in two parts: only the piece that spans the cut is affected. */
  lemma {:induction false} SplitConcat(a: string, b: string, seps: string)
    ensures Split(a + b, seps) == Merge(Split(a, seps), b, seps)
    decreases |a|
  {
    var i := FindFirstOf(a, seps, 0);
    if i == |a| {
      MergeOne(a, b, seps);
    } else {
      hide Split, Merge;
      SplitConcat(a[i + 1..], b, seps);
      MergeAt(a[..i], a[i], a[i + 1..], b, seps);
      assert a == a[..i] + [a[i]] + a[i + 1..];
    }
  }

  lemma MergeAt(head: string, sep: char, rest: string, b: string, seps: string)
    requires Free(head, seps) && sep in seps
    requires Split(rest + b, seps) == Merge(Split(rest, seps), b, seps)
    ensures Split(head + [sep] + rest + b, seps) == Merge(Split(head + [sep] + rest, seps), b, seps)
  {
    SplitAt(head, sep, rest, seps);
    SplitAt(head, sep, rest + b, seps);
    MergeCons(head, Split(rest, seps), b, seps);
    assert head + [sep] + rest + b == head + [sep] + (rest + b);
  }

  lemma MergeOne(a: string, b: string, seps: string)
    ensures Merge([a], b, seps) == Split(a + b, seps)
  {
    assert [a][..0] == [];
  }

  /** The pieces of a stream whose last piece is continued by b. */
  function Merge(pieces: seq<string>, b: string, seps: string): seq<string>
    requires pieces != []
  {
    pieces[..|pieces| - 1] + Split(pieces[|pieces| - 1] + b, seps)
  }

  lemma MergeCons(head: string, pieces: seq<string>, b: string, seps: string)
    requires pieces != []
    ensures Merge([head] + pieces, b, seps) == [head] + Merge(pieces, b, seps)
  {
  }

  /** A piece that is followed by a separator is shorter than the whole. */
  lemma {:induction false} TerminatedPieceIsShorter(s: string, seps: string, i: nat)
    requires i < |Split(s, seps)|
    ensures |Split(s, seps)[i]| <= |s| && (i + 1 < |Split(s, seps)| ==> |Split(s, seps)[i]| < |s|)
    decreases |s|
  {
    var at := FindFirstOf(s, seps, 0);
    if at < |s| && i > 0 {
      TerminatedPieceIsShorter(s[at + 1..], seps, i - 1);
    }
  }
}
