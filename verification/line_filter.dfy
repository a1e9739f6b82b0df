/** The line filter behind the "remove matching lines" and "remove non-matching
    lines" commands: one pass over the document's lines that keeps a line or drops
    it according to whether it contains the selected text. */
module LineFilter {
  import opened Text

  /** The keep rule: with `removeMatching` a line survives when it does not contain
      `searchText`; otherwise it survives when it does. */
  predicate Keeps(line: string, searchText: string, removeMatching: bool)
  {
    if removeMatching then !Contains(line, searchText) else Contains(line, searchText)
  }

  /** The lines a filter run keeps, in document order: what the loop has pushed once it has seen `lines`. */
  function Kept(lines: seq<string>, searchText: string, removeMatching: bool): (kept: seq<string>)
  {
    if lines == [] then []
    else
      var last := lines[|lines| - 1];
      Kept(lines[..|lines| - 1], searchText, removeMatching)
        + (if Keeps(last, searchText, removeMatching) then [last] else [])
  }

  /** `idx` picks the elements of `kept` out of `lines`, in increasing position order. */
  ghost predicate IsSelection(kept: seq<string>, lines: seq<string>, idx: seq<nat>)
  {
    && |idx| == |kept|
    && (forall k :: 0 <= k < |idx| ==> idx[k] < |lines| && kept[k] == lines[idx[k]])
    && (forall k, m :: 0 <= k < m < |idx| ==> idx[k] < idx[m])
  }

  /** The removal loop: pushes each kept line, then reports how many lines went away. */
  method RemoveLines(lines: seq<string>, searchText: string, removeMatching: bool)
    returns (linesToKeep: seq<string>, removedCount: nat)
    requires searchText != ""
    ensures linesToKeep == Kept(lines, searchText, removeMatching)
    ensures removedCount == |lines| - |linesToKeep| && removedCount <= |lines|
  {
    linesToKeep := [];
    var i := 0;
    while i < |lines|
      invariant 0 <= i <= |lines|
      invariant linesToKeep == Kept(lines[..i], searchText, removeMatching)
      invariant |linesToKeep| <= i
    {
      var lineText := lines[i];
      var containsSearch := Contains(lineText, searchText);
      assert lines[..i + 1][..i] == lines[..i];
      if (if removeMatching then !containsSearch else containsSearch) {
        linesToKeep := linesToKeep + [lineText];
      }
      i := i + 1;
    }
    assert lines[..i] == lines;
    removedCount := |lines| - |linesToKeep|;
  }

  /** A line is in the result iff it is a line of the input that the keep rule accepts. */
  lemma {:induction false} KeptMembers(lines: seq<string>, searchText: string, removeMatching: bool)
    ensures forall x :: x in Kept(lines, searchText, removeMatching) <==> x in lines && Keeps(x, searchText, removeMatching)
  {
    if lines != [] {
      var init := lines[..|lines| - 1];
      KeptMembers(init, searchText, removeMatching);
      assert lines == init + [lines[|lines| - 1]];
    }
  }

  /** The positions of the lines a filter run keeps, in increasing order. */
  ghost function KeptPositions(lines: seq<string>, searchText: string, removeMatching: bool): seq<nat>
  {
    if lines == [] then []
    else
      KeptPositions(lines[..|lines| - 1], searchText, removeMatching)
        + (if Keeps(lines[|lines| - 1], searchText, removeMatching) then [|lines| - 1] else [])
  }

  /** The kept lines are exactly the input lines at the positions the keep rule accepts,
      with their text unchanged and their relative order preserved. */
  lemma {:induction false} KeptIsOrderedSelection(lines: seq<string>, searchText: string, removeMatching: bool)
    ensures var idx := KeptPositions(lines, searchText, removeMatching);
      && IsSelection(Kept(lines, searchText, removeMatching), lines, idx)
      && (forall i :: 0 <= i < |lines| ==> (i in idx <==> Keeps(lines[i], searchText, removeMatching)))
  {
    if lines != [] {
      var n := |lines| - 1;
      var init := lines[..n];
      KeptIsOrderedSelection(init, searchText, removeMatching);
      var prev := KeptPositions(init, searchText, removeMatching);
      var idx := KeptPositions(lines, searchText, removeMatching);
      var kept := Kept(lines, searchText, removeMatching);
      assert forall k :: 0 <= k < |prev| ==> prev[k] < n;
      assert forall i :: 0 <= i < n ==> init[i] == lines[i];
      if Keeps(lines[n], searchText, removeMatching) {
        assert idx == prev + [n];
        assert kept == Kept(init, searchText, removeMatching) + [lines[n]];
        assert IsSelection(kept, lines, idx);
      } else {
        assert idx == prev;
        assert kept == Kept(init, searchText, removeMatching);
        assert IsSelection(kept, lines, idx);
      }
      forall i | 0 <= i < |lines| ensures i in idx <==> Keeps(lines[i], searchText, removeMatching) {
        if i < n { assert init[i] == lines[i]; }
      }
    }
  }

  /** Filtering the kept lines again with the same text and mode keeps every one of them. */
  lemma {:induction false} KeptIdempotent(lines: seq<string>, searchText: string, removeMatching: bool)
    ensures Kept(Kept(lines, searchText, removeMatching), searchText, removeMatching) == Kept(lines, searchText, removeMatching)
  {
    if lines != [] {
      var init := lines[..|lines| - 1];
      var last := lines[|lines| - 1];
      KeptIdempotent(init, searchText, removeMatching);
      var k := Kept(init, searchText, removeMatching);
      if Keeps(last, searchText, removeMatching) {
        var k' := k + [last];
        assert k'[..|k|] == k && k'[|k'| - 1] == last;
        assert Kept(lines, searchText, removeMatching) == k';
        assert Kept(k', searchText, removeMatching) == Kept(k, searchText, removeMatching) + [last];
      } else {
        assert Kept(lines, searchText, removeMatching) == k;
      }
    }
  }

  /** A second run of the same filter on its own output removes nothing. */
  lemma SecondRunRemovesNothing(lines: seq<string>, searchText: string, removeMatching: bool)
    ensures var kept := Kept(lines, searchText, removeMatching);
            |kept| - |Kept(kept, searchText, removeMatching)| == 0
  {
    KeptIdempotent(lines, searchText, removeMatching);
  }

  /** The two modes split the document: every line is kept by exactly one of them. */
  lemma {:induction false} ModesPartition(lines: seq<string>, searchText: string)
    ensures multiset(Kept(lines, searchText, true)) + multiset(Kept(lines, searchText, false)) == multiset(lines)
  {
    if lines != [] {
      var init := lines[..|lines| - 1];
      var last := lines[|lines| - 1];
      ModesPartition(init, searchText);
      assert lines == init + [last];
      assert multiset(lines) == multiset(init) + multiset{last};
      var removing := Kept(init, searchText, true);
      var keeping := Kept(init, searchText, false);
      if Contains(last, searchText) {
        assert Kept(lines, searchText, true) == removing;
        assert Kept(lines, searchText, false) == keeping + [last];
        assert multiset(keeping + [last]) == multiset(keeping) + multiset{last};
      } else {
        assert Kept(lines, searchText, true) == removing + [last];
        assert Kept(lines, searchText, false) == keeping;
        assert multiset(removing + [last]) == multiset(removing) + multiset{last};
      }
    }
  }

  /** The lines kept under the two modes add up to the whole document. */
  lemma ModeCountsAddUp(lines: seq<string>, searchText: string)
    ensures |Kept(lines, searchText, true)| + |Kept(lines, searchText, false)| == |lines|
  {
    ModesPartition(lines, searchText);
    assert |multiset(Kept(lines, searchText, true))| == |Kept(lines, searchText, true)|;
    assert |multiset(Kept(lines, searchText, false))| == |Kept(lines, searchText, false)|;
  }

  /** When every line contains the text, removing non-matching lines leaves the document unchanged. */
  lemma {:induction false} AllMatchingKeptWhole(lines: seq<string>, searchText: string)
    requires forall i :: 0 <= i < |lines| ==> Contains(lines[i], searchText)
    ensures Kept(lines, searchText, false) == lines
  {
    if lines != [] {
      var init := lines[..|lines| - 1];
      AllMatchingKeptWhole(init, searchText);
      assert lines == init + [lines[|lines| - 1]];
    }
  }

  /** The worked example: lines "a", "b", "a" filtered on "a". */
  lemma FilterExample()
    ensures Kept(["a", "b", "a"], "a", true) == ["b"]
    ensures Kept(["a", "b", "a"], "a", false) == ["a", "a"]
  {
    assert OccursAt("a", "a", 0);
    assert "b"[..1][0] != "a"[0];
    assert ["a", "b", "a"][..2] == ["a", "b"];
    assert ["a", "b"][..1] == ["a"];
  }
}
