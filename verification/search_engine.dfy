/** The window search engine: finds the lines holding a begin marker and the lines
    holding an end marker, pairs every end with an earlier unclaimed begin under a
    FIFO or LIFO policy, sorts the pairs by begin line and reports what stayed
    unpaired. */
module SearchEngine {
  import opened Text

  datatype PairingAlgorithm = FIFO | LIFO

  /** A line on which a marker was found: its 0-based index and its exact text.
      An unpaired item of a search result has the same shape. */
  datatype Occurrence = Occurrence(line: nat, text: string)

  datatype Pair = Pair(beginLine: nat, beginText: string, endLine: nat, endText: string)

  datatype SearchResult = SearchResult(pairs: seq<Pair>, unpairedBegins: seq<Occurrence>, unpairedEnds: seq<Occurrence>)

  datatype Option<T> = None | Some(value: T)

  /** One claim of the matching phase: the position of the begin occurrence in the
      begin list and the position of the end occurrence that claimed it. */
  datatype Link = Link(begin: nat, end: nat)

  // ---------------------------------------------------------------- scanning

  ghost predicate StrictlyAscending(occs: seq<Occurrence>)
  {
    forall a, b :: 0 <= a < b < |occs| ==> occs[a].line < occs[b].line
  }

  /** The occurrences of `marker` among the first `n` lines, in line order. */
  function Occurrences(lines: seq<string>, marker: string, n: nat): (occs: seq<Occurrence>)
    requires n <= |lines|
    ensures StrictlyAscending(occs)
    ensures forall k :: 0 <= k < |occs| ==>
      occs[k].line < n && occs[k].text == lines[occs[k].line] && Contains(occs[k].text, marker)
  {
    if n == 0 then []
    else
      Occurrences(lines, marker, n - 1)
        + (if Contains(lines[n - 1], marker) then [Occurrence(n - 1, lines[n - 1])] else [])
  }

  /** The occurrences of `marker` in the whole document. */
  function AllOccurrences(lines: seq<string>, marker: string): seq<Occurrence>
  {
    Occurrences(lines, marker, |lines|)
  }

  /** A line is listed iff it contains the marker. */
  lemma {:induction false} OccurrencesComplete(lines: seq<string>, marker: string, n: nat)
    requires n <= |lines|
    ensures forall i :: 0 <= i < n ==>
      (Occurrence(i, lines[i]) in Occurrences(lines, marker, n) <==> Contains(lines[i], marker))
  {
    if n > 0 {
      OccurrencesComplete(lines, marker, n - 1);
      var prev := Occurrences(lines, marker, n - 1);
      assert Occurrence(n - 1, lines[n - 1]) !in prev;
    }
  }

  /** The two scans are independent: a line holding both markers is in both lists. */
  lemma BothMarkersBothLists(lines: seq<string>, beginMarker: string, endMarker: string, i: nat)
    requires i < |lines| && Contains(lines[i], beginMarker) && Contains(lines[i], endMarker)
    ensures Occurrence(i, lines[i]) in AllOccurrences(lines, beginMarker)
    ensures Occurrence(i, lines[i]) in AllOccurrences(lines, endMarker)
  {
    OccurrencesComplete(lines, beginMarker, |lines|);
    OccurrencesComplete(lines, endMarker, |lines|);
  }

  /** The scan pass: one visit per line, pushing to the begin list and, independently, to the end list. */
  method Scan(lines: seq<string>, beginMarker: string, endMarker: string)
    returns (beginIndices: seq<Occurrence>, endIndices: seq<Occurrence>)
    ensures beginIndices == AllOccurrences(lines, beginMarker)
    ensures endIndices == AllOccurrences(lines, endMarker)
  {
    beginIndices, endIndices := [], [];
    for index := 0 to |lines|
      invariant beginIndices == Occurrences(lines, beginMarker, index)
      invariant endIndices == Occurrences(lines, endMarker, index)
    {
      var line := lines[index];
      if Contains(line, beginMarker) {
        beginIndices := beginIndices + [Occurrence(index, line)];
      }
      if Contains(line, endMarker) {
        endIndices := endIndices + [Occurrence(index, line)];
      }
    }
  }

  // ---------------------------------------------------------------- claiming

  /** Begin `i` may be claimed by an end on `endLine`: it exists, it is unclaimed,
      and it lies on a strictly earlier line. */
  predicate Eligible(begins: seq<Occurrence>, used: set<nat>, endLine: nat, i: nat)
  {
    i < |begins| && i !in used && begins[i].line < endLine
  }

  /** The lowest eligible begin at or after position `from`. */
  function FirstEligible(begins: seq<Occurrence>, used: set<nat>, endLine: nat, from: nat): (r: Option<nat>)
    decreases |begins| - from
    ensures r.Some? ==> from <= r.value && Eligible(begins, used, endLine, r.value)
    ensures forall k: nat :: from <= k && (r.None? || k < r.value) ==> !Eligible(begins, used, endLine, k)
  {
    if from >= |begins| then None
    else if Eligible(begins, used, endLine, from) then Some(from)
    else FirstEligible(begins, used, endLine, from + 1)
  }

  /** The highest eligible begin before position `upto`. */
  function LastEligible(begins: seq<Occurrence>, used: set<nat>, endLine: nat, upto: nat): (r: Option<nat>)
    ensures r.Some? ==> r.value < upto && Eligible(begins, used, endLine, r.value)
    ensures forall k: nat :: k < upto && (r.None? || r.value < k) ==> !Eligible(begins, used, endLine, k)
  {
    if upto == 0 then None
    else if Eligible(begins, used, endLine, upto - 1) then Some(upto - 1)
    else LastEligible(begins, used, endLine, upto - 1)
  }

  /** The begin an end on `endLine` claims under `algorithm`. */
  function Select(begins: seq<Occurrence>, used: set<nat>, endLine: nat, algorithm: PairingAlgorithm): Option<nat>
  {
    match algorithm
    case FIFO => FirstEligible(begins, used, endLine, 0)
    case LIFO => LastEligible(begins, used, endLine, |begins|)
  }

  /** The selection rule: the claimed begin is eligible; under FIFO it is the lowest
      eligible position, under LIFO the highest; nothing is claimed exactly when no
      begin is eligible. */
  lemma SelectRule(begins: seq<Occurrence>, used: set<nat>, endLine: nat, algorithm: PairingAlgorithm)
    ensures var r := Select(begins, used, endLine, algorithm);
      && (r.Some? ==> Eligible(begins, used, endLine, r.value))
      && (r.None? <==> forall k: nat :: !Eligible(begins, used, endLine, k))
      && (r.Some? && algorithm == FIFO ==> forall k: nat :: k < r.value ==> !Eligible(begins, used, endLine, k))
      && (r.Some? && algorithm == LIFO ==> forall k: nat :: r.value < k ==> !Eligible(begins, used, endLine, k))
  {
  }

  /** The begin positions already claimed. */
  function ClaimedBegins(links: seq<Link>): set<nat>
  {
    set l | l in links :: l.begin
  }

  /** The end positions that claimed a begin. */
  function ClaimedEnds(links: seq<Link>): set<nat>
  {
    set l | l in links :: l.end
  }

  /** No begin is claimed twice, and claims are made by ends in ascending order (so no end claims twice). */
  ghost predicate DistinctClaims(links: seq<Link>)
  {
    forall a, b :: 0 <= a < b < |links| ==> links[a].begin != links[b].begin && links[a].end < links[b].end
  }

  /** The claims made once the first `n` ends have been processed in ascending order:
      each end takes what `Select` offers it given the begins claimed so far. */
  function Links(begins: seq<Occurrence>, ends: seq<Occurrence>, algorithm: PairingAlgorithm, n: nat): seq<Link>
    requires n <= |ends|
  {
    if n == 0 then []
    else
      var prev := Links(begins, ends, algorithm, n - 1);
      match Select(begins, ClaimedBegins(prev), ends[n - 1].line, algorithm)
      case None => prev
      case Some(i) => prev + [Link(i, n - 1)]
  }

  /** The claims after `n` ends: each joins an existing begin to one of those ends on a
      strictly later line, no begin is claimed twice and the claims are in end order. */
  ghost predicate WellFormed(begins: seq<Occurrence>, ends: seq<Occurrence>, n: nat, links: seq<Link>)
  {
    && n <= |ends|
    && |links| <= n
    && DistinctClaims(links)
    && forall k :: 0 <= k < |links| ==>
      && links[k].begin < |begins| && links[k].end < n
      && begins[links[k].begin].line < ends[links[k].end].line
  }

  /** Every matching run, stopped after any number of ends, has well-formed claims. */
  lemma {:induction false} LinksWellFormed(begins: seq<Occurrence>, ends: seq<Occurrence>, algorithm: PairingAlgorithm, n: nat)
    requires n <= |ends|
    ensures WellFormed(begins, ends, n, Links(begins, ends, algorithm, n))
  {
    if n > 0 {
      var prev := Links(begins, ends, algorithm, n - 1);
      LinksWellFormed(begins, ends, algorithm, n - 1);
      var used := ClaimedBegins(prev);
      var sel := Select(begins, used, ends[n - 1].line, algorithm);
      SelectRule(begins, used, ends[n - 1].line, algorithm);
      if sel.Some? {
        AppendClaim(prev, Link(sel.value, n - 1));
        assert Links(begins, ends, algorithm, n) == prev + [Link(sel.value, n - 1)];
      } else {
        assert Links(begins, ends, algorithm, n) == prev;
      }
    }
  }

  /** A claim of an unclaimed begin by a later end keeps the claims distinct. */
  lemma AppendClaim(links: seq<Link>, link: Link)
    requires DistinctClaims(links)
    requires link.begin !in ClaimedBegins(links)
    requires forall k :: 0 <= k < |links| ==> links[k].end < link.end
    ensures DistinctClaims(links + [link])
  {
    forall k | 0 <= k < |links| ensures links[k].begin != link.begin {
      assert links[k] in links;
    }
  }

  /** The claims of a whole matching run. */
  function Matching(begins: seq<Occurrence>, ends: seq<Occurrence>, algorithm: PairingAlgorithm): (links: seq<Link>)
    ensures WellFormed(begins, ends, |ends|, links)
  {
    LinksWellFormed(begins, ends, algorithm, |ends|);
    Links(begins, ends, algorithm, |ends|)
  }

  /** Each claim moves exactly one begin position and one end position into the used sets. */
  lemma {:induction false} ClaimedCount(links: seq<Link>)
    requires DistinctClaims(links)
    ensures |ClaimedBegins(links)| == |links| && |ClaimedEnds(links)| == |links|
  {
    if links != [] {
      var n := |links| - 1;
      var prev := links[..n];
      ClaimedCount(prev);
      assert ClaimedBegins(links) == ClaimedBegins(prev) + {links[n].begin};
      assert ClaimedEnds(links) == ClaimedEnds(prev) + {links[n].end};
      assert links[n].begin !in ClaimedBegins(prev);
      assert links[n].end !in ClaimedEnds(prev);
    }
  }

  /** The pair a claim produces. */
  function PairOf(begin: Occurrence, end: Occurrence): Pair
  {
    Pair(begin.line, begin.text, end.line, end.text)
  }

  ghost predicate LinksInRange(links: seq<Link>, numBegins: nat, numEnds: nat)
  {
    forall k :: 0 <= k < |links| ==> links[k].begin < numBegins && links[k].end < numEnds
  }

  /** The pairs of a matching run, in the order the claims were made. */
  function PairsOf(begins: seq<Occurrence>, ends: seq<Occurrence>, links: seq<Link>): seq<Pair>
    requires LinksInRange(links, |begins|, |ends|)
  {
    seq(|links|, k requires 0 <= k < |links| => PairOf(begins[links[k].begin], ends[links[k].end]))
  }

  /** Appending a claim appends its pair and adds its two positions to the used sets. */
  lemma ClaimStep(begins: seq<Occurrence>, ends: seq<Occurrence>, links: seq<Link>, link: Link)
    requires LinksInRange(links, |begins|, |ends|) && link.begin < |begins| && link.end < |ends|
    ensures LinksInRange(links + [link], |begins|, |ends|)
    ensures PairsOf(begins, ends, links + [link]) == PairsOf(begins, ends, links) + [PairOf(begins[link.begin], ends[link.end])]
    ensures ClaimedBegins(links + [link]) == ClaimedBegins(links) + {link.begin}
    ensures ClaimedEnds(links + [link]) == ClaimedEnds(links) + {link.end}
  {
  }

  /** The begin scan: the inner FIFO loop, which stops at the first unclaimed begin on an earlier line. */
  method ScanForward(begins: seq<Occurrence>, usedBegins: set<nat>, endLine: nat) returns (claim: Option<nat>)
    ensures claim == Select(begins, usedBegins, endLine, FIFO)
  {
    var i := 0;
    while i < |begins|
      invariant 0 <= i <= |begins|
      invariant forall k: nat :: k < i ==> !Eligible(begins, usedBegins, endLine, k)
    {
      if i !in usedBegins && begins[i].line < endLine {
        SelectRule(begins, usedBegins, endLine, FIFO);
        assert Eligible(begins, usedBegins, endLine, i);
        return Some(i);
      }
      i := i + 1;
    }
    SelectRule(begins, usedBegins, endLine, FIFO);
    return None;
  }

  /** The inner LIFO loop, which stops at the last unclaimed begin on an earlier line. */
  method ScanBackward(begins: seq<Occurrence>, usedBegins: set<nat>, endLine: nat) returns (claim: Option<nat>)
    ensures claim == Select(begins, usedBegins, endLine, LIFO)
  {
    var i := |begins| - 1;
    while i >= 0
      invariant -1 <= i < |begins|
      invariant forall k: nat :: i < k ==> !Eligible(begins, usedBegins, endLine, k)
    {
      if i !in usedBegins && begins[i].line < endLine {
        SelectRule(begins, usedBegins, endLine, LIFO);
        assert Eligible(begins, usedBegins, endLine, i);
        return Some(i);
      }
      i := i - 1;
    }
    SelectRule(begins, usedBegins, endLine, LIFO);
    return None;
  }

  /** The matching phase: every end, in ascending order, claims a begin under `algorithm`;
      the claimed positions accumulate in `usedBegins` and `usedEnds`. */
  method MatchPairs(begins: seq<Occurrence>, ends: seq<Occurrence>, algorithm: PairingAlgorithm)
    returns (pairs: seq<Pair>, usedBegins: set<nat>, usedEnds: set<nat>)
    ensures var links := Matching(begins, ends, algorithm);
      && pairs == PairsOf(begins, ends, links)
      && usedBegins == ClaimedBegins(links)
      && usedEnds == ClaimedEnds(links)
  {
    pairs, usedBegins, usedEnds := [], {}, {};
    ghost var links: seq<Link> := [];
    for j := 0 to |ends|
      invariant links == Links(begins, ends, algorithm, j)
      invariant WellFormed(begins, ends, j, links)
      invariant pairs == PairsOf(begins, ends, links)
      invariant usedBegins == ClaimedBegins(links)
      invariant usedEnds == ClaimedEnds(links)
    {
      var end := ends[j];
      var claim;
      if algorithm == FIFO {
        claim := ScanForward(begins, usedBegins, end.line);
      } else {
        claim := ScanBackward(begins, usedBegins, end.line);
      }
      if claim.Some? {
        var i := claim.value;
        var begin := begins[i];
        ClaimStep(begins, ends, links, Link(i, j));
        pairs := pairs + [Pair(begin.line, begin.text, end.line, end.text)];
        usedBegins := usedBegins + {i};
        usedEnds := usedEnds + {j};
        links := links + [Link(i, j)];
      }
      LinksWellFormed(begins, ends, algorithm, j + 1);
    }
  }

  // ---------------------------------------------------------------- sorting

  ghost predicate SortedByBegin(pairs: seq<Pair>)
  {
    forall a, b :: 0 <= a < b < |pairs| ==> pairs[a].beginLine <= pairs[b].beginLine
  }

  /** The first `n` elements of `a` are in begin-line order. */
  ghost predicate SortedPrefix(a: array<Pair>, n: nat)
    reads a
  {
    forall x, y :: 0 <= x < y < n <= a.Length ==> a[x].beginLine <= a[y].beginLine
  }

  /** The sort of the pairs by begin line, in place: the result is in begin-line order
      and holds the same pairs. */
  method SortPairs(a: array<Pair>)
    modifies a
    ensures SortedByBegin(a[..])
    ensures multiset(a[..]) == multiset(old(a[..]))
  {
    for i := 0 to a.Length
      invariant SortedPrefix(a, i)
      invariant multiset(a[..]) == multiset(old(a[..]))
    {
      InsertLast(a, i);
    }
    assert SortedPrefix(a, a.Length);
  }

  /** One insertion step: moves `a[i]` down into the sorted prefix `a[..i]`. */
  method InsertLast(a: array<Pair>, i: nat)
    requires i < a.Length && SortedPrefix(a, i)
    modifies a
    ensures SortedPrefix(a, i + 1)
    ensures multiset(a[..]) == multiset(old(a[..]))
  {
    var k := i;
    while 0 < k && a[k].beginLine < a[k - 1].beginLine
      invariant 0 <= k <= i
      invariant multiset(a[..]) == multiset(old(a[..]))
      invariant forall x, y :: 0 <= x < y <= i && y != k ==> a[x].beginLine <= a[y].beginLine
      invariant 0 < k < i ==> a[k - 1].beginLine <= a[k + 1].beginLine
    {
      Swap(a, k - 1, k);
      k := k - 1;
    }
  }

  /** Exchanges two elements of `a`, leaving the rest alone. */
  method Swap(a: array<Pair>, x: nat, y: nat)
    requires x < y < a.Length
    modifies a
    ensures a[x] == old(a[y]) && a[y] == old(a[x])
    ensures forall m :: 0 <= m < a.Length && m != x && m != y ==> a[m] == old(a[m])
    ensures multiset(a[..]) == multiset(old(a[..]))
  {
    a[x], a[y] := a[y], a[x];
  }

  // ---------------------------------------------------------------- collecting

  /** The occurrences whose position is not in `used`, in their original order. */
  function Unclaimed(occs: seq<Occurrence>, used: set<nat>): (unclaimed: seq<Occurrence>)
    ensures |unclaimed| <= |occs|
    ensures forall x :: x in unclaimed ==> x in occs
  {
    if occs == [] then []
    else
      Unclaimed(occs[..|occs| - 1], used)
        + (if |occs| - 1 in used then [] else [occs[|occs| - 1]])
  }

  /** The members of `used` that are positions of a list of length `n`. */
  function UsedBelow(used: set<nat>, n: nat): set<nat>
  {
    set i | i in used && i < n
  }

  /** The unpaired lists partition the scan lists with the claims: their lengths add up. */
  lemma {:induction false} UnclaimedCount(occs: seq<Occurrence>, used: set<nat>)
    ensures |Unclaimed(occs, used)| + |UsedBelow(used, |occs|)| == |occs|
  {
    if occs != [] {
      var n := |occs| - 1;
      UnclaimedCount(occs[..n], used);
      if n in used {
        assert UsedBelow(used, |occs|) == UsedBelow(used, n) + {n};
      } else {
        assert UsedBelow(used, |occs|) == UsedBelow(used, n);
      }
    }
  }

  /** An occurrence is unpaired iff its position was never claimed. */
  lemma {:induction false} UnclaimedMembers(occs: seq<Occurrence>, used: set<nat>)
    requires StrictlyAscending(occs)
    ensures forall i :: 0 <= i < |occs| ==> (occs[i] in Unclaimed(occs, used) <==> i !in used)
  {
    if occs != [] {
      var n := |occs| - 1;
      var init := occs[..n];
      UnclaimedMembers(init, used);
      var prev := Unclaimed(init, used);
      UnclaimedBefore(occs, used);
      var tail := if n in used then [] else [occs[n]];
      assert Unclaimed(occs, used) == prev + tail;
      forall i | 0 <= i < |occs| ensures occs[i] in prev + tail <==> i !in used {
        if i < n {
          assert occs[i] == init[i] && occs[i].line < occs[n].line;
          assert occs[i] !in tail;
        } else {
          assert occs[n] !in prev;
        }
      }
    }
  }

  /** The unpaired list keeps the scan's line order. */
  lemma {:induction false} UnclaimedInScanOrder(occs: seq<Occurrence>, used: set<nat>)
    requires StrictlyAscending(occs)
    ensures StrictlyAscending(Unclaimed(occs, used))
  {
    if occs != [] {
      var n := |occs| - 1;
      var init := occs[..n];
      UnclaimedInScanOrder(init, used);
      UnclaimedBefore(occs, used);
      var prev := Unclaimed(init, used);
      if n !in used {
        assert Unclaimed(occs, used) == prev + [occs[n]];
      } else {
        assert Unclaimed(occs, used) == prev;
      }
    }
  }

  /** What is unpaired among all but the last occurrence lies on lines before the last one. */
  lemma UnclaimedBefore(occs: seq<Occurrence>, used: set<nat>)
    requires StrictlyAscending(occs) && occs != []
    ensures forall x :: x in Unclaimed(occs[..|occs| - 1], used) ==> x.line < occs[|occs| - 1].line
  {
    var n := |occs| - 1;
    forall x | x in Unclaimed(occs[..n], used) ensures x.line < occs[n].line {
      var k :| 0 <= k < n && occs[..n][k] == x;
      assert occs[k] == x;
    }
  }

  // ---------------------------------------------------------------- whole runs

  /** Every claim of a run is the choice `Select` makes for its end, given exactly the
      begins claimed by the ends before it. */
  lemma {:induction false} ClaimRule(begins: seq<Occurrence>, ends: seq<Occurrence>, algorithm: PairingAlgorithm, n: nat, a: nat)
    requires n <= |ends| && a < |Links(begins, ends, algorithm, n)|
    ensures ClaimedAt(begins, ends, algorithm, Links(begins, ends, algorithm, n), a)
  {
    var links := Links(begins, ends, algorithm, n);
    var prev := Links(begins, ends, algorithm, n - 1);
    var sel := Select(begins, ClaimedBegins(prev), ends[n - 1].line, algorithm);
    if sel.None? {
      assert links == prev;
      ClaimRule(begins, ends, algorithm, n - 1, a);
    } else {
      assert links == prev + [Link(sel.value, n - 1)];
      if a < |prev| {
        ClaimRule(begins, ends, algorithm, n - 1, a);
        assert links[a] == prev[a] && links[..a] == prev[..a];
      } else {
        assert links[a] == Link(sel.value, n - 1) && links[..a] == prev;
      }
    }
  }

  /** Claim `a` of `links` is what its end selects given the begins claimed before it. */
  ghost predicate ClaimedAt(begins: seq<Occurrence>, ends: seq<Occurrence>, algorithm: PairingAlgorithm, links: seq<Link>, a: nat)
    requires a < |links|
  {
    && links[a].end < |ends|
    && Select(begins, ClaimedBegins(links[..a]), ends[links[a].end].line, algorithm) == Some(links[a].begin)
  }

  /** An end left unpaired found no eligible begin when its turn came. */
  lemma {:induction false} UnpairedEndRule(begins: seq<Occurrence>, ends: seq<Occurrence>, algorithm: PairingAlgorithm, n: nat, j: nat)
    requires j < n <= |ends| && j !in ClaimedEnds(Links(begins, ends, algorithm, n))
    ensures Select(begins, ClaimedBegins(Links(begins, ends, algorithm, j)), ends[j].line, algorithm) == None
  {
    var links := Links(begins, ends, algorithm, n);
    var prev := Links(begins, ends, algorithm, n - 1);
    var sel := Select(begins, ClaimedBegins(prev), ends[n - 1].line, algorithm);
    assert sel.Some? ==> links == prev + [Link(sel.value, n - 1)] && Link(sel.value, n - 1) in links;
    if j < n - 1 {
      assert ClaimedEnds(prev) <= ClaimedEnds(links);
      UnpairedEndRule(begins, ends, algorithm, n - 1, j);
    }
  }

  /** An end that finds no eligible begin when its turn comes is never paired: later
      ends only add claims of their own. */
  lemma {:induction false} NoneStaysUnpaired(begins: seq<Occurrence>, ends: seq<Occurrence>, algorithm: PairingAlgorithm, n: nat, j: nat)
    requires j < n <= |ends|
    requires Select(begins, ClaimedBegins(Links(begins, ends, algorithm, j)), ends[j].line, algorithm).None?
    ensures j !in ClaimedEnds(Links(begins, ends, algorithm, n))
  {
    var prev := Links(begins, ends, algorithm, n - 1);
    var sel := Select(begins, ClaimedBegins(prev), ends[n - 1].line, algorithm);
    if n - 1 == j {
      LinksWellFormed(begins, ends, algorithm, j);
      assert Links(begins, ends, algorithm, n) == prev;
      forall l | l in prev ensures l.end != j {
        var k :| 0 <= k < |prev| && prev[k] == l;
      }
    } else {
      NoneStaysUnpaired(begins, ends, algorithm, n - 1, j);
      if sel.Some? {
        assert Links(begins, ends, algorithm, n) == prev + [Link(sel.value, n - 1)];
        assert ClaimedEnds(prev + [Link(sel.value, n - 1)]) == ClaimedEnds(prev) + {n - 1};
      } else {
        assert Links(begins, ends, algorithm, n) == prev;
      }
    }
  }

  /** An end is paired iff, when its turn comes, some unclaimed begin lies on an earlier line. */
  lemma EndPairedIff(begins: seq<Occurrence>, ends: seq<Occurrence>, algorithm: PairingAlgorithm, n: nat, j: nat)
    requires j < n <= |ends|
    ensures j in ClaimedEnds(Links(begins, ends, algorithm, n))
        <==> Select(begins, ClaimedBegins(Links(begins, ends, algorithm, j)), ends[j].line, algorithm).Some?
  {
    if j !in ClaimedEnds(Links(begins, ends, algorithm, n)) {
      UnpairedEndRule(begins, ends, algorithm, n, j);
    }
    if Select(begins, ClaimedBegins(Links(begins, ends, algorithm, j)), ends[j].line, algorithm).None? {
      NoneStaysUnpaired(begins, ends, algorithm, n, j);
    }
  }

  /** The claims made before claim `a` are exactly the claims of the ends before its end:
      the begins `ClaimRule` counts as used are those the run had claimed at that end's turn. */
  lemma {:induction false} TurnPrefix(begins: seq<Occurrence>, ends: seq<Occurrence>, algorithm: PairingAlgorithm, n: nat, a: nat)
    requires n <= |ends| && a < |Links(begins, ends, algorithm, n)|
    ensures Links(begins, ends, algorithm, n)[a].end < n
    ensures Links(begins, ends, algorithm, n)[..a] == Links(begins, ends, algorithm, Links(begins, ends, algorithm, n)[a].end)
  {
    var links := Links(begins, ends, algorithm, n);
    var prev := Links(begins, ends, algorithm, n - 1);
    var sel := Select(begins, ClaimedBegins(prev), ends[n - 1].line, algorithm);
    if sel.None? {
      assert links == prev;
      TurnPrefix(begins, ends, algorithm, n - 1, a);
    } else {
      assert links == prev + [Link(sel.value, n - 1)];
      if a < |prev| {
        TurnPrefix(begins, ends, algorithm, n - 1, a);
        assert links[a] == prev[a] && links[..a] == prev[..a];
      } else {
        assert links[a] == Link(sel.value, n - 1) && links[..a] == prev;
      }
    }
  }

  /** Every begin is claimed by one pair or left unpaired, and so is every end. */
  lemma MatchingConserves(begins: seq<Occurrence>, ends: seq<Occurrence>, algorithm: PairingAlgorithm)
    ensures var links := Matching(begins, ends, algorithm);
      && |PairsOf(begins, ends, links)| + |Unclaimed(begins, ClaimedBegins(links))| == |begins|
      && |PairsOf(begins, ends, links)| + |Unclaimed(ends, ClaimedEnds(links))| == |ends|
  {
    var links := Matching(begins, ends, algorithm);
    ClaimedCount(links);
    UnclaimedCount(begins, ClaimedBegins(links));
    UnclaimedCount(ends, ClaimedEnds(links));
    assert UsedBelow(ClaimedBegins(links), |begins|) == ClaimedBegins(links);
    assert UsedBelow(ClaimedEnds(links), |ends|) == ClaimedEnds(links);
  }

  /** Under FIFO the k-th claim takes the k-th begin: the claimed begins are always a
      prefix of the begin list. */
  lemma {:induction false} FifoClaimsInOrder(begins: seq<Occurrence>, ends: seq<Occurrence>, n: nat)
    requires StrictlyAscending(begins) && n <= |ends|
    ensures forall k :: 0 <= k < |Links(begins, ends, FIFO, n)| ==> Links(begins, ends, FIFO, n)[k].begin == k
  {
    if n > 0 {
      var prev := Links(begins, ends, FIFO, n - 1);
      FifoClaimsInOrder(begins, ends, n - 1);
      var used := ClaimedBegins(prev);
      var c := |prev|;
      ClaimedPrefix(prev);
      var e := ends[n - 1].line;
      SelectRule(begins, used, e, FIFO);
      match Select(begins, used, e, FIFO)
      case None =>
        assert Links(begins, ends, FIFO, n) == prev;
      case Some(r) =>
        assert c <= r;
        assert c < r ==> Eligible(begins, used, e, c);
        assert Links(begins, ends, FIFO, n) == prev + [Link(c, n - 1)];
    }
  }

  /** When the k-th claim took the k-th begin, the claimed begins are the first |links| positions. */
  lemma ClaimedPrefix(links: seq<Link>)
    requires forall k :: 0 <= k < |links| ==> links[k].begin == k
    ensures forall i: nat :: i in ClaimedBegins(links) <==> i < |links|
  {
    forall i: nat | i in ClaimedBegins(links) ensures i < |links| {
      var l :| l in links && l.begin == i;
    }
    forall i: nat | i < |links| ensures i in ClaimedBegins(links) {
      assert links[i] in links;
    }
  }

  /** Under FIFO the pairs come out of the matching phase already in begin-line order. */
  lemma FifoPairsAlreadySorted(begins: seq<Occurrence>, ends: seq<Occurrence>)
    requires StrictlyAscending(begins)
    ensures SortedByBegin(PairsOf(begins, ends, Matching(begins, ends, FIFO)))
  {
    var links := Matching(begins, ends, FIFO);
    var pairs := PairsOf(begins, ends, links);
    FifoClaimsInOrder(begins, ends, |ends|);
    forall a, b | 0 <= a < b < |pairs| ensures pairs[a].beginLine <= pairs[b].beginLine {
      assert links[a].begin == a && links[b].begin == b;
    }
  }

  /** Under LIFO the claims never cross: a begin opened inside another pair's window
      is closed no later than that pair's end. */
  lemma LifoClaimsNest(begins: seq<Occurrence>, ends: seq<Occurrence>, links: seq<Link>, a: nat, b: nat)
    requires links == Matching(begins, ends, LIFO) && a < b < |links|
    requires links[a].begin < links[b].begin
    ensures ends[links[a].end].line <= begins[links[b].begin].line
  {
    ClaimRule(begins, ends, LIFO, |ends|, a);
    assert ClaimedAt(begins, ends, LIFO, links, a);
    ClaimedLater(links, a, b);
    SelectRule(begins, ClaimedBegins(links[..a]), ends[links[a].end].line, LIFO);
    assert !Eligible(begins, ClaimedBegins(links[..a]), ends[links[a].end].line, links[b].begin);
  }

  /** A begin claimed by a later claim was still unclaimed before an earlier one. */
  lemma ClaimedLater(links: seq<Link>, a: nat, b: nat)
    requires DistinctClaims(links) && a < b < |links|
    ensures links[b].begin !in ClaimedBegins(links[..a])
  {
    forall l | l in links[..a] ensures l.begin != links[b].begin {
      var x :| 0 <= x < a && links[..a][x] == l;
      assert links[x] == l;
    }
  }

  /** The pairs of a run: each begins strictly before it ends, and each side is the
      text of a line holding its marker. */
  ghost predicate ValidPair(lines: seq<string>, beginMarker: string, endMarker: string, p: Pair)
  {
    && p.beginLine < p.endLine < |lines|
    && p.beginText == lines[p.beginLine] && Contains(p.beginText, beginMarker)
    && p.endText == lines[p.endLine] && Contains(p.endText, endMarker)
  }

  /** No two pairs share a begin line. */
  ghost predicate DistinctBeginLines(pairs: seq<Pair>)
  {
    forall p, q :: p in pairs && q in pairs && p.beginLine == q.beginLine ==> p == q
  }

  /** Every pair of a search is valid, and the pairs have distinct begin lines. */
  lemma MatchedPairsValid(lines: seq<string>, beginMarker: string, endMarker: string, algorithm: PairingAlgorithm)
    ensures var begins := AllOccurrences(lines, beginMarker);
      var ends := AllOccurrences(lines, endMarker);
      var pairs := PairsOf(begins, ends, Matching(begins, ends, algorithm));
      && (forall p :: p in pairs ==> ValidPair(lines, beginMarker, endMarker, p))
      && DistinctBeginLines(pairs)
  {
    var begins := AllOccurrences(lines, beginMarker);
    var ends := AllOccurrences(lines, endMarker);
    var links := Matching(begins, ends, algorithm);
    var pairs := PairsOf(begins, ends, links);
    forall p | p in pairs ensures ValidPair(lines, beginMarker, endMarker, p) {
      var k :| 0 <= k < |pairs| && pairs[k] == p;
    }
    forall k, m | 0 <= k < |pairs| && 0 <= m < |pairs| && k != m
      ensures pairs[k].beginLine != pairs[m].beginLine
    {
      if links[k].begin < links[m].begin {
        assert begins[links[k].begin].line < begins[links[m].begin].line;
      } else {
        assert begins[links[m].begin].line < begins[links[k].begin].line;
      }
    }
    forall p, q | p in pairs && q in pairs && p.beginLine == q.beginLine ensures p == q {
      var k :| 0 <= k < |pairs| && pairs[k] == p;
      var m :| 0 <= m < |pairs| && pairs[m] == q;
    }
  }

  /** The sort's outcome does not depend on how the sort works: two begin-line orderings
      of the same pairs are equal when no two pairs share a begin line. */
  lemma {:induction false} SortedPairsUnique(s: seq<Pair>, t: seq<Pair>)
    requires SortedByBegin(s) && SortedByBegin(t) && DistinctBeginLines(s)
    requires multiset(s) == multiset(t)
    ensures s == t
  {
    assert |s| == |multiset(s)| == |multiset(t)| == |t|;
    if s != [] {
      SortedHeadIsLeast(s, t[0]);
      SortedHeadIsLeast(t, s[0]);
      assert s[0] == t[0];
      DropHead(s);
      DropHead(t);
      SortedPairsUnique(s[1..], t[1..]);
    }
  }

  /** The head of a begin-line ordering has the least begin line of its pairs. */
  lemma SortedHeadIsLeast(s: seq<Pair>, p: Pair)
    requires SortedByBegin(s) && p in multiset(s)
    ensures s[0].beginLine <= p.beginLine
  {
    var k :| 0 <= k < |s| && s[k] == p;
  }

  /** Removing the head removes one copy of it from the multiset. */
  lemma DropHead(s: seq<Pair>)
    requires s != []
    ensures multiset(s[1..]) == multiset(s) - multiset{s[0]}
  {
    assert s == [s[0]] + s[1..];
  }

  /** A search: scan both markers, match, sort the pairs by begin line, collect the
      unpaired begins and ends in scan order. */
  method SearchWindows(lines: seq<string>, beginMarker: string, endMarker: string, algorithm: PairingAlgorithm)
    returns (result: SearchResult)
    requires beginMarker != "" && endMarker != ""
    ensures var begins := AllOccurrences(lines, beginMarker);
      var ends := AllOccurrences(lines, endMarker);
      var links := Matching(begins, ends, algorithm);
      && SortedByBegin(result.pairs)
      && multiset(result.pairs) == multiset(PairsOf(begins, ends, links))
      && result.unpairedBegins == Unclaimed(begins, ClaimedBegins(links))
      && result.unpairedEnds == Unclaimed(ends, ClaimedEnds(links))
    ensures |result.pairs| + |result.unpairedBegins| == |AllOccurrences(lines, beginMarker)|
    ensures |result.pairs| + |result.unpairedEnds| == |AllOccurrences(lines, endMarker)|
    ensures forall p :: p in result.pairs ==> ValidPair(lines, beginMarker, endMarker, p)
  {
    var beginIndices, endIndices := Scan(lines, beginMarker, endMarker);
    var pairs, usedBegins, usedEnds := MatchPairs(beginIndices, endIndices, algorithm);
    var a := new Pair[|pairs|](k requires 0 <= k < |pairs| => pairs[k]);
    assert a[..] == pairs;
    SortPairs(a);
    result := SearchResult(a[..], Unclaimed(beginIndices, usedBegins), Unclaimed(endIndices, usedEnds));
    MatchingConserves(beginIndices, endIndices, algorithm);
    MatchedPairsValid(lines, beginMarker, endMarker, algorithm);
    assert |result.pairs| == |multiset(result.pairs)| == |multiset(pairs)| == |pairs|;
    forall p | p in result.pairs ensures ValidPair(lines, beginMarker, endMarker, p) {
      assert p in multiset(result.pairs);
    }
  }

  // ---------------------------------------------------------------- boundaries and examples

  /** An end on the first line can never be paired: no begin lies strictly before it. */
  lemma FirstLineEndNeverPaired(begins: seq<Occurrence>, ends: seq<Occurrence>, algorithm: PairingAlgorithm, j: nat)
    requires j < |ends| && ends[j].line == 0
    ensures j !in ClaimedEnds(Matching(begins, ends, algorithm))
  {
    var links := Matching(begins, ends, algorithm);
    forall l | l in links ensures l.end != j {
      var k :| 0 <= k < |links| && links[k] == l;
    }
  }

  /** Begins on lines 1, 3 and 5 and one end on line 7: FIFO pairs the begin on line 1
      and leaves the other two unpaired in scan order. */
  lemma ThreeBeginsOneEndFifo()
    ensures var begins := [Occurrence(1, "b"), Occurrence(3, "b"), Occurrence(5, "b")];
      var ends := [Occurrence(7, "e")];
      && Matching(begins, ends, FIFO) == [Link(0, 0)]
      && PairsOf(begins, ends, [Link(0, 0)]) == [Pair(1, "b", 7, "e")]
      && Unclaimed(begins, ClaimedBegins(Matching(begins, ends, FIFO))) == [Occurrence(3, "b"), Occurrence(5, "b")]
  {
    var begins := [Occurrence(1, "b"), Occurrence(3, "b"), Occurrence(5, "b")];
    var ends := [Occurrence(7, "e")];
    assert ClaimedBegins([]) == {};
    assert Eligible(begins, {}, 7, 0);
    assert Select(begins, {}, 7, FIFO) == Some(0);
    assert Links(begins, ends, FIFO, 1) == [Link(0, 0)];
    assert ClaimedBegins([Link(0, 0)]) == {0};
    var b01 := [Occurrence(1, "b"), Occurrence(3, "b")];
    assert begins[..2] == b01 && b01[..1] == [Occurrence(1, "b")] && [Occurrence(1, "b")][..0] == [];
    assert Unclaimed([Occurrence(1, "b")], {0}) == [];
    assert Unclaimed(b01, {0}) == [Occurrence(3, "b")];
  }

  /** The same document under LIFO: the begin on line 5 is paired, and the begins on
      lines 1 and 3 stay unpaired in scan order. */
  lemma ThreeBeginsOneEndLifo()
    ensures var begins := [Occurrence(1, "b"), Occurrence(3, "b"), Occurrence(5, "b")];
      var ends := [Occurrence(7, "e")];
      && Matching(begins, ends, LIFO) == [Link(2, 0)]
      && PairsOf(begins, ends, [Link(2, 0)]) == [Pair(5, "b", 7, "e")]
      && Unclaimed(begins, ClaimedBegins(Matching(begins, ends, LIFO))) == [Occurrence(1, "b"), Occurrence(3, "b")]
  {
    var begins := [Occurrence(1, "b"), Occurrence(3, "b"), Occurrence(5, "b")];
    var ends := [Occurrence(7, "e")];
    assert ClaimedBegins([]) == {};
    assert Eligible(begins, {}, 7, 2);
    assert Select(begins, {}, 7, LIFO) == Some(2);
    assert Links(begins, ends, LIFO, 1) == [Link(2, 0)];
    assert ClaimedBegins([Link(2, 0)]) == {2};
    var b01 := [Occurrence(1, "b"), Occurrence(3, "b")];
    assert begins[..2] == b01 && b01[..1] == [Occurrence(1, "b")] && [Occurrence(1, "b")][..0] == [];
    assert Unclaimed([Occurrence(1, "b")], {2}) == [Occurrence(1, "b")];
    assert Unclaimed(b01, {2}) == b01;
  }

  /** Under LIFO the claim order need not be begin-line order, which is why the pairs are
      sorted afterwards: begins on lines 0 and 1 and ends on lines 2 and 3 are claimed
      as (1, 2) then (0, 3). */
  lemma LifoClaimOrderUnsorted()
    ensures var begins := [Occurrence(0, "b"), Occurrence(1, "b")];
      var ends := [Occurrence(2, "e"), Occurrence(3, "e")];
      && Matching(begins, ends, LIFO) == [Link(1, 0), Link(0, 1)]
      && !SortedByBegin(PairsOf(begins, ends, [Link(1, 0), Link(0, 1)]))
  {
    var begins := [Occurrence(0, "b"), Occurrence(1, "b")];
    var ends := [Occurrence(2, "e"), Occurrence(3, "e")];
    assert ClaimedBegins([]) == {};
    assert Eligible(begins, {}, 2, 1);
    assert Links(begins, ends, LIFO, 1) == [Link(1, 0)];
    assert ClaimedBegins([Link(1, 0)]) == {1};
    assert Eligible(begins, {1}, 3, 0);
    assert Links(begins, ends, LIFO, 2) == [Link(1, 0), Link(0, 1)];
    var pairs := PairsOf(begins, ends, [Link(1, 0), Link(0, 1)]);
    assert pairs[0].beginLine == 1 && pairs[1].beginLine == 0;
  }
}
