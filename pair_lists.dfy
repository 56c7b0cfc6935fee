/**
 * What loadPairsFromFile puts into the listed-pair set, as functions of the
 * lines of the list file, and the properties of that set.
 *
 * The functions follow the loops of the loader: for the tokens `t` of one line,
 * row `i` holds, for every later position `j`, the pair (t[i], t[j]) AND the
 * pair (t[j], t[i]); the line contributes the rows 0 .. |t| - 1, and the file
 * contributes its lines in order. The properties are then proved against an
 * independent description, `OnSameLine`: the two names stand at two distinct
 * positions of one line.
 */
module PairLists {
  import opened JavaStrings
  import opened NamePairs

  // ---------------------------------------------------------------------------
  // The set built by the loops
  // ---------------------------------------------------------------------------

  /** The pairs the inner loop adds for position `i` while j runs over
      i + 1 .. j0 - 1: both orders of (t[i], t[j]). */
  function RowPrefix(t: seq<string>, i: nat, j0: nat): (s: set<NamePair>)
    requires i < j0 <= |t|
    decreases j0
  {
    if j0 == i + 1 then {}
    else RowPrefix(t, i, j0 - 1) + {NamePair(t[i], t[j0 - 1])} + {NamePair(t[j0 - 1], t[i])}
  }

  /** Everything the inner loop adds for position `i`. */
  function Row(t: seq<string>, i: nat): (s: set<NamePair>)
    requires i < |t|
  {
    RowPrefix(t, i, |t|)
  }

  /** What the outer loop has added after handling positions 0 .. n - 1. */
  function RowsBefore(t: seq<string>, n: nat): (s: set<NamePair>)
    requires n <= |t|
  {
    if n == 0 then {} else RowsBefore(t, n - 1) + Row(t, n - 1)
  }

  /** The pairs one line with tokens `t` contributes. Every pair comes with
      its swapped twin, because the inner loop inserts both orders. */
  function LinePairs(t: seq<string>): (s: set<NamePair>)
    ensures Symmetric(s)
  {
    RowsBeforeSymmetric(t, |t|);
    RowsBefore(t, |t|)
  }

  /** The pairs a whole list file contributes, line by line. The set is
      closed under swapping; this rests only on the loader adding (t[j], t[i])
      next to every (t[i], t[j]), since the pair type itself is ordered
      (NamePairs.EqualsIsOrdered). */
  function Loaded(lines: seq<string>): (s: set<NamePair>)
    ensures Symmetric(s)
  {
    if lines == [] then {}
    else Loaded(lines[..|lines| - 1]) + LinePairs(Split(lines[|lines| - 1]))
  }

  // ---------------------------------------------------------------------------
  // The reference description
  // ---------------------------------------------------------------------------

  /** `a` and `b` stand at two distinct positions of the token sequence `t`. */
  ghost predicate OnSameLine(t: seq<string>, a: string, b: string) {
    exists i, j :: 0 <= i < |t| && 0 <= j < |t| && i != j && t[i] == a && t[j] == b
  }

  /** Some line of the file puts `a` and `b` at two distinct positions. */
  ghost predicate ListedIn(lines: seq<string>, a: string, b: string) {
    exists k :: 0 <= k < |lines| && OnSameLine(Split(lines[k]), a, b)
  }

  /** Every pair of the set comes with its swapped twin. */
  ghost predicate Symmetric(s: set<NamePair>) {
    forall a, b :: NamePair(a, b) in s ==> NamePair(b, a) in s
  }

  /** No token occurs twice. */
  ghost predicate Distinct(t: seq<string>) {
    forall i, j :: 0 <= i < |t| && 0 <= j < |t| && i != j ==> t[i] != t[j]
  }

  // ---------------------------------------------------------------------------
  // Completeness and soundness
  // ---------------------------------------------------------------------------

  lemma {:induction false} RowPrefixMembers(t: seq<string>, i: nat, j0: nat, p: NamePair)
    requires i < j0 <= |t|
    ensures p in RowPrefix(t, i, j0) <==>
            exists j :: i < j < j0 && (p == NamePair(t[i], t[j]) || p == NamePair(t[j], t[i]))
    decreases j0
  {
    if j0 > i + 1 {
      RowPrefixMembers(t, i, j0 - 1, p);
      if p == NamePair(t[i], t[j0 - 1]) || p == NamePair(t[j0 - 1], t[i]) {
        var j := j0 - 1;
        assert i < j < j0 && (p == NamePair(t[i], t[j]) || p == NamePair(t[j], t[i]));
      }
    }
  }

  lemma {:induction false} RowsBeforeMembers(t: seq<string>, n: nat, p: NamePair)
    requires n <= |t|
    ensures p in RowsBefore(t, n) <==>
            exists i, j :: 0 <= i < n && i < j < |t| && (p == NamePair(t[i], t[j]) || p == NamePair(t[j], t[i]))
  {
    if n > 0 {
      RowsBeforeMembers(t, n - 1, p);
      RowPrefixMembers(t, n - 1, |t|, p);
      if p in Row(t, n - 1) {
        var j :| n - 1 < j < |t| && (p == NamePair(t[n - 1], t[j]) || p == NamePair(t[j], t[n - 1]));
        var i := n - 1;
        assert 0 <= i < n && i < j < |t| && (p == NamePair(t[i], t[j]) || p == NamePair(t[j], t[i]));
      }
    }
  }

  /** A line lists (a, b) exactly when a and b stand at two distinct
      positions of it, whichever comes first. */
  lemma LinePairsMembers(t: seq<string>, a: string, b: string)
    ensures NamePair(a, b) in LinePairs(t) <==> OnSameLine(t, a, b)
  {
    var p := NamePair(a, b);
    RowsBeforeMembers(t, |t|, p);
    if p in LinePairs(t) {
      var i, j :| 0 <= i < |t| && i < j < |t| && (p == NamePair(t[i], t[j]) || p == NamePair(t[j], t[i]));
      if p == NamePair(t[i], t[j]) {
        assert t[i] == a && t[j] == b;
      } else {
        assert t[j] == a && t[i] == b;
      }
    }
    if OnSameLine(t, a, b) {
      var i, j :| 0 <= i < |t| && 0 <= j < |t| && i != j && t[i] == a && t[j] == b;
      if i < j {
        assert p == NamePair(t[i], t[j]);
      } else {
        assert p == NamePair(t[i], t[j]);
        assert 0 <= j < |t| && j < i < |t| && p == NamePair(t[i], t[j]);
      }
    }
  }

  /** A file lists a pair on some line exactly when its earlier lines do or
      its last line does. */
  lemma ListedInLastLine(lines: seq<string>, a: string, b: string)
    requires lines != []
    ensures ListedIn(lines, a, b) <==>
            ListedIn(lines[..|lines| - 1], a, b) || OnSameLine(Split(lines[|lines| - 1]), a, b)
  {
    var init := lines[..|lines| - 1];
    var last := |lines| - 1;
    if ListedIn(init, a, b) {
      var k :| 0 <= k < |init| && OnSameLine(Split(init[k]), a, b);
      assert init[k] == lines[k];
      assert 0 <= k < |lines| && OnSameLine(Split(lines[k]), a, b);
    }
    if OnSameLine(Split(lines[last]), a, b) {
      assert 0 <= last < |lines| && OnSameLine(Split(lines[last]), a, b);
    }
    if ListedIn(lines, a, b) && !OnSameLine(Split(lines[last]), a, b) {
      var k :| 0 <= k < |lines| && OnSameLine(Split(lines[k]), a, b);
      assert k != last;
      assert init[k] == lines[k];
      assert 0 <= k < |init| && OnSameLine(Split(init[k]), a, b);
    }
  }

  /** Completeness and soundness of loading: the file lists (a, b) exactly
      when some single line puts a and b at two distinct positions. Names
      from different lines are never paired. */
  lemma {:induction false} LoadedMembers(lines: seq<string>, a: string, b: string)
    ensures NamePair(a, b) in Loaded(lines) <==> ListedIn(lines, a, b)
  {
    if lines != [] {
      LoadedMembers(lines[..|lines| - 1], a, b);
      LinePairsMembers(Split(lines[|lines| - 1]), a, b);
      ListedInLastLine(lines, a, b);
    }
  }

  /** Completeness in the form of the loader's loops: for every line and
      every two positions i < j on it, both orders are listed. */
  lemma LoadedComplete(lines: seq<string>, k: nat, i: nat, j: nat)
    requires k < |lines| && i < j < |Split(lines[k])|
    ensures NamePair(Split(lines[k])[i], Split(lines[k])[j]) in Loaded(lines)
    ensures NamePair(Split(lines[k])[j], Split(lines[k])[i]) in Loaded(lines)
  {
    var t := Split(lines[k]);
    LoadedMembers(lines, t[i], t[j]);
    LoadedMembers(lines, t[j], t[i]);
    assert OnSameLine(t, t[i], t[j]);
    assert OnSameLine(t, t[j], t[i]);
  }

  // ---------------------------------------------------------------------------
  // Symmetry, from inserting both orders
  // ---------------------------------------------------------------------------

  lemma {:induction false} RowPrefixSymmetric(t: seq<string>, i: nat, j0: nat)
    requires i < j0 <= |t|
    ensures Symmetric(RowPrefix(t, i, j0))
    decreases j0
  {
    if j0 > i + 1 {
      RowPrefixSymmetric(t, i, j0 - 1);
    }
  }

  lemma {:induction false} RowsBeforeSymmetric(t: seq<string>, n: nat)
    requires n <= |t|
    ensures Symmetric(RowsBefore(t, n))
  {
    if n > 0 {
      RowsBeforeSymmetric(t, n - 1);
      RowPrefixSymmetric(t, n - 1, |t|);
    }
  }

  /** Symmetric lookup: (a, b) is listed exactly when (b, a) is. */
  lemma LoadedLookupSymmetric(lines: seq<string>, a: string, b: string)
    ensures NamePair(a, b) in Loaded(lines) <==> NamePair(b, a) in Loaded(lines)
  {
  }

  // ---------------------------------------------------------------------------
  // Loading is a union over the lines
  // ---------------------------------------------------------------------------

  /** Loading two batches of lines one after the other gives the union of
      their pairs; in particular a later line never removes a pair. */
  lemma {:induction false} LoadedAppend(a: seq<string>, b: seq<string>)
    ensures Loaded(a + b) == Loaded(a) + Loaded(b)
    decreases |b|
  {
    if b == [] {
      assert a + b == a;
    } else {
      var b' := b[..|b| - 1];
      assert (a + b)[..|a + b| - 1] == a + b';
      assert (a + b)[|a + b| - 1] == b[|b| - 1];
      LoadedAppend(a, b');
    }
  }

  /** Loading is monotone: more lines, more (or the same) pairs. */
  lemma LoadedMonotone(a: seq<string>, b: seq<string>)
    ensures Loaded(a) <= Loaded(a + b)
  {
    LoadedAppend(a, b);
  }

  /** A pair listed by some line of `a` is listed by every file holding
      that line. */
  lemma ListedInSubset(a: seq<string>, b: seq<string>, x: string, y: string)
    requires forall l :: l in a ==> l in b
    requires ListedIn(a, x, y)
    ensures ListedIn(b, x, y)
  {
    var k :| 0 <= k < |a| && OnSameLine(Split(a[k]), x, y);
    assert a[k] in b;
    var k' :| 0 <= k' < |b| && b[k'] == a[k];
    assert OnSameLine(Split(b[k']), x, y);
  }

  /** The set depends only on which lines the file holds: not on their order
      and not on repetitions. */
  lemma LoadedDependsOnlyOnLines(a: seq<string>, b: seq<string>)
    requires forall l :: l in a <==> l in b
    ensures Loaded(a) == Loaded(b)
  {
    forall p
      ensures p in Loaded(a) <==> p in Loaded(b)
    {
      LoadedMembers(a, p.first, p.second);
      LoadedMembers(b, p.first, p.second);
      if ListedIn(a, p.first, p.second) {
        ListedInSubset(a, b, p.first, p.second);
      }
      if ListedIn(b, p.first, p.second) {
        ListedInSubset(b, a, p.first, p.second);
      }
    }
  }

  /** Reordering the lines of the file does not change the set. */
  lemma LoadedPermutation(a: seq<string>, b: seq<string>)
    requires multiset(a) == multiset(b)
    ensures Loaded(a) == Loaded(b)
  {
    forall l
      ensures l in a <==> l in b
    {
      assert l in a <==> l in multiset(a);
      assert l in b <==> l in multiset(b);
    }
    LoadedDependsOnlyOnLines(a, b);
  }

  // ---------------------------------------------------------------------------
  // Degenerate lines
  // ---------------------------------------------------------------------------

  /** A line with fewer than two tokens contributes no pair. */
  lemma ShortLineContributesNothing(t: seq<string>)
    requires |t| < 2
    ensures LinePairs(t) == {}
  {
    if |t| == 1 {
      assert RowsBefore(t, 1) == Row(t, 0);
    }
  }

  /** Appending a line that splits into fewer than two tokens (an empty
      line, a single name, a line of separators only) leaves the set as
      it was. */
  lemma {:induction false} DegenerateLineAddsNothing(lines: seq<string>, line: string)
    requires |Split(line)| < 2
    ensures Loaded(lines + [line]) == Loaded(lines)
  {
    assert (lines + [line])[..|lines|] == lines;
    ShortLineContributesNothing(Split(line));
  }

  /** The usual degenerate lines: an empty line is one empty token, a single
      name is one token, and a line of separators has no tokens at all. */
  lemma DegenerateLines()
    ensures Split("") == [""]
    ensures Split("alice") == ["alice"]
    ensures Split(";;") == []
  {
    assert SplitAll(";;") == ["", "", ""] by {
      assert ";;"[1..] == ";";
      assert ";"[1..] == "";
    }
  }

  // ---------------------------------------------------------------------------
  // Pair count
  // ---------------------------------------------------------------------------

  /** Neither order of (t[i], t[j0]) is in the earlier part of row i. */
  lemma RowPrefixFresh(t: seq<string>, i: nat, j0: nat)
    requires Distinct(t) && i < j0 < |t|
    ensures NamePair(t[i], t[j0]) !in RowPrefix(t, i, j0)
    ensures NamePair(t[j0], t[i]) !in RowPrefix(t, i, j0)
  {
    RowPrefixMembers(t, i, j0, NamePair(t[i], t[j0]));
    RowPrefixMembers(t, i, j0, NamePair(t[j0], t[i]));
    forall j | i < j < j0
      ensures NamePair(t[i], t[j0]) != NamePair(t[i], t[j]) && NamePair(t[i], t[j0]) != NamePair(t[j], t[i])
      ensures NamePair(t[j0], t[i]) != NamePair(t[i], t[j]) && NamePair(t[j0], t[i]) != NamePair(t[j], t[i])
    {
      assert t[j] != t[j0] && t[j] != t[i];
    }
  }

  lemma {:induction false} RowPrefixCount(t: seq<string>, i: nat, j0: nat)
    requires Distinct(t) && i < j0 <= |t|
    ensures |RowPrefix(t, i, j0)| == 2 * (j0 - i - 1)
    decreases j0
  {
    if j0 > i + 1 {
      var s := RowPrefix(t, i, j0 - 1);
      var x := NamePair(t[i], t[j0 - 1]);
      var y := NamePair(t[j0 - 1], t[i]);
      RowPrefixCount(t, i, j0 - 1);
      RowPrefixFresh(t, i, j0 - 1);
      assert t[i] != t[j0 - 1];
      assert |s + {x}| == |s| + 1;
      assert y !in s + {x};
      assert |s + {x} + {y}| == |s| + 2;
    }
  }

  /** Row i shares no pair with the rows before it. */
  lemma RowDisjointFromEarlierRows(t: seq<string>, n: nat)
    requires Distinct(t) && 0 < n <= |t|
    ensures RowsBefore(t, n - 1) * Row(t, n - 1) == {}
  {
    var row := Row(t, n - 1);
    forall p | p in row
      ensures p !in RowsBefore(t, n - 1)
    {
      RowPrefixMembers(t, n - 1, |t|, p);
      RowsBeforeMembers(t, n - 1, p);
      var j :| n - 1 < j < |t| && (p == NamePair(t[n - 1], t[j]) || p == NamePair(t[j], t[n - 1]));
      forall i, k | 0 <= i < n - 1 && i < k < |t|
        ensures p != NamePair(t[i], t[k]) && p != NamePair(t[k], t[i])
      {
        assert t[i] != t[n - 1] && t[i] != t[j];
      }
    }
  }

  /** The number of pairs rows 0 .. n - 1 of a line of k distinct tokens add:
      row i adds 2 * (k - 1 - i). */
  function RowsSize(n: nat, k: nat): (size: nat)
    requires n <= k
  {
    if n == 0 then 0 else RowsSize(n - 1, k) + 2 * (k - n)
  }

  lemma {:induction false} RowsSizeClosedForm(n: nat, k: nat)
    requires n <= k
    ensures RowsSize(n, k) == n * (2 * k - 1 - n)
  {
    if n > 0 {
      RowsSizeClosedForm(n - 1, k);
      assert (n - 1) * (2 * k - n) + 2 * (k - n) == n * (2 * k - 1 - n);
    }
  }

  lemma {:induction false} RowsBeforeCount(t: seq<string>, n: nat)
    requires Distinct(t) && n <= |t|
    ensures |RowsBefore(t, n)| == RowsSize(n, |t|)
  {
    if n > 0 {
      var before := RowsBefore(t, n - 1);
      var row := Row(t, n - 1);
      assert |before| == RowsSize(n - 1, |t|) by {
        RowsBeforeCount(t, n - 1);
      }
      assert |row| == 2 * (|t| - n) by {
        RowPrefixCount(t, n - 1, |t|);
      }
      assert before * row == {} by {
        RowDisjointFromEarlierRows(t, n);
      }
      assert |before + row| == |before| + |row|;
    }
  }

  /** A line of k pairwise distinct names lists exactly k * (k - 1) ordered
      pairs: each of its C(k, 2) unordered pairs in both orders. */
  lemma LinePairsCount(t: seq<string>)
    requires Distinct(t)
    ensures |LinePairs(t)| == |t| * (|t| - 1)
  {
    RowsBeforeCount(t, |t|);
    RowsSizeClosedForm(|t|, |t|);
  }
}
