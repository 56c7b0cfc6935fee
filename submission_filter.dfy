/**
 * The submission filter: a ListFilter owns a mutable set of listed name pairs,
 * fills it from a list file with the nested loops of loadPairsFromFile, and
 * answers shouldCheck with a membership test. The two Java subclasses,
 * WhitelistFilter and BlacklistFilter, differ only in the polarity of that
 * answer and are modelled as a tag on the filter.
 */
module SubmissionFilter {
  import opened JavaStrings
  import opened NamePairs
  import opened PairLists

  /** A submission, as far as the filter is concerned: its name. */
  datatype Submission = Submission(name: string)

  /** Which of the two Java subclasses a filter is. */
  datatype FilterKind = Whitelist | Blacklist

  /** The outcome of reading a list file: the lines readLine returned, in
      order, and whether reading ended with an IOException (opening failed,
      in which case `lines` is empty, or a later read failed) rather than at
      the end of the file. */
  datatype ListFile = ListFile(lines: seq<string>, readFails: bool)

  /** A constructor either returns a filter or throws an IOException. */
  datatype Construction = Constructed(filter: ListFilter) | IOException

  class ListFilter {
    /** WhitelistFilter or BlacklistFilter. */
    const kind: FilterKind
    /** The HashSet `listedPairs`. */
    var listedPairs: set<NamePair>
    /** Every line loaded into this filter so far, in order. */
    ghost var loadedLines: seq<string>

    /** The set holds exactly the pairs of the lines loaded so far. */
    ghost predicate Valid()
      reads this
    {
      listedPairs == Loaded(loadedLines)
    }

    /** A filter of the given kind whose set is still empty. */
    constructor (kind: FilterKind)
      ensures Valid()
      ensures this.kind == kind && loadedLines == [] && listedPairs == {}
    {
      this.kind := kind;
      listedPairs := {};
      loadedLines := [];
    }

    /** loadPairsFromFile: for every line read, split it on ';' and add both
        orders of every two positions i < j. The lines read before an
        IOException have been added when it is thrown. */
    method LoadPairsFromFile(file: ListFile) returns (ok: bool)
      requires Valid()
      modifies this
      ensures Valid()
      ensures ok == !file.readFails
      ensures loadedLines == old(loadedLines) + file.lines
      ensures listedPairs == old(listedPairs) + Loaded(file.lines)
    {
      ghost var initial := listedPairs;
      var n := 0;
      while n < |file.lines|
        modifies this`listedPairs
        invariant 0 <= n <= |file.lines|
        invariant listedPairs == initial + Loaded(file.lines[..n])
      {
        var line := file.lines[n];
        var pairs := Split(line);
        AddLinePairs(pairs);
        assert Loaded(file.lines[..n + 1]) == Loaded(file.lines[..n]) + LinePairs(pairs) by {
          assert file.lines[..n + 1][..n] == file.lines[..n];
        }
        n := n + 1;
      }
      assert file.lines[..n] == file.lines;
      assert Loaded(loadedLines + file.lines) == listedPairs by {
        LoadedAppend(loadedLines, file.lines);
      }
      loadedLines := loadedLines + file.lines;
      ok := !file.readFails;
    }

    /** The body of the loader's line loop: the nested i/j loops that add
        both orders of every two positions i < j of the split line `pairs`. */
    method AddLinePairs(pairs: seq<string>)
      modifies this`listedPairs
      ensures listedPairs == old(listedPairs) + LinePairs(pairs)
    {
      ghost var before := listedPairs;
      var i := 0;
      while i < |pairs|
        invariant 0 <= i <= |pairs|
        invariant listedPairs == before + RowsBefore(pairs, i)
      {
        ghost var rowsSoFar := listedPairs;
        var j := i + 1;
        while j < |pairs|
          invariant i + 1 <= j <= |pairs|
          invariant listedPairs == rowsSoFar + RowPrefix(pairs, i, j)
        {
          listedPairs := listedPairs + {NamePair(pairs[i], pairs[j])};
          listedPairs := listedPairs + {NamePair(pairs[j], pairs[i])};
          assert RowPrefix(pairs, i, j + 1) == RowPrefix(pairs, i, j) + {NamePair(pairs[i], pairs[j])} + {NamePair(pairs[j], pairs[i])};
          j := j + 1;
        }
        assert RowsBefore(pairs, i + 1) == RowsBefore(pairs, i) + Row(pairs, i);
        i := i + 1;
      }
    }

    /** isPairListed: the pair (s1.name, s2.name) is in the set, which holds
        exactly when one loaded line has the two names at two distinct
        positions. */
    function IsPairListed(s1: Submission, s2: Submission): (r: bool)
      reads this
      requires Valid()
      ensures r <==> ListedIn(loadedLines, s1.name, s2.name)
    {
      LoadedMembers(loadedLines, s1.name, s2.name);
      NamePair(s1.name, s2.name) in listedPairs
    }

    /** shouldCheck: a whitelist passes exactly the listed pairs, a blacklist
        exactly the pairs that are not listed. */
    function ShouldCheck(s1: Submission, s2: Submission): (r: bool)
      reads this
      requires Valid()
      ensures kind == Whitelist ==> (r <==> ListedIn(loadedLines, s1.name, s2.name))
      ensures kind == Blacklist ==> (r <==> !ListedIn(loadedLines, s1.name, s2.name))
    {
      match kind
      case Whitelist => IsPairListed(s1, s2)
      case Blacklist => !IsPairListed(s1, s2)
    }
  }

  /** Builds a filter of the given kind from a list file, or fails with the
      IOException the loader threw. */
  method NewListFilter(kind: FilterKind, file: ListFile) returns (r: Construction)
    ensures r.IOException? <==> file.readFails
    ensures r.Constructed? ==> fresh(r.filter) && r.filter.Valid()
    ensures r.Constructed? ==> r.filter.kind == kind && r.filter.loadedLines == file.lines
  {
    var f := new ListFilter(kind);
    var ok := f.LoadPairsFromFile(file);
    assert [] + file.lines == file.lines;
    if ok {
      r := Constructed(f);
    } else {
      r := IOException;
    }
  }

  /** The WhitelistFilter constructor. */
  method NewWhitelistFilter(file: ListFile) returns (r: Construction)
    ensures r.IOException? <==> file.readFails
    ensures r.Constructed? ==> fresh(r.filter) && r.filter.Valid()
    ensures r.Constructed? ==> r.filter.kind == Whitelist && r.filter.loadedLines == file.lines
  {
    r := NewListFilter(Whitelist, file);
  }

  /** The BlacklistFilter constructor. */
  method NewBlacklistFilter(file: ListFile) returns (r: Construction)
    ensures r.IOException? <==> file.readFails
    ensures r.Constructed? ==> fresh(r.filter) && r.filter.Valid()
    ensures r.Constructed? ==> r.filter.kind == Blacklist && r.filter.loadedLines == file.lines
  {
    r := NewListFilter(Blacklist, file);
  }

  /** isPairListed does not depend on the order of the two submissions. */
  lemma PairListedSymmetric(f: ListFilter, s1: Submission, s2: Submission)
    requires f.Valid()
    ensures f.IsPairListed(s1, s2) == f.IsPairListed(s2, s1)
  {
    LoadedLookupSymmetric(f.loadedLines, s1.name, s2.name);
  }

  /** Nor does shouldCheck, for either kind of filter. */
  lemma ShouldCheckSymmetric(f: ListFilter, s1: Submission, s2: Submission)
    requires f.Valid()
    ensures f.ShouldCheck(s1, s2) == f.ShouldCheck(s2, s1)
  {
    PairListedSymmetric(f, s1, s2);
  }

  /** A whitelist and a blacklist loaded from the same lines give opposite
      verdicts on every pair. */
  lemma Complementary(w: ListFilter, b: ListFilter, s1: Submission, s2: Submission)
    requires w.Valid() && b.Valid()
    requires w.kind == Whitelist && b.kind == Blacklist
    requires w.loadedLines == b.loadedLines
    ensures w.ShouldCheck(s1, s2) == !b.ShouldCheck(s1, s2)
  {
  }
}
