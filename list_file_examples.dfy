/**
 * Concrete list files and what loading them yields, including the places
 * where the loader's behaviour is easy to get wrong: empty pieces, trailing
 * separators, a name repeated on its line, and names on different lines.
 */
module ListFileExamples {
  import opened JavaStrings
  import opened NamePairs
  import opened PairLists
  import opened SubmissionFilter

  /** split(";") keeps a leading empty piece and drops trailing ones. */
  lemma SplitEdgeCases()
    ensures Split("a;b;") == ["a", "b"]
    ensures Split(";a") == ["", "a"]
    ensures Split("a;;b") == ["a", "", "b"]
  {
    SplitAllWithoutSeparator("");
    SplitAllWithoutSeparator("a");
    SplitAllWithoutSeparator("b");
    assert SplitAll("a;b;") == ["a", "b", ""] by {
      SplitAllCons("b", "");
      SplitAllCons("a", "b;");
      assert "b;" == "b" + [Separator] + "";
      assert "a;b;" == "a" + [Separator] + "b;";
    }
    assert SplitAll(";a") == ["", "a"] by {
      SplitAllCons("", "a");
      assert ";a" == "" + [Separator] + "a";
    }
    assert SplitAll("a;;b") == ["a", "", "b"] by {
      SplitAllCons("", "b");
      SplitAllCons("a", ";b");
      assert ";b" == "" + [Separator] + "b";
      assert "a;;b" == "a" + [Separator] + ";b";
    }
    assert ["a", "b", ""][..2] == ["a", "b"];
  }

  lemma SplitTwo(a: char, b: char)
    requires a != Separator && b != Separator
    ensures Split([a, Separator, b]) == [[a], [b]]
  {
    SplitAllWithoutSeparator([b]);
    SplitAllCons([a], [b]);
    assert [a, Separator, b] == [a] + [Separator] + [b];
  }

  /** The line a;b lists (a, b) and (b, a) and nothing else. */
  lemma OnePairLine()
    ensures Loaded(["a;b"]) == {NamePair("a", "b"), NamePair("b", "a")}
  {
    SplitTwo('a', 'b');
    var t := ["a", "b"];
    assert ["a;b"][..0] == [];
    assert RowPrefix(t, 0, 2) == {NamePair("a", "b"), NamePair("b", "a")};
    assert RowsBefore(t, 2) == RowsBefore(t, 1) + Row(t, 1);
  }

  lemma SplitClique()
    ensures Split("x;y;z") == ["x", "y", "z"]
  {
    SplitAllWithoutSeparator("z");
    SplitAllCons("y", "z");
    SplitAllCons("x", "y;z");
    assert "y;z" == "y" + [Separator] + "z";
    assert "x;y;z" == "x" + [Separator] + "y;z";
  }

  /** One line x;y;z declares its three unordered pairs, each in both
      orders, and no pair with a name that is not on it. */
  lemma CliqueLine()
    ensures Loaded(["x;y;z"]) ==
      {NamePair("x", "y"), NamePair("y", "x"), NamePair("x", "z"),
       NamePair("z", "x"), NamePair("y", "z"), NamePair("z", "y")}
  {
    var t := ["x", "y", "z"];
    assert Loaded(["x;y;z"]) == LinePairs(t) by {
      SplitClique();
      assert ["x;y;z"][..0] == [];
    }
    assert Row(t, 0) == {NamePair("x", "y"), NamePair("y", "x"), NamePair("x", "z"), NamePair("z", "x")} by {
      assert RowPrefix(t, 0, 2) == {NamePair("x", "y"), NamePair("y", "x")};
    }
    assert Row(t, 1) == {NamePair("y", "z"), NamePair("z", "y")} by {
      assert RowPrefix(t, 1, 2) == {};
    }
    assert Row(t, 2) == {};
    assert LinePairs(t) == Row(t, 0) + Row(t, 1) + Row(t, 2) by {
      assert RowsBefore(t, 1) == Row(t, 0);
      assert RowsBefore(t, 2) == Row(t, 0) + Row(t, 1);
    }
  }

  /** ... and these are six ordered pairs, 3 * 2. */
  lemma CliqueLineCount()
    ensures |Loaded(["x;y;z"])| == 6
  {
    var t := ["x", "y", "z"];
    assert Loaded(["x;y;z"]) == LinePairs(t) by {
      SplitClique();
      assert ["x;y;z"][..0] == [];
    }
    assert Distinct(t);
    LinePairsCount(t);
  }

  /** Lines are independent: a;b and c;d never pair a with c. */
  lemma TwoLines()
    ensures Loaded(["a;b", "c;d"]) ==
      {NamePair("a", "b"), NamePair("b", "a"), NamePair("c", "d"), NamePair("d", "c")}
    ensures NamePair("a", "c") !in Loaded(["a;b", "c;d"])
  {
    OnePairLine();
    SplitTwo('c', 'd');
    var t := ["c", "d"];
    assert ["a;b", "c;d"][..1] == ["a;b"];
    assert RowPrefix(t, 0, 2) == {NamePair("c", "d"), NamePair("d", "c")};
    assert RowsBefore(t, 2) == RowsBefore(t, 1) + Row(t, 1);
  }

  /** A name repeated on its line is paired with itself: the loader pairs
      positions, not distinct names. */
  lemma RepeatedNameLine()
    ensures NamePair("a", "a") in Loaded(["a;a"])
  {
    SplitTwo('a', 'a');
    LoadedComplete(["a;a"], 0, 0, 1);
  }

  /** Whitelist and blacklist verdicts for the file holding the single
      line a;b, with a third submission c. */
  method AllowAndDenyExample()
  {
    var a, b, c := Submission("a"), Submission("b"), Submission("c");
    var file := ListFile(["a;b"], false);
    OnePairLine();
    var w := NewWhitelistFilter(file);
    var d := NewBlacklistFilter(file);
    LoadedMembers(["a;b"], "a", "c");
    assert w.filter.ShouldCheck(a, b) && w.filter.ShouldCheck(b, a) && !w.filter.ShouldCheck(a, c) by {
      LoadedMembers(["a;b"], "a", "b");
      LoadedMembers(["a;b"], "b", "a");
    }
    assert !d.filter.ShouldCheck(a, b) && d.filter.ShouldCheck(a, c) by {
      LoadedMembers(["a;b"], "a", "b");
    }
  }

  /** A file that cannot be read gives no filter of either kind. */
  method UnreadableFileExample()
  {
    var w := NewWhitelistFilter(ListFile([], true));
    var d := NewBlacklistFilter(ListFile([], true));
    assert w == IOException && d == IOException;
  }
}
