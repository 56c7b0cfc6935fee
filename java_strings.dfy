/**
 * The two pieces of java.lang.String behaviour the submission filter relies on:
 * `split(";")`, which cuts a line of a list file into names, and `hashCode()`,
 * which SubmissionNamePair combines into its own hash. Java's 32-bit `int`
 * arithmetic is written out as an explicit wrap-around.
 */
module JavaStrings {

  /** The list-file separator. */
  const Separator: char := ';'

  // ---------------------------------------------------------------------------
  // String.split(";")
  // ---------------------------------------------------------------------------

  /** Every piece of `s` between separators, empty pieces included: a string
      with n separators has n + 1 pieces. This is split with a negative limit. */
  function SplitAll(s: string): (r: seq<string>)
    ensures |r| >= 1
    ensures forall k :: 0 <= k < |r| ==> Separator !in r[k]
  {
    if s == [] then [""]
    else
      var rest := SplitAll(s[1..]);
      if s[0] == Separator then [""] + rest
      else [[s[0]] + rest[0]] + rest[1..]
  }

  /** Glues tokens back together with one separator between neighbours. */
  function Join(ts: seq<string>): (s: string)
    requires |ts| >= 1
  {
    if |ts| == 1 then ts[0] else ts[0] + [Separator] + Join(ts[1..])
  }

  /** Removes the empty tokens at the end of `ts`, as split with limit 0 does. */
  function DropTrailingEmpty(ts: seq<string>): (r: seq<string>)
    ensures |r| <= |ts| && r == ts[..|r|]
    ensures forall k :: |r| <= k < |ts| ==> ts[k] == ""
    ensures r == [] || r[|r| - 1] != ""
  {
    if ts == [] then []
    else if ts[|ts| - 1] == "" then DropTrailingEmpty(ts[..|ts| - 1])
    else ts
  }

  /** Java `s.split(";")`: when `s` holds no separator the result is `[s]`
      (so `""` gives `[""]`); otherwise every piece is kept verbatim, leading
      and interior empty pieces included, and the empty pieces at the end
      are dropped. */
  function Split(s: string): (r: seq<string>)
    ensures Separator !in s ==> r == [s]
    ensures |r| <= |SplitAll(s)| && r == SplitAll(s)[..|r|]
    ensures Separator in s ==> forall k :: |r| <= k < |SplitAll(s)| ==> SplitAll(s)[k] == ""
    ensures Separator in s ==> r == [] || r[|r| - 1] != ""
    ensures forall k :: 0 <= k < |r| ==> Separator !in r[k]
  {
    if Separator in s then DropTrailingEmpty(SplitAll(s))
    else
      SplitAllWithoutSeparator(s);
      [s]
  }

  /** A string without a separator is one piece. */
  lemma {:induction false} SplitAllWithoutSeparator(s: string)
    requires Separator !in s
    ensures SplitAll(s) == [s]
  {
    if s != [] {
      assert s[0] != Separator && Separator !in s[1..];
      SplitAllWithoutSeparator(s[1..]);
      assert [s[0]] + s[1..] == s;
    }
  }

  /** A separator-free prefix `x` is glued onto the first piece of the rest. */
  lemma {:induction false} SplitAllPrefix(x: string, y: string)
    requires Separator !in x
    ensures SplitAll(x + y) == [x + SplitAll(y)[0]] + SplitAll(y)[1..]
  {
    if x != [] {
      var xy := x + y;
      assert xy[0] == x[0] != Separator;
      assert xy[1..] == x[1..] + y;
      SplitAllPrefix(x[1..], y);
      var rest := SplitAll(xy[1..]);
      assert rest[0] == x[1..] + SplitAll(y)[0];
      assert rest[1..] == SplitAll(y)[1..];
      assert SplitAll(xy) == [[x[0]] + rest[0]] + rest[1..];
      assert [x[0]] + (x[1..] + SplitAll(y)[0]) == x + SplitAll(y)[0];
    } else {
      assert x + y == y && x + SplitAll(y)[0] == SplitAll(y)[0];
      assert [SplitAll(y)[0]] + SplitAll(y)[1..] == SplitAll(y);
    }
  }

  /** A separator-free token followed by a separator is the first piece. */
  lemma SplitAllCons(x: string, z: string)
    requires Separator !in x
    ensures SplitAll(x + [Separator] + z) == [x] + SplitAll(z)
  {
    assert x + [Separator] + z == x + ([Separator] + z);
    SplitAllPrefix(x, [Separator] + z);
    assert ([Separator] + z)[1..] == z;
    assert SplitAll([Separator] + z) == [""] + SplitAll(z);
    assert x + "" == x;
  }

  /** Splitting undoes joining: gluing separator-free tokens and cutting the
      result again gives the same tokens back. */
  lemma {:induction false} SplitAllJoin(ts: seq<string>)
    requires |ts| >= 1
    requires forall k :: 0 <= k < |ts| ==> Separator !in ts[k]
    ensures SplitAll(Join(ts)) == ts
  {
    if |ts| == 1 {
      SplitAllWithoutSeparator(ts[0]);
    } else {
      SplitAllJoin(ts[1..]);
      SplitAllCons(ts[0], Join(ts[1..]));
      assert ts == [ts[0]] + ts[1..];
    }
  }

  /** Joining undoes splitting: no character of the line is lost or altered. */
  lemma {:induction false} JoinSplitAll(s: string)
    ensures Join(SplitAll(s)) == s
  {
    if s != [] {
      var rest := SplitAll(s[1..]);
      JoinSplitAll(s[1..]);
      if s[0] == Separator {
        assert ([""] + rest)[1..] == rest;
      } else {
        var r := [[s[0]] + rest[0]] + rest[1..];
        if |rest| == 1 {
          assert r == [[s[0]] + rest[0]];
        } else {
          assert r[1..] == rest[1..];
          assert Join(rest) == rest[0] + [Separator] + Join(rest[1..]);
        }
      }
    }
  }

  /** split(";") loses only separators at the end of the line: what it returns,
      followed by the dropped empty pieces, joins back to the line. */
  lemma SplitRecoversLine(s: string)
    ensures Join(Split(s) + SplitAll(s)[|Split(s)|..]) == s
  {
    assert Split(s) + SplitAll(s)[|Split(s)|..] == SplitAll(s);
    JoinSplitAll(s);
  }

  // ---------------------------------------------------------------------------
  // 32-bit int arithmetic and String.hashCode()
  // ---------------------------------------------------------------------------

  const TwoTo32: int := 0x1_0000_0000
  const IntMin: int := -0x8000_0000
  const IntMax: int := 0x7FFF_FFFF

  predicate IsInt(x: int) { IntMin <= x <= IntMax }

  /** The Java `int` that the mathematical integer `x` wraps around to. */
  function WrapInt(x: int): (r: int)
    ensures IsInt(r)
    ensures (x - r) % TwoTo32 == 0
    ensures IsInt(x) ==> r == x
  {
    (x - IntMin) % TwoTo32 + IntMin
  }

  /** String.hashCode(): h = 31 * h + c over the characters, in `int`
      arithmetic, starting from 0. */
  function StringHashCode(s: string): (h: int)
    ensures IsInt(h)
    ensures s == [] ==> h == 0
  {
    if s == [] then 0
    else WrapInt(31 * StringHashCode(s[..|s| - 1]) + s[|s| - 1] as int)
  }

  /** Objects.hash(a, b) for two non-null arguments with hash codes `ha`, `hb`:
      Arrays.hashCode starts from 1 and folds h = 31 * h + element hash. */
  function ObjectsHash2(ha: int, hb: int): (h: int)
    ensures IsInt(h)
  {
    WrapInt(31 * WrapInt(31 * 1 + ha) + hb)
  }
}
