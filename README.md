# Submission-pair filter of JPlag, modelled in Dafny

JPlag compares submissions pairwise. A `SubmissionFilter` decides, for two
submissions, whether that pair should be compared at all. The two list
filters are the core of it.

- A filter reads a list file.
- It splits each line on `;` into submission names.
- For every two positions i < j on a line, it inserts both ordered pairs
  (t[i], t[j]) and (t[j], t[i]) into a per-instance `HashSet<SubmissionNamePair>`.
- A `WhitelistFilter` passes a pair only when it is listed.
- A `BlacklistFilter` passes a pair only when it is not listed.

The model has five modules, one file each.

- `java_strings.dfy`, module `JavaStrings`: Java's `String.split(";")`,
  `String.hashCode()` and `Objects.hash` of two strings. Java `int` arithmetic
  is written out as a wrap-around modulo 2^32.
- `name_pairs.dfy`, module `NamePairs`: `SubmissionNamePair` as the datatype
  `NamePair`, with its `equals` and `hashCode`. `equals` is an ordered,
  componentwise comparison. Lemmas show that it coincides with datatype
  equality, so a Dafny `set<NamePair>` has the membership test of the
  `HashSet`. `equals` never treats (a, b) and (b, a) as the same key when
  a != b. `hashCode` is not symmetric either: ("a", "b") hashes to 4066 and
  ("b", "a") to 4096. Some swapped pairs do share a hash, such as
  ("Aa", "BB") and ("BB", "Aa"), but they are still different keys.
- `pair_lists.dfy`, module `PairLists`: what loading puts into the set, as
  functions of the file's lines. `RowPrefix`, `Row`, `RowsBefore` and
  `LinePairs` follow the nested loops; `Loaded` follows the line loop. Its
  properties are proved against an independent description, `OnSameLine`
  ("the two names stand at two distinct positions of one line"). The
  properties are completeness, soundness, symmetry, union over lines,
  independence from line order, degenerate lines and the pair count.
- `submission_filter.dfy`, module `SubmissionFilter`: the `ListFilter` class.
  - Its mutable field `listedPairs` is filled by `LoadPairsFromFile` with `while`
    loops. The nested i/j loops that handle one line are the method
    `AddLinePairs`.
  - Both methods are proved against `Loaded` and `LinePairs`.
  - `IsPairListed` and `ShouldCheck` are functions of the set.
  - Whitelist and blacklist are the tag `kind`.
  - The two Java constructors are `NewWhitelistFilter` and
    `NewBlacklistFilter`. Each returns a filter or `IOException`.
- `list_file_examples.dfy`, module `ListFileExamples`: concrete list files and
  what loading them yields.

The file is given as already read: `ListFile(lines, readFails)` holds the
lines `readLine` returned and whether reading ended with an `IOException`.
When the read fails, the lines read so far have already been added to the
set, and the constructor throws anyway. The model keeps both facts.

In three places a reader might expect the filter to behave one way while the
code does something else. The model follows the code.

- One might expect the pair key to be symmetric, so that (a, b) and (b, a)
  are the same key. `SubmissionNamePair` is ordered instead: its `equals`
  compares the names position by position. Lookup is symmetric only because
  the loader inserts both orders (`Loaded`, `EqualsIsOrdered`,
  `HashCodeIsOrdered`).
- One might expect only distinct names to be paired. The loader pairs
  positions instead, so the line `a;a` lists the pair ("a", "a")
  (`RepeatedNameLine`).
- One might expect empty lines to be skipped. The loader splits them like any
  other line, into the single empty token `""`. That token alone forms no
  pair, so the line adds nothing (`DegenerateLines`,
  `DegenerateLineAddsNothing`).

## Model

| member | source | states |
|---|---|---|
| `JavaStrings.Split` | jplag/src/main/java/jplag/SubmissionFilter.java:59 | `line.split(";")`. A line without `;` gives itself as the only token, so `""` gives `[""]`. Otherwise the tokens are the pieces between separators, kept verbatim, with only the trailing empty pieces dropped. No token contains `;`. |
| `JavaStrings.JoinSplitAll` | jplag/src/main/java/jplag/SubmissionFilter.java:59 | Re-joining the pieces of a line with `;` gives the line back: no character is lost or changed. |
| `JavaStrings.SplitAllJoin` | jplag/src/main/java/jplag/SubmissionFilter.java:59 | Splitting separator-free tokens joined with `;` gives the same tokens back. |
| `JavaStrings.SplitRecoversLine` | jplag/src/main/java/jplag/SubmissionFilter.java:59 | The tokens `split` returns, followed by the empty pieces it dropped, join back to the line. |
| `JavaStrings.StringHashCode` | jplag/src/main/java/jplag/SubmissionFilter.java:86 | String hash h = 31·h + c in Java `int` arithmetic; the result is a 32-bit `int`. |
| `JavaStrings.ObjectsHash2` | jplag/src/main/java/jplag/SubmissionFilter.java:86 | `Objects.hash(s1, s2)` from the two string hashes; the result is a 32-bit `int`. |
| `NamePairs.NamePair.HashCode` | jplag/src/main/java/jplag/SubmissionFilter.java:84-87 | `hashCode()` of a pair; a 32-bit `int`. |
| `NamePairs.NamePair.Equals` | jplag/src/main/java/jplag/SubmissionFilter.java:89-99 | `equals(obj)` holds exactly when `obj` is a `SubmissionNamePair` with the same two names in the same order; it is false for null and for other classes. |
| `NamePairs.EqualsIsComponentwise` | jplag/src/main/java/jplag/SubmissionFilter.java:89-99 | (a, b) equals (c, d) exactly when a == c and b == d; `equals` is value equality of pairs. |
| `NamePairs.EqualsIsEquivalence` | jplag/src/main/java/jplag/SubmissionFilter.java:89-99 | `equals` is reflexive, symmetric and transitive. |
| `NamePairs.EqualsRejectsOtherObjects` | jplag/src/main/java/jplag/SubmissionFilter.java:94-96 | `equals` is false for null and for an object of another class. |
| `NamePairs.HashCodeConsistent` | jplag/src/main/java/jplag/SubmissionFilter.java:84-99 | Equal pairs have equal hash codes. |
| `NamePairs.EqualsIsOrdered` | jplag/src/main/java/jplag/SubmissionFilter.java:97-98 | For a != b, (a, b) does not equal (b, a): the pair type is ordered. |
| `NamePairs.HashCodeIsOrdered` | jplag/src/main/java/jplag/SubmissionFilter.java:86 | ("a", "b") hashes to 4066 and ("b", "a") to 4096: the hash depends on the order. |
| `NamePairs.HashCodeCollision` | jplag/src/main/java/jplag/SubmissionFilter.java:84-99 | ("Aa", "BB") and ("BB", "Aa") have the same hash code but are not equal: equal hashes do not make equal keys. |
| `PairLists.LinePairs` | jplag/src/main/java/jplag/SubmissionFilter.java:61-66 | The pairs the nested loops add for one line. The set is closed under swapping, because every (t[i], t[j]) is added together with (t[j], t[i]). |
| `PairLists.Loaded` | jplag/src/main/java/jplag/SubmissionFilter.java:58-66 | The pairs the line loop adds for a whole file, line by line. The set is closed under swapping. This rests on the dual insertion alone. |
| `PairLists.RowPrefixMembers` | jplag/src/main/java/jplag/SubmissionFilter.java:62-65 | After the inner loop has run up to j0, the pairs from row i are exactly both orders of (t[i], t[j]) for i < j < j0. |
| `PairLists.RowsBeforeMembers` | jplag/src/main/java/jplag/SubmissionFilter.java:61-66 | After the outer loop has handled positions below n, the pairs are exactly both orders of (t[i], t[j]) for i < n and i < j. |
| `PairLists.LinePairsMembers` | jplag/src/main/java/jplag/SubmissionFilter.java:59-66 | A line lists (a, b) if and only if a and b stand at two distinct positions of its tokens. |
| `PairLists.LoadedMembers` | jplag/src/main/java/jplag/SubmissionFilter.java:58-66 | Completeness and soundness: the file lists (a, b) if and only if some single line has a and b at two distinct positions. Names on different lines are never paired. |
| `PairLists.LoadedComplete` | jplag/src/main/java/jplag/SubmissionFilter.java:58-66 | For every line and every two positions i < j on it, both (t[i], t[j]) and (t[j], t[i]) are listed. |
| `PairLists.RowPrefixSymmetric` | jplag/src/main/java/jplag/SubmissionFilter.java:62-65 | Each step of the inner loop adds both orders, so every partial row is closed under swapping. |
| `PairLists.RowsBeforeSymmetric` | jplag/src/main/java/jplag/SubmissionFilter.java:61-66 | The pairs of the handled rows are closed under swapping. |
| `PairLists.LoadedLookupSymmetric` | jplag/src/main/java/jplag/SubmissionFilter.java:63-64 | (a, b) is listed if and only if (b, a) is. |
| `PairLists.LoadedAppend` | jplag/src/main/java/jplag/SubmissionFilter.java:58-66 | Loading lines a then lines b gives the union of the two sets. |
| `PairLists.LoadedMonotone` | jplag/src/main/java/jplag/SubmissionFilter.java:54-66 | Later lines never remove a pair added earlier. |
| `PairLists.LoadedDependsOnlyOnLines` | jplag/src/main/java/jplag/SubmissionFilter.java:58-66 | Two files holding the same lines, in any order and with any repetitions, give the same set. |
| `PairLists.LoadedPermutation` | jplag/src/main/java/jplag/SubmissionFilter.java:58-66 | Reordering the lines of the file does not change the set. |
| `PairLists.ShortLineContributesNothing` | jplag/src/main/java/jplag/SubmissionFilter.java:61-62 | A line of fewer than two tokens contributes no pair. |
| `PairLists.DegenerateLineAddsNothing` | jplag/src/main/java/jplag/SubmissionFilter.java:58-62 | Loading a further line that splits into fewer than two tokens leaves the set unchanged. |
| `PairLists.DegenerateLines` | jplag/src/main/java/jplag/SubmissionFilter.java:59 | `""` splits into `[""]`, a single name into itself, and `;;` into no token at all. |
| `PairLists.RowPrefixCount` | jplag/src/main/java/jplag/SubmissionFilter.java:62-65 | With distinct tokens, the partial row i up to j0 holds exactly 2·(j0 − i − 1) pairs. |
| `PairLists.RowsBeforeCount` | jplag/src/main/java/jplag/SubmissionFilter.java:61-65 | With distinct tokens, the handled rows hold the sum of their row sizes; the rows share no pair. |
| `PairLists.LinePairsCount` | jplag/src/main/java/jplag/SubmissionFilter.java:61-65 | A line of k distinct names lists exactly k·(k − 1) ordered pairs: its C(k, 2) unordered pairs in both orders. |
| `SubmissionFilter.ListFilter.constructor` | jplag/src/main/java/jplag/SubmissionFilter.java:53-54 | A new filter has an empty set and has loaded no line. |
| `SubmissionFilter.ListFilter.LoadPairsFromFile` | jplag/src/main/java/jplag/SubmissionFilter.java:56-69 | The new set is the old set together with the pairs of every line read. It succeeds exactly when reading did not end with an `IOException`. |
| `SubmissionFilter.ListFilter.AddLinePairs` | jplag/src/main/java/jplag/SubmissionFilter.java:61-66 | The nested loops add exactly the pairs of the line to the set. |
| `SubmissionFilter.ListFilter.IsPairListed` | jplag/src/main/java/jplag/SubmissionFilter.java:71-73 | True if and only if some loaded line has the two submissions' names at two distinct positions. |
| `SubmissionFilter.ListFilter.ShouldCheck` | jplag/src/main/java/jplag/SubmissionFilter.java:29-45 | A whitelist answers true exactly for listed pairs, a blacklist exactly for pairs that are not listed. |
| `SubmissionFilter.NewWhitelistFilter` | jplag/src/main/java/jplag/SubmissionFilter.java:25-27 | Gives a fresh whitelist holding the file's pairs, or `IOException` exactly when reading the file failed. |
| `SubmissionFilter.NewBlacklistFilter` | jplag/src/main/java/jplag/SubmissionFilter.java:39-41 | Gives a fresh blacklist holding the file's pairs, or `IOException` exactly when reading the file failed. |
| `SubmissionFilter.PairListedSymmetric` | jplag/src/main/java/jplag/SubmissionFilter.java:71-73 | `isPairListed(s1, s2) == isPairListed(s2, s1)`. |
| `SubmissionFilter.ShouldCheckSymmetric` | jplag/src/main/java/jplag/SubmissionFilter.java:29-45 | `shouldCheck` does not depend on the order of its two arguments, for either kind. |
| `SubmissionFilter.Complementary` | jplag/src/main/java/jplag/SubmissionFilter.java:29-45 | A whitelist and a blacklist loaded from the same lines give opposite verdicts on every pair. |
| `ListFileExamples.SplitEdgeCases` | jplag/src/main/java/jplag/SubmissionFilter.java:59 | `a;b;` splits into `a`, `b`. `;a` splits into `""`, `a`. `a;;b` splits into `a`, `""`, `b`. |
| `ListFileExamples.OnePairLine` | jplag/src/main/java/jplag/SubmissionFilter.java:58-66 | The line `a;b` lists exactly ("a", "b") and ("b", "a"). |
| `ListFileExamples.CliqueLine` | jplag/src/main/java/jplag/SubmissionFilter.java:58-66 | The line `x;y;z` lists exactly its three unordered pairs, each in both orders. |
| `ListFileExamples.CliqueLineCount` | jplag/src/main/java/jplag/SubmissionFilter.java:61-65 | The line `x;y;z` lists six ordered pairs. |
| `ListFileExamples.TwoLines` | jplag/src/main/java/jplag/SubmissionFilter.java:58-66 | The lines `a;b` and `c;d` list exactly four pairs, and ("a", "c") is not among them. |
| `ListFileExamples.RepeatedNameLine` | jplag/src/main/java/jplag/SubmissionFilter.java:61-64 | The line `a;a` lists ("a", "a"). |

`ShouldCheck` and `IsPairListed` are functions. They cannot change the
filter, so repeated queries give the same answer.

## Left out

- File access: `BufferedReader`, `FileReader`, `readLine` line-terminator handling, and closing the reader. The file arrives as the lines already read, plus a flag for an `IOException`.
- `String.split` takes a regular expression. Only the literal single-character pattern `;` that the loader uses is modelled.
- `JavaStrings.StringHashCode` takes each Dafny `char` (a Unicode scalar value) as one Java `char`. Characters above U+FFFF, which Java stores as two UTF-16 code units, hash differently in Java. No statement of the model depends on the hash value beyond the `"a"`/`"b"` and `"Aa"`/`"BB"` examples.
- `HashSet` internals such as buckets and resizing. The set is a mathematical `set`, justified by `NamePairs.EqualsIsComponentwise` and `NamePairs.HashCodeConsistent`.
- The `this == obj` shortcut in `equals`. Pairs are values without object identity, and an object is always componentwise equal to itself, so the shortcut changes no answer.
- `isPairListed` with a null `Submission`. Java throws a `NullPointerException` at `s1.name` (line 72). The datatype `Submission` has no null value, so this case cannot arise in the model.
- `Objects.equals` with null names. Submission names and split tokens are never null here.
- `Submission` beyond its `name` field; Java inheritance, which is replaced by the tag `kind`; concurrency, which the code does not have.
