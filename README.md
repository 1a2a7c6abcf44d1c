# StringUtils in Dafny

This project models the `StringUtils` class of the `strings` package. The class is a set
of static text helpers:

- string reversal;
- three ways of joining a list with a delimiter;
- two word transforms built on splitting at runs of spaces;
- two palindrome tests;
- the Wagner–Fischer dynamic programme for the Levenshtein edit distance.

A Java `String` is a `seq<char>` (`StringUtils.String`) and a Java `List` is a `seq`.

There are three modules:

- `StringUtils` (`string_utils.dfy`) holds every operation of the class. The stream
  pipelines are functions. `join`, `isPalindrome` and `levenshteinDistance` work step by
  step in the source, so they are methods with loops, each proved against a specification
  function:
  - `Join` against `Joined`, the reference delimited concatenation;
  - `IsPalindrome` against the mirrored-pair condition and against
    `IsPalindromeUsingBuilder`;
  - `LevenshteinDistance` against `Lev`, the recurrence on prefixes.

  `LevenshteinDistance` allocates the `(|lhs| + 1) x (|rhs| + 1)` `int` table as an
  `array2<int>`. It fills column 0, then row 0, then the inner cells row by row. Its loop
  invariants tie every filled cell `[i, j]` to `Lev(lhs[..i], rhs[..j])`. The inner loop
  over one row is the method `FillRow`.
- `WordProperties` (`words.dfy`) proves what the split and the two word transforms do.
- `EditDistance` (`edit_distance.dfy`) proves what `Lev` means:
  - it is a metric: identity, symmetry and the triangle inequality;
  - it is exactly the least cost of a left-to-right edit script. Such a script reads the
    source text once, from left to right, and keeps, substitutes or deletes each character
    or inserts one before it. Some script of that cost turns one text into the other, and
    no cheaper script does.

  It also proves the test suite's values.

The split follows `Pattern.compile(" +").splitAsStream`:

- the pieces lie between maximal runs of spaces;
- trailing empty pieces are dropped;
- an input that starts with a space and has some other character keeps an empty first
  piece (`" a b"` gives `["", "a", "b"]`);
- an input of spaces only gives no pieces;
- the empty input gives the single piece `""`, because the stream yields the input itself
  when the pattern never matches. This is the behaviour of `splitAsStream` from JDK 9 on,
  and it matches `String.split`. The JDK 8 implementation returns an empty stream for the
  empty input. Both word transforms return `""` for the empty input either way.
  So only `Split`'s own contract depends on the JDK version.

A split at runs of spaces might be expected to yield only non-empty words.
`splitAsStream` keeps the leading empty piece, and the model follows the code.
So `reverseWordsInString(" a b")` is `"b a "`, with a trailing space, and
`reverseWordCharacters(" ab")` is `" ba"`. The lemmas `ReverseWordsInStringTokens` and
`ReverseWordCharactersTokens` state what survives.

What the model takes as a parameter or leaves out:

- `Object::toString` calls code of the element type, which this model cannot see.
  `JoinObjects` takes it as a parameter `toString: E -> String`.
- `String.join`, `StringJoiner`, `Collectors.joining`, `StringBuilder.reverse` and the
  `LinkedList` collector appear only through what they produce: `Joined`, `Accumulate`,
  `Reverse` and `CollectByAddFirst`.
- There is no I/O, clock, randomness or shared state.

## Model

| member | source | states |
|---|---|---|
| `StringUtils.Reverse` | src/main/java/strings/StringUtils.java:18-21 | the result has the input's length, and position `i` holds the input's character at `|s| - 1 - i` |
| `StringUtils.ReverseReverse` | src/main/java/strings/StringUtils.java:18-21 | reversing twice returns the original text |
| `StringUtils.Joined` | src/main/java/strings/StringUtils.java:69 | definition: the items in order with the delimiter between consecutive items only, and `""` for the empty list, as `String.join` builds it |
| `StringUtils.JoinedLength` | src/main/java/strings/StringUtils.java:23-35 | the length of a join is the items' total length plus one delimiter length per gap between consecutive items |
| `StringUtils.JoinedSnoc` | src/main/java/strings/StringUtils.java:30-33 | adding an item to a non-empty joiner appends the delimiter and then the item |
| `StringUtils.JoinedAppend` | src/main/java/strings/StringUtils.java:23-35 | joining two non-empty lists puts exactly one delimiter between their joins |
| `StringUtils.JoinedExamples` | src/main/java/strings/StringUtils.java:29-35 | an empty list joins to `""`; a one-item list joins to that item; `["a","b","c"]` with `","` joins to `"a,b,c"` |
| `StringUtils.Join` | src/main/java/strings/StringUtils.java:29-35 | the joiner loop returns the items in order, with the delimiter between consecutive items only (`Joined`) |
| `StringUtils.AccumulateJoins` | src/main/java/strings/StringUtils.java:44 | when at least one item remains, accumulating the remaining items gives the text so far, a delimiter and the join of the rest |
| `StringUtils.Accumulate` | src/main/java/strings/StringUtils.java:44 | the accumulation keeps the text so far as a prefix and grows by the remaining items' lengths plus one delimiter length per item |
| `StringUtils.JoinUsingStreams` | src/main/java/strings/StringUtils.java:43-45 | the stream collector returns the same text as `join` for every list and delimiter |
| `StringUtils.JoinObjects` | src/main/java/strings/StringUtils.java:53-55 | the result equals the join of the list mapped through `toString` |
| `StringUtils.WordLength` | src/main/java/strings/StringUtils.java:67 | the leading run without spaces ends at the first space, or at the end of the text |
| `StringUtils.Words` | src/main/java/strings/StringUtils.java:67 | every piece between space runs is non-empty and holds no space |
| `StringUtils.WordsEmptyIffSpaces` | src/main/java/strings/StringUtils.java:67 | a text has no words if and only if all its characters are spaces |
| `StringUtils.CollectByAddFirst` | src/main/java/strings/StringUtils.java:68 | collecting with `addFirst` gives one element per item, and the original list stays at the back |
| `StringUtils.Split` | src/main/java/strings/StringUtils.java:67 | all pieces after the first are words; there are no pieces exactly for a non-empty all-space input; the first piece is empty exactly for an empty input or one that starts with a space |
| `StringUtils.CollectByAddFirstReverses` | src/main/java/strings/StringUtils.java:68 | collecting with `addFirst` puts the pieces in reverse order in front of the list |
| `StringUtils.ReverseWordsInString` | src/main/java/strings/StringUtils.java:66-70 | the result is the split pieces in reverse order, joined with one space |
| `StringUtils.ReverseWordCharacters` | src/main/java/strings/StringUtils.java:78-82 | the result is every split piece reversed, in the original order, joined with one space |
| `StringUtils.IsPalindromeUsingBuilder` | src/main/java/strings/StringUtils.java:104-106 | a text equals its reverse if and only if every position holds the same character as its mirror position |
| `StringUtils.MirroredHalvesIffPalindrome` | src/main/java/strings/StringUtils.java:89-106 | the mirrored pairs of the first half agree if and only if the text equals its reverse |
| `StringUtils.PalindromeExamples` | src/main/java/strings/StringUtils.java:104-106 | `""` and every one-character text are palindromes; `"ab"` is not; `"aba"` is |
| `StringUtils.IsPalindrome` | src/main/java/strings/StringUtils.java:89-97 | the early-return loop answers true if and only if `s[i] == s[|s|-1-i]` for all `i < |s|/2`, which is the answer of `isPalindromeUsingBuilder` |
| `StringUtils.Minimum` | src/main/java/strings/StringUtils.java:132-134 | the result is at most each argument and equal to one of them |
| `StringUtils.Lev` | src/main/java/strings/StringUtils.java:115-131 | definition: the table's recurrence on whole texts; the other text's length when one text is empty, otherwise the least of deletion + 1, insertion + 1, and match (+0) or substitution (+1) of the last characters |
| `StringUtils.LevCell` | src/main/java/strings/StringUtils.java:123-128 | the distance of two prefixes is the least of deletion + 1, insertion + 1, and match (+0) or substitution (+1) of the last characters |
| `StringUtils.LevenshteinDistance` | src/main/java/strings/StringUtils.java:115-131 | the table method returns the edit distance `Lev(lhs, rhs)` of the two texts |
| `StringUtils.FillRow` | src/main/java/strings/StringUtils.java:123-128 | filling row `i` makes its cells the prefix distances, given the row above and cell `[i, 0]`; other rows are unchanged |
| `WordProperties.NonSpacesAppend` | src/main/java/strings/StringUtils.java:67 | dropping spaces distributes over concatenation |
| `WordProperties.WordsCoverNonSpaces` | src/main/java/strings/StringUtils.java:67 | the words hold all non-space characters of the text, in order, and nothing else |
| `WordProperties.WordLengthAfterSpaceFree` | src/main/java/strings/StringUtils.java:67 | a space-free prefix lengthens the leading run by its own length |
| `WordProperties.WordsOfWordThenSpace` | src/main/java/strings/StringUtils.java:67 | a word followed by a space splits off as the first word |
| `WordProperties.WordsOfWord` | src/main/java/strings/StringUtils.java:67 | a single word splits into itself |
| `WordProperties.WordsOfJoined` | src/main/java/strings/StringUtils.java:67-69 | splitting words joined with one space gives the words back |
| `WordProperties.WordsTrailingSpace` | src/main/java/strings/StringUtils.java:67 | a trailing space adds no word |
| `WordProperties.SplitOfJoined` | src/main/java/strings/StringUtils.java:67-69 | the split of a non-empty list of words joined with one space is that list |
| `WordProperties.SplitIsWords` | src/main/java/strings/StringUtils.java:67 | a non-empty text splits into its words, or into an empty piece followed by its words when it starts with a space and has a word |
| `WordProperties.ReverseIsWord` | src/main/java/strings/StringUtils.java:80 | reversing a word gives a word |
| `WordProperties.ReverseKeepsWords` | src/main/java/strings/StringUtils.java:67-68 | reversing the order of a list of words gives a list of words |
| `WordProperties.JoinedAfterEmpty` | src/main/java/strings/StringUtils.java:69 | an empty first piece followed by at least one item joins to the delimiter followed by the join of the items |
| `WordProperties.WordsLeadingSpace` | src/main/java/strings/StringUtils.java:67 | a leading space adds no word |
| `WordProperties.SplitOfJoinedTrailingSpace` | src/main/java/strings/StringUtils.java:67-69 | a non-empty list of words, joined by one space and followed by an empty piece, splits back into the words alone |
| `WordProperties.SplitOfLeadingSpaceJoined` | src/main/java/strings/StringUtils.java:79-81 | an empty piece followed by a non-empty list of words, joined by one space, splits back into the empty piece and the words |
| `WordProperties.MapReverseKeepsWords` | src/main/java/strings/StringUtils.java:80 | reversing every word of a list gives a list of words |
| `WordProperties.ReverseWordsInStringTokens` | src/main/java/strings/StringUtils.java:66-70 | for any input with a word, the result splits into the input's words in reverse order |
| `WordProperties.ReverseWordsInStringTwice` | src/main/java/strings/StringUtils.java:66-70 | applying the transform twice gives the input's words joined with single spaces, without leading or trailing spaces |
| `WordProperties.NormalizedSpacingKeepsWords` | src/main/java/strings/StringUtils.java:66-70 | re-spacing a text with single spaces keeps its words |
| `WordProperties.ReverseWordCharactersTokens` | src/main/java/strings/StringUtils.java:78-82 | for any input with a piece, the result splits into the same number of pieces, in the same order, each the reverse of the input's piece |
| `WordProperties.WithoutSpaces` | src/main/java/strings/StringUtils.java:58-82 | a text without spaces is returned unchanged by the word-order reversal and reversed by the character reversal |
| `WordProperties.SplitExamples` | src/main/java/strings/StringUtils.java:67 | `""` splits to `[""]`; `"   "` to `[]`; `" a b"` to `["", "a", "b"]`; `"a  b  "` to `["a", "b"]` |
| `WordProperties.SampleSentenceSplit` | src/main/test/java/strings/TestStrings.java:11 | the sample sentence splits into its four words |
| `WordProperties.ReverseWordsInStringExample` | src/main/test/java/strings/TestStrings.java:21-23 | "This is an apple" becomes "apple an is This" |
| `WordProperties.ReverseWordCharactersExample` | src/main/test/java/strings/TestStrings.java:25-27 | "This is an apple" becomes "sihT si na elppa" |
| `EditDistance.LevFromEmpty` | src/main/java/strings/StringUtils.java:120-121 | the distance from `""` to `s` is `|s|` (row 0) |
| `EditDistance.LevToEmpty` | src/main/java/strings/StringUtils.java:118-119 | the distance from `s` to `""` is `|s|` (column 0) |
| `EditDistance.LevAtLeastLengthDifference` | src/main/java/strings/StringUtils.java:108-131 | the distance is at least the difference of the two lengths |
| `EditDistance.LevAtMostLongerLength` | src/main/java/strings/StringUtils.java:108-131 | the distance is at most the longer length |
| `EditDistance.LevSelf` | src/main/java/strings/StringUtils.java:108-131 | every text is at distance 0 from itself |
| `EditDistance.LevZeroMeansEqual` | src/main/java/strings/StringUtils.java:108-131 | distance 0 implies equal texts |
| `EditDistance.LevZeroIffEqual` | src/main/java/strings/StringUtils.java:108-131 | the distance is 0 if and only if the texts are equal |
| `EditDistance.LevSymmetric` | src/main/java/strings/StringUtils.java:108-131 | the distance is symmetric |
| `EditDistance.LevTriangle` | src/main/java/strings/StringUtils.java:108-131 | the distance obeys the triangle inequality |
| `EditDistance.CheapestScript` | src/main/java/strings/StringUtils.java:109 | there is a left-to-right edit script with exactly `Lev(lhs, rhs)` insertions, deletions and substitutions that turns `lhs` into `rhs` |
| `EditDistance.ScriptCostAtLeastLev` | src/main/java/strings/StringUtils.java:109 | every left-to-right edit script that turns `lhs` into `rhs` has at least `Lev(lhs, rhs)` costly edits |
| `EditDistance.LevIsLeastEditCount` | src/main/java/strings/StringUtils.java:109 | `Lev` is the least cost of a left-to-right edit script that turns one text into the other: some script has that cost and none has less |
| `EditDistance.FrogFog` | src/main/test/java/strings/TestStrings.java:32 | the distance from "frog" to "fog" is 1 |
| `EditDistance.LevenshteinTestValues` | src/main/test/java/strings/TestStrings.java:29-35 | ("","") = 0, ("","a") = 1, ("frog","fog") = 1, ("elephant","hippo") = 7, ("aaapppp","") = 7 |

## Left out

- `Objects.requireNonNull` in `reverse`, and the null argument any other operation can receive: a Dafny sequence is never null, so this failure path does not exist in the model.
- Null list elements: `join` and `joinUsingStreams` append the text `"null"` for a null element, and `joinObjects` throws `NullPointerException` at `Object::toString`. Model elements are never null, so neither behaviour is modelled.
- The UTF-16 code units of a Java `String`: a text is a sequence of `char` compared by equality. `StringBuilder.reverse` keeps surrogate pairs together, but `isPalindrome` compares single code units with `charAt`. So in Java the two palindrome tests disagree on a text with a supplementary character. On a single emoji, `isPalindrome` answers false and `isPalindromeUsingBuilder` answers true. The agreement stated in `IsPalindrome`'s second `ensures` holds only for the model's `seq<char>`, where `Reverse` reverses single characters.
- Java `int` overflow in the distance table: cells are unbounded integers; in the source they never exceed the longer length.
- The combiner `(a, b) -> a.addAll(0, b)` of `reverseWordsInString` runs only for parallel streams; the model is the sequential collection by `addFirst`.
- The internals of `StringBuilder`, `StringJoiner`, `Collectors.joining`, `String.join`, `LinkedList` and the regular-expression engine; only their results are modelled.
- The text form produced by any particular `toString`; `JoinObjects` takes `toString` as a parameter.
- The JUnit harness of the test class; its assertions are the example lemmas.
- `LevIsLeastEditCount`: the lower bound is proved over left-to-right edit scripts, which change each source character at most once. It is not proved over arbitrary sequences of single edits applied one after another.
