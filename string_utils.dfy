/**
 This module models the static helpers of the `StringUtils` class: reversal,
 delimited joining, the two word transforms built on splitting at runs of
 spaces, the two palindrome checks and the Levenshtein edit distance.

 A Java `String` is a `seq<char>` and a Java `List` is a `seq`. The pure
 stream pipelines become functions; `join`, `isPalindrome` and
 `levenshteinDistance`, which work step by step, become methods with loops
 proved against the specification functions defined here.
 */
module StringUtils {

  type String = seq<char>

  // ---------------------------------------------------------------------------
  // Reversal
  // ---------------------------------------------------------------------------

  /** `reverse`: the elements of `s` in the opposite order. */
  function Reverse<T>(s: seq<T>): (r: seq<T>)
    ensures |r| == |s|
    ensures forall i :: 0 <= i < |s| ==> r[i] == s[|s| - 1 - i]
  {
    if s == [] then [] else Reverse(s[1..]) + [s[0]]
  }

  /** Reversing twice gives back the original sequence. */
  lemma ReverseReverse<T>(s: seq<T>)
    ensures Reverse(Reverse(s)) == s
  {
    var r := Reverse(Reverse(s));
    forall i | 0 <= i < |s|
      ensures r[i] == s[i]
    {
      assert Reverse(s)[|s| - 1 - i] == s[i];
    }
  }

  /** The sequence obtained by applying `f` to every element, in order. */
  function MapSeq<A, B>(f: A -> B, s: seq<A>): (r: seq<B>)
    ensures |r| == |s|
    ensures forall i :: 0 <= i < |s| ==> r[i] == f(s[i])
  {
    if s == [] then [] else [f(s[0])] + MapSeq(f, s[1..])
  }

  // ---------------------------------------------------------------------------
  // Joining
  // ---------------------------------------------------------------------------

  /**
   Reference definition of delimited concatenation: the items in order with
   `delimiter` between consecutive items only. This is what a `StringJoiner`
   without prefix or suffix, `Collectors.joining` and `String.join` produce.
   */
  function Joined(items: seq<String>, delimiter: String): String
  {
    if |items| == 0 then []
    else if |items| == 1 then items[0]
    else items[0] + delimiter + Joined(items[1..], delimiter)
  }

  /** Total length of all items. */
  function TotalLength(items: seq<String>): nat
  {
    if items == [] then 0 else |items[0]| + TotalLength(items[1..])
  }

  /** The length of a join is the items' total length plus one delimiter length per gap. */
  lemma {:induction false} JoinedLength(items: seq<String>, delimiter: String)
    ensures |Joined(items, delimiter)| ==
            TotalLength(items) + (if items == [] then 0 else (|items| - 1) * |delimiter|)
  {
    if |items| > 1 {
      JoinedLength(items[1..], delimiter);
      assert TotalLength(items) == |items[0]| + TotalLength(items[1..]);
      calc {
        (|items| - 1) * |delimiter|;
        (|items[1..]| - 1) * |delimiter| + |delimiter|;
      }
    } else if |items| == 1 {
      assert items[1..] == [];
    }
  }

  /** Appending one item adds a delimiter and the item at the end. */
  lemma {:induction false} JoinedSnoc(items: seq<String>, x: String, delimiter: String)
    requires items != []
    ensures Joined(items + [x], delimiter) == Joined(items, delimiter) + delimiter + x
  {
    if |items| == 1 {
      assert items + [x] == [items[0], x];
      assert [items[0], x][1..] == [x];
    } else {
      JoinedSnoc(items[1..], x, delimiter);
      assert (items + [x])[1..] == items[1..] + [x];
    }
  }

  /** Joining two non-empty lists puts one delimiter between the two joins. */
  lemma {:induction false} JoinedAppend(xs: seq<String>, ys: seq<String>, delimiter: String)
    requires xs != [] && ys != []
    ensures Joined(xs + ys, delimiter) == Joined(xs, delimiter) + delimiter + Joined(ys, delimiter)
  {
    if |xs| == 1 {
      assert (xs + ys)[1..] == ys;
    } else {
      JoinedAppend(xs[1..], ys, delimiter);
      assert (xs + ys)[1..] == xs[1..] + ys;
    }
  }

  /** An empty list joins to the empty text, a one-item list to its item, and three items with two delimiters. */
  lemma JoinedExamples(x: String, delimiter: String)
    ensures Joined([], delimiter) == []
    ensures Joined([x], delimiter) == x
    ensures Joined(["a", "b", "c"], ",") == "a,b,c"
  {
    var abc: seq<String> := ["a", "b", "c"];
    assert abc[1..] == ["b", "c"] && abc[1..][1..] == ["c"];
  }

  /**
   `join`: feeds every item to a `StringJoiner`, which starts a value with the
   first item and appends the delimiter before each further item; an empty
   joiner yields the empty string.
   */
  method Join(stringList: seq<String>, delimiter: String) returns (joined: String)
    ensures joined == Joined(stringList, delimiter)
  {
    joined := [];
    for k := 0 to |stringList|
      invariant joined == Joined(stringList[..k], delimiter)
    {
      assert stringList[..k + 1] == stringList[..k] + [stringList[k]];
      if k == 0 {
        joined := stringList[k];
      } else {
        JoinedSnoc(stringList[..k], stringList[k], delimiter);
        joined := joined + delimiter + stringList[k];
      }
    }
    assert stringList[..|stringList|] == stringList;
  }

  /**
   The accumulation step of `Collectors.joining`: the text gathered so far,
   extended by the delimiter and the next item for each remaining item.
   */
  function Accumulate(acc: String, rest: seq<String>, delimiter: String): (r: String)
    ensures |r| == |acc| + TotalLength(rest) + |rest| * |delimiter|
    ensures r[..|acc|] == acc
    decreases |rest|
  {
    if rest == [] then acc
    else
      var next := acc + delimiter + rest[0];
      var r := Accumulate(next, rest[1..], delimiter);
      assert r[..|acc|] == next[..|acc|];
      assert |rest| * |delimiter| == |rest[1..]| * |delimiter| + |delimiter|;
      r
  }

  lemma {:induction false} AccumulateJoins(acc: String, rest: seq<String>, delimiter: String)
    requires rest != []
    ensures Accumulate(acc, rest, delimiter) == acc + delimiter + Joined(rest, delimiter)
    decreases |rest|
  {
    if |rest| > 1 {
      AccumulateJoins(acc + delimiter + rest[0], rest[1..], delimiter);
    } else {
      assert rest[1..] == [];
    }
  }

  /** `joinUsingStreams`: a stream collected with `Collectors.joining`. */
  function JoinUsingStreams(stringList: seq<String>, delimiter: String): (joined: String)
    ensures joined == Joined(stringList, delimiter)
  {
    if stringList == [] then []
    else if |stringList| == 1 then stringList[0]
    else
      AccumulateJoins(stringList[0], stringList[1..], delimiter);
      Accumulate(stringList[0], stringList[1..], delimiter)
  }

  /**
   `joinObjects`: every element is turned into text by `toString` (the
   element type's own `toString`, a call this model does not see) and the
   texts are collected with `Collectors.joining`.
   */
  function JoinObjects<E>(list: seq<E>, delimiter: String, toString: E -> String): (joined: String)
    ensures joined == Joined(MapSeq(toString, list), delimiter)
  {
    JoinUsingStreams(MapSeq(toString, list), delimiter)
  }

  // ---------------------------------------------------------------------------
  // Splitting at runs of spaces
  // ---------------------------------------------------------------------------

  /** A token between space runs: non-empty and free of spaces. */
  predicate IsWord(w: String)
  {
    w != [] && ' ' !in w
  }

  /** Length of the longest prefix of `s` that holds no space. */
  function WordLength(s: String): (n: nat)
    ensures n <= |s|
    ensures forall k :: 0 <= k < n ==> s[k] != ' '
    ensures n < |s| ==> s[n] == ' '
  {
    if s == [] || s[0] == ' ' then 0 else 1 + WordLength(s[1..])
  }

  /** The maximal space-free pieces of `s`, in order. */
  function Words(s: String): (ws: seq<String>)
    ensures forall k :: 0 <= k < |ws| ==> IsWord(ws[k])
    decreases |s|
  {
    if s == [] then []
    else if s[0] == ' ' then Words(s[1..])
    else
      var n := WordLength(s);
      [s[..n]] + Words(s[n..])
  }

  /**
   `Pattern.compile(" +").splitAsStream(str)`: the pieces of `str` between
   maximal runs of spaces, without the trailing empty pieces. An empty input
   is the one piece `""`; an input that starts with a space but holds some
   other character has an empty first piece; an input of spaces only has no
   pieces.
   */
  function Split(str: String): (pieces: seq<String>)
    ensures forall k :: 0 < k < |pieces| ==> IsWord(pieces[k])
    ensures pieces == [] <==> (str != [] && forall k :: 0 <= k < |str| ==> str[k] == ' ')
    ensures pieces != [] ==> (pieces[0] == [] <==> str == [] || str[0] == ' ')
  {
    WordsEmptyIffSpaces(str);
    if str == [] then [[]]
    else if str[0] == ' ' && Words(str) != [] then [[]] + Words(str)
    else Words(str)
  }

  /** `s` has no words exactly when every character of `s` is a space. */
  lemma {:induction false} WordsEmptyIffSpaces(s: String)
    ensures Words(s) == [] <==> forall k :: 0 <= k < |s| ==> s[k] == ' '
    decreases |s|
  {
    if s != [] && s[0] == ' ' {
      WordsEmptyIffSpaces(s[1..]);
      if Words(s) == [] {
        forall k | 0 <= k < |s| ensures s[k] == ' ' {
          if k > 0 { assert s[1..][k - 1] == s[k]; }
        }
      }
    }
  }

  /**
   `reverseWordsInString`: the pieces are collected into a `LinkedList` by
   `addFirst` (so in reverse order) and rejoined with one space by
   `String.join`.
   */
  function ReverseWordsInString(str: String): (r: String)
    ensures r == Joined(Reverse(Split(str)), " ")
  {
    CollectByAddFirstReverses([], Split(str));
    assert Reverse(Split(str)) + [] == Reverse(Split(str));
    var revWordsList := CollectByAddFirst([], Split(str));
    Joined(revWordsList, " ")
  }

  /** Adds each remaining item at the front of `list`, left to right. */
  function CollectByAddFirst(list: seq<String>, rest: seq<String>): (r: seq<String>)
    ensures |r| == |list| + |rest|
    ensures r[|rest|..] == list
    decreases |rest|
  {
    if rest == [] then list else CollectByAddFirst([rest[0]] + list, rest[1..])
  }

  lemma {:induction false} CollectByAddFirstReverses(list: seq<String>, rest: seq<String>)
    ensures CollectByAddFirst(list, rest) == Reverse(rest) + list
    decreases |rest|
  {
    if rest != [] {
      CollectByAddFirstReverses([rest[0]] + list, rest[1..]);
      assert Reverse(rest) == Reverse(rest[1..]) + [rest[0]];
    }
  }

  /**
   `reverseWordCharacters`: every piece is reversed in place of the piece and
   the results are collected with `Collectors.joining(" ")`.
   */
  function ReverseWordCharacters(str: String): (r: String)
    ensures r == Joined(MapSeq(Reverse, Split(str)), " ")
  {
    JoinUsingStreams(MapSeq(Reverse, Split(str)), " ")
  }

  // ---------------------------------------------------------------------------
  // Palindromes
  // ---------------------------------------------------------------------------

  /** `isPalindromeUsingBuilder`: the text equals its own reverse. */
  predicate IsPalindromeUsingBuilder(s: String)
    ensures IsPalindromeUsingBuilder(s) <==> forall i :: 0 <= i < |s| ==> s[i] == s[|s| - 1 - i]
  {
    s == Reverse(s)
  }

  /** Comparing mirrored pairs in the first half decides the palindrome test. */
  lemma MirroredHalvesIffPalindrome(s: String)
    ensures (forall i :: 0 <= i < |s| / 2 ==> s[i] == s[|s| - 1 - i]) <==> IsPalindromeUsingBuilder(s)
  {
    var r := Reverse(s);
    if forall i :: 0 <= i < |s| / 2 ==> s[i] == s[|s| - 1 - i] {
      forall i | 0 <= i < |s|
        ensures s[i] == r[i]
      {
        if |s| / 2 <= i {
          var j := |s| - 1 - i;
          if j < |s| / 2 {
            assert s[j] == s[|s| - 1 - j];
          }
        }
      }
    }
  }

  /** The empty text and every one-character text are palindromes; "ab" is not, "aba" is. */
  lemma PalindromeExamples(c: char)
    ensures IsPalindromeUsingBuilder([]) && IsPalindromeUsingBuilder([c])
    ensures !IsPalindromeUsingBuilder("ab") && IsPalindromeUsingBuilder("aba")
  {
    assert Reverse("ab")[0] == 'b';
    assert Reverse("aba") == "aba";
  }

  /**
   `isPalindrome`: compares the characters at `i` and `n - i - 1` for the
   first `n / 2` positions and answers false at the first mismatch.
   */
  method IsPalindrome(s: String) returns (palindrome: bool)
    ensures palindrome <==> forall i :: 0 <= i < |s| / 2 ==> s[i] == s[|s| - 1 - i]
    ensures palindrome == IsPalindromeUsingBuilder(s)
  {
    MirroredHalvesIffPalindrome(s);
    var n := |s|;
    for i := 0 to n / 2
      invariant forall k :: 0 <= k < i ==> s[k] == s[n - 1 - k]
    {
      if s[i] != s[n - i - 1] {
        return false;
      }
    }
    return true;
  }

  // ---------------------------------------------------------------------------
  // Levenshtein distance
  // ---------------------------------------------------------------------------

  /** `minimum`: the least of three integers. */
  function Minimum(i: int, j: int, k: int): (m: int)
    ensures m <= i && m <= j && m <= k
    ensures m == i || m == j || m == k
  {
    var ij := if i <= j then i else j;
    if ij <= k then ij else k
  }

  /** Cost of aligning the two characters: 0 when they match, else 1. */
  function SubstitutionCost(x: char, y: char): nat
  {
    if x == y then 0 else 1
  }

  /**
   The edit distance of two texts, by the recurrence on their last
   characters: the distance to or from the empty text is the other length;
   otherwise the cheapest of deleting the last character of `lhs`, inserting
   the last character of `rhs`, and matching or substituting the two last
   characters.
   */
  function Lev(lhs: String, rhs: String): nat
    decreases |lhs| + |rhs|
  {
    if |lhs| == 0 then |rhs|
    else if |rhs| == 0 then |lhs|
    else
      var i, j := |lhs|, |rhs|;
      Minimum(Lev(lhs[..i - 1], rhs) + 1,
              Lev(lhs, rhs[..j - 1]) + 1,
              Lev(lhs[..i - 1], rhs[..j - 1]) + SubstitutionCost(lhs[i - 1], rhs[j - 1]))
  }

  /** One cell of the table, written in terms of prefixes of the full texts. */
  lemma LevCell(lhs: String, rhs: String, i: nat, j: nat)
    requires 0 < i <= |lhs| && 0 < j <= |rhs|
    ensures Lev(lhs[..i], rhs[..j]) ==
            Minimum(Lev(lhs[..i - 1], rhs[..j]) + 1,
                    Lev(lhs[..i], rhs[..j - 1]) + 1,
                    Lev(lhs[..i - 1], rhs[..j - 1]) + SubstitutionCost(lhs[i - 1], rhs[j - 1]))
  {
    assert lhs[..i][..i - 1] == lhs[..i - 1];
    assert rhs[..j][..j - 1] == rhs[..j - 1];
  }

  /** Cells `[p, q]` of rows `0 .. rows - 1` hold the distances of the prefixes. */
  ghost predicate RowsHold(distance: array2<int>, lhs: String, rhs: String, rows: nat)
    requires distance.Length0 == |lhs| + 1 && distance.Length1 == |rhs| + 1
    requires rows <= |lhs| + 1
    reads distance
  {
    forall p, q :: 0 <= p < rows && 0 <= q <= |rhs| ==> distance[p, q] == Lev(lhs[..p], rhs[..q])
  }

  /**
   `levenshteinDistance`: fills the `(|lhs| + 1) x (|rhs| + 1)` table, first
   column 0 and row 0, then every inner cell row by row from its three
   neighbours, and answers the last cell. Every filled cell `[i, j]` holds
   the distance of the prefixes `lhs[..i]` and `rhs[..j]`.
   */
  method LevenshteinDistance(lhs: String, rhs: String) returns (d: int)
    ensures d == Lev(lhs, rhs)
  {
    var distance := new int[|lhs| + 1, |rhs| + 1];

    for i := 0 to |lhs| + 1
      invariant forall p :: 0 <= p < i ==> distance[p, 0] == p
    {
      distance[i, 0] := i;
    }
    for j := 1 to |rhs| + 1
      invariant forall p :: 0 <= p <= |lhs| ==> distance[p, 0] == p
      invariant forall q :: 1 <= q < j ==> distance[0, q] == q
    {
      distance[0, j] := j;
    }

    forall q | 0 <= q <= |rhs| ensures distance[0, q] == Lev(lhs[..0], rhs[..q]) {
      assert lhs[..0] == [];
    }
    for i := 1 to |lhs| + 1
      invariant RowsHold(distance, lhs, rhs, i)
      invariant forall p :: i <= p <= |lhs| ==> distance[p, 0] == p
    {
      FillRow(distance, lhs, rhs, i);
    }

    assert lhs[..|lhs|] == lhs && rhs[..|rhs|] == rhs;
    d := distance[|lhs|, |rhs|];
  }

  /**
   The inner loop of `levenshteinDistance`: fills cells `[i, 1] .. [i, |rhs|]`
   of row `i` from the row above and the cell to the left; no other row
   changes.
   */
  method FillRow(distance: array2<int>, lhs: String, rhs: String, i: nat)
    requires distance.Length0 == |lhs| + 1 && distance.Length1 == |rhs| + 1
    requires 0 < i <= |lhs|
    requires RowsHold(distance, lhs, rhs, i)
    requires distance[i, 0] == i
    modifies distance
    ensures RowsHold(distance, lhs, rhs, i + 1)
    ensures forall p, q :: 0 <= p <= |lhs| && 0 <= q <= |rhs| && p != i ==> distance[p, q] == old(distance[p, q])
  {
    assert rhs[..0] == [];
    for j := 1 to |rhs| + 1
      invariant RowsHold(distance, lhs, rhs, i)
      invariant forall q :: 0 <= q < j ==> distance[i, q] == Lev(lhs[..i], rhs[..q])
      invariant forall p, q :: 0 <= p <= |lhs| && 0 <= q <= |rhs| && p != i ==> distance[p, q] == old(distance[p, q])
    {
      LevCell(lhs, rhs, i, j);
      distance[i, j] := Minimum(
        distance[i - 1, j] + 1,
        distance[i, j - 1] + 1,
        distance[i - 1, j - 1] + (if lhs[i - 1] == rhs[j - 1] then 0 else 1));
    }
  }
}
