/**
 Properties of splitting at runs of spaces and of the two word transforms
 built on it, `reverseWordsInString` and `reverseWordCharacters`.
 */
module WordProperties {
  import opened StringUtils

  /** The characters of `s` other than spaces, in order. */
  function NonSpaces(s: String): String
  {
    if s == [] then []
    else if s[0] == ' ' then NonSpaces(s[1..])
    else [s[0]] + NonSpaces(s[1..])
  }

  /** All items of `items`, one after the other. */
  function Concat(items: seq<String>): String
  {
    if items == [] then [] else items[0] + Concat(items[1..])
  }

  lemma {:induction false} NonSpacesAppend(x: String, y: String)
    ensures NonSpaces(x + y) == NonSpaces(x) + NonSpaces(y)
  {
    if x != [] {
      assert (x + y)[0] == x[0];
      assert (x + y)[1..] == x[1..] + y;
      NonSpacesAppend(x[1..], y);
      if x[0] != ' ' {
        assert [x[0]] + (NonSpaces(x[1..]) + NonSpaces(y)) == ([x[0]] + NonSpaces(x[1..])) + NonSpaces(y);
      }
    } else {
      assert x + y == y;
    }
  }

  lemma {:induction false} NonSpacesOfSpaceFree(w: String)
    requires ' ' !in w
    ensures NonSpaces(w) == w
  {
    if w != [] {
      assert ' ' !in w[1..] by {
        forall k | 0 <= k < |w[1..]| ensures w[1..][k] != ' ' {
          assert w[1..][k] == w[k + 1];
        }
      }
      NonSpacesOfSpaceFree(w[1..]);
    }
  }

  /** The words hold every non-space character of the text, in order, and no other. */
  lemma {:induction false} WordsCoverNonSpaces(s: String)
    ensures Concat(Words(s)) == NonSpaces(s)
    decreases |s|
  {
    if s != [] {
      if s[0] == ' ' {
        WordsCoverNonSpaces(s[1..]);
      } else {
        var n := WordLength(s);
        WordsCoverNonSpaces(s[n..]);
        assert s == s[..n] + s[n..];
        NonSpacesAppend(s[..n], s[n..]);
        NonSpacesOfSpaceFree(s[..n]);
        assert ([s[..n]] + Words(s[n..]))[1..] == Words(s[n..]);
      }
    }
  }

  /** A space-free prefix extends the length of the leading word by its own length. */
  lemma {:induction false} WordLengthAfterSpaceFree(w: String, rest: String)
    requires ' ' !in w
    ensures WordLength(w + rest) == |w| + WordLength(rest)
  {
    if w != [] {
      assert (w + rest)[0] == w[0];
      assert (w + rest)[1..] == w[1..] + rest;
      assert ' ' !in w[1..] by {
        forall k | 0 <= k < |w[1..]| ensures w[1..][k] != ' ' {
          assert w[1..][k] == w[k + 1];
        }
      }
      WordLengthAfterSpaceFree(w[1..], rest);
    } else {
      assert w + rest == rest;
    }
  }

  /** A word followed by a space and more text is the first word of the whole. */
  lemma WordsOfWordThenSpace(w: String, rest: String)
    requires IsWord(w)
    ensures Words(w + " " + rest) == [w] + Words(rest)
  {
    var s := w + " " + rest;
    assert s == w + (" " + rest);
    WordLengthAfterSpaceFree(w, " " + rest);
    assert s[0] == w[0];
    assert s[..|w|] == w;
    assert s[|w|..] == " " + rest;
    assert (" " + rest)[1..] == rest;
  }

  /** A single word splits into itself. */
  lemma WordsOfWord(w: String)
    requires IsWord(w)
    ensures Words(w) == [w]
  {
    WordLengthAfterSpaceFree(w, []);
    assert w + [] == w;
    assert w[..|w|] == w;
    assert w[|w|..] == [];
  }

  /** Joining words with one space and splitting again gives back the words. */
  lemma {:induction false} WordsOfJoined(ws: seq<String>)
    requires forall k :: 0 <= k < |ws| ==> IsWord(ws[k])
    ensures Words(Joined(ws, " ")) == ws
  {
    if |ws| == 1 {
      WordsOfWord(ws[0]);
    } else if |ws| > 1 {
      WordsOfJoined(ws[1..]);
      WordsOfWordThenSpace(ws[0], Joined(ws[1..], " "));
    }
  }

  /** A trailing space adds no word. */
  lemma {:induction false} WordsTrailingSpace(s: String)
    ensures Words(s + " ") == Words(s)
    decreases |s|
  {
    if s == [] {
      assert s + " " == " ";
      assert " "[1..] == [];
    } else if s[0] == ' ' {
      assert (s + " ")[1..] == s[1..] + " ";
      WordsTrailingSpace(s[1..]);
    } else {
      var n := WordLength(s);
      var t := s + " ";
      assert s == s[..n] + s[n..];
      assert t == s[..n] + (s[n..] + " ");
      WordLengthAfterSpaceFree(s[..n], s[n..] + " ");
      assert WordLength(t) == n;
      assert t[..n] == s[..n];
      assert t[n..] == s[n..] + " ";
      WordsTrailingSpace(s[n..]);
    }
  }

  /** The first character of a join of words is the first character of the first word. */
  lemma JoinedStartsWithWord(ws: seq<String>)
    requires ws != [] && IsWord(ws[0])
    ensures Joined(ws, " ") != [] && Joined(ws, " ")[0] == ws[0][0]
  {
  }

  /** Splitting a non-empty list of words joined by one space gives back the list. */
  lemma SplitOfJoined(ws: seq<String>)
    requires ws != []
    requires forall k :: 0 <= k < |ws| ==> IsWord(ws[k])
    ensures Split(Joined(ws, " ")) == ws
  {
    JoinedStartsWithWord(ws);
    WordsOfJoined(ws);
  }

  /** Every piece of a split text is a word, except a leading empty piece. */
  lemma SplitIsWords(str: String)
    requires str != []
    ensures Split(str) == Words(str) || (str[0] == ' ' && Split(str) == [[]] + Words(str) && Words(str) != [])
  {
  }

  /** Reversal keeps a word a word. */
  lemma ReverseIsWord(w: String)
    requires IsWord(w)
    ensures IsWord(Reverse(w))
  {
    var r := Reverse(w);
    forall k | 0 <= k < |r| ensures r[k] != ' ' {
      assert r[k] == w[|w| - 1 - k];
    }
  }

  /** Reversing a list of words gives a list of words. */
  lemma ReverseKeepsWords(ws: seq<String>)
    requires forall k :: 0 <= k < |ws| ==> IsWord(ws[k])
    ensures forall k :: 0 <= k < |ws| ==> IsWord(Reverse(ws)[k])
  {
    var rws := Reverse(ws);
    forall k | 0 <= k < |ws| ensures IsWord(rws[k]) {
      var j := |ws| - 1 - k;
      assert IsWord(ws[j]);
      assert rws[k] == ws[j];
    }
  }

  /** Reversing `[x] + ws` gives `Reverse(ws) + [x]`. */
  lemma ReverseCons(x: String, ws: seq<String>)
    ensures Reverse([x] + ws) == Reverse(ws) + [x]
  {
    assert ([x] + ws)[1..] == ws;
  }

  /**
   Words joined by one space, followed by an empty piece, join to a text with
   a trailing space, which splits back into the words alone.
   */
  lemma SplitOfJoinedTrailingSpace(rws: seq<String>)
    requires rws != []
    requires forall k :: 0 <= k < |rws| ==> IsWord(rws[k])
    ensures Split(Joined(rws + [[]], " ")) == rws
  {
    JoinedSnoc(rws, [], " ");
    var t := Joined(rws, " ");
    assert Joined(rws, " ") + " " + [] == t + " ";
    JoinedStartsWithWord(rws);
    WordsTrailingSpace(t);
    WordsOfJoined(rws);
    assert (t + " ")[0] == t[0];
  }

  /**
   The output of `reverseWordsInString` splits into the words of the input in
   reverse order: a leading space of the input only leaves a trailing space
   in the output.
   */
  lemma ReverseWordsInStringTokens(str: String)
    requires Words(str) != []
    ensures Split(ReverseWordsInString(str)) == Reverse(Words(str))
  {
    var ws := Words(str);
    var rws := Reverse(ws);
    ReverseKeepsWords(ws);
    SplitIsWords(str);
    var pieces := Split(str);
    assert ReverseWordsInString(str) == Joined(Reverse(pieces), " ");
    if pieces == ws {
      SplitOfJoined(rws);
    } else {
      ReverseCons([], ws);
      assert pieces == [[]] + ws;
      assert Reverse(pieces) == rws + [[]];
      SplitOfJoinedTrailingSpace(rws);
    }
  }

  /**
   Reversing the word order twice gives the words of the input joined by
   single spaces: space runs collapse and leading and trailing spaces go.
   */
  lemma ReverseWordsInStringTwice(str: String)
    ensures ReverseWordsInString(ReverseWordsInString(str)) == Joined(Words(str), " ")
  {
    var ws := Words(str);
    if ws == [] {
      assert Split(str) == [] || Split(str) == [[]];
      assert Reverse<String>([[]]) == [[]];
      assert ReverseWordsInString(str) == [];
      assert Split([]) == [[]];
    } else {
      ReverseWordsInStringTokens(str);
      ReverseReverse(ws);
    }
  }

  /** Normalising the spacing keeps the words. */
  lemma NormalizedSpacingKeepsWords(str: String)
    ensures Words(Joined(Words(str), " ")) == Words(str)
  {
    WordsOfJoined(Words(str));
  }

  /** Reversing every word of a list gives a list of words. */
  lemma MapReverseKeepsWords(ws: seq<String>)
    requires forall k :: 0 <= k < |ws| ==> IsWord(ws[k])
    ensures forall k :: 0 <= k < |ws| ==> IsWord(MapSeq(Reverse, ws)[k])
  {
    var rws := MapSeq(Reverse, ws);
    forall k | 0 <= k < |rws| ensures IsWord(rws[k]) {
      ReverseIsWord(ws[k]);
    }
  }

  /**
   An empty piece followed by words, joined by one space, gives a text that
   starts with a space and splits back into that empty piece and the words.
   */
  lemma SplitOfLeadingSpaceJoined(rws: seq<String>)
    requires rws != []
    requires forall k :: 0 <= k < |rws| ==> IsWord(rws[k])
    ensures Split(Joined([[]] + rws, " ")) == [[]] + rws
  {
    var t := Joined(rws, " ");
    var s := " " + t;
    JoinedAfterEmpty(rws, " ");
    assert Words(s) == rws by {
      WordsLeadingSpace(t);
      WordsOfJoined(rws);
    }
    assert s[0] == ' ';
  }

  /** Joining after an empty first item starts with the delimiter. */
  lemma JoinedAfterEmpty(items: seq<String>, delimiter: String)
    requires items != []
    ensures Joined([[]] + items, delimiter) == delimiter + Joined(items, delimiter)
  {
    assert ([[]] + items)[1..] == items;
    assert [] + delimiter == delimiter;
  }

  /** A leading space adds no word. */
  lemma WordsLeadingSpace(t: String)
    ensures Words(" " + t) == Words(t)
  {
    assert (" " + t)[1..] == t;
  }

  /**
   The output of `reverseWordCharacters` splits into the reversed pieces of
   the input, in the same order, as long as the input has a piece at all.
   */
  lemma ReverseWordCharactersTokens(str: String)
    requires Split(str) != []
    ensures Split(ReverseWordCharacters(str)) == MapSeq(Reverse, Split(str))
  {
    var pieces := Split(str);
    var reversed := MapSeq(Reverse, pieces);
    if str == [] {
      assert pieces == [[]];
      assert reversed == [[]];
    } else {
      var ws := Words(str);
      var rws := MapSeq(Reverse, ws);
      MapReverseKeepsWords(ws);
      SplitIsWords(str);
      assert ReverseWordCharacters(str) == Joined(reversed, " ");
      if pieces == ws {
        assert ws != [];
        SplitOfJoined(rws);
      } else {
        assert reversed == [[]] + rws by {
          assert Reverse<char>([]) == [];
        }
        SplitOfLeadingSpaceJoined(rws);
      }
    }
  }

  /** A text without spaces: the word order reversal keeps it, the character reversal reverses it. */
  lemma WithoutSpaces(str: String)
    requires ' ' !in str
    ensures ReverseWordsInString(str) == str
    ensures ReverseWordCharacters(str) == Reverse(str)
  {
    if str == [] {
      assert Split(str) == [[]];
      assert Reverse<String>([[]]) == [[]];
      assert MapSeq(Reverse, [[]]) == [Reverse<char>([])];
    } else {
      WordsOfWord(str);
      assert Split(str) == [str];
      assert Reverse([str]) == [str];
      assert MapSeq(Reverse, [str]) == [Reverse(str)];
    }
  }

  /** Edge cases of the split: leading, repeated and trailing spaces, and empty input. */
  lemma SplitExamples()
    ensures Split("") == [""]
    ensures Split("   ") == []
    ensures Split(" a b") == ["", "a", "b"]
    ensures Split("a  b  ") == ["a", "b"]
  {
    assert " a b" == " " + Joined(["a", "b"], " ");
    SplitOfJoined(["a", "b"]);
    assert " a b"[1..] == "a b";
    assert "a  b  " == "a" + " " + " b  ";
    WordsOfWordThenSpace("a", " b  ");
    assert " b  "[1..] == "b  ";
    assert "b  " == "b" + " " + " ";
    WordsOfWordThenSpace("b", " ");
    assert " "[1..] == [];
  }

  /** The sample sentence of the test suite splits into its four words. */
  lemma SampleSentenceSplit()
    ensures Split("This is an apple") == ["This", "is", "an", "apple"]
  {
    var ws: seq<String> := ["This", "is", "an", "apple"];
    assert Joined(ws, " ") == "This is an apple" by {
      assert ws[1..] == ["is", "an", "apple"];
      assert ws[1..][1..] == ["an", "apple"];
      assert ws[1..][1..][1..] == ["apple"];
    }
    SplitOfJoined(ws);
  }

  /** The word order example of the test suite. */
  lemma ReverseWordsInStringExample()
    ensures ReverseWordsInString("This is an apple") == "apple an is This"
  {
    var ws: seq<String> := ["This", "is", "an", "apple"];
    var rws: seq<String> := ["apple", "an", "is", "This"];
    assert Reverse(ws) == rws;
    assert Joined(rws, " ") == "apple an is This" by {
      assert Joined(["is", "This"], " ") == "is This" by {
        assert ["is", "This"][1..] == ["This"];
      }
      assert Joined(["an", "is", "This"], " ") == "an is This" by {
        assert ["an", "is", "This"][1..] == ["is", "This"];
      }
      assert rws[1..] == ["an", "is", "This"];
    }
    SampleSentenceSplit();
  }

  /** The words of the sample sentence, each reversed. */
  lemma SampleWordsReversed()
    ensures MapSeq(Reverse, ["This", "is", "an", "apple"]) == ["sihT", "si", "na", "elppa"]
  {
    var ws: seq<String> := ["This", "is", "an", "apple"];
    var cws: seq<String> := ["sihT", "si", "na", "elppa"];
    assert Reverse(ws[0]) == cws[0];
    assert Reverse(ws[1]) == cws[1];
    assert Reverse(ws[2]) == cws[2];
    assert Reverse(ws[3]) == cws[3];
  }

  /** The character order example of the test suite. */
  lemma ReverseWordCharactersExample()
    ensures ReverseWordCharacters("This is an apple") == "sihT si na elppa"
  {
    var cws: seq<String> := ["sihT", "si", "na", "elppa"];
    assert Joined(cws, " ") == "sihT si na elppa" by {
      assert Joined(["na", "elppa"], " ") == "na elppa" by {
        assert ["na", "elppa"][1..] == ["elppa"];
      }
      assert Joined(["si", "na", "elppa"], " ") == "si na elppa" by {
        assert ["si", "na", "elppa"][1..] == ["na", "elppa"];
      }
      assert cws[1..] == ["si", "na", "elppa"];
    }
    SampleWordsReversed();
    SampleSentenceSplit();
  }
}
