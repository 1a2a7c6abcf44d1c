/**
 What the Levenshtein recurrence `Lev` computed by `levenshteinDistance`
 means: it is a metric on texts, it is exactly the least cost of a
 left-to-right script of keeps, insertions, deletions and substitutions that
 turns one text into the other, and it gives the values the test suite
 expects.
 */
module EditDistance {
  import opened StringUtils

  // ---------------------------------------------------------------------------
  // Base cases and bounds
  // ---------------------------------------------------------------------------

  /** Row 0 of the table: from the empty text, insert every character. */
  lemma LevFromEmpty(s: String)
    ensures Lev([], s) == |s|
  {
  }

  /** Column 0 of the table: to the empty text, delete every character. */
  lemma LevToEmpty(s: String)
    ensures Lev(s, []) == |s|
  {
  }

  /** The distance is at least the difference of the lengths. */
  lemma {:induction false} LevAtLeastLengthDifference(lhs: String, rhs: String)
    ensures Lev(lhs, rhs) >= |lhs| - |rhs| && Lev(lhs, rhs) >= |rhs| - |lhs|
    decreases |lhs| + |rhs|
  {
    if |lhs| > 0 && |rhs| > 0 {
      var i, j := |lhs|, |rhs|;
      LevAtLeastLengthDifference(lhs[..i - 1], rhs);
      LevAtLeastLengthDifference(lhs, rhs[..j - 1]);
      LevAtLeastLengthDifference(lhs[..i - 1], rhs[..j - 1]);
    }
  }

  /** The distance is at most the length of the longer text. */
  lemma {:induction false} LevAtMostLongerLength(lhs: String, rhs: String)
    ensures Lev(lhs, rhs) <= if |lhs| <= |rhs| then |rhs| else |lhs|
    decreases |lhs| + |rhs|
  {
    if |lhs| > 0 && |rhs| > 0 {
      LevAtMostLongerLength(lhs[..|lhs| - 1], rhs[..|rhs| - 1]);
    }
  }

  // ---------------------------------------------------------------------------
  // Metric laws
  // ---------------------------------------------------------------------------

  /** Every text is at distance 0 from itself. */
  lemma {:induction false} LevSelf(s: String)
    ensures Lev(s, s) == 0
    decreases |s|
  {
    if |s| > 0 {
      LevSelf(s[..|s| - 1]);
    }
  }

  /** Only equal texts are at distance 0. */
  lemma {:induction false} LevZeroMeansEqual(lhs: String, rhs: String)
    requires Lev(lhs, rhs) == 0
    ensures lhs == rhs
    decreases |lhs| + |rhs|
  {
    if |lhs| > 0 && |rhs| > 0 {
      var i, j := |lhs|, |rhs|;
      LevZeroMeansEqual(lhs[..i - 1], rhs[..j - 1]);
      assert lhs == lhs[..i - 1] + [lhs[i - 1]];
      assert rhs == rhs[..j - 1] + [rhs[j - 1]];
    }
  }

  /** Distance 0 means equal texts, and only equal texts are at distance 0. */
  lemma LevZeroIffEqual(lhs: String, rhs: String)
    ensures Lev(lhs, rhs) == 0 <==> lhs == rhs
  {
    if lhs == rhs {
      LevSelf(lhs);
    } else if Lev(lhs, rhs) == 0 {
      LevZeroMeansEqual(lhs, rhs);
    }
  }

  /** Turning `lhs` into `rhs` costs as much as turning `rhs` into `lhs`. */
  lemma {:induction false} LevSymmetric(lhs: String, rhs: String)
    ensures Lev(lhs, rhs) == Lev(rhs, lhs)
    decreases |lhs| + |rhs|
  {
    if |lhs| > 0 && |rhs| > 0 {
      var i, j := |lhs|, |rhs|;
      LevSymmetric(lhs[..i - 1], rhs);
      LevSymmetric(lhs, rhs[..j - 1]);
      LevSymmetric(lhs[..i - 1], rhs[..j - 1]);
    }
  }

  /** Going through an intermediate text is never cheaper. */
  lemma {:induction false} LevTriangle(a: String, b: String, c: String)
    ensures Lev(a, c) <= Lev(a, b) + Lev(b, c)
    decreases |a| + |b| + |c|
  {
    if |a| == 0 {
      LevAtLeastLengthDifference(b, c);
    } else if |c| == 0 {
      LevAtLeastLengthDifference(a, b);
    } else if |b| == 0 {
      LevAtMostLongerLength(a, c);
    } else {
      var a', b', c' := a[..|a| - 1], b[..|b| - 1], c[..|c| - 1];
      LevTriangle(a', b, c);
      LevTriangle(a, b, c');
      LevTriangle(a, b', c);
      LevTriangle(a, b', c');
      LevTriangle(a', b', c);
      LevTriangle(a', b', c');
    }
  }

  // ---------------------------------------------------------------------------
  // Edit scripts
  // ---------------------------------------------------------------------------

  /**
   One step of an edit script, applied at the current position of the source
   text: keep its character, write `c` in its place, write `c` before it, or
   drop it.
   */
  datatype Edit = Keep | Substitute(c: char) | Insert(c: char) | Delete

  datatype Option<T> = None | Some(value: T)

  /** Keeping a character is free; every other edit costs one. */
  function EditCost(e: Edit): nat
  {
    if e.Keep? then 0 else 1
  }

  /** The number of insertions, deletions and substitutions in a script. */
  function Cost(script: seq<Edit>): nat
  {
    if script == [] then 0 else Cost(script[..|script| - 1]) + EditCost(script[|script| - 1])
  }

  function Extend(result: Option<String>, tail: String): Option<String>
  {
    match result
    case None => None
    case Some(t) => Some(t + tail)
  }

  /**
   The text that `script` makes of `s`, both read from left to right (the
   definition peels off the last edit), or `None` when the script does not
   consume `s` exactly.
   */
  function Apply(script: seq<Edit>, s: String): Option<String>
    decreases |script|
  {
    if script == [] then (if s == [] then Some([]) else None)
    else
      var init := script[..|script| - 1];
      match script[|script| - 1]
      case Insert(c) => Extend(Apply(init, s), [c])
      case Keep => if s == [] then None else Extend(Apply(init, s[..|s| - 1]), [s[|s| - 1]])
      case Substitute(c) => if s == [] then None else Extend(Apply(init, s[..|s| - 1]), [c])
      case Delete => if s == [] then None else Apply(init, s[..|s| - 1])
  }

  /** A script that turns `lhs` into `rhs` with exactly `Lev(lhs, rhs)` edits. */
  function CheapestScript(lhs: String, rhs: String): (script: seq<Edit>)
    ensures Apply(script, lhs) == Some(rhs)
    ensures Cost(script) == Lev(lhs, rhs)
    decreases |lhs| + |rhs|
  {
    if |lhs| == 0 && |rhs| == 0 then []
    else
      var i, j := |lhs|, |rhs|;
      if i > 0 && (j == 0 || Lev(lhs, rhs) == Lev(lhs[..i - 1], rhs) + 1) then
        var init := CheapestScript(lhs[..i - 1], rhs);
        assert (init + [Delete])[..|init|] == init;
        init + [Delete]
      else if j > 0 && (i == 0 || Lev(lhs, rhs) == Lev(lhs, rhs[..j - 1]) + 1) then
        var init := CheapestScript(lhs, rhs[..j - 1]);
        assert (init + [Insert(rhs[j - 1])])[..|init|] == init;
        assert rhs == rhs[..j - 1] + [rhs[j - 1]];
        init + [Insert(rhs[j - 1])]
      else
        var init := CheapestScript(lhs[..i - 1], rhs[..j - 1]);
        var last := if lhs[i - 1] == rhs[j - 1] then Keep else Substitute(rhs[j - 1]);
        assert (init + [last])[..|init|] == init;
        assert rhs == rhs[..j - 1] + [rhs[j - 1]];
        init + [last]
  }

  /** No script that turns `lhs` into `rhs` has fewer than `Lev(lhs, rhs)` edits. */
  lemma {:induction false} ScriptCostAtLeastLev(script: seq<Edit>, lhs: String, rhs: String)
    requires Apply(script, lhs) == Some(rhs)
    ensures Cost(script) >= Lev(lhs, rhs)
    decreases |script|
  {
    if script != [] {
      var init := script[..|script| - 1];
      match script[|script| - 1]
      case Insert(c) =>
        var t := Apply(init, lhs).value;
        ScriptCostAtLeastLev(init, lhs, t);
        assert rhs == t + [c];
        assert rhs[..|rhs| - 1] == t;
      case Keep =>
        var t := Apply(init, lhs[..|lhs| - 1]).value;
        ScriptCostAtLeastLev(init, lhs[..|lhs| - 1], t);
        assert rhs == t + [lhs[|lhs| - 1]];
        assert rhs[..|rhs| - 1] == t;
      case Substitute(c) =>
        var t := Apply(init, lhs[..|lhs| - 1]).value;
        ScriptCostAtLeastLev(init, lhs[..|lhs| - 1], t);
        assert rhs == t + [c];
        assert rhs[..|rhs| - 1] == t;
      case Delete =>
        ScriptCostAtLeastLev(init, lhs[..|lhs| - 1], rhs);
    }
  }

  /**
   `Lev` is the least cost of a left-to-right edit script: some script of cost
   `Lev(lhs, rhs)` turns `lhs` into `rhs`, and none with less does.
   */
  lemma LevIsLeastEditCount(lhs: String, rhs: String)
    ensures exists script :: Apply(script, lhs) == Some(rhs) && Cost(script) == Lev(lhs, rhs)
    ensures forall script :: Apply(script, lhs) == Some(rhs) ==> Cost(script) >= Lev(lhs, rhs)
  {
    var cheapest := CheapestScript(lhs, rhs);
    assert Apply(cheapest, lhs) == Some(rhs) && Cost(cheapest) == Lev(lhs, rhs);
    forall script | Apply(script, lhs) == Some(rhs)
      ensures Cost(script) >= Lev(lhs, rhs)
    {
      ScriptCostAtLeastLev(script, lhs, rhs);
    }
  }

  // ---------------------------------------------------------------------------
  // The values of the test suite
  // ---------------------------------------------------------------------------

  /** "frog" becomes "fog" by deleting its 'r', and it cannot cost less than one edit. */
  lemma FrogFog()
    ensures Lev("frog", "fog") == 1
  {
    var k: seq<Edit> := [Keep];
    var kd := k + [Delete];
    var kdk := kd + [Keep];
    var script := kdk + [Keep];
    var f, fr, fro, frog: String := "f", "fr", "fro", "frog";
    assert k[..0] == [] && f[..0] == [] && [] + f == f;
    assert Apply(k, f) == Some(f);
    assert kd[..1] == k && fr[..1] == f;
    assert Apply(kd, fr) == Some(f);
    assert kdk[..2] == kd && fro[..2] == fr && f + [fro[2]] == "fo";
    assert Apply(kdk, fro) == Some("fo");
    assert script[..3] == kdk && frog[..3] == fro && "fo" + [frog[3]] == "fog";
    assert Apply(script, frog) == Some("fog");
    assert Cost(k) == 0 && Cost(kd) == 1 && Cost(kdk) == 1 && Cost(script) == 1;
    ScriptCostAtLeastLev(script, "frog", "fog");
    LevAtLeastLengthDifference("frog", "fog");
  }

  // The row lemmas take the two texts as parameters fixed by `requires`, so that
  // the solver does not unfold `Lev` on literal prefixes.

  /** Row 0 of the table for "elephant" and "hippo". */
  lemma ElephantHippoRow0(a: String, b: String)
    requires a == "elephant" && b == "hippo"
    ensures Lev(a[..0], b[..0]) == 0 && Lev(a[..0], b[..1]) == 1 && Lev(a[..0], b[..2]) == 2
    ensures Lev(a[..0], b[..3]) == 3 && Lev(a[..0], b[..4]) == 4 && Lev(a[..0], b[..5]) == 5
  {
    assert a[..0] == [];
  }

  /** Row 1 of the table for "elephant" and "hippo", from row 0. */
  lemma ElephantHippoRow1(a: String, b: String)
    requires a == "elephant" && b == "hippo"
    ensures Lev(a[..1], b[..0]) == 1 && Lev(a[..1], b[..1]) == 1 && Lev(a[..1], b[..2]) == 2
    ensures Lev(a[..1], b[..3]) == 3 && Lev(a[..1], b[..4]) == 4 && Lev(a[..1], b[..5]) == 5
  {
    ElephantHippoRow0(a, b);
    assert b[..0] == [];
    LevCell(a, b, 1, 1);
    LevCell(a, b, 1, 2);
    LevCell(a, b, 1, 3);
    LevCell(a, b, 1, 4);
    LevCell(a, b, 1, 5);
  }

  /** Row 2 of the table for "elephant" and "hippo", from row 1. */
  lemma ElephantHippoRow2(a: String, b: String)
    requires a == "elephant" && b == "hippo"
    ensures Lev(a[..2], b[..0]) == 2 && Lev(a[..2], b[..1]) == 2 && Lev(a[..2], b[..2]) == 2
    ensures Lev(a[..2], b[..3]) == 3 && Lev(a[..2], b[..4]) == 4 && Lev(a[..2], b[..5]) == 5
  {
    ElephantHippoRow1(a, b);
    assert b[..0] == [];
    LevCell(a, b, 2, 1);
    LevCell(a, b, 2, 2);
    LevCell(a, b, 2, 3);
    LevCell(a, b, 2, 4);
    LevCell(a, b, 2, 5);
  }

  /** Row 3 of the table for "elephant" and "hippo", from row 2. */
  lemma ElephantHippoRow3(a: String, b: String)
    requires a == "elephant" && b == "hippo"
    ensures Lev(a[..3], b[..0]) == 3 && Lev(a[..3], b[..1]) == 3 && Lev(a[..3], b[..2]) == 3
    ensures Lev(a[..3], b[..3]) == 3 && Lev(a[..3], b[..4]) == 4 && Lev(a[..3], b[..5]) == 5
  {
    ElephantHippoRow2(a, b);
    assert b[..0] == [];
    LevCell(a, b, 3, 1);
    LevCell(a, b, 3, 2);
    LevCell(a, b, 3, 3);
    LevCell(a, b, 3, 4);
    LevCell(a, b, 3, 5);
  }

  /** Row 4 of the table for "elephant" and "hippo", from row 3. */
  lemma ElephantHippoRow4(a: String, b: String)
    requires a == "elephant" && b == "hippo"
    ensures Lev(a[..4], b[..0]) == 4 && Lev(a[..4], b[..1]) == 4 && Lev(a[..4], b[..2]) == 4
    ensures Lev(a[..4], b[..3]) == 3 && Lev(a[..4], b[..4]) == 3 && Lev(a[..4], b[..5]) == 4
  {
    ElephantHippoRow3(a, b);
    assert b[..0] == [];
    LevCell(a, b, 4, 1);
    LevCell(a, b, 4, 2);
    LevCell(a, b, 4, 3);
    LevCell(a, b, 4, 4);
    LevCell(a, b, 4, 5);
  }

  /** Row 5 of the table for "elephant" and "hippo", from row 4. */
  lemma ElephantHippoRow5(a: String, b: String)
    requires a == "elephant" && b == "hippo"
    ensures Lev(a[..5], b[..0]) == 5 && Lev(a[..5], b[..1]) == 4 && Lev(a[..5], b[..2]) == 5
    ensures Lev(a[..5], b[..3]) == 4 && Lev(a[..5], b[..4]) == 4 && Lev(a[..5], b[..5]) == 4
  {
    ElephantHippoRow4(a, b);
    assert b[..0] == [];
    LevCell(a, b, 5, 1);
    LevCell(a, b, 5, 2);
    LevCell(a, b, 5, 3);
    LevCell(a, b, 5, 4);
    LevCell(a, b, 5, 5);
  }

  /** Row 6 of the table for "elephant" and "hippo", from row 5. */
  lemma ElephantHippoRow6(a: String, b: String)
    requires a == "elephant" && b == "hippo"
    ensures Lev(a[..6], b[..0]) == 6 && Lev(a[..6], b[..1]) == 5 && Lev(a[..6], b[..2]) == 5
    ensures Lev(a[..6], b[..3]) == 5 && Lev(a[..6], b[..4]) == 5 && Lev(a[..6], b[..5]) == 5
  {
    ElephantHippoRow5(a, b);
    assert b[..0] == [];
    LevCell(a, b, 6, 1);
    LevCell(a, b, 6, 2);
    LevCell(a, b, 6, 3);
    LevCell(a, b, 6, 4);
    LevCell(a, b, 6, 5);
  }

  /** Row 7 of the table for "elephant" and "hippo", from row 6. */
  lemma ElephantHippoRow7(a: String, b: String)
    requires a == "elephant" && b == "hippo"
    ensures Lev(a[..7], b[..0]) == 7 && Lev(a[..7], b[..1]) == 6 && Lev(a[..7], b[..2]) == 6
    ensures Lev(a[..7], b[..3]) == 6 && Lev(a[..7], b[..4]) == 6 && Lev(a[..7], b[..5]) == 6
  {
    ElephantHippoRow6(a, b);
    assert b[..0] == [];
    LevCell(a, b, 7, 1);
    LevCell(a, b, 7, 2);
    LevCell(a, b, 7, 3);
    LevCell(a, b, 7, 4);
    LevCell(a, b, 7, 5);
  }

  /** Row 8 of the table for "elephant" and "hippo", from row 7. */
  lemma ElephantHippoRow8(a: String, b: String)
    requires a == "elephant" && b == "hippo"
    ensures Lev(a[..8], b[..0]) == 8 && Lev(a[..8], b[..1]) == 7 && Lev(a[..8], b[..2]) == 7
    ensures Lev(a[..8], b[..3]) == 7 && Lev(a[..8], b[..4]) == 7 && Lev(a[..8], b[..5]) == 7
  {
    ElephantHippoRow7(a, b);
    assert b[..0] == [];
    LevCell(a, b, 8, 1);
    LevCell(a, b, 8, 2);
    LevCell(a, b, 8, 3);
    LevCell(a, b, 8, 4);
    LevCell(a, b, 8, 5);
  }
  /** The distances the test suite checks. */
  lemma LevenshteinTestValues()
    ensures Lev("", "") == 0
    ensures Lev("", "a") == 1
    ensures Lev("frog", "fog") == 1
    ensures Lev("elephant", "hippo") == 7
    ensures Lev("aaapppp", "") == 7
  {
    FrogFog();
    var a, b := "elephant", "hippo";
    ElephantHippoRow8(a, b);
    assert a[..8] == a && b[..5] == b;
  }
}
