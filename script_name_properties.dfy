/**
 * Properties of `script_name`: splitting and joining undo each other on
 * single-spaced titles, splitting drops exactly the whitespace, the title
 * keeps no underscore, and an `ext` holding a lower-case letter never
 * matches a token.
 */
module ScriptNameProperties {
  import opened Ascii
  import opened VictorEngine

  // ---------------------------------------------------------------- split and join

  /** A word followed by nothing or by whitespace is split off whole. */
  lemma WordsOfWordThen(w: string, rest: string)
    requires IsWord(w)
    requires rest == [] || IsSpace(rest[0])
    ensures Words(w + rest) == [w] + Words(rest)
  {
    var s := w + rest;
    assert WordEnd(s, 0) == |w| by {
      forall k | 0 <= k < |w| ensures !IsSpace(s[k]) {
        assert s[k] == w[k];
      }
      WordEndAt(s, 0, |w|);
    }
    assert s[..|w|] == w && s[|w|..] == rest;
  }

  /** `WordEnd` stops at the first whitespace at or after `i`. */
  lemma {:induction false} WordEndAt(s: string, i: nat, j: nat)
    requires i <= j <= |s|
    requires forall k :: i <= k < j ==> !IsSpace(s[k])
    requires j == |s| || IsSpace(s[j])
    ensures WordEnd(s, i) == j
    decreases j - i
  {
    if i < j {
      WordEndAt(s, i + 1, j);
    }
  }

  /** Splitting a single-spaced join of words gives the words back. */
  lemma {:induction false} WordsJoin(ws: seq<string>)
    requires forall k :: 0 <= k < |ws| ==> IsWord(ws[k])
    ensures Words(Join(ws)) == ws
    decreases |ws|
  {
    if |ws| == 1 {
      WordsOfWordThen(ws[0], "");
      assert ws[0] + "" == ws[0];
    } else if |ws| > 1 {
      var rest := Join(ws[1..]);
      WordsOfWordThen(ws[0], " " + rest);
      assert ws[0] + " " + rest == ws[0] + (" " + rest);
      assert (" " + rest)[1..] == rest;
      WordsJoin(ws[1..]);
      assert [ws[0]] + ws[1..] == ws;
    }
  }

  /** The characters of `s` that are not whitespace, in order. */
  function NonSpace(s: string): (r: string)
    ensures forall k :: 0 <= k < |r| ==> !IsSpace(r[k])
    decreases |s|
  {
    if s == [] then [] else (if IsSpace(s[0]) then [] else [s[0]]) + NonSpace(s[1..])
  }

  function Concat(ws: seq<string>): string
    decreases |ws|
  {
    if ws == [] then [] else ws[0] + Concat(ws[1..])
  }

  lemma {:induction false} NonSpaceAppend(a: string, b: string)
    ensures NonSpace(a + b) == NonSpace(a) + NonSpace(b)
    decreases |a|
  {
    if a == [] {
      assert a + b == b;
    } else {
      assert (a + b)[1..] == a[1..] + b;
      NonSpaceAppend(a[1..], b);
    }
  }

  lemma {:induction false} NonSpaceOfWord(w: string)
    requires forall k :: 0 <= k < |w| ==> !IsSpace(w[k])
    ensures NonSpace(w) == w
    decreases |w|
  {
    if w != [] {
      NonSpaceOfWord(w[1..]);
      assert [w[0]] + w[1..] == w;
    }
  }

  /** Splitting drops exactly the whitespace: the words, run together, are the other characters. */
  lemma {:induction false} WordsDropOnlySpace(s: string)
    ensures Concat(Words(s)) == NonSpace(s)
    decreases |s|
  {
    if s != [] {
      if IsSpace(s[0]) {
        WordsDropOnlySpace(s[1..]);
      } else {
        var n := WordEnd(s, 0);
        WordsDropOnlySpace(s[n..]);
        assert s == s[..n] + s[n..];
        NonSpaceAppend(s[..n], s[n..]);
        NonSpaceOfWord(s[..n]);
        var ws := Words(s);
        assert ws == [s[..n]] + Words(s[n..]);
        assert ws[1..] == Words(s[n..]);
      }
    }
  }

  /** Every word of `s` keeps any property all characters of `s` have. */
  lemma {:induction false} WordsKeep(s: string, p: char -> bool)
    requires forall k :: 0 <= k < |s| ==> p(s[k])
    ensures forall i, k :: 0 <= i < |Words(s)| && 0 <= k < |Words(s)[i]| ==> p(Words(s)[i][k])
    decreases |s|
  {
    if s != [] {
      var n := if IsSpace(s[0]) then 1 else WordEnd(s, 0);
      WordsKeep(s[n..], p);
      var ws := Words(s);
      if !IsSpace(s[0]) {
        assert ws == [s[..n]] + Words(s[n..]);
        forall i, k | 0 <= i < |ws| && 0 <= k < |ws[i]| ensures p(ws[i][k]) {
          if i > 0 {
            assert ws[i] == Words(s[n..])[i - 1];
          }
        }
      }
    }
  }

  // ---------------------------------------------------------------- letter case

  /** `capitalize` gives an upper-case first character and lower-case others. */
  lemma CapitalizeShape(w: string)
    ensures |w| > 0 ==> Capitalize(w)[0] == Upper(w[0])
    ensures forall k :: 0 < k < |w| ==> Capitalize(w)[k] == Lower(w[k])
  {
  }

  /** `capitalize` does not look at the letter case of what it is given. */
  lemma CapitalizeIgnoresCase(w: string)
    ensures Capitalize(UpperString(w)) == Capitalize(w)
  {
    if w != [] {
      var u := UpperString(w);
      assert u[1..] == UpperString(w[1..]);
      forall k | 0 <= k < |w| - 1 ensures Lower(u[1..][k]) == Lower(w[1..][k]) {
        assert u[1..][k] == Upper(w[k + 1]);
      }
    }
  }

  /** The `collect!` block changes only letter case, apart from the ` -` after the token equal to `ext`. */
  lemma TitleChangesOnlyCase(w: string, ext: string)
    ensures UpperString(Title(w, ext)) == UpperString(w) + (if w == ext then " -" else "")
  {
    if w == ext {
      assert UpperString(w + " -") == UpperString(w) + " -";
    } else {
      CapitalizeShape(w);
      assert UpperString(Capitalize(w)) == UpperString(w);
    }
  }

  /** Every token of the title array is its word, case aside, with ` -` after the one equal to `ext`. */
  lemma TitlesChangeOnlyCase(ws: seq<string>, ext: string)
    ensures forall i :: 0 <= i < |ws| ==>
      UpperString(Titles(ws, ext)[i]) == UpperString(ws[i]) + (if ws[i] == ext then " -" else "")
  {
    forall i | 0 <= i < |ws|
      ensures UpperString(Titles(ws, ext)[i]) == UpperString(ws[i]) + (if ws[i] == ext then " -" else "")
    {
      TitleChangesOnlyCase(ws[i], ext);
    }
  }

  predicate HasLower(s: string) { exists k :: 0 <= k < |s| && IsLower(s[k]) }

  /** The tokens are upcased, so an `ext` holding a lower-case letter never matches one. */
  lemma LowerExtNeverMatches(name: string, ext: string)
    requires HasLower(ext)
    ensures forall i :: 0 <= i < |Tokens(name)| ==> Titles(Tokens(name), ext)[i] == Capitalize(Tokens(name)[i])
  {
    var u := UpperString(Underscores(name));
    WordsKeep(u, c => !IsLower(c));
    var k :| 0 <= k < |ext| && IsLower(ext[k]);
    forall i | 0 <= i < |Tokens(name)| ensures Tokens(name)[i] != ext {
      if k < |Tokens(name)[i]| {
        assert !IsLower(Tokens(name)[i][k]);
      }
    }
  }

  // ---------------------------------------------------------------- underscores

  predicate NoUnderscore(s: string) { forall k :: 0 <= k < |s| ==> s[k] != '_' }

  lemma {:induction false} JoinNoUnderscore(ws: seq<string>)
    requires forall i :: 0 <= i < |ws| ==> NoUnderscore(ws[i])
    ensures NoUnderscore(Join(ws))
    decreases |ws|
  {
    if |ws| > 1 {
      JoinNoUnderscore(ws[1..]);
    }
  }

  /** No underscore of the name survives into the title. */
  lemma TitleNoUnderscore(name: string, ext: string)
    ensures NoUnderscore(ScriptTitle(name, ext))
  {
    var u := UpperString(Underscores(name));
    WordsKeep(u, c => c != '_');
    var ts := Titles(Tokens(name), ext);
    forall i | 0 <= i < |ts| ensures NoUnderscore(ts[i]) {
      var w := Tokens(name)[i];
      assert NoUnderscore(w);
      if w != ext {
        CapitalizeShape(w);
      }
    }
    JoinNoUnderscore(ts);
  }

  // ---------------------------------------------------------------- the example

  lemma ExampleTokens()
    ensures Tokens("ve_action_reflect") == ["VE", "ACTION", "REFLECT"]
  {
    ExampleSpaced();
    ExampleJoin();
    TokensOfJoin("ve_action_reflect", ["VE", "ACTION", "REFLECT"]);
  }

  /** A name whose upcased, space-separated form is a single-spaced join of words has those words as tokens. */
  lemma TokensOfJoin(name: string, ws: seq<string>)
    requires forall k :: 0 <= k < |ws| ==> IsWord(ws[k])
    requires UpperString(Underscores(name)) == Join(ws)
    ensures Tokens(name) == ws
  {
    WordsJoin(ws);
  }

  lemma ExampleSpaced()
    ensures UpperString(Underscores("ve_action_reflect")) == "VE ACTION REFLECT"
  {
    assert Underscores("ve_action_reflect") == "ve action reflect";
  }

  lemma ExampleJoin()
    ensures Join(["VE", "ACTION", "REFLECT"]) == "VE ACTION REFLECT"
  {
    var ws := ["VE", "ACTION", "REFLECT"];
    assert Join(ws[2..]) == "REFLECT";
    assert Join(ws[1..]) == "ACTION REFLECT";
  }

  lemma ExampleCapitals()
    ensures Capitalize("ACTION") == "Action" && Capitalize("REFLECT") == "Reflect"
  {
    CapitalAction();
    CapitalReflect();
  }

  lemma CapitalAction()
    ensures Capitalize("ACTION") == "Action"
  {
    assert "ACTION"[1..] == "CTION";
    assert LowerString("CTION") == "ction";
  }

  lemma CapitalReflect()
    ensures Capitalize("REFLECT") == "Reflect"
  {
    assert "REFLECT"[1..] == "EFLECT";
    assert LowerString("EFLECT") == "eflect";
  }

  lemma ExampleTitles()
    ensures Join(Titles(["VE", "ACTION", "REFLECT"], "VE")) == "VE - Action Reflect"
  {
    ExampleTitleArray();
    ExampleTitleJoin();
  }

  lemma ExampleTitleArray()
    ensures Titles(["VE", "ACTION", "REFLECT"], "VE") == ["VE -", "Action", "Reflect"]
  {
    ExampleCapitals();
    var ts := Titles(["VE", "ACTION", "REFLECT"], "VE");
    assert ts[0] == "VE -" && ts[1] == "Action" && ts[2] == "Reflect";
  }

  lemma ExampleTitleJoin()
    ensures Join(["VE -", "Action", "Reflect"]) == "VE - Action Reflect"
  {
    var ts := ["VE -", "Action", "Reflect"];
    assert Join(ts[2..]) == "Reflect";
    assert Join(ts[1..]) == "Action Reflect";
  }

  /** `script_name(:ve_action_reflect)` is `VE - Action Reflect`. */
  lemma ActionReflectTitle()
    ensures ScriptTitle("ve_action_reflect", "VE") == "VE - Action Reflect"
  {
    ExampleTokens();
    ExampleTitles();
  }
}
