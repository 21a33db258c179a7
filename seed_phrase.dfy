/**
 * cleanAndVerifySeedPhrase of scripts/wallet.js: the phrase is trimmed, every
 * run of whitespace becomes one space, and it is lower-cased; only a 12- or
 * 24-word phrase can be accepted. The bip39 check, the advanced-mode setting
 * and the user's answer to the confirmation popup are parameters.
 */
module SeedPhrase {
  import opened Text

  /** `replace(/\s+/g, ' ')`, left to right; `inRun` says the previous character was whitespace. */
  function Collapse(s: string, inRun: bool): string
  {
    if |s| == 0 then ""
    else if IsSpace(s[0]) then (if inRun then "" else " ") + Collapse(s[1..], true)
    else [s[0]] + Collapse(s[1..], false)
  }

  /** `strPhraseInput.trim().replace(/\s+/g, ' ').toLowerCase()`. */
  function Clean(s: string): string
  {
    Lower(Collapse(Trim(s), false))
  }

  /** `strPhrase.trim().split(' ').length`. */
  function WordCount(phrase: string): nat
  {
    |Split(Trim(phrase), ' ')|
  }

  // ---------------------------------------------------------------- the words of a phrase

  /** The longest prefix of `s` without whitespace. */
  function Run(s: string): (w: string)
    ensures w <= s
    ensures forall i :: 0 <= i < |w| ==> !IsSpace(w[i])
    ensures |w| == |s| || IsSpace(s[|w|])
    ensures |s| > 0 && !IsSpace(s[0]) ==> |w| > 0
  {
    if |s| == 0 || IsSpace(s[0]) then "" else [s[0]] + Run(s[1..])
  }

  /** The words of `s`: its maximal runs of non-whitespace characters, in order. */
  function Words(s: string): seq<string>
    decreases |s|
  {
    if |s| == 0 then []
    else if IsSpace(s[0]) then Words(s[1..])
    else
      var w := Run(s);
      [w] + Words(s[|w|..])
  }

  /** A word: non-empty, without whitespace. */
  predicate IsWord(w: string)
  {
    |w| > 0 && forall i :: 0 <= i < |w| ==> !IsSpace(w[i])
  }

  function LowerAll(ws: seq<string>): (r: seq<string>)
    ensures |r| == |ws|
  {
    seq(|ws|, k requires 0 <= k < |ws| => Lower(ws[k]))
  }

  lemma {:induction false} WordsAreWords(s: string)
    ensures forall k :: 0 <= k < |Words(s)| ==> IsWord(Words(s)[k])
    decreases |s|
  {
    if |s| > 0 {
      if IsSpace(s[0]) {
        WordsAreWords(s[1..]);
      } else {
        WordsAreWords(s[|Run(s)|..]);
      }
    }
  }

  lemma LowerKeepsSpace(c: char)
    ensures IsSpace(LowerChar(c)) == IsSpace(c)
  {
  }

  lemma LowerAllWords(ws: seq<string>)
    requires forall k :: 0 <= k < |ws| ==> IsWord(ws[k])
    ensures forall k :: 0 <= k < |ws| ==> IsWord(LowerAll(ws)[k])
  {
    forall k, i | 0 <= k < |ws| && 0 <= i < |ws[k]|
      ensures !IsSpace(LowerAll(ws)[k][i])
    {
      LowerKeepsSpace(ws[k][i]);
    }
  }

  // ---------------------------------------------------------------- collapsing is joining the words

  /** A word at the head of `s` is copied as it is. */
  lemma {:induction false} CollapseRun(s: string, inRun: bool)
    requires |s| > 0 && !IsSpace(s[0])
    ensures Collapse(s, inRun) == Run(s) + Collapse(s[|Run(s)|..], false)
    decreases |s|
  {
    var rest := s[1..];
    assert Collapse(s, inRun) == [s[0]] + Collapse(rest, false);
    assert Run(s) == [s[0]] + Run(rest);
    if |rest| > 0 && !IsSpace(rest[0]) {
      var w, x := Run(rest), Collapse(rest[|Run(rest)|..], false);
      CollapseRun(rest, false);
      assert s[|Run(s)|..] == rest[|w|..];
      assert [s[0]] + (w + x) == ([s[0]] + w) + x;
    } else {
      assert Run(rest) == "";
      assert s[|Run(s)|..] == rest;
    }
  }

  /** A string that ends in a non-space character has a word. */
  lemma {:induction false} WordsNonEmpty(t: string)
    requires |t| > 0 && !IsSpace(t[|t| - 1])
    ensures |Words(t)| > 0
    decreases |t|
  {
    if IsSpace(t[0]) {
      WordsNonEmpty(t[1..]);
    }
  }

  /** A word followed by whitespace: the word, one space, then the rest collapsed as after a run. */
  lemma CollapseWordGap(s: string)
    requires |s| > 0 && !IsSpace(s[0]) && |Run(s)| < |s|
    ensures Collapse(s, true) == Run(s) + [' '] + Collapse(s[|Run(s)| + 1..], true)
  {
    var w := Run(s);
    var rest := s[|w|..];
    var x := Collapse(s[|w| + 1..], true);
    assert Collapse(s, true) == w + Collapse(rest, false) by {
      CollapseRun(s, true);
    }
    assert Collapse(rest, false) == [' '] + x by {
      assert rest[1..] == s[|w| + 1..];
      assert IsSpace(rest[0]);
    }
    assert w + ([' '] + x) == w + [' '] + x;
  }

  /** The words of such a string: that word, then the words after the gap. */
  lemma JoinWordGap(s: string)
    requires |s| > 0 && !IsSpace(s[0]) && |Run(s)| < |s| && !IsSpace(s[|s| - 1])
    ensures Join(Words(s), ' ') == Run(s) + [' '] + Join(Words(s[|Run(s)| + 1..]), ' ')
  {
    var w := Run(s);
    var rest := s[|w|..];
    var tail := s[|w| + 1..];
    assert rest[1..] == tail;
    assert |tail| > 0 && tail[|tail| - 1] == s[|s| - 1];
    WordsNonEmpty(tail);
    assert Words(rest) == Words(tail);
    assert Words(s) == [w] + Words(tail);
    assert ([w] + Words(tail))[1..] == Words(tail);
  }

  /** After a whitespace run (or at the start of a trimmed string), collapsing yields the words joined by single spaces. */
  lemma {:induction false} CollapseWords(s: string)
    requires |s| == 0 || !IsSpace(s[|s| - 1])
    ensures Collapse(s, true) == Join(Words(s), ' ')
    decreases |s|
  {
    if |s| == 0 {
    } else if IsSpace(s[0]) {
      CollapseWords(s[1..]);
    } else if |Run(s)| == |s| {
      CollapseRun(s, true);
      assert Run(s) == s;
      assert s[|s|..] == "";
      assert Words(s) == [s] + Words("");
    } else {
      var tail := s[|Run(s)| + 1..];
      assert |tail| > 0 && tail[|tail| - 1] == s[|s| - 1];
      CollapseWords(tail);
      CollapseWordGap(s);
      JoinWordGap(s);
    }
  }

  lemma {:induction false} WordsTrimStart(s: string)
    ensures Words(TrimStart(s)) == Words(s)
    decreases |s|
  {
    if |s| > 0 && IsSpace(s[0]) {
      WordsTrimStart(s[1..]);
    }
  }

  lemma {:induction false} RunAppendSpaces(t: string, u: string)
    requires AllSpace(u)
    ensures Run(t + u) == Run(t)
    decreases |t|
  {
    if |t| > 0 && !IsSpace(t[0]) {
      assert (t + u)[1..] == t[1..] + u;
      RunAppendSpaces(t[1..], u);
    }
  }

  lemma {:induction false} WordsOfSpaces(u: string)
    requires AllSpace(u)
    ensures Words(u) == []
    decreases |u|
  {
    if |u| > 0 {
      WordsOfSpaces(u[1..]);
    }
  }

  /** Trailing whitespace adds no word. */
  lemma {:induction false} WordsAppendSpaces(t: string, u: string)
    requires AllSpace(u)
    ensures Words(t + u) == Words(t)
    decreases |t|
  {
    if |t| == 0 {
      assert t + u == u;
      WordsOfSpaces(u);
    } else if IsSpace(t[0]) {
      assert (t + u)[1..] == t[1..] + u;
      WordsAppendSpaces(t[1..], u);
    } else {
      var w := Run(t);
      RunAppendSpaces(t, u);
      assert (t + u)[|w|..] == t[|w|..] + u;
      WordsAppendSpaces(t[|w|..], u);
    }
  }

  lemma {:induction false} TrimEndDropsSpaces(s: string)
    ensures s == TrimEnd(s) + s[|TrimEnd(s)|..] && AllSpace(s[|TrimEnd(s)|..])
    decreases |s|
  {
    if |s| > 0 && IsSpace(s[|s| - 1]) {
      var init := s[..|s| - 1];
      TrimEndDropsSpaces(init);
      assert s[|TrimEnd(s)|..] == init[|TrimEnd(init)|..] + [s[|s| - 1]];
    }
  }

  lemma WordsTrim(s: string)
    ensures Words(Trim(s)) == Words(s)
  {
    var t := TrimStart(s);
    WordsTrimStart(s);
    TrimEndDropsSpaces(t);
    WordsAppendSpaces(TrimEnd(t), t[|TrimEnd(t)|..]);
  }

  lemma {:induction false} LowerJoin(ws: seq<string>)
    ensures Lower(Join(ws, ' ')) == Join(LowerAll(ws), ' ')
    decreases |ws|
  {
    if |ws| > 1 {
      LowerJoin(ws[1..]);
      assert LowerAll(ws)[1..] == LowerAll(ws[1..]);
      var a, b := ws[0] + [' '], Join(ws[1..], ' ');
      assert Lower(a + b) == Lower(a) + Lower(b);
      assert Lower(ws[0] + [' ']) == Lower(ws[0]) + [' '];
    }
  }

  /**
   * The cleaned phrase is the input's words, lower-cased, joined by single
   * spaces.
   */
  lemma CleanIsJoinedWords(s: string)
    ensures Clean(s) == Join(LowerAll(Words(s)), ' ')
  {
    var t := Trim(s);
    assert Collapse(t, false) == Collapse(t, true);
    CollapseWords(t);
    WordsTrim(s);
    LowerJoin(Words(s));
  }

  // ---------------------------------------------------------------- word count and idempotence

  lemma {:induction false} JoinEnds(ws: seq<string>, c: char)
    requires |ws| > 0 && forall k :: 0 <= k < |ws| ==> |ws[k]| > 0
    ensures var j := Join(ws, c);
      |j| > 0 && j[0] == ws[0][0] && j[|j| - 1] == ws[|ws| - 1][|ws[|ws| - 1]| - 1]
    decreases |ws|
  {
    if |ws| > 1 {
      JoinEnds(ws[1..], c);
    }
  }

  /** A phrase of words joined by single spaces is already trimmed. */
  lemma TrimJoined(ws: seq<string>)
    requires forall k :: 0 <= k < |ws| ==> IsWord(ws[k])
    ensures Trim(Join(ws, ' ')) == Join(ws, ' ')
  {
    if |ws| > 0 {
      JoinEnds(ws, ' ');
    }
  }

  /**
   * The word count the source computes is the number of words in the input,
   * except that a phrase with no word at all counts as one (`''.split(' ')`
   * is `['']`).
   */
  lemma WordCountOfClean(s: string)
    ensures Words(s) == [] ==> Clean(s) == "" && WordCount(Clean(s)) == 1
    ensures Words(s) != [] ==> Split(Trim(Clean(s)), ' ') == LowerAll(Words(s)) && WordCount(Clean(s)) == |Words(s)|
  {
    CleanIsJoinedWords(s);
    var ws := LowerAll(Words(s));
    WordsAreWords(s);
    LowerAllWords(Words(s));
    TrimJoined(ws);
    if Words(s) != [] {
      forall k | 0 <= k < |ws|
        ensures ' ' !in ws[k]
      {
        assert IsSpace(' ');
      }
      SplitJoin(ws, ' ');
    }
  }

  lemma {:induction false} RunOfWord(w: string, rest: string)
    requires IsWord(w) && (|rest| == 0 || IsSpace(rest[0]))
    ensures Run(w + rest) == w
    decreases |w|
  {
    if |w| > 1 {
      assert (w + rest)[1..] == w[1..] + rest;
      RunOfWord(w[1..], rest);
    } else {
      assert (w + rest)[1..] == rest;
    }
  }

  /** Joining words with single spaces and taking the words back gives the same words. */
  lemma {:induction false} WordsOfJoin(ws: seq<string>)
    requires forall k :: 0 <= k < |ws| ==> IsWord(ws[k])
    ensures Words(Join(ws, ' ')) == ws
    decreases |ws|
  {
    if |ws| == 1 {
      RunOfWord(ws[0], "");
      assert ws[0] + "" == ws[0];
      assert ws[0][|ws[0]|..] == "";
    } else if |ws| > 1 {
      var rest := [' '] + Join(ws[1..], ' ');
      assert Join(ws, ' ') == ws[0] + rest;
      RunOfWord(ws[0], rest);
      assert (ws[0] + rest)[|ws[0]|..] == rest;
      assert rest[1..] == Join(ws[1..], ' ');
      WordsOfJoin(ws[1..]);
    }
  }

  lemma LowerIdempotent(ws: seq<string>)
    ensures LowerAll(LowerAll(ws)) == LowerAll(ws)
  {
    forall k | 0 <= k < |ws|
      ensures Lower(Lower(ws[k])) == Lower(ws[k])
    {
    }
  }

  /** Cleaning a cleaned phrase changes nothing. */
  lemma CleanIdempotent(s: string)
    ensures Clean(Clean(s)) == Clean(s)
  {
    var ws := LowerAll(Words(s));
    CleanIsJoinedWords(s);
    WordsAreWords(s);
    LowerAllWords(Words(s));
    WordsOfJoin(ws);
    CleanIsJoinedWords(Clean(s));
    LowerIdempotent(Words(s));
  }

  // ---------------------------------------------------------------- the check

  /** The translation key of the message the source returns. */
  datatype SeedMessage = ImportSeedValid | ImportSeedErrorTypo | ImportSeedErrorSkip | ImportSeedError | ImportSeedErrorSize

  datatype SeedCheck = SeedCheck(ok: bool, msg: SeedMessage, phrase: string)

  /**
   * cleanAndVerifySeedPhrase(strPhraseInput, fPopupConfirm): `validateMnemonic`
   * is bip39's check, `advancedMode` the setting, `skipWarning` the user's
   * answer to the popup shown for a phrase of the right size that fails it.
   */
  function CleanAndVerify(input: string, popupConfirm: bool, validateMnemonic: string -> bool, advancedMode: bool, skipWarning: bool): (r: SeedCheck)
    ensures r.phrase == Clean(input)
    ensures WordCount(r.phrase) != 12 && WordCount(r.phrase) != 24 ==> !r.ok && r.msg == ImportSeedErrorSize
    ensures r.ok <==> (WordCount(r.phrase) == 12 || WordCount(r.phrase) == 24)
                      && (validateMnemonic(r.phrase) || (popupConfirm && advancedMode && skipWarning))
    ensures r.ok && !validateMnemonic(r.phrase) ==> r.msg == ImportSeedErrorSkip
    ensures WordCount(r.phrase) == 12 || WordCount(r.phrase) == 24 ==>
      && (validateMnemonic(r.phrase) ==> r.ok && r.msg == ImportSeedValid)
      && (!validateMnemonic(r.phrase) && (!popupConfirm || !advancedMode) ==> r.msg == ImportSeedErrorTypo)
      && (!validateMnemonic(r.phrase) && popupConfirm && advancedMode && !skipWarning ==> r.msg == ImportSeedError)
  {
    var phrase := Clean(input);
    var count := WordCount(phrase);
    if count == 12 || count == 24 then
      if !validateMnemonic(phrase) then
        if !popupConfirm || !advancedMode then SeedCheck(false, ImportSeedErrorTypo, phrase)
        else if skipWarning then SeedCheck(true, ImportSeedErrorSkip, phrase)
        else SeedCheck(false, ImportSeedError, phrase)
      else SeedCheck(true, ImportSeedValid, phrase)
    else SeedCheck(false, ImportSeedErrorSize, phrase)
  }

  /** A phrase whose number of words is neither 12 nor 24 is refused, whatever the other inputs. */
  lemma RefusesWrongSize(input: string, popupConfirm: bool, validateMnemonic: string -> bool, advancedMode: bool, skipWarning: bool)
    requires |Words(input)| != 12 && |Words(input)| != 24
    ensures !CleanAndVerify(input, popupConfirm, validateMnemonic, advancedMode, skipWarning).ok
  {
    WordCountOfClean(input);
  }
}
