/**
 * `SpellChecker.CheckString`: split the text on single spaces and flag every
 * token that is not a number, does not clean to nothing, is not an ignored
 * hyphen-ended word, is not in the word list (with or without a possessive
 * `'s`) and is not excused by the ordinal test (a word ending in a digit and
 * that digit's own suffix, such as `31st`, whose remainder the number test
 * accepts; teen numerals such as `11th` fail the suffix test).
 *
 * The number test (`float.TryParse`) is the parameter `isNumber`; the word
 * list and both cleaning settings are parameters as well.
 */
module SpellChecker {
  import opened Text
  import opened Cleaning

  /** A flagged token: its cleaned, lower-cased text and its position among the space-separated tokens. */
  datatype WordCorrection = WordCorrection(original: string, index: nat)

  datatype Option<T> = None | Some(value: T)

  /** The one failure: `Substring` in the ordinal test throwing on the token at `index`. */
  datatype CheckError = SubstringOutOfRange(index: nat)

  /** What `CheckString` produces: the corrections in token order, or the exception that escapes it. */
  datatype Outcome = Corrections(list: seq<WordCorrection>) | Thrown(error: CheckError)

  /** The lookup test: an entry matches a cleaned word when, lower-cased, it equals the word or the word with `'s`. */
  predicate Matches(entry: string, word: string) {
    ToLower(entry) == word || ToLower(entry) == word + "'s"
  }

  /** Some entry of the word list matches the word. */
  predicate Known(word: string, wordList: seq<string>) {
    exists k :: 0 <= k < |wordList| && Matches(wordList[k], word)
  }

  /** `FirstOrDefault` over the word list: the first matching entry, or nothing. */
  method FirstMatch(wordList: seq<string>, word: string) returns (found: Option<string>)
    ensures found.None? <==> !Known(word, wordList)
    ensures found.Some? ==> exists k :: 0 <= k < |wordList| && wordList[k] == found.value
                              && Matches(found.value, word)
                              && forall j :: 0 <= j < k ==> !Matches(wordList[j], word)
  {
    var k := 0;
    while k < |wordList|
      invariant 0 <= k <= |wordList|
      invariant forall j :: 0 <= j < k ==> !Matches(wordList[j], word)
    {
      if Matches(wordList[k], word) {
        return Some(wordList[k]);
      }
      k := k + 1;
    }
    return None;
  }

  /** The English suffix written after a numeral ending in digit `d`. */
  function OrdinalSuffix(d: char): string {
    if d == '1' then "st" else if d == '2' then "nd" else if d == '3' then "rd" else "th"
  }

  /**
   * The ordinal-suffix test: `1st` to `9th`, or `0th` on a word longer than
   * three characters. A candidate ends in a digit and two lower-case letters;
   * OrdinalCandidateByDigit gives the exact test on the last digit.
   */
  predicate IsOrdinalCandidate(word: string)
    ensures IsOrdinalCandidate(word) ==>
      |word| >= 3 && '0' <= word[|word| - 3] <= '9'
      && 'a' <= word[|word| - 2] <= 'z' && 'a' <= word[|word| - 1] <= 'z'
  {
    OrdinalLetters(word);
    EndsWith(word, "1st") || EndsWith(word, "2nd") || EndsWith(word, "3rd")
    || EndsWith(word, "4th") || EndsWith(word, "5th") || EndsWith(word, "6th")
    || EndsWith(word, "7th") || EndsWith(word, "8th") || EndsWith(word, "9th")
    || (EndsWith(word, "0th") && |word| > 3)
  }

  /** Ending in a three-character suffix is ending in its digit, then its two letters. */
  lemma EndsWithDigitAndLetters(word: string, d: char, letters: string)
    requires |letters| == 2
    ensures EndsWith(word, [d] + letters) <==>
      |word| >= 3 && word[|word| - 3] == d && word[|word| - 2..] == letters
  {
    if |word| >= 3 {
      assert word[|word| - 3..] == [word[|word| - 3]] + word[|word| - 2..];
    }
  }

  /** An ordinal suffix is a digit followed by two lower-case letters. */
  lemma OrdinalLetters(word: string)
    ensures
      (EndsWith(word, "1st") || EndsWith(word, "2nd") || EndsWith(word, "3rd")
      || EndsWith(word, "4th") || EndsWith(word, "5th") || EndsWith(word, "6th")
      || EndsWith(word, "7th") || EndsWith(word, "8th") || EndsWith(word, "9th")
      || (EndsWith(word, "0th") && |word| > 3))
      ==>
      |word| >= 3 && '0' <= word[|word| - 3] <= '9'
      && 'a' <= word[|word| - 2] <= 'z' && 'a' <= word[|word| - 1] <= 'z'
  {
    if |word| >= 3 {
      var t := word[|word| - 3..];
      assert word[|word| - 3] == t[0] && word[|word| - 2] == t[1] && word[|word| - 1] == t[2];
    }
  }

  /**
   * The ordinal-suffix test read as one test on the last digit: the word ends
   * in a digit followed by that digit's English suffix, and is not the bare
   * `0th`.
   */
  lemma OrdinalCandidateByDigit(word: string)
    ensures IsOrdinalCandidate(word) <==>
      |word| >= 3 && '0' <= word[|word| - 3] <= '9'
      && word[|word| - 2..] == OrdinalSuffix(word[|word| - 3])
      && (word[|word| - 3] == '0' ==> |word| > 3)
  {
    OrdinalEndings(word);
  }

  /** The ten suffix tests of `IsOrdinalCandidate`, read as one test on the last digit. */
  lemma OrdinalEndings(word: string)
    ensures
      (EndsWith(word, "1st") || EndsWith(word, "2nd") || EndsWith(word, "3rd")
      || EndsWith(word, "4th") || EndsWith(word, "5th") || EndsWith(word, "6th")
      || EndsWith(word, "7th") || EndsWith(word, "8th") || EndsWith(word, "9th")
      || (EndsWith(word, "0th") && |word| > 3))
      <==>
      (|word| >= 3 && '0' <= word[|word| - 3] <= '9'
      && word[|word| - 2..] == OrdinalSuffix(word[|word| - 3])
      && (word[|word| - 3] == '0' ==> |word| > 3))
  {
    assert "1st" == ['1'] + "st" && "2nd" == ['2'] + "nd" && "3rd" == ['3'] + "rd";
    assert "4th" == ['4'] + "th" && "5th" == ['5'] + "th" && "6th" == ['6'] + "th";
    assert "7th" == ['7'] + "th" && "8th" == ['8'] + "th" && "9th" == ['9'] + "th";
    assert "0th" == ['0'] + "th";
    EndsWithDigitAndLetters(word, '1', "st");
    EndsWithDigitAndLetters(word, '2', "nd");
    EndsWithDigitAndLetters(word, '3', "rd");
    EndsWithDigitAndLetters(word, '4', "th");
    EndsWithDigitAndLetters(word, '5', "th");
    EndsWithDigitAndLetters(word, '6', "th");
    EndsWithDigitAndLetters(word, '7', "th");
    EndsWithDigitAndLetters(word, '8', "th");
    EndsWithDigitAndLetters(word, '9', "th");
    EndsWithDigitAndLetters(word, '0', "th");
    if |word| >= 3 {
      var d := word[|word| - 3];
      if d == '1' || d == '2' || d == '3' {
      } else if '4' <= d <= '9' {
      } else if d == '0' {
      }
    }
  }

  /**
   * The text handed to the number test of an ordinal: the word with its commas
   * removed, cut to `|word| - 2` characters, a length measured before the
   * commas went. `None` is the `ArgumentOutOfRangeException` that `Substring`
   * throws when that length is negative or exceeds the comma-free word.
   */
  function OrdinalRemainder(word: string): (r: Option<string>)
    ensures r.None? <==> |word| < 2 || Count(word, ',') > 2
    ensures r.Some? ==> |r.value| == |word| - 2
  {
    var digits := RemoveAll(word, ',');
    if 2 <= |word| && |word| - 2 <= |digits| then Some(digits[..|word| - 2]) else None
  }

  /** What the loop body does with one token. */
  datatype Verdict = Exempt | Flag(word: string) | Throw

  /** The body of the `CheckString` loop for one token, as a function. */
  function TokenVerdict(token: string, wordList: seq<string>, cfg: Config, isNumber: string -> bool): Verdict {
    if isNumber(RemoveAll(token, ',')) then Exempt
    else
      var word := Cleaned(ToLower(token), cfg);
      if |word| < 1 then Exempt
      else if EndsWithChar(word, '-') && cfg.ignoreWordsEndingInHyphen then Exempt
      else if Known(word, wordList) then Exempt
      else if IsOrdinalCandidate(word) then
        match OrdinalRemainder(word)
        case None => Throw
        case Some(rest) => if isNumber(rest) then Exempt else Flag(word)
      else Flag(word)
  }

  /** The verdict on every token, in order. */
  function Verdicts(tokens: seq<string>, wordList: seq<string>, cfg: Config, isNumber: string -> bool)
    : seq<Verdict>
  {
    seq(|tokens|, i requires 0 <= i < |tokens| => TokenVerdict(tokens[i], wordList, cfg, isNumber))
  }

  /**
   * The state of the `CheckString` loop after the first `n` verdicts: a
   * flagged token appends a correction carrying its position, an exception
   * ends the loop.
   */
  function Collect(verdicts: seq<Verdict>, n: nat): Outcome
    requires n <= |verdicts|
  {
    if n == 0 then Corrections([])
    else
      match Collect(verdicts, n - 1)
      case Thrown(e) => Thrown(e)
      case Corrections(found) =>
        match verdicts[n - 1]
        case Exempt => Corrections(found)
        case Flag(w) => Corrections(found + [WordCorrection(w, n - 1)])
        case Throw => Thrown(SubstringOutOfRange(n - 1))
  }

  /** An exception ends the loop: once thrown, the outcome no longer changes. */
  lemma {:induction false} ThrownPersists(verdicts: seq<Verdict>, m: nat, n: nat)
    requires m <= n <= |verdicts|
    requires Collect(verdicts, m).Thrown?
    ensures Collect(verdicts, n) == Collect(verdicts, m)
  {
    if m < n {
      ThrownPersists(verdicts, m, n - 1);
    }
  }

  /**
   * One more verdict: an exempt token leaves the outcome alone, a flagged one
   * appends its correction, and a throwing one decides the final outcome.
   */
  lemma CollectStep(verdicts: seq<Verdict>, i: nat, found: seq<WordCorrection>)
    requires i < |verdicts|
    requires Collect(verdicts, i) == Corrections(found)
    ensures verdicts[i].Exempt? ==> Collect(verdicts, i + 1) == Corrections(found)
    ensures verdicts[i].Flag? ==> Collect(verdicts, i + 1) == Corrections(found + [WordCorrection(verdicts[i].word, i)])
    ensures verdicts[i].Throw? ==> Collect(verdicts, |verdicts|) == Thrown(SubstringOutOfRange(i))
  {
    if verdicts[i].Throw? {
      ThrownPersists(verdicts, i + 1, |verdicts|);
    }
  }

  /** The whole check of a text. */
  function Check(text: string, wordList: seq<string>, cfg: Config, isNumber: string -> bool): Outcome {
    var tokens := Split(text, ' ');
    Collect(Verdicts(tokens, wordList, cfg, isNumber), |tokens|)
  }

  /**
   * `CheckString`: splits the text on single spaces and hands the tokens to
   * the counted loop `CheckTokens`, which appends a correction for every
   * token it cannot excuse; an exception from the ordinal test escapes and
   * ends the call.
   */
  method CheckString(str: string, wordList: seq<string>, cfg: Config, isNumber: string -> bool)
    returns (outcome: Outcome)
    ensures outcome == Check(str, wordList, cfg, isNumber)
  {
    var words := Split(str, ' ');
    outcome := CheckTokens(words, wordList, cfg, isNumber);
  }

  /**
   * The counted loop of `CheckString` over the tokens, by index: the
   * corrections gathered so far are the fold of the first `i` verdicts.
   */
  method CheckTokens(words: seq<string>, wordList: seq<string>, cfg: Config, isNumber: string -> bool)
    returns (outcome: Outcome)
    ensures outcome == Collect(Verdicts(words, wordList, cfg, isNumber), |words|)
  {
    ghost var verdicts := Verdicts(words, wordList, cfg, isNumber);
    var results: seq<WordCorrection> := [];
    for i: nat := 0 to |words|
      invariant Collect(verdicts, i) == Corrections(results)
    {
      var verdict := CheckWordAt(words, i, wordList, cfg, isNumber);
      CollectStep(verdicts, i, results);
      match verdict
      case Exempt =>
      case Flag(word) =>
        results := results + [WordCorrection(word, i)];
      case Throw =>
        return Thrown(SubstringOutOfRange(i));
    }
    return Corrections(results);
  }

  /**
   * The body of the `CheckTokens` loop at index `i`: `CheckWord` on the
   * `i`-th token. Its contract binds the verdict to the indexed token of the
   * whole token sequence, the form in which the loop invariant uses it.
   */
  method CheckWordAt(words: seq<string>, i: nat, wordList: seq<string>, cfg: Config, isNumber: string -> bool)
    returns (verdict: Verdict)
    requires i < |words|
    ensures verdict == Verdicts(words, wordList, cfg, isNumber)[i]
  {
    verdict := CheckWord(words[i], wordList, cfg, isNumber);
  }

  /**
   * The body of the `CheckString` loop for one token: skip numbers, clean the
   * lower-cased token, skip empty and ignored hyphen-ended words, look the
   * word up, excuse ordinals, and otherwise flag the cleaned word.
   */
  method CheckWord(token: string, wordList: seq<string>, cfg: Config, isNumber: string -> bool)
    returns (verdict: Verdict)
    ensures verdict == TokenVerdict(token, wordList, cfg, isNumber)
  {
    if isNumber(RemoveAll(token, ',')) {
      return Exempt;
    }
    var word := CleanWord(ToLower(token), cfg);
    if |word| < 1 {
      return Exempt;
    }
    if EndsWithChar(word, '-') && cfg.ignoreWordsEndingInHyphen {
      return Exempt;
    }
    var result := FirstMatch(wordList, word);
    if result.Some? {
      return Exempt;
    }
    if IsOrdinalCandidate(word) {
      var rest := OrdinalRemainder(word);
      if rest.None? {
        return Throw;
      }
      if isNumber(rest.value) {
        return Exempt;
      }
    }
    return Flag(word);
  }
}
