/**
 * What `CheckString` promises about its result: corrections come in token
 * order, at most one per token, each one a cleaned word the word list does
 * not know; numbers, empty tokens and ignored hyphen-ended words are never
 * flagged, nor are ordinal candidates whose remainder the number test
 * accepts (teen numerals such as `11th` are no candidates and are flagged
 * when unknown; a candidate with more than two commas throws); blank text
 * passes.
 */
module CheckProperties {
  import opened Text
  import opened Cleaning
  import opened SpellChecker

  /**
   * Every collected correction comes from a flagged verdict at its own
   * position, and positions strictly increase; an exception names the first
   * token whose verdict throws.
   */
  lemma {:induction false} CollectSound(verdicts: seq<Verdict>, n: nat)
    requires n <= |verdicts|
    ensures Collect(verdicts, n).Corrections? ==>
      var found := Collect(verdicts, n).list;
      (forall k :: 0 <= k < |found| ==> found[k].index < n && verdicts[found[k].index] == Flag(found[k].original))
      && (forall j, k :: 0 <= j < k < |found| ==> found[j].index < found[k].index)
    ensures Collect(verdicts, n).Thrown? ==>
      var e := Collect(verdicts, n).error.index;
      e < n && verdicts[e] == Throw && forall i :: 0 <= i < e ==> verdicts[i] != Throw
  {
    CorrectionsSound(verdicts, n);
    FirstThrowSound(verdicts, n);
  }

  /**
   * Every correction in `found` comes from a flagged verdict at its own index
   * below `n`, and the indices strictly increase.
   */
  predicate FlaggedInOrder(verdicts: seq<Verdict>, found: seq<WordCorrection>, n: nat)
    requires n <= |verdicts|
  {
    (forall k :: 0 <= k < |found| ==> found[k].index < n && verdicts[found[k].index] == Flag(found[k].original))
    && (forall j, k :: 0 <= j < k < |found| ==> found[j].index < found[k].index)
  }

  /** The corrections half of CollectSound. */
  lemma {:induction false} CorrectionsSound(verdicts: seq<Verdict>, n: nat)
    requires n <= |verdicts|
    ensures Collect(verdicts, n).Corrections? ==> FlaggedInOrder(verdicts, Collect(verdicts, n).list, n)
  {
    if n > 0 && Collect(verdicts, n - 1).Corrections? {
      CorrectionsSound(verdicts, n - 1);
      var before := Collect(verdicts, n - 1).list;
      assert FlaggedInOrder(verdicts, before, n - 1);
      if verdicts[n - 1].Flag? {
        var after := Collect(verdicts, n).list;
        assert after == before + [WordCorrection(verdicts[n - 1].word, n - 1)];
        assert forall k :: 0 <= k < |before| ==> after[k] == before[k];
      } else if verdicts[n - 1].Exempt? {
        assert Collect(verdicts, n).list == before;
      }
    }
  }

  /** The exception half of CollectSound. */
  lemma {:induction false} FirstThrowSound(verdicts: seq<Verdict>, n: nat)
    requires n <= |verdicts|
    ensures Collect(verdicts, n).Thrown? ==>
      var e := Collect(verdicts, n).error.index;
      e < n && verdicts[e] == Throw && forall i :: 0 <= i < e ==> verdicts[i] != Throw
  {
    if n > 0 {
      FirstThrowSound(verdicts, n - 1);
      if Collect(verdicts, n - 1).Thrown? {
        ThrownPersists(verdicts, n - 1, n);
      } else {
        CollectComplete(verdicts, n - 1);
      }
    }
  }

  /**
   * The loop completes exactly when no verdict throws, and then every flagged
   * verdict has its correction.
   */
  lemma {:induction false} CollectComplete(verdicts: seq<Verdict>, n: nat)
    requires n <= |verdicts|
    ensures Collect(verdicts, n).Corrections? <==> forall i :: 0 <= i < n ==> verdicts[i] != Throw
    ensures Collect(verdicts, n).Corrections? ==>
      forall i :: 0 <= i < n && verdicts[i].Flag? ==>
        exists k :: 0 <= k < |Collect(verdicts, n).list| && Collect(verdicts, n).list[k].index == i
  {
    if n > 0 {
      CollectComplete(verdicts, n - 1);
      if Collect(verdicts, n - 1).Thrown? {
        ThrownPersists(verdicts, n - 1, n);
      } else if Collect(verdicts, n).Corrections? {
        var before := Collect(verdicts, n - 1).list;
        var after := Collect(verdicts, n).list;
        assert forall k :: 0 <= k < |before| ==> after[k] == before[k];
        if verdicts[n - 1].Flag? {
          assert after[|before|].index == n - 1;
        }
      }
    }
  }

  /** A run of exempt verdicts produces no correction. */
  lemma {:induction false} AllExemptCollect(verdicts: seq<Verdict>, n: nat)
    requires n <= |verdicts|
    requires forall i :: 0 <= i < n ==> verdicts[i] == Exempt
    ensures Collect(verdicts, n) == Corrections([])
  {
    if n > 0 {
      AllExemptCollect(verdicts, n - 1);
    }
  }

  /**
   * A flagged token is not a number, and its flagged word is its non-empty
   * cleaned lower-cased text, which no entry of the word list matches, with or
   * without a possessive, and which does not end in an ignored hyphen.
   */
  lemma FlagMeans(token: string, wordList: seq<string>, cfg: Config, isNumber: string -> bool, w: string)
    requires TokenVerdict(token, wordList, cfg, isNumber) == Flag(w)
    ensures !isNumber(RemoveAll(token, ','))
    ensures w == Cleaned(ToLower(token), cfg) && w != []
    ensures forall k :: 0 <= k < |wordList| ==> ToLower(wordList[k]) != w && ToLower(wordList[k]) != w + "'s"
    ensures cfg.ignoreWordsEndingInHyphen ==> !EndsWithChar(w, '-')
  {
  }

  /**
   * Corrections come in token order, at most one per space-separated token,
   * each at a position below the number of tokens (one more than the number
   * of spaces).
   */
  lemma CorrectionsInTokenOrder(text: string, wordList: seq<string>, cfg: Config, isNumber: string -> bool)
    ensures Check(text, wordList, cfg, isNumber).Corrections? ==>
      var found := Check(text, wordList, cfg, isNumber).list;
      (forall k :: 0 <= k < |found| ==> found[k].index < |Split(text, ' ')| == Count(text, ' ') + 1)
      && (forall j, k :: 0 <= j < k < |found| ==> found[j].index < found[k].index)
  {
    var tokens := Split(text, ' ');
    var verdicts := Verdicts(tokens, wordList, cfg, isNumber);
    assert Check(text, wordList, cfg, isNumber) == Collect(verdicts, |tokens|);
    CollectSound(verdicts, |tokens|);
  }

  /**
   * Every correction names the cleaned, lower-cased text of the token at its
   * position; that text is non-empty, matches no entry of the word list with
   * or without `'s`, does not end in `-` when such words are ignored, and the
   * token itself, commas removed, is not a number.
   */
  lemma FlaggedWordsAreUnknown(text: string, wordList: seq<string>, cfg: Config, isNumber: string -> bool)
    ensures Check(text, wordList, cfg, isNumber).Corrections? ==>
      var found := Check(text, wordList, cfg, isNumber).list;
      forall k :: 0 <= k < |found| ==>
        found[k].index < |Split(text, ' ')|
        && var token := Split(text, ' ')[found[k].index];
        && var w := found[k].original;
        && w == Cleaned(ToLower(token), cfg) && w != []
        && !isNumber(RemoveAll(token, ','))
        && !Known(w, wordList)
        && (cfg.ignoreWordsEndingInHyphen ==> !EndsWithChar(w, '-'))
  {
    var tokens := Split(text, ' ');
    var verdicts := Verdicts(tokens, wordList, cfg, isNumber);
    assert Check(text, wordList, cfg, isNumber) == Collect(verdicts, |tokens|);
    CollectSound(verdicts, |tokens|);
    if Check(text, wordList, cfg, isNumber).Corrections? {
      var found := Check(text, wordList, cfg, isNumber).list;
      forall k | 0 <= k < |found|
        ensures found[k].index < |tokens|
        ensures var w := found[k].original;
          w == Cleaned(ToLower(tokens[found[k].index]), cfg) && w != []
          && !isNumber(RemoveAll(tokens[found[k].index], ','))
          && !Known(w, wordList)
          && (cfg.ignoreWordsEndingInHyphen ==> !EndsWithChar(w, '-'))
      {
        assert verdicts[found[k].index] == TokenVerdict(tokens[found[k].index], wordList, cfg, isNumber);
        FlagMeans(tokens[found[k].index], wordList, cfg, isNumber, found[k].original);
      }
    }
  }

  /** The check fails exactly when the verdict on some token is that its ordinal test throws. */
  lemma CheckCompletesUnlessThrown(text: string, wordList: seq<string>, cfg: Config, isNumber: string -> bool)
    ensures var verdicts := Verdicts(Split(text, ' '), wordList, cfg, isNumber);
      Check(text, wordList, cfg, isNumber).Corrections? <==> Throw !in verdicts
  {
    var tokens := Split(text, ' ');
    var verdicts := Verdicts(tokens, wordList, cfg, isNumber);
    assert Check(text, wordList, cfg, isNumber) == Collect(verdicts, |tokens|);
    CollectComplete(verdicts, |tokens|);
  }

  /**
   * A token throws exactly when it reaches the ordinal test and its cleaned
   * word, an ordinal candidate, holds more than two commas.
   */
  lemma ThrowMeans(token: string, wordList: seq<string>, cfg: Config, isNumber: string -> bool)
    ensures var w := Cleaned(ToLower(token), cfg);
      TokenVerdict(token, wordList, cfg, isNumber) == Throw <==>
        (!isNumber(RemoveAll(token, ',')) && w != []
         && !(cfg.ignoreWordsEndingInHyphen && EndsWithChar(w, '-'))
         && !Known(w, wordList) && IsOrdinalCandidate(w) && Count(w, ',') > 2)
  {
    var w := Cleaned(ToLower(token), cfg);
    if IsOrdinalCandidate(w) {
      OrdinalSuffixShape(w);
    }
  }

  /** When the check completes, every token the loop body flags has its correction. */
  lemma EveryUnexcusedTokenFlagged(text: string, wordList: seq<string>, cfg: Config, isNumber: string -> bool)
    ensures var tokens := Split(text, ' ');
      Check(text, wordList, cfg, isNumber).Corrections? ==>
        forall i :: 0 <= i < |tokens| && TokenVerdict(tokens[i], wordList, cfg, isNumber).Flag? ==>
          exists k :: 0 <= k < |Check(text, wordList, cfg, isNumber).list|
                      && Check(text, wordList, cfg, isNumber).list[k].index == i
  {
    var tokens := Split(text, ' ');
    var verdicts := Verdicts(tokens, wordList, cfg, isNumber);
    assert Check(text, wordList, cfg, isNumber) == Collect(verdicts, |tokens|);
    CollectComplete(verdicts, |tokens|);
    forall i | 0 <= i < |tokens|
      ensures verdicts[i] == TokenVerdict(tokens[i], wordList, cfg, isNumber)
    {
    }
  }

  /** Empty text and text made only of spaces have no correction. */
  lemma BlankTextPasses(text: string, wordList: seq<string>, cfg: Config, isNumber: string -> bool)
    requires forall k :: 0 <= k < |text| ==> text[k] == ' '
    ensures Check(text, wordList, cfg, isNumber) == Corrections([])
  {
    var tokens := Split(text, ' ');
    SplitSeparatorsOnly(text, ' ');
    var verdicts := Verdicts(tokens, wordList, cfg, isNumber);
    assert Cleaned(ToLower([]), cfg) == [] by {
      assert ToLower([]) == [];
    }
    forall i | 0 <= i < |tokens|
      ensures verdicts[i] == Exempt
    {
      assert tokens[i] == [];
    }
    AllExemptCollect(verdicts, |tokens|);
  }

  /** An unknown word without an ordinal suffix is flagged. */
  lemma UnknownWordFlagged(token: string, wordList: seq<string>, cfg: Config, isNumber: string -> bool)
    requires !isNumber(RemoveAll(token, ','))
    requires Cleaned(ToLower(token), cfg) != []
    requires !(cfg.ignoreWordsEndingInHyphen && EndsWithChar(Cleaned(ToLower(token), cfg), '-'))
    requires !Known(Cleaned(ToLower(token), cfg), wordList)
    requires !IsOrdinalCandidate(Cleaned(ToLower(token), cfg))
    ensures TokenVerdict(token, wordList, cfg, isNumber) == Flag(Cleaned(ToLower(token), cfg))
  {
  }

  /** The three characters of an ordinal suffix hold no comma. */
  lemma OrdinalSuffixShape(word: string)
    requires IsOrdinalCandidate(word)
    ensures |word| >= 3
    ensures ',' !in word[|word| - 3..]
    ensures forall j :: |word| - 2 <= j < |word| ==> 'a' <= word[j] <= 'z'
  {
    var t := word[|word| - 3..];
    assert t == "1st" || t == "2nd" || t == "3rd" || t == "4th" || t == "5th"
        || t == "6th" || t == "7th" || t == "8th" || t == "9th" || t == "0th";
    assert t[0] != ',' && t[1] != ',' && t[2] != ',' && 'a' <= t[1] <= 'z' && 'a' <= t[2] <= 'z';
    forall j | |word| - 2 <= j < |word|
      ensures 'a' <= word[j] <= 'z'
    {
      assert word[j] == t[j - (|word| - 3)];
    }
  }

  /**
   * The remainder handed to the number test. Its length is measured before
   * the commas are removed, so it is the comma-free part before the suffix,
   * then the suffix digit, then one suffix letter per removed comma; with more
   * than two commas `Substring` throws.
   */
  lemma OrdinalRemainderShape(word: string)
    requires |word| >= 3 && ',' !in word[|word| - 3..]
    ensures Count(word, ',') > 2 <==> OrdinalRemainder(word).None?
    ensures Count(word, ',') <= 2 ==>
      OrdinalRemainder(word).Some?
      && OrdinalRemainder(word).value == RemoveAll(word[..|word| - 3], ',') + word[|word| - 3..][..1 + Count(word, ',')]
  {
    if Count(word, ',') <= 2 {
      CommasOutsideSuffix(word);
      RemainderOfSplitWord(word, word[..|word| - 3], word[|word| - 3..]);
    }
  }

  /** The commas of a word whose suffix has none all lie before the suffix. */
  lemma CommasOutsideSuffix(word: string)
    requires |word| >= 3 && ',' !in word[|word| - 3..]
    ensures Count(word, ',') == Count(word[..|word| - 3], ',')
  {
    assert word == word[..|word| - 3] + word[|word| - 3..];
    CommasBeforeSuffix(word[..|word| - 3], word[|word| - 3..]);
  }

  /** OrdinalRemainderShape for a word given as its head and its comma-free three-character suffix. */
  lemma RemainderOfSplitWord(word: string, head: string, suffix: string)
    requires |word| >= 3 && head == word[..|word| - 3] && suffix == word[|word| - 3..] && ',' !in suffix
    requires Count(head, ',') <= 2
    ensures OrdinalRemainder(word).Some?
    ensures OrdinalRemainder(word).value == RemoveAll(head, ',') + suffix[..1 + Count(head, ',')]
  {
    assert word == head + suffix;
    RemainderCutsIntoSuffix(word, head, suffix);
    PrefixIntoSuffix(RemoveAll(head, ','), suffix, Count(head, ','), |head|);
  }

  /** The cut is taken from the comma-free head followed by the suffix. */
  lemma RemainderCutsIntoSuffix(word: string, head: string, suffix: string)
    requires word == head + suffix && |suffix| == 3 && ',' !in suffix
    requires Count(head, ',') <= 2
    ensures OrdinalRemainder(word).Some?
    ensures OrdinalRemainder(word).value == (RemoveAll(head, ',') + suffix)[..|head| + 1]
  {
    CommasBeforeSuffix(head, suffix);
  }

  /** Cutting `kept + suffix` at `n + 1`, where `kept` is `commas` short of `n`, keeps `1 + commas` suffix characters. */
  lemma PrefixIntoSuffix(kept: string, suffix: string, commas: nat, n: nat)
    requires |suffix| == 3 && commas <= 2 && |kept| + commas == n
    ensures (kept + suffix)[..n + 1] == kept + suffix[..1 + commas]
  {
  }

  /**
   * With one or two interior commas the remainder ends in a suffix letter
   * (`1,001st` gives `1001s`), so a number test that rejects letters fails on
   * it; with no comma it is the comma-free numeral, suffix digit included.
   */
  lemma CommaRemainderKeepsSuffix(word: string)
    requires |word| >= 3 && ',' !in word[|word| - 3..]
    requires forall j :: |word| - 2 <= j < |word| ==> 'a' <= word[j] <= 'z'
    requires Count(word, ',') <= 2
    ensures OrdinalRemainder(word).Some?
    ensures Count(word, ',') == 0 ==> OrdinalRemainder(word).value == word[..|word| - 2]
    ensures Count(word, ',') > 0 ==>
      var rest := OrdinalRemainder(word).value;
      rest != [] && 'a' <= rest[|rest| - 1] <= 'z'
  {
    OrdinalRemainderShape(word);
    if Count(word, ',') == 0 {
      CommaFreeRemainder(word);
    } else {
      CommaRemainderEndsInLetter(word);
    }
  }

  /** Without commas the remainder is the word less its two suffix letters. */
  lemma CommaFreeRemainder(word: string)
    requires |word| >= 3 && ',' !in word[|word| - 3..]
    requires Count(word, ',') == 0
    ensures OrdinalRemainder(word).Some? && OrdinalRemainder(word).value == word[..|word| - 2]
  {
    OrdinalRemainderShape(word);
    var head := word[..|word| - 3];
    CommasOutsideSuffix(word);
    CountZero(head, ',');
    RemoveAllAbsent(head, ',');
    HeadAndDigit(word);
  }

  /** The head followed by the first suffix character is the word less its last two characters. */
  lemma HeadAndDigit(word: string)
    requires |word| >= 3
    ensures word[..|word| - 3] + word[|word| - 3..][..1] == word[..|word| - 2]
  {
  }

  /** With one or two commas the remainder ends in a suffix letter. */
  lemma CommaRemainderEndsInLetter(word: string)
    requires |word| >= 3 && ',' !in word[|word| - 3..]
    requires forall j :: |word| - 2 <= j < |word| ==> 'a' <= word[j] <= 'z'
    requires 0 < Count(word, ',') <= 2
    ensures OrdinalRemainder(word).Some?
    ensures var rest := OrdinalRemainder(word).value;
      rest != [] && 'a' <= rest[|rest| - 1] <= 'z'
  {
    OrdinalRemainderShape(word);
    var rest := OrdinalRemainder(word).value;
    assert rest[|rest| - 1] == word[|word| - 3 + Count(word, ',')];
  }

  /** Commas before a comma-free suffix: removal and counting only see the head. */
  lemma CommasBeforeSuffix(head: string, suffix: string)
    requires ',' !in suffix
    ensures Count(head + suffix, ',') == Count(head, ',')
    ensures RemoveAll(head + suffix, ',') == RemoveAll(head, ',') + suffix
  {
    RemoveAllAppend(head, suffix, ',');
    RemoveAllAbsent(suffix, ',');
    CountAppend(head, suffix, ',');
  }

  /**
   * An unknown word with an ordinal suffix is excused exactly when the number
   * test accepts its remainder; with more than two commas the check throws.
   */
  lemma OrdinalExemption(token: string, wordList: seq<string>, cfg: Config, isNumber: string -> bool)
    requires !isNumber(RemoveAll(token, ','))
    requires Cleaned(ToLower(token), cfg) != []
    requires !(cfg.ignoreWordsEndingInHyphen && EndsWithChar(Cleaned(ToLower(token), cfg), '-'))
    requires !Known(Cleaned(ToLower(token), cfg), wordList)
    requires IsOrdinalCandidate(Cleaned(ToLower(token), cfg))
    ensures var word := Cleaned(ToLower(token), cfg);
      Count(word, ',') > 2 ==> TokenVerdict(token, wordList, cfg, isNumber) == Throw
    ensures var word := Cleaned(ToLower(token), cfg);
      Count(word, ',') <= 2 ==>
        var rest := RemoveAll(word[..|word| - 3], ',') + word[|word| - 3..][..1 + Count(word, ',')];
        TokenVerdict(token, wordList, cfg, isNumber) == (if isNumber(rest) then Exempt else Flag(word))
  {
    CandidateRemainder(Cleaned(ToLower(token), cfg));
  }

  /** The remainder of an ordinal candidate, in terms of its comma-free head and its suffix. */
  lemma CandidateRemainder(word: string)
    requires IsOrdinalCandidate(word)
    ensures |word| >= 3
    ensures Count(word, ',') > 2 ==> OrdinalRemainder(word).None?
    ensures Count(word, ',') <= 2 ==>
      OrdinalRemainder(word) == Some(RemoveAll(word[..|word| - 3], ',') + word[|word| - 3..][..1 + Count(word, ',')])
  {
    OrdinalSuffixShape(word);
    OrdinalRemainderShape(word);
  }

  /** A bare `0th` is not an ordinal candidate, while a longer word ending in `0th` is. */
  lemma BareZerothNotOrdinal()
    ensures !IsOrdinalCandidate("0th")
    ensures IsOrdinalCandidate("100th")
  {
    var z := "0th";
    assert z[|z| - 3..] == z;
    forall suffix | suffix in ["1st", "2nd", "3rd", "4th", "5th", "6th", "7th", "8th", "9th"]
      ensures !EndsWith(z, suffix)
    {
      assert z[0] != suffix[0];
    }
    assert "100th"[2..] == z;
  }

  /**
   * The suffix test looks only at the last digit, so teen numerals are not
   * ordinal candidates: a word whose last digit is 1, 2 or 3 followed by `th`
   * (`11th`, `12th`, `13th`, `111th`) is not one.
   */
  lemma TeenNumeralsNotOrdinal(word: string)
    requires |word| >= 3 && '1' <= word[|word| - 3] <= '3' && word[|word| - 2..] == "th"
    ensures !IsOrdinalCandidate(word)
  {
    OrdinalCandidateByDigit(word);
  }

  /** Conversely, any word ending in `1st` is a candidate, `11st` included. */
  lemma FirstSuffixIsOrdinal(word: string)
    requires |word| >= 3 && word[|word| - 3] == '1' && word[|word| - 2..] == "st"
    ensures IsOrdinalCandidate(word)
  {
    OrdinalCandidateByDigit(word);
  }

  /**
   * Under the shipped settings a teen numeral such as `11th`, typed in lower
   * case, is flagged as a misspelling unless the word list knows it or the
   * number test accepts it.
   */
  lemma TeenOrdinalFlagged(token: string, wordList: seq<string>, isNumber: string -> bool)
    requires forall i :: 0 <= i < |token| ==> 'a' <= token[i] <= 'z' || '0' <= token[i] <= '9'
    requires |token| >= 3 && '1' <= token[|token| - 3] <= '3' && token[|token| - 2..] == "th"
    requires !isNumber(token) && !Known(token, wordList)
    ensures TokenVerdict(token, wordList, DefaultConfig(), isNumber) == Flag(token)
  {
    assert ',' !in token;
    RemoveAllAbsent(token, ',');
    assert ToLower(token) == token;
    AlphanumericWordIsClean(token, DefaultConfig());
    TeenNumeralsNotOrdinal(token);
    UnknownWordFlagged(token, wordList, DefaultConfig(), isNumber);
  }

  /**
   * A word-list entry passes the check in any capitalisation (`Hello` for the
   * entry `hello`), typed alone or with a possessive `'s`, provided it holds no
   * space and cleaning leaves its lower-cased form alone.
   */
  lemma KnownWordPasses(typed: string, entry: string, wordList: seq<string>, cfg: Config, isNumber: string -> bool)
    requires entry in wordList
    requires ' ' !in typed && ToLower(typed) == ToLower(entry)
    requires Cleaned(ToLower(entry), cfg) == ToLower(entry)
    ensures Check(typed, wordList, cfg, isNumber) == Corrections([])
    ensures Check(typed + "'s", wordList, cfg, isNumber) == Corrections([])
  {
    EntryTokenExempt(typed, entry, wordList, cfg, isNumber);
    AllExemptCollect(Verdicts([typed], wordList, cfg, isNumber), 1);
    PossessiveTokenExempt(typed, entry, wordList, cfg, isNumber);
    AllExemptCollect(Verdicts([typed + "'s"], wordList, cfg, isNumber), 1);
  }

  /** A space-free token that lower-cases to a clean word-list entry is a single exempt token. */
  lemma EntryTokenExempt(typed: string, entry: string, wordList: seq<string>, cfg: Config, isNumber: string -> bool)
    requires entry in wordList
    requires ' ' !in typed && ToLower(typed) == ToLower(entry)
    requires Cleaned(ToLower(entry), cfg) == ToLower(entry)
    ensures Split(typed, ' ') == [typed]
    ensures TokenVerdict(typed, wordList, cfg, isNumber) == Exempt
  {
    SplitPlain(typed, ' ');
    assert Matches(entry, ToLower(entry));
  }

  /** The same token with `'s` added is a single exempt token too. */
  lemma PossessiveTokenExempt(typed: string, entry: string, wordList: seq<string>, cfg: Config, isNumber: string -> bool)
    requires entry in wordList
    requires ' ' !in typed && ToLower(typed) == ToLower(entry)
    requires Cleaned(ToLower(entry), cfg) == ToLower(entry)
    ensures Split(typed + "'s", ' ') == [typed + "'s"]
    ensures TokenVerdict(typed + "'s", wordList, cfg, isNumber) == Exempt
  {
    var w := ToLower(entry);
    var possessive := typed + "'s";
    assert ' ' !in possessive;
    SplitPlain(possessive, ' ');
    assert ToLower(possessive) == w + "'s" by {
      ToLowerAppend(typed, "'s");
      assert ToLower("'s") == "'s";
    }
    PossessiveCleansLikeWord(w, cfg);
    assert Matches(entry, Cleaned(ToLower(possessive), cfg));
  }

  /** The entry `hello` lets the token `Hello` through. */
  lemma CapitalisedEntryPasses(wordList: seq<string>, cfg: Config, isNumber: string -> bool)
    requires "hello" in wordList
    requires AlphanumericFree(cfg.punctuationCleaningList)
    ensures Check("Hello", wordList, cfg, isNumber) == Corrections([])
  {
    assert ToLower("Hello") == "hello" == ToLower("hello");
    AlphanumericWordIsClean("hello", cfg);
    KnownWordPasses("Hello", "hello", wordList, cfg, isNumber);
  }

  /** A word that cleaning leaves alone cleans to itself again once a possessive is added. */
  lemma PossessiveCleansLikeWord(w: string, cfg: Config)
    requires Cleaned(w, cfg) == w
    ensures Cleaned(w + "'s", cfg) == w
  {
    UnpunctuatedOfCleanWord(w, cfg);
    TrimUnchanged(w + "'s");
    assert Unpunctuated(w + "'s") == w;
  }

  /** A word that cleaning leaves alone is already trimmed and has no possessive to cut. */
  lemma UnpunctuatedOfCleanWord(w: string, cfg: Config)
    requires Cleaned(w, cfg) == w
    ensures Unpunctuated(w) == w
    ensures w != [] ==> w[0] !in WhiteSpace
  {
    CleanedIsInnerSlice(w, cfg);
    var t := TrimStart(w, WhiteSpace);
    TrimStartSpec(w, WhiteSpace);
    TrimEndSpec(t, WhiteSpace);
    assert t == w;
    assert Trim(w) == w;
  }
}
