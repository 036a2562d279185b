# Wordsmith spell checker, modelled in Dafny

Wordsmith is a Dalamud plugin for composing chat text. Its spell checker
(`SpellChecker` in `Wordsmith/Helpers/SpellChecker.cs`) has two operations:

- **`CleanWord`** normalises one token. It trims it, cuts one trailing
  possessive `'s`, then makes passes over the configured punctuation list. In
  each pass, every listed character is removed from the front of the token if
  the token starts with it, and then from the back if the token ends with it.
  The back removal is skipped for `-` when hyphen-ended words are ignored.
  Passes stop when one removes nothing or the token is empty.
- **`CheckString`** splits a text on single spaces and walks the tokens by
  index. A token is skipped when it is a number once its commas are removed.
  Otherwise it is lower-cased and cleaned, and the cleaned word is skipped when
  it is empty, when it ends in `-` and such words are ignored, when a word-list
  entry matches it (with or without `'s`), or when it passes the ordinal test.
  That test accepts a word ending in a digit followed by that digit's own
  suffix (`st` after 1, `nd` after 2, `rd` after 3, `th` otherwise), except the
  bare `0th`, and only when the number test then accepts the remainder cut
  from it (`31st` is excused). Every other token yields a correction holding
  the cleaned word and the token's index.

The project has four modules:

- `Text` models the .NET string operations the checker uses: `Trim`,
  `ToLower`, `Split(" ")`, `Replace(",", "")` and ordinal `EndsWith`.
- `Cleaning` holds `CleanWord` as imperative code (a do-while loop of passes
  around a loop over the list) and the closed form `Cleaned` it is proved to
  compute: drop the longest prefix of listed characters, then the longest
  suffix of back-strippable characters. Every single cut keeps that closed
  form (`Stripped`), so every pass keeps it, and the loop stops at a token
  whose ends cannot be stripped, which is its own closed form.
- `SpellChecker` holds `CheckString` as a counted loop that appends to a
  result list. It is proved equal to `Check`, a fold of per-token verdicts.
  `FirstMatch` is the word-list lookup.
- `CheckProperties` proves what `CheckString` promises about its result.

The two settings, `IgnoreWordsEndingInHyphen` and `PunctuationCleaningList`,
form the `Config` parameter. `DefaultConfig` holds their shipped defaults
(`Wordsmith/Configuration.cs`, lines 30 and 35), and `ShippedListCleaning`
restates the cleaning examples below at those defaults. The word list is a
`seq<string>` parameter. The number test `float.TryParse` is a parameter
`isNumber: string -> bool`.

A token that is not a number, whose cleaned word is non-empty, not an ignored
hyphen-ended word, not in the word list and an ordinal candidate, is cut at
line 53 with
`Substring(0, word.Length - 2)`. That length is measured before the commas
are removed. With more than two commas the cut runs past the end of the
comma-free word, and `Substring` throws. The model makes this an outcome:
`CheckString` returns `Thrown(SubstringOutOfRange(i))` for the first such
token `i` instead of a list of corrections. With one or two commas the
remainder keeps one or two suffix letters (`1,001st` gives `1001s`).

Four behaviours of the code are easy to misread:

- Cleaning is not idempotent. The `'s` cut runs once, before the punctuation
  loop, so `dog's.` cleans to `dog's`, which cleans again to `dog`
  (`Cleaning.CleaningNotIdempotent`).
- The lookup consults only the language word list. The user's custom
  dictionary (`CustomDictionaryEntries`) is not consulted at line 31, so it
  is not part of the model.
- With `IgnoreWordsEndingInHyphen` off, a trailing `-` is ordinary
  punctuation: `yo-` cleans to `yo` (`Cleaning.TrailingHyphenRule`).
- The ordinal test looks only at the last digit. Teen numerals such as `11th`,
  `12th`, `13th` and `111th` are not candidates and are flagged unless the
  word list knows them, while `11st` is a candidate
  (`CheckProperties.TeenNumeralsNotOrdinal`, `CheckProperties.TeenOrdinalFlagged`).

## Model

| member | source | states |
|---|---|---|
| Text.Split | Wordsmith/Helpers/SpellChecker.cs:15 | Splitting on one character gives one more piece than there are separators, and no piece holds the separator |
| Text.JoinSplit | Wordsmith/Helpers/SpellChecker.cs:15 | Splitting loses nothing: joining the pieces with the separator gives back the text |
| Text.SplitJoin | Wordsmith/Helpers/SpellChecker.cs:15 | Splitting inverts joining for pieces without the separator |
| Text.SplitSeparatorsOnly | Wordsmith/Helpers/SpellChecker.cs:15 | A text of n spaces splits into n + 1 empty tokens, so consecutive spaces still use up indices |
| Text.RemoveAll | Wordsmith/Helpers/SpellChecker.cs:21 | Removing commas leaves no comma and shortens the text by exactly its number of commas |
| Text.TrimStartSpec | Wordsmith/Helpers/SpellChecker.cs:76 | Trimming the front keeps a suffix, drops only strippable characters, and stops at a character it may not strip |
| Text.TrimEndSpec | Wordsmith/Helpers/SpellChecker.cs:76 | Trimming the back keeps a prefix, drops only strippable characters, and stops at a character it may not strip |
| Text.Trim | Wordsmith/Helpers/SpellChecker.cs:76 | Trimming keeps the slice of the token after its leading whitespace; everything cut from either side is whitespace, and neither end of the result is |
| Text.ToLower | Wordsmith/Helpers/SpellChecker.cs:24 | Lower-casing keeps the length, turns every upper-case letter into its lower-case partner (32 code points on), so none is left, and keeps every other character as it is |
| Cleaning.DefaultConfig | Wordsmith/Configuration.cs:30-35 | By default hyphen-ended words are ignored, and the shipped punctuation list holds `.`, `'` and `-` but no ASCII letter or digit |
| Cleaning.AlphanumericWordIsClean | Wordsmith/Helpers/SpellChecker.cs:73-121 | Under a list without letters and digits, a word of lower-case letters and digits cleans to itself |
| Cleaning.StripPossessive | Wordsmith/Helpers/SpellChecker.cs:78-79 | A token ending in `'s` loses exactly those two characters; any other token is unchanged |
| Cleaning.TrailingSet | Wordsmith/Helpers/SpellChecker.cs:103-104 | What may be removed from the back is a subset of what may be removed from the front |
| Cleaning.CleanWord | Wordsmith/Helpers/SpellChecker.cs:73-121 | The cleaned token equals the closed form `Cleaned`; when non-empty it neither starts with a listed character nor ends with one, except a `-` kept because hyphen-ended words are ignored |
| Cleaning.StripPunctuation | Wordsmith/Helpers/SpellChecker.cs:82-118 | The do-while loop terminates (each pass that goes on shortens the token) and leaves exactly the closed form: the front-trimmed, back-trimmed token, whatever the order of removals |
| Cleaning.CleaningPass | Wordsmith/Helpers/SpellChecker.cs:89-117 | One pass keeps the closed form of the token and shortens it unless it reports "break"; it reports "break" exactly when it removed nothing, and then neither end of the token is strippable |
| Cleaning.StripCharacter | Wordsmith/Helpers/SpellChecker.cs:92-112 | For one listed character: the front is cut exactly when the token starts with it; the back is cut exactly when the remaining token ends with it and it is not an ignored `-`; the result is the token less those cuts, and its closed form is unchanged |
| Cleaning.StrippedDropLast | Wordsmith/Helpers/SpellChecker.cs:107-110 | Removing a back-strippable last character does not change the closed form |
| Cleaning.StrippedFixedPoint | Wordsmith/Helpers/SpellChecker.cs:115-120 | A token whose first character is not listed and whose last character is not back-strippable is its own closed form |
| Cleaning.StrippedFromBounds | Wordsmith/Helpers/SpellChecker.cs:82-118 | Any split into a listed prefix, a middle that cannot be shortened and a back-strippable suffix determines the cleaned result: it is that middle |
| Cleaning.CleanedIsInnerSlice | Wordsmith/Helpers/SpellChecker.cs:76-112 | The cleaned token is a contiguous slice of the trimmed, `'s`-cut token, no longer than it, and every character cut from either end is listed punctuation |
| Cleaning.CleanedBoundaries | Wordsmith/Helpers/SpellChecker.cs:89-117 | A non-empty cleaned token does not start with listed punctuation and does not end with it, except a `-` when hyphen-ended words are ignored |
| Cleaning.DotAfterPossessive | Wordsmith/Helpers/SpellChecker.cs:78-112 | `dog's.` cleans to `dog's`: the `'s` test fails on the dot, and the loop then cuts only the dot |
| Cleaning.PossessiveCut | Wordsmith/Helpers/SpellChecker.cs:78-79 | `dog's` cleans to `dog` |
| Cleaning.CleaningNotIdempotent | Wordsmith/Helpers/SpellChecker.cs:73-121 | Cleaning twice can differ from cleaning once (`dog's.`), for any list holding `.` and none of `d`, `g`, `s` |
| Cleaning.TrailingHyphenRule | Wordsmith/Helpers/SpellChecker.cs:103-104 | A trailing `-` survives cleaning when hyphen-ended words are ignored and is cut when they are not |
| Cleaning.ShippedListCleaning | Wordsmith/Helpers/SpellChecker.cs:73-121 | Under the shipped list, cleaning `dog's.` twice differs from cleaning it once, and `yo-` keeps its hyphen by default but loses it when hyphen-ended words are not ignored |
| SpellChecker.IsOrdinalCandidate | Wordsmith/Helpers/SpellChecker.cs:39-48 | An ordinal candidate has at least three characters and ends in a digit followed by two lower-case letters |
| SpellChecker.OrdinalCandidateByDigit | Wordsmith/Helpers/SpellChecker.cs:39-48 | The ten suffix tests amount to one test on the last digit: a word is a candidate exactly when it ends in a digit followed by that digit's English suffix (`st`, `nd`, `rd`, otherwise `th`) and is not the bare `0th` |
| SpellChecker.FirstMatch | Wordsmith/Helpers/SpellChecker.cs:31 | The lookup finds nothing exactly when no entry matches the word with or without `'s`, and otherwise returns the first matching entry |
| SpellChecker.OrdinalRemainder | Wordsmith/Helpers/SpellChecker.cs:53 | The cut throws exactly when the word is shorter than two characters or holds more than two commas; otherwise the remainder is two characters shorter than the word |
| SpellChecker.CollectStep | Wordsmith/Helpers/SpellChecker.cs:18-59 | One more token: an exempt verdict leaves the outcome alone, a flagged one appends its correction at that index, and a throwing one fixes the final outcome as that exception |
| SpellChecker.ThrownPersists | Wordsmith/Helpers/SpellChecker.cs:53 | Once a token throws, later tokens do not change the outcome |
| SpellChecker.CheckWord | Wordsmith/Helpers/SpellChecker.cs:20-59 | The loop body's early exits compute the per-token verdict: exempt, flag the cleaned word, or throw |
| SpellChecker.CheckWordAt | Wordsmith/Helpers/SpellChecker.cs:20-59 | The loop body at index i yields exactly the verdict on the i-th token of the split text |
| SpellChecker.CheckTokens | Wordsmith/Helpers/SpellChecker.cs:18-64 | The counted loop keeps the corrections gathered so far equal to the fold of the first i verdicts, and returns the fold of all of them or the first exception, at that token's index |
| SpellChecker.CheckString | Wordsmith/Helpers/SpellChecker.cs:12-65 | Splitting on single spaces and running the loop gives the fold of the per-token verdicts over the space-separated tokens: corrections appended in token order, or the first exception |
| CheckProperties.CollectSound | Wordsmith/Helpers/SpellChecker.cs:18-59 | Every collected correction comes from a flagged verdict at its own index, indices strictly increase, and an exception names the first throwing token |
| CheckProperties.CollectComplete | Wordsmith/Helpers/SpellChecker.cs:18-59 | The loop completes exactly when no verdict throws, and then every flagged token has its correction |
| CheckProperties.AllExemptCollect | Wordsmith/Helpers/SpellChecker.cs:18-26 | Tokens that are all skipped produce no correction |
| CheckProperties.FlagMeans | Wordsmith/Helpers/SpellChecker.cs:21-59 | A flagged token is not a number, and its word is its non-empty cleaned lower-cased text, unknown with and without `'s`, not ending in an ignored `-` |
| CheckProperties.CorrectionsInTokenOrder | Wordsmith/Helpers/SpellChecker.cs:15-59 | At most one correction per token, every index below the token count (spaces + 1), indices strictly increasing |
| CheckProperties.FlaggedWordsAreUnknown | Wordsmith/Helpers/SpellChecker.cs:21-59 | Every correction's word is the non-empty cleaned lower-cased text of the token at its index, no entry matches it with or without `'s`, the token is not a number, and it does not end in an ignored `-` |
| CheckProperties.CheckCompletesUnlessThrown | Wordsmith/Helpers/SpellChecker.cs:18-61 | The check returns corrections exactly when no token's verdict is to throw |
| CheckProperties.ThrowMeans | Wordsmith/Helpers/SpellChecker.cs:21-53 | A token throws exactly when it reaches the ordinal test and its cleaned word holds more than two commas |
| CheckProperties.EveryUnexcusedTokenFlagged | Wordsmith/Helpers/SpellChecker.cs:18-61 | When the check completes, every token the loop body flags has a correction at its index |
| CheckProperties.BlankTextPasses | Wordsmith/Helpers/SpellChecker.cs:15-26 | Empty text and text of spaces only give no correction |
| CheckProperties.UnknownWordFlagged | Wordsmith/Helpers/SpellChecker.cs:34-59 | A non-number, non-empty, unknown word with no ordinal suffix and no ignored `-` is flagged as its cleaned word |
| CheckProperties.OrdinalSuffixShape | Wordsmith/Helpers/SpellChecker.cs:39-48 | An ordinal candidate has at least three characters, no comma in its suffix, and ends in two lower-case letters |
| CheckProperties.OrdinalRemainderShape | Wordsmith/Helpers/SpellChecker.cs:53 | With a comma-free suffix, the cut throws exactly when there are more than two commas; otherwise the remainder is the comma-free head, the suffix digit, and one suffix letter per comma |
| CheckProperties.CommaRemainderKeepsSuffix | Wordsmith/Helpers/SpellChecker.cs:53 | For an ordinal-shaped word, no comma gives the numeral with its suffix digit; one or two commas give a remainder that ends in a suffix letter |
| CheckProperties.OrdinalExemption | Wordsmith/Helpers/SpellChecker.cs:39-55 | An unknown ordinal candidate throws with more than two commas; otherwise it is exempt exactly when the number test accepts the remainder, and flagged when it does not |
| CheckProperties.TeenNumeralsNotOrdinal | Wordsmith/Helpers/SpellChecker.cs:39-48 | A word whose last digit is 1, 2 or 3 followed by `th` (`11th`, `12th`, `13th`, `111th`) is not an ordinal candidate |
| CheckProperties.FirstSuffixIsOrdinal | Wordsmith/Helpers/SpellChecker.cs:39-48 | Every word ending in `1st`, `11st` included, is an ordinal candidate |
| CheckProperties.TeenOrdinalFlagged | Wordsmith/Helpers/SpellChecker.cs:21-59 | Under the shipped settings, a lower-case teen numeral such as `11th` that the word list does not know and the number test rejects is flagged as itself |
| CheckProperties.BareZerothNotOrdinal | Wordsmith/Helpers/SpellChecker.cs:48 | `0th` alone is not an ordinal candidate, `100th` is |
| CheckProperties.KnownWordPasses | Wordsmith/Helpers/SpellChecker.cs:24-31 | A word-list entry that cleaning leaves alone passes the check when typed without spaces in any capitalisation that lower-cases to the entry's, alone or with `'s` |
| CheckProperties.EntryTokenExempt | Wordsmith/Helpers/SpellChecker.cs:15-31 | A space-free token that lower-cases like a clean word-list entry is one token, and the loop body skips it |
| CheckProperties.PossessiveTokenExempt | Wordsmith/Helpers/SpellChecker.cs:15-31 | The same token with `'s` added is one token too, and the loop body skips it because the entry matches its cleaned word |
| CheckProperties.CapitalisedEntryPasses | Wordsmith/Helpers/SpellChecker.cs:24-31 | With `hello` in the word list, the text `Hello` gives no correction |
| CheckProperties.PossessiveCleansLikeWord | Wordsmith/Helpers/SpellChecker.cs:78-79 | For a word that cleans to itself, the word with `'s` added cleans to the word |
| CheckProperties.UnpunctuatedOfCleanWord | Wordsmith/Helpers/SpellChecker.cs:76-79 | A word that cleans to itself is already trimmed and has no possessive to cut |

## Left out

- The number test `float.TryParse` is a parameter. Culture rules, exponents, `NaN`, `Infinity` and floating-point values are not modelled.
- `ToLower` and `Trim` are ASCII-only here. .NET uses Unicode case mapping and Unicode whitespace.
- `EndsWith(string)` is compared ordinally. .NET's default comparison is culture-sensitive, which matters only for unusual characters such as zero-width ones.
- Loading `Lang.WordList` is not modelled; the word list is a parameter.
- `Wordsmith/Configuration.cs` is not part of this model beyond the two spell-check defaults. Its `Save` is plugin I/O, and its custom dictionary is not consulted by the checker.
- The windows in `Wordsmith/Gui` (settings, thesaurus, error window) are not part of this model. They are drawing, web search, clipboard and browser code.
- The only exception modelled is the `Substring` one at line 53. An exception thrown inside `float.TryParse` or a null word-list entry is not modelled.
- The loop bodies are split into separate methods: `CheckTokens` for the `CheckString` loop over the tokens, `CheckWordAt` and `CheckWord` for its body, `CleaningPass` for one pass of the `CleanWord` loop, and `StripCharacter` for one listed character within a pass. Their early returns play the role of the source's `continue` and `break`.
- Characters are Unicode scalar values here, while .NET strings are UTF-16 code units. A list character outside the Basic Multilingual Plane (an emoji, say) is stripped whole in this model, but `StartsWith`, `EndsWith` and `Substring` in the source strip it by UTF-16 halves, which can cut one half of a different character sharing that surrogate. The shipped list lies inside the Basic Multilingual Plane, where the two agree.
