/**
 * Token cleaning (`SpellChecker.CleanWord`): trim, drop one trailing possessive
 * `'s`, then repeat passes over the punctuation list, each pass removing a
 * listed character from the front and from the back, until a pass removes
 * nothing or the token is empty.
 */
module Cleaning {
  import opened Text

  /** The two settings the spell checker reads from the plugin configuration. */
  datatype Config = Config(ignoreWordsEndingInHyphen: bool, punctuationCleaningList: string)

  /** An ASCII letter or digit. */
  predicate IsAlphanumeric(c: char) {
    'a' <= c <= 'z' || 'A' <= c <= 'Z' || '0' <= c <= '9'
  }

  /** No character of `s` is an ASCII letter or digit. */
  predicate AlphanumericFree(s: string) {
    forall i :: 0 <= i < |s| ==> !IsAlphanumeric(s[i])
  }

  /** Joining two such strings gives another. */
  lemma AlphanumericFreeAppend(s: string, t: string)
    requires AlphanumericFree(s) && AlphanumericFree(t)
    ensures AlphanumericFree(s + t)
  {
  }

  /** The three pieces of the shipped punctuation list hold no letter or digit. */
  lemma ShippedPiecesAlphanumericFree()
    ensures AlphanumericFree(",.'*\"-(){}")
    ensures AlphanumericFree("[]!?<>`~\U{2665}")
    ensures AlphanumericFree("@#$%^&*_=+\\/")
  {
  }

  /**
   * The shipped defaults of both settings: hyphen-ended words are ignored, and
   * the list holds `.`, `'` and `-` but no ASCII letter or digit. The list literal is
   * written in three pieces so that each can be inspected on its own.
   */
  function DefaultConfig(): (cfg: Config)
    ensures cfg.ignoreWordsEndingInHyphen
    ensures '.' in cfg.punctuationCleaningList && '\'' in cfg.punctuationCleaningList
    ensures '-' in cfg.punctuationCleaningList
    ensures AlphanumericFree(cfg.punctuationCleaningList)
  {
    var brackets := ",.'*\"-(){}";
    var marks := "[]!?<>`~\U{2665}";
    var symbols := "@#$%^&*_=+\\/";
    ShippedPiecesAlphanumericFree();
    AlphanumericFreeAppend(brackets, marks);
    AlphanumericFreeAppend(brackets + marks, symbols);
    assert brackets[1] == '.' && brackets[2] == '\'' && brackets[5] == '-';
    Config(true, brackets + marks + symbols)
  }

  /** Characters a pass may remove from the front of the token. */
  function LeadingSet(cfg: Config): set<char> {
    set c | c in cfg.punctuationCleaningList
  }

  /** Characters a pass may remove from the back: the list, less `-` when hyphen-ended words are ignored. */
  function TrailingSet(cfg: Config): (b: set<char>)
    ensures b <= LeadingSet(cfg)
  {
    set c | c in cfg.punctuationCleaningList && !(cfg.ignoreWordsEndingInHyphen && c == '-')
  }

  /** The possessive step: one trailing `'s` is cut, once. */
  function StripPossessive(s: string): (r: string)
    ensures EndsWith(s, "'s") ==> s == r + "'s"
    ensures !EndsWith(s, "'s") ==> r == s
  {
    if EndsWith(s, "'s") then s[..|s| - 2] else s
  }

  /** What the punctuation loop starts from: the trimmed token without its possessive. */
  function Unpunctuated(token: string): string {
    StripPossessive(Trim(token))
  }

  /**
   * The closed form of the punctuation loop on any string: the longest listed
   * prefix goes, then the longest trailing-strippable suffix.
   */
  function Stripped(s: string, cfg: Config): string {
    TrimEnd(TrimStart(s, LeadingSet(cfg)), TrailingSet(cfg))
  }

  /** The cleaned token in closed form: the closed form of the trimmed token without its possessive. */
  function Cleaned(token: string, cfg: Config): string {
    Stripped(Unpunctuated(token), cfg)
  }

  /**
   * Characterises the closed form: any split of `s` into a listed prefix, a
   * middle and a trailing-strippable suffix whose middle cannot be shortened
   * at either end yields exactly that middle.
   */
  lemma StrippedFromBounds(s: string, cfg: Config, lo: nat, hi: nat)
    requires lo <= hi <= |s|
    requires forall j :: 0 <= j < lo ==> s[j] in LeadingSet(cfg)
    requires forall j :: hi <= j < |s| ==> s[j] in TrailingSet(cfg)
    requires lo < hi ==> s[lo] !in LeadingSet(cfg) && s[hi - 1] !in TrailingSet(cfg)
    ensures Stripped(s, cfg) == s[lo..hi]
  {
    TrimBothAt(s, LeadingSet(cfg), TrailingSet(cfg), lo, hi);
  }

  /**
   * `CleanWord`: trim, cut one possessive `'s`, then run the punctuation loop.
   * Whatever the order of the list and of the removals, the result is the
   * closed form `Cleaned`.
   */
  method CleanWord(token: string, cfg: Config) returns (str: string)
    ensures str == Cleaned(token, cfg)
    ensures str != [] ==> str[0] !in cfg.punctuationCleaningList
    ensures str != [] ==> (str[|str| - 1] !in cfg.punctuationCleaningList
                           || (cfg.ignoreWordsEndingInHyphen && str[|str| - 1] == '-'))
  {
    str := Trim(token);
    if EndsWith(str, "'s") {
      str := str[..|str| - 2];
    }
    str := StripPunctuation(str, cfg);
  }

  /**
   * The do-while loop of `CleanWord`: passes over the punctuation list until a
   * pass removes nothing or the token is empty. Every pass keeps the closed
   * form, and each pass that goes on shortens the token, so the loop
   * terminates with a token that is its own closed form.
   */
  method StripPunctuation(start: string, cfg: Config) returns (str: string)
    ensures str == Stripped(start, cfg)
    ensures str != [] ==> str[0] !in cfg.punctuationCleaningList
    ensures str != [] ==> (str[|str| - 1] !in cfg.punctuationCleaningList
                           || (cfg.ignoreWordsEndingInHyphen && str[|str| - 1] == '-'))
  {
    str := start;
    while true
      invariant Stripped(str, cfg) == Stripped(start, cfg)
      decreases |str|
    {
      if |str| < 1 {
        break;
      }
      var next, doBreak := CleaningPass(str, cfg);
      str := next;
      if doBreak {
        break;
      }
    }
    StrippedFixedPoint(str, cfg);
  }

  /** A string whose ends cannot be stripped is its own closed form. */
  lemma StrippedFixedPoint(s: string, cfg: Config)
    requires s != [] ==> s[0] !in LeadingSet(cfg) && s[|s| - 1] !in TrailingSet(cfg)
    ensures Stripped(s, cfg) == s
  {
    StrippedFromBounds(s, cfg, 0, |s|);
  }

  /**
   * One pass of the loop: for each listed character in turn, remove it from
   * the front if the token starts with it, then from the back if the token
   * ends with it (the back skipped for `-` when hyphen-ended words are
   * ignored). The closed form is kept; `doBreak` is set exactly when the pass
   * removed nothing, and then neither end of the token is strippable.
   */
  method CleaningPass(str: string, cfg: Config) returns (next: string, doBreak: bool)
    ensures Stripped(next, cfg) == Stripped(str, cfg)
    ensures doBreak <==> next == str
    ensures !doBreak ==> |next| < |str|
    ensures doBreak && str != [] ==> str[0] !in LeadingSet(cfg) && str[|str| - 1] !in TrailingSet(cfg)
  {
    var list := cfg.punctuationCleaningList;
    next, doBreak := str, true;
    for k := 0 to |list|
      invariant Stripped(next, cfg) == Stripped(str, cfg)
      invariant doBreak ==> next == str
      invariant !doBreak ==> |next| < |str|
      invariant doBreak ==> forall j :: 0 <= j < k ==> !StartsWithChar(str, list[j])
      invariant doBreak ==> forall j :: 0 <= j < k && !(cfg.ignoreWordsEndingInHyphen && list[j] == '-')
                              ==> !EndsWithChar(str, list[j])
    {
      var stripped, cutFront, cutBack := StripCharacter(next, list[k], cfg);
      next := stripped;
      if cutFront || cutBack {
        doBreak := false;
      }
    }
  }

  /**
   * The body of a pass for one listed character `c`: cut `c` from the front
   * if the token starts with it, then from the back if the token now ends
   * with it, unless `c` is `-` and hyphen-ended words are ignored. Either cut
   * keeps the closed form.
   */
  method StripCharacter(s: string, c: char, cfg: Config) returns (t: string, cutFront: bool, cutBack: bool)
    requires c in cfg.punctuationCleaningList
    ensures var f, b := (if cutFront then 1 else 0), (if cutBack then 1 else 0);
      f + b <= |s| && t == s[f..|s| - b]
    ensures cutFront <==> StartsWithChar(s, c)
    ensures cutBack <==> !(cfg.ignoreWordsEndingInHyphen && c == '-')
                         && |s| > (if cutFront then 1 else 0) && s[|s| - 1] == c
    ensures Stripped(t, cfg) == Stripped(s, cfg)
  {
    t, cutFront, cutBack := s, false, false;
    if StartsWithChar(t, c) {
      t, cutFront := t[1..], true;
    }
    if !(cfg.ignoreWordsEndingInHyphen && c == '-') && EndsWithChar(t, c) {
      StrippedDropLast(t, cfg);
      t, cutBack := t[..|t| - 1], true;
    }
  }

  /** Cutting a trailing-strippable last character keeps the closed form. */
  lemma StrippedDropLast(s: string, cfg: Config)
    requires s != [] && s[|s| - 1] in TrailingSet(cfg)
    ensures Stripped(s[..|s| - 1], cfg) == Stripped(s, cfg)
  {
    var lead, n := LeadingSet(cfg), |s|;
    var x := TrimStart(s, lead);
    TrimStartSpec(s, lead);
    if x == [] {
      TrimStartAt(s[..n - 1], lead, n - 1);
    } else {
      var m := n - |x|;
      assert s[m] == x[0] && s[n - 1] in lead;
      TrimStartAt(s[..n - 1], lead, m);
      assert s[..n - 1][m..] == x[..|x| - 1];
    }
  }

  /**
   * Cleaning only removes characters from the two ends: the result is a
   * contiguous slice of the trimmed, possessive-stripped token, everything cut
   * in front is listed punctuation and everything cut behind is
   * trailing-strippable punctuation.
   */
  lemma CleanedIsInnerSlice(token: string, cfg: Config)
    ensures |Cleaned(token, cfg)| <= |Unpunctuated(token)| <= |token|
    ensures exists lo, hi :: 0 <= lo <= hi <= |Unpunctuated(token)|
              && Cleaned(token, cfg) == Unpunctuated(token)[lo..hi]
              && (forall j :: 0 <= j < lo ==> Unpunctuated(token)[j] in cfg.punctuationCleaningList)
              && (forall j :: hi <= j < |Unpunctuated(token)| ==> Unpunctuated(token)[j] in cfg.punctuationCleaningList)
  {
    UnpunctuatedNoLonger(token);
    StrippedIsInnerSlice(Unpunctuated(token), cfg);
  }

  /** Trimming and the possessive cut never lengthen the token. */
  lemma UnpunctuatedNoLonger(token: string)
    ensures |Unpunctuated(token)| <= |token|
  {
    TrimStartSpec(token, WhiteSpace);
    TrimEndSpec(TrimStart(token, WhiteSpace), WhiteSpace);
  }

  /** The punctuation loop's closed form keeps a slice of its input and cuts only listed characters. */
  lemma StrippedIsInnerSlice(u: string, cfg: Config)
    ensures |Stripped(u, cfg)| <= |u|
    ensures exists lo, hi :: 0 <= lo <= hi <= |u|
              && Stripped(u, cfg) == u[lo..hi]
              && (forall j :: 0 <= j < lo ==> u[j] in cfg.punctuationCleaningList)
              && (forall j :: hi <= j < |u| ==> u[j] in cfg.punctuationCleaningList)
  {
    var front := TrimStart(u, LeadingSet(cfg));
    var w := TrimEnd(front, TrailingSet(cfg));
    TrimStartSpec(u, LeadingSet(cfg));
    TrimEndSpec(front, TrailingSet(cfg));
    var lo := |u| - |front|;
    var hi := lo + |w|;
    assert w == u[lo..hi] by {
      assert front == u[lo..];
      assert w == front[..|w|];
    }
    forall j | 0 <= j < lo
      ensures u[j] in cfg.punctuationCleaningList
    {
      assert u[j] in LeadingSet(cfg);
    }
    forall j | hi <= j < |u|
      ensures u[j] in cfg.punctuationCleaningList
    {
      assert front[j - lo] == u[j];
      assert u[j] in TrailingSet(cfg);
    }
  }

  /**
   * Neither boundary of a non-empty cleaned token is listed punctuation, except
   * that a trailing `-` survives when hyphen-ended words are ignored.
   */
  lemma CleanedBoundaries(token: string, cfg: Config)
    ensures var w := Cleaned(token, cfg);
      w != [] ==> w[0] !in cfg.punctuationCleaningList
                  && (w[|w| - 1] !in cfg.punctuationCleaningList
                      || (cfg.ignoreWordsEndingInHyphen && w[|w| - 1] == '-'))
  {
    var w := Cleaned(token, cfg);
    var front := TrimStart(Unpunctuated(token), LeadingSet(cfg));
    TrimStartSpec(Unpunctuated(token), LeadingSet(cfg));
    TrimEndSpec(front, TrailingSet(cfg));
    if w != [] {
      assert w[0] == front[0];
    }
  }

  /** A trailing `.` is cut by the punctuation loop; the possessive before it is kept. */
  lemma DotAfterPossessive(cfg: Config)
    requires '.' in cfg.punctuationCleaningList
    requires 'd' !in cfg.punctuationCleaningList && 's' !in cfg.punctuationCleaningList
    ensures Cleaned("dog's.", cfg) == "dog's"
  {
    TrimUnchanged("dog's.");
    assert Unpunctuated("dog's.") == "dog's.";
    TrimStartAt("dog's.", LeadingSet(cfg), 0);
    assert '.' in TrailingSet(cfg);
    TrimEndAt("dog's.", TrailingSet(cfg), 5);
  }

  /** The possessive `'s` is cut before the punctuation loop runs. */
  lemma PossessiveCut(cfg: Config)
    requires 'd' !in cfg.punctuationCleaningList && 'g' !in cfg.punctuationCleaningList
    ensures Cleaned("dog's", cfg) == "dog"
  {
    TrimUnchanged("dog's");
    assert Unpunctuated("dog's") == "dog";
    TrimStartAt("dog", LeadingSet(cfg), 0);
    TrimEndAt("dog", TrailingSet(cfg), 3);
  }

  /**
   * Cleaning is not idempotent: the possessive is cut once, before the
   * punctuation loop, so under any list that holds `.` and none of the letters
   * involved (the shipped list, for one) `dog's.` cleans to `dog's`, which
   * cleans to `dog`.
   */
  lemma CleaningNotIdempotent(cfg: Config)
    requires '.' in cfg.punctuationCleaningList
    requires 'd' !in cfg.punctuationCleaningList && 's' !in cfg.punctuationCleaningList
    requires 'g' !in cfg.punctuationCleaningList
    ensures Cleaned(Cleaned("dog's.", cfg), cfg) != Cleaned("dog's.", cfg)
  {
    DotAfterPossessive(cfg);
    PossessiveCut(cfg);
  }

  /**
   * A trailing hyphen survives cleaning when hyphen-ended words are ignored
   * and is cut otherwise (for a list that holds `-`, as the shipped one does).
   */
  lemma TrailingHyphenRule(list: string)
    requires '-' in list && 'y' !in list && 'o' !in list
    ensures Cleaned("yo-", Config(true, list)) == "yo-"
    ensures Cleaned("yo-", Config(false, list)) == "yo"
  {
    TrimUnchanged("yo-");
    assert Unpunctuated("yo-") == "yo-";
    TrimStartAt("yo-", LeadingSet(Config(true, list)), 0);
    TrimEndAt("yo-", TrailingSet(Config(true, list)), 3);
    TrimStartAt("yo-", LeadingSet(Config(false, list)), 0);
    assert '-' in TrailingSet(Config(false, list));
    TrimEndAt("yo-", TrailingSet(Config(false, list)), 2);
  }

  /**
   * Under the shipped list: cleaning `dog's.` twice differs from cleaning it
   * once, and `yo-` keeps its hyphen by default and loses it when hyphen-ended
   * words are not ignored.
   */
  lemma ShippedListCleaning()
    ensures Cleaned(Cleaned("dog's.", DefaultConfig()), DefaultConfig()) != Cleaned("dog's.", DefaultConfig())
    ensures Cleaned("yo-", DefaultConfig()) == "yo-"
    ensures Cleaned("yo-", DefaultConfig().(ignoreWordsEndingInHyphen := false)) == "yo"
  {
    var list := DefaultConfig().punctuationCleaningList;
    AlphanumericNotListed(list, 'd');
    AlphanumericNotListed(list, 'g');
    AlphanumericNotListed(list, 's');
    AlphanumericNotListed(list, 'y');
    AlphanumericNotListed(list, 'o');
    CleaningNotIdempotent(DefaultConfig());
    TrailingHyphenRule(list);
  }

  /** A list without letters and digits does not hold the letter or digit `c`. */
  lemma AlphanumericNotListed(list: string, c: char)
    requires IsAlphanumeric(c)
    requires AlphanumericFree(list)
    ensures c !in list
  {
  }

  /**
   * A word made only of lower-case letters and digits is its own cleaned form
   * under any list without letters and digits: it has no whitespace to trim,
   * no `'s` to cut and no punctuation at its ends.
   */
  lemma AlphanumericWordIsClean(w: string, cfg: Config)
    requires AlphanumericFree(cfg.punctuationCleaningList)
    requires forall i :: 0 <= i < |w| ==> 'a' <= w[i] <= 'z' || '0' <= w[i] <= '9'
    ensures Cleaned(w, cfg) == w
  {
    TrimUnchanged(w);
    assert !EndsWith(w, "'s") by {
      if |w| >= 2 {
        assert w[|w| - 2..][0] == w[|w| - 2] != '\'';
      }
    }
    assert Unpunctuated(w) == w;
    if w != [] {
      AlphanumericNotListed(cfg.punctuationCleaningList, w[0]);
      AlphanumericNotListed(cfg.punctuationCleaningList, w[|w| - 1]);
    }
    TrimStartAt(w, LeadingSet(cfg), 0);
    TrimEndAt(w, TrailingSet(cfg), |w|);
  }
}
