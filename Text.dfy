/**
 * Models of the .NET string operations the spell checker relies on:
 * `Trim`, `ToLower`, `Split(" ")`, `Replace(",", "")` and the ordinal
 * `StartsWith`/`EndsWith` tests. Lower-casing and trimming are ASCII-only.
 */
module Text {

  /** The characters `Trim` removes in this model (ASCII whitespace). */
  const WhiteSpace: set<char> := {' ', '\t', '\n', '\r', '\U{000B}', '\U{000C}'}

  /** `s.StartsWith(c)` for a single character. */
  predicate StartsWithChar(s: string, c: char) {
    |s| > 0 && s[0] == c
  }

  /** `s.EndsWith(c)` for a single character. */
  predicate EndsWithChar(s: string, c: char) {
    |s| > 0 && s[|s| - 1] == c
  }

  /** `s.EndsWith(suffix)`, compared ordinally. */
  predicate EndsWith(s: string, suffix: string) {
    |suffix| <= |s| && s[|s| - |suffix|..] == suffix
  }

  /** Drops the longest prefix of `s` whose characters all lie in `strip`. */
  function TrimStart(s: string, strip: set<char>): string {
    if |s| > 0 && s[0] in strip then TrimStart(s[1..], strip) else s
  }

  /** Drops the longest suffix of `s` whose characters all lie in `strip`. */
  function TrimEnd(s: string, strip: set<char>): string {
    if |s| > 0 && s[|s| - 1] in strip then TrimEnd(s[..|s| - 1], strip) else s
  }

  /**
   * TrimStart keeps a suffix of `s`, everything it drops is strippable and
   * what it keeps does not start with a strippable character. These facts
   * determine the result uniquely (see TrimStartAt).
   */
  lemma {:induction false} TrimStartSpec(s: string, strip: set<char>)
    ensures var r := TrimStart(s, strip);
      |r| <= |s| && r == s[|s| - |r|..]
      && (forall i :: 0 <= i < |s| - |r| ==> s[i] in strip)
      && (r != [] ==> r[0] !in strip)
  {
    if |s| > 0 && s[0] in strip {
      TrimStartSpec(s[1..], strip);
    }
  }

  /**
   * TrimEnd keeps a prefix of `s`, everything it drops is strippable and what
   * it keeps does not end with a strippable character.
   */
  lemma {:induction false} TrimEndSpec(s: string, strip: set<char>)
    ensures var r := TrimEnd(s, strip);
      |r| <= |s| && r == s[..|r|]
      && (forall i :: |r| <= i < |s| ==> s[i] in strip)
      && (r != [] ==> r[|r| - 1] !in strip)
  {
    if |s| > 0 && s[|s| - 1] in strip {
      TrimEndSpec(s[..|s| - 1], strip);
    }
  }

  /** If the first `k` characters are strippable and the next one is not, TrimStart drops exactly `k`. */
  lemma TrimStartAt(s: string, strip: set<char>, k: nat)
    requires k <= |s|
    requires forall i :: 0 <= i < k ==> s[i] in strip
    requires k < |s| ==> s[k] !in strip
    ensures TrimStart(s, strip) == s[k..]
  {
    TrimStartSpec(s, strip);
  }

  /** If the last `|s| - k` characters are strippable and the one before is not, TrimEnd keeps exactly `k`. */
  lemma TrimEndAt(s: string, strip: set<char>, k: nat)
    requires k <= |s|
    requires forall i :: k <= i < |s| ==> s[i] in strip
    requires 0 < k ==> s[k - 1] !in strip
    ensures TrimEnd(s, strip) == s[..k]
  {
    TrimEndSpec(s, strip);
  }

  /**
   * Trimming both ends of `s` keeps exactly `s[lo..hi]` when everything before
   * `lo` is front-strippable, everything from `hi` on is back-strippable, and
   * the middle cannot be shortened at either end.
   */
  lemma TrimBothAt(s: string, front: set<char>, back: set<char>, lo: nat, hi: nat)
    requires back <= front
    requires lo <= hi <= |s|
    requires forall j :: 0 <= j < lo ==> s[j] in front
    requires forall j :: hi <= j < |s| ==> s[j] in back
    requires lo < hi ==> s[lo] !in front && s[hi - 1] !in back
    ensures TrimEnd(TrimStart(s, front), back) == s[lo..hi]
  {
    if lo < hi {
      TrimStartAt(s, front, lo);
      TrimEndAt(s[lo..], back, hi - lo);
      assert s[lo..][..hi - lo] == s[lo..hi];
    } else {
      TrimStartAt(s, front, |s|);
    }
  }

  /** Every character of `s` lies in `chars`. */
  predicate AllIn(s: string, chars: set<char>) {
    forall i :: 0 <= i < |s| ==> s[i] in chars
  }

  /**
   * `s.Trim()`: whitespace removed from both ends. The result is the slice of
   * `s` that starts after its leading whitespace, everything cut on either side
   * is whitespace, and neither end of the result is.
   */
  function Trim(s: string): (r: string)
    ensures var lo := |s| - |TrimStart(s, WhiteSpace)|;
      0 <= lo && lo + |r| <= |s| && r == s[lo..lo + |r|]
      && AllIn(s[..lo], WhiteSpace) && AllIn(s[lo + |r|..], WhiteSpace)
    ensures r != [] ==> r[0] !in WhiteSpace && r[|r| - 1] !in WhiteSpace
  {
    TrimStartSpec(s, WhiteSpace);
    TrimEndSpec(TrimStart(s, WhiteSpace), WhiteSpace);
    TrimEnd(TrimStart(s, WhiteSpace), WhiteSpace)
  }

  /** A string whose two ends are not whitespace is left alone by `Trim`. */
  lemma TrimUnchanged(s: string)
    requires s != [] ==> s[0] !in WhiteSpace && s[|s| - 1] !in WhiteSpace
    ensures Trim(s) == s
  {
    TrimStartAt(s, WhiteSpace, 0);
    TrimEndAt(s, WhiteSpace, |s|);
  }

  /** `Char.ToLower`, restricted to ASCII letters. */
  function LowerChar(c: char): char {
    if 'A' <= c <= 'Z' then (c as int - 'A' as int + 'a' as int) as char else c
  }

  /**
   * `s.ToLower()`, character by character: the length is kept, every
   * upper-case letter becomes its lower-case partner 32 code points further on,
   * so none is left, and every other character is kept as it is.
   */
  function ToLower(s: string): (r: string)
    ensures |r| == |s|
    ensures forall i :: 0 <= i < |s| ==> !('A' <= r[i] <= 'Z')
    ensures forall i :: 0 <= i < |s| && !('A' <= s[i] <= 'Z') ==> r[i] == s[i]
    ensures forall i :: 0 <= i < |s| && 'A' <= s[i] <= 'Z' ==> r[i] as int == s[i] as int + 32
  {
    seq(|s|, i requires 0 <= i < |s| => LowerChar(s[i]))
  }

  /** Lower-casing distributes over concatenation. */
  lemma ToLowerAppend(s: string, t: string)
    ensures ToLower(s + t) == ToLower(s) + ToLower(t)
  {
  }

  /** The number of occurrences of `c` in `s`. */
  function Count(s: string, c: char): (n: nat)
    ensures n <= |s|
  {
    if s == [] then 0 else (if s[0] == c then 1 else 0) + Count(s[1..], c)
  }

  /** A character occurs zero times exactly when it is absent. */
  lemma {:induction false} CountZero(s: string, c: char)
    ensures Count(s, c) == 0 <==> c !in s
  {
    if s != [] {
      CountZero(s[1..], c);
      assert s == [s[0]] + s[1..];
    }
  }

  /** Occurrences in a concatenation add up. */
  lemma {:induction false} CountAppend(s: string, t: string, c: char)
    ensures Count(s + t, c) == Count(s, c) + Count(t, c)
  {
    if s == [] {
      assert s + t == t;
    } else {
      assert (s + t)[1..] == s[1..] + t;
      CountAppend(s[1..], t, c);
    }
  }

  /** `s.Replace(c, "")` for a one-character pattern: every occurrence of `c` removed. */
  function RemoveAll(s: string, c: char): (r: string)
    ensures c !in r
    ensures |r| == |s| - Count(s, c)
  {
    if s == [] then []
    else
      assert s == [s[0]] + s[1..];
      (if s[0] == c then [] else [s[0]]) + RemoveAll(s[1..], c)
  }

  /** Removal distributes over concatenation. */
  lemma {:induction false} RemoveAllAppend(s: string, t: string, c: char)
    ensures RemoveAll(s + t, c) == RemoveAll(s, c) + RemoveAll(t, c)
  {
    if s == [] {
      assert s + t == t;
    } else {
      assert (s + t)[1..] == s[1..] + t;
      RemoveAllAppend(s[1..], t, c);
    }
  }

  /** A string without `c` is left unchanged. */
  lemma {:induction false} RemoveAllAbsent(s: string, c: char)
    requires c !in s
    ensures RemoveAll(s, c) == s
  {
    if s != [] {
      RemoveAllAbsent(s[1..], c);
    }
  }

  /**
   * `s.Split(sep)` with no options: the pieces between consecutive separators,
   * so `n` separators give `n + 1` pieces, some of them possibly empty.
   */
  function Split(s: string, sep: char): (r: seq<string>)
    ensures |r| == Count(s, sep) + 1
    ensures forall k :: 0 <= k < |r| ==> sep !in r[k]
  {
    if s == [] then [[]]
    else
      assert s == [s[0]] + s[1..];
      var rest := Split(s[1..], sep);
      if s[0] == sep then [[]] + rest
      else [[s[0]] + rest[0]] + rest[1..]
  }

  /** The pieces glued back together with `sep` between them. */
  function Join(pieces: seq<string>, sep: char): string
    requires |pieces| >= 1
  {
    if |pieces| == 1 then pieces[0] else pieces[0] + [sep] + Join(pieces[1..], sep)
  }

  /** Splitting loses nothing: joining the pieces gives back the input. */
  lemma {:induction false} JoinSplit(s: string, sep: char)
    ensures Join(Split(s, sep), sep) == s
  {
    if s != [] {
      var rest := Split(s[1..], sep);
      JoinSplit(s[1..], sep);
      if s[0] == sep {
        assert ([[]] + rest)[1..] == rest;
      } else if |rest| == 1 {
        assert s == [s[0]] + s[1..];
      } else {
        var r := [[s[0]] + rest[0]] + rest[1..];
        assert r[1..] == rest[1..];
        assert Join(rest, sep) == rest[0] + [sep] + Join(rest[1..], sep);
        assert s == [s[0]] + s[1..];
      }
    }
  }

  /** Splitting is the inverse of joining pieces that hold no separator. */
  lemma {:induction false} SplitJoin(pieces: seq<string>, sep: char)
    requires |pieces| >= 1
    requires forall k :: 0 <= k < |pieces| ==> sep !in pieces[k]
    ensures Split(Join(pieces, sep), sep) == pieces
  {
    if |pieces| == 1 {
      SplitPlain(pieces[0], sep);
    } else {
      SplitJoin(pieces[1..], sep);
      SplitAfterPlain(pieces[0], Join(pieces[1..], sep), sep);
      assert pieces == [pieces[0]] + pieces[1..];
    }
  }

  /** A string without a separator splits into itself. */
  lemma {:induction false} SplitPlain(s: string, sep: char)
    requires sep !in s
    ensures Split(s, sep) == [s]
  {
    if s != [] {
      SplitPlain(s[1..], sep);
      assert s == [s[0]] + s[1..];
    }
  }

  /** A separator-free head becomes the first piece; the rest splits as before. */
  lemma {:induction false} SplitAfterPlain(head: string, tail: string, sep: char)
    requires sep !in head
    ensures Split(head + [sep] + tail, sep) == [head] + Split(tail, sep)
  {
    if head == [] {
      assert head + [sep] + tail == [sep] + tail;
      assert ([sep] + tail)[1..] == tail;
    } else {
      var s := head + [sep] + tail;
      assert s[0] == head[0];
      assert s[1..] == head[1..] + [sep] + tail;
      SplitAfterPlain(head[1..], tail, sep);
      assert head == [head[0]] + head[1..];
    }
  }

  /** A string made only of separators splits into one more empty piece than it has characters. */
  lemma {:induction false} SplitSeparatorsOnly(s: string, sep: char)
    requires forall k :: 0 <= k < |s| ==> s[k] == sep
    ensures |Split(s, sep)| == |s| + 1
    ensures forall k :: 0 <= k < |Split(s, sep)| ==> Split(s, sep)[k] == []
  {
    if s != [] {
      SplitSeparatorsOnly(s[1..], sep);
    }
  }
}
