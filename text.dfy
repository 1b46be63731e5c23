/**
 * ASCII string helpers with the meaning Python's `str` methods and `re`
 * classes give them on ASCII text: whitespace, digits, case mapping,
 * `strip`, `split` on one separator, `in` (substring), `endswith` and
 * `replace(pat, "")`.
 */
module Text {

  type String = seq<char>

  /** Python's `str.isspace` / `\s` on ASCII: space, \t \n \v \f \r and 0x1C-0x1F. */
  predicate IsSpace(c: char) {
    var n := c as int;
    n == 32 || 9 <= n <= 13 || 28 <= n <= 31
  }

  predicate IsDigit(c: char) { '0' <= c <= '9' }

  predicate IsLowerAscii(c: char) { 'a' <= c <= 'z' }

  predicate IsUpperAscii(c: char) { 'A' <= c <= 'Z' }

  /** `\w` on ASCII: letters, digits and underscore. */
  predicate IsWordChar(c: char) { IsLowerAscii(c) || IsUpperAscii(c) || IsDigit(c) || c == '_' }

  function DigitValue(c: char): (v: nat)
    requires IsDigit(c)
    ensures v < 10
  {
    c as int - '0' as int
  }

  function UpperChar(c: char): (u: char)
    ensures !IsLowerAscii(u)
    ensures IsSpace(u) <==> IsSpace(c)
    ensures IsDigit(u) <==> IsDigit(c)
    ensures !IsLowerAscii(c) ==> u == c
  {
    if IsLowerAscii(c) then (c as int - 32) as char else c
  }

  function LowerChar(c: char): (l: char)
    ensures !IsUpperAscii(l)
    ensures IsSpace(l) <==> IsSpace(c)
    ensures !IsUpperAscii(c) ==> l == c
  {
    if IsUpperAscii(c) then (c as int + 32) as char else c
  }

  /** `str.upper()` restricted to ASCII letters. */
  function Upper(s: String): (r: String)
    ensures |r| == |s|
    ensures forall i :: 0 <= i < |s| ==> r[i] == UpperChar(s[i])
  {
    seq(|s|, i requires 0 <= i < |s| => UpperChar(s[i]))
  }

  /** `str.lower()` restricted to ASCII letters. */
  function Lower(s: String): (r: String)
    ensures |r| == |s|
    ensures forall i :: 0 <= i < |s| ==> r[i] == LowerChar(s[i])
  {
    seq(|s|, i requires 0 <= i < |s| => LowerChar(s[i]))
  }

  /** The number of leading whitespace characters. */
  function SpacePrefix(s: String): (n: nat)
    ensures n <= |s|
    ensures forall i :: 0 <= i < n ==> IsSpace(s[i])
    ensures n == |s| || !IsSpace(s[n])
  {
    if s != [] && IsSpace(s[0]) then
      var n := SpacePrefix(s[1..]);
      assert forall i :: 1 <= i < 1 + n ==> s[i] == s[1..][i - 1];
      1 + n
    else 0
  }

  /** The length of `s` without its trailing whitespace. */
  function ContentEnd(s: String): (e: nat)
    ensures e <= |s|
    ensures forall i :: e <= i < |s| ==> IsSpace(s[i])
    ensures e == 0 || !IsSpace(s[e - 1])
  {
    if s != [] && IsSpace(s[|s| - 1]) then ContentEnd(s[..|s| - 1]) else |s|
  }

  /** `str.lstrip()`. */
  function TrimLeft(s: String): (r: String)
    ensures r == [] || !IsSpace(r[0])
  {
    s[SpacePrefix(s)..]
  }

  /** `str.strip()`: the infix between the leading and the trailing whitespace. */
  function Strip(s: String): (r: String)
    ensures IsStripped(r)
  {
    var a := SpacePrefix(s);
    if a == |s| then []
    else
      var e := ContentEnd(s);
      assert a < e;
      s[a..e]
  }

  /** A string `strip()` leaves alone. */
  predicate IsStripped(s: String) {
    s == [] || (!IsSpace(s[0]) && !IsSpace(s[|s| - 1]))
  }

  lemma StripStripped(s: String)
    requires IsStripped(s)
    ensures Strip(s) == s
  {
  }

  /** `pat` occurs in `s` starting at index `i`. */
  predicate OccursAt(s: String, pat: String, i: int) {
    0 <= i && i + |pat| <= |s| && s[i..i + |pat|] == pat
  }

  /** A single character that differs from the pattern rules out an occurrence. */
  lemma NotOccursAt(s: String, pat: String, i: nat, k: nat)
    requires k < |pat| && i + k < |s| && s[i + k] != pat[k]
    ensures !OccursAt(s, pat, i)
  {
    if i + |pat| <= |s| {
      assert s[i..i + |pat|][k] == s[i + k];
    }
  }

  lemma OccursShift(s: String, pat: String, i: int)
    requires s != [] && 0 <= i
    ensures OccursAt(s[1..], pat, i) <==> OccursAt(s, pat, i + 1)
  {
    if 0 <= i && i + |pat| <= |s| - 1 {
      assert s[1..][i..i + |pat|] == s[i + 1..i + 1 + |pat|];
    }
  }

  /** Python's `pat in s`. */
  function Contains(s: String, pat: String): bool
    decreases |s|
  {
    if |pat| > |s| then false
    else if s[..|pat|] == pat then true
    else Contains(s[1..], pat)
  }

  /** `Contains` holds exactly when the pattern occurs at some index. */
  lemma {:induction false} ContainsIff(s: String, pat: String)
    ensures Contains(s, pat) <==> exists i :: OccursAt(s, pat, i)
    decreases |s|
  {
    if |pat| > |s| {
    } else if s[..|pat|] == pat {
      assert OccursAt(s, pat, 0);
    } else {
      ContainsIff(s[1..], pat);
      if Contains(s[1..], pat) {
        var i :| OccursAt(s[1..], pat, i);
        OccursShift(s, pat, i);
      }
      if exists i :: OccursAt(s, pat, i) {
        var i :| OccursAt(s, pat, i);
        assert i != 0;
        OccursShift(s, pat, i - 1);
      }
    }
  }

  /** Python's `s.endswith(suffix)`. */
  predicate EndsWith(s: String, suffix: String) {
    |suffix| <= |s| && s[|s| - |suffix|..] == suffix
  }

  /**
   * Python's `s.replace(pat, "")` for a non-empty pattern: one left-to-right
   * pass that deletes every non-overlapping occurrence.
   */
  function RemoveAll(s: String, pat: String): (r: String)
    requires pat != []
    ensures |r| <= |s|
    ensures !Contains(s, pat) ==> r == s
    decreases |s|
  {
    if |s| < |pat| then s
    else if s[..|pat|] == pat then RemoveAll(s[|pat|..], pat)
    else
      [s[0]] + RemoveAll(s[1..], pat)
  }

  /** Python's `s.split(sep)` for a one-character separator. */
  function Split(s: String, sep: char): (parts: seq<String>)
    ensures |parts| >= 1
    ensures forall k :: 0 <= k < |parts| ==> sep !in parts[k]
  {
    if s == [] then [[]]
    else
      var rest := Split(s[1..], sep);
      if s[0] == sep then [[]] + rest
      else [[s[0]] + rest[0]] + rest[1..]
  }

  /** Python's `sep.join(parts)` for a one-character separator. */
  function Join(parts: seq<String>, sep: char): String {
    if |parts| == 0 then []
    else if |parts| == 1 then parts[0]
    else parts[0] + [sep] + Join(parts[1..], sep)
  }

  /** Splitting and re-joining on the same separator gives back the text. */
  lemma {:induction false} JoinSplit(s: String, sep: char)
    ensures Join(Split(s, sep), sep) == s
  {
    if s != [] {
      var rest := Split(s[1..], sep);
      JoinSplit(s[1..], sep);
      if s[0] == sep {
        assert Split(s, sep) == [[]] + rest;
      } else {
        var parts := Split(s, sep);
        assert parts == [[s[0]] + rest[0]] + rest[1..];
        if |rest| == 1 {
          assert Join(parts, sep) == [s[0]] + rest[0];
        } else {
          assert parts[1..] == rest[1..];
          assert Join(rest, sep) == rest[0] + [sep] + Join(rest[1..], sep);
          assert Join(parts, sep) == [s[0]] + rest[0] + [sep] + Join(rest[1..], sep);
        }
      }
    }
  }

  /** Joining separator-free parts and splitting again gives back the parts. */
  lemma {:induction false} SplitJoin(parts: seq<String>, sep: char)
    requires |parts| >= 1
    requires forall k :: 0 <= k < |parts| ==> sep !in parts[k]
    ensures Split(Join(parts, sep), sep) == parts
  {
    if |parts| == 1 {
      SplitFree(parts[0], sep);
    } else {
      SplitJoin(parts[1..], sep);
      SplitPrefix(parts[0], [sep] + Join(parts[1..], sep), sep);
      assert ([sep] + Join(parts[1..], sep))[1..] == Join(parts[1..], sep);
      assert parts[0] + [sep] + Join(parts[1..], sep) == parts[0] + ([sep] + Join(parts[1..], sep));
    }
  }

  lemma {:induction false} SplitFree(w: String, sep: char)
    requires sep !in w
    ensures Split(w, sep) == [w]
  {
    if w != [] {
      SplitFree(w[1..], sep);
      assert [w[0]] + w[1..] == w;
    }
  }

  /** A separator-free head glued to `[sep] + tail` splits into the head and the pieces of the tail. */
  lemma {:induction false} SplitPrefix(w: String, rest: String, sep: char)
    requires sep !in w
    requires rest != [] && rest[0] == sep
    ensures Split(w + rest, sep) == [w] + Split(rest[1..], sep)
  {
    if w == [] {
      assert w + rest == rest;
    } else {
      SplitPrefix(w[1..], rest, sep);
      assert (w + rest)[1..] == w[1..] + rest;
      assert [w[0]] + w[1..] == w;
    }
  }

  /** A non-empty string starting with a non-whitespace character keeps that character at the head of its strip. */
  lemma StripKeepsHead(x: String)
    requires x != [] && !IsSpace(x[0])
    ensures Strip(x) != [] && Strip(x)[0] == x[0]
  {
  }

  /** `[l.strip() for l in ls if len(l.strip()) > minLen]`. */
  function KeepLines(ls: seq<String>, minLen: nat): (r: seq<String>)
    ensures |r| <= |ls|
    ensures forall k :: 0 <= k < |r| ==> IsStripped(r[k]) && |r[k]| > minLen
  {
    if ls == [] then []
    else
      var rest := KeepLines(ls[1..], minLen);
      if |Strip(ls[0])| > minLen then [Strip(ls[0])] + rest else rest
  }

  /** A line is kept exactly when it is the stripped form of some input line longer than `minLen`. */
  lemma {:induction false} KeepLinesMembers(ls: seq<String>, minLen: nat)
    ensures forall x :: x in KeepLines(ls, minLen) <==> exists l :: l in ls && Strip(l) == x && |x| > minLen
  {
    if ls != [] {
      KeepLinesMembers(ls[1..], minLen);
      assert forall l :: l in ls <==> l == ls[0] || l in ls[1..];
    }
  }

  /** The stripped lines of `text` longer than `minLen` characters, in order. */
  function Lines(text: String, minLen: nat): seq<String> {
    KeepLines(Split(text, '\n'), minLen)
  }

  /** `\d{2}/\d{2}/\d{4}` matches `s[i..i + 10]`. */
  predicate DateShapeAt(s: String, i: nat) {
    i + 10 <= |s|
    && IsDigit(s[i]) && IsDigit(s[i + 1]) && s[i + 2] == '/'
    && IsDigit(s[i + 3]) && IsDigit(s[i + 4]) && s[i + 5] == '/'
    && IsDigit(s[i + 6]) && IsDigit(s[i + 7]) && IsDigit(s[i + 8]) && IsDigit(s[i + 9])
  }
}
