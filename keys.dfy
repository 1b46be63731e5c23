/**
 * Tenant keys: `normalize` (upper-case, collapse whitespace runs, strip) and
 * `first_two_words` (the first two whitespace-separated tokens of the
 * normalised name, joined by one space). The key is the identity under which
 * pages of all four documents are grouped.
 */
module Keys {
  import opened Text

  predicate NoLower(s: String) {
    forall i :: 0 <= i < |s| ==> !IsLowerAscii(s[i])
  }

  /** Every whitespace character is a plain space and is not followed by another one. */
  predicate SingleSpaced(s: String) {
    && (forall i :: 0 <= i < |s| && IsSpace(s[i]) ==> s[i] == ' ')
    && (forall i, j :: 0 <= i < |s| && i < j < |s| && j == i + 1 && IsSpace(s[i]) ==> !IsSpace(s[j]))
  }

  /** The shape of every `normalize` result. */
  predicate IsNormal(s: String) {
    NoLower(s) && SingleSpaced(s) && IsStripped(s)
  }

  /** `re.sub(r"\s+", " ", s)`: each maximal run of whitespace becomes one space. */
  function Collapse(s: String): (r: String)
    ensures r == [] <==> s == []
    ensures r != [] ==> (IsSpace(r[0]) <==> IsSpace(s[0]))
    decreases |s|
  {
    if s == [] then []
    else if IsSpace(s[0]) then [' '] + Collapse(TrimLeft(s))
    else [s[0]] + Collapse(s[1..])
  }

  /** The result of collapsing is single-spaced, and has no lower-case letter if the input has none. */
  lemma {:induction false} CollapseShape(s: String)
    ensures SingleSpaced(Collapse(s))
    ensures NoLower(s) ==> NoLower(Collapse(s))
    decreases |s|
  {
    if s != [] {
      if IsSpace(s[0]) {
        var t := TrimLeft(s);
        CollapseShape(t);
        assert NoLower(s) ==> NoLower(t) by {
          if NoLower(s) {
            forall i | 0 <= i < |t| ensures !IsLowerAscii(t[i]) {
              assert t[i] == s[|s| - |t| + i];
            }
          }
        }
        ConsShape(' ', Collapse(t));
      } else {
        var t := s[1..];
        CollapseShape(t);
        assert NoLower(s) ==> NoLower(t) by {
          if NoLower(s) {
            forall i | 0 <= i < |t| ensures !IsLowerAscii(t[i]) {
              assert t[i] == s[i + 1];
            }
          }
        }
        ConsShape(s[0], Collapse(t));
      }
    }
  }

  /** Putting one character in front of a single-spaced string. */
  lemma ConsShape(c: char, r: String)
    requires SingleSpaced(r)
    requires IsSpace(c) ==> c == ' ' && (r == [] || !IsSpace(r[0]))
    ensures SingleSpaced([c] + r)
    ensures !IsLowerAscii(c) && NoLower(r) ==> NoLower([c] + r)
  {
    var x := [c] + r;
    assert forall i :: 0 < i < |x| ==> x[i] == r[i - 1];
  }

  /** Python's `normalize(name)`. */
  function Normalize(name: String): (r: String)
    ensures IsNormal(r)
  {
    var c := Collapse(Upper(name));
    CollapseShape(Upper(name));
    StripKeepsShape(c);
    Strip(c)
  }

  lemma StripKeepsShape(x: String)
    ensures NoLower(x) ==> NoLower(Strip(x))
    ensures SingleSpaced(x) ==> SingleSpaced(Strip(x))
  {
    var a := SpacePrefix(x);
    if a < |x| {
      var r := Strip(x);
      assert forall i :: 0 <= i < |r| ==> r[i] == x[a + i];
    }
  }

  /** A single-spaced string has no run to collapse. */
  lemma {:induction false} CollapseSingleSpaced(s: String)
    requires SingleSpaced(s)
    ensures Collapse(s) == s
    decreases |s|
  {
    if s != [] {
      assert SingleSpaced(s[1..]) by {
        forall i | 0 <= i < |s| - 1 && IsSpace(s[1..][i])
          ensures s[1..][i] == ' ' && (i + 1 == |s| - 1 || !IsSpace(s[1..][i + 1]))
        {
          assert s[1..][i] == s[i + 1];
        }
      }
      CollapseSingleSpaced(s[1..]);
      if IsSpace(s[0]) {
        assert TrimLeft(s) == TrimLeft(s[1..]);
        assert s[1..] == [] || !IsSpace(s[1]);
        assert TrimLeft(s[1..]) == s[1..];
        assert s == [' '] + s[1..];
      } else {
        assert s == [s[0]] + s[1..];
      }
    }
  }

  /** Normalising a normalised string changes nothing. */
  lemma NormalIsFixed(s: String)
    requires IsNormal(s)
    ensures Normalize(s) == s
  {
    assert Upper(s) == s;
    CollapseSingleSpaced(s);
    StripStripped(s);
  }

  /** `normalize` is idempotent. */
  lemma NormalizeIdempotent(name: String)
    ensures Normalize(Normalize(name)) == Normalize(name)
  {
    NormalIsFixed(Normalize(name));
  }

  // ---------------------------------------------------------------------
  // `str.split()` with no argument: the maximal runs of non-whitespace,
  // found by the same index scan CPython uses.

  /** The first index at or after `i` that is not whitespace (or `|s|`). */
  function SkipSpaces(s: String, i: nat): (j: nat)
    requires i <= |s|
    ensures i <= j <= |s|
    decreases |s| - i
  {
    if i < |s| && IsSpace(s[i]) then SkipSpaces(s, i + 1) else i
  }

  /** The first index at or after `i` that is whitespace (or `|s|`). */
  function SkipToken(s: String, i: nat): (j: nat)
    requires i <= |s|
    ensures i <= j <= |s|
    ensures i < |s| && !IsSpace(s[i]) ==> i < j
    decreases |s| - i
  {
    if i < |s| && !IsSpace(s[i]) then SkipToken(s, i + 1) else i
  }

  lemma {:induction false} SkipSpacesSpec(s: String, i: nat)
    requires i <= |s|
    ensures forall k :: i <= k < SkipSpaces(s, i) ==> IsSpace(s[k])
    ensures SkipSpaces(s, i) == |s| || !IsSpace(s[SkipSpaces(s, i)])
    decreases |s| - i
  {
    if i < |s| && IsSpace(s[i]) {
      SkipSpacesSpec(s, i + 1);
    }
  }

  lemma {:induction false} SkipTokenSpec(s: String, i: nat)
    requires i <= |s|
    ensures forall k :: i <= k < SkipToken(s, i) ==> !IsSpace(s[k])
    ensures SkipToken(s, i) == |s| || IsSpace(s[SkipToken(s, i)])
    decreases |s| - i
  {
    if i < |s| && !IsSpace(s[i]) {
      SkipTokenSpec(s, i + 1);
    }
  }

  /** The tokens of `s[i..]`. */
  function WordsFrom(s: String, i: nat): seq<String>
    requires i <= |s|
    decreases |s| - i
  {
    var a := SkipSpaces(s, i);
    if a == |s| then []
    else
      var b := SkipToken(s, a);
      [s[a..b]] + WordsFrom(s, b)
  }

  /** Python's `s.split()`. */
  function Words(s: String): seq<String> {
    WordsFrom(s, 0)
  }

  predicate IsWord(w: String) {
    w != [] && forall i :: 0 <= i < |w| ==> !IsSpace(w[i])
  }

  /** Every token is non-empty and whitespace-free, and has no lower-case letter if `s` has none. */
  lemma {:induction false} WordsFromShape(s: String, i: nat)
    requires i <= |s|
    ensures forall k :: 0 <= k < |WordsFrom(s, i)| ==> IsWord(WordsFrom(s, i)[k])
    ensures NoLower(s) ==> forall k :: 0 <= k < |WordsFrom(s, i)| ==> NoLower(WordsFrom(s, i)[k])
    decreases |s| - i
  {
    var a := SkipSpaces(s, i);
    if a < |s| {
      var b := SkipToken(s, a);
      SkipSpacesSpec(s, i);
      SkipTokenSpec(s, a);
      WordsFromShape(s, b);
      assert forall k :: 0 <= k < b - a ==> s[a..b][k] == s[a + k];
    }
  }

  /** `s.split()` is empty exactly when `s` is all whitespace. */
  lemma WordsOfSpaces(s: String)
    ensures Words(s) == [] <==> forall i :: 0 <= i < |s| ==> IsSpace(s[i])
  {
    SkipSpacesSpec(s, 0);
  }

  /** A whitespace character at `i` can be skipped. */
  lemma WordsFromSpace(s: String, i: nat)
    requires i < |s| && IsSpace(s[i])
    ensures WordsFrom(s, i) == WordsFrom(s, i + 1)
  {
  }

  lemma {:induction false} SkipSpacesShift(x: String, y: String, i: nat)
    requires i <= |y|
    ensures SkipSpaces(x + y, |x| + i) == |x| + SkipSpaces(y, i)
    decreases |y| - i
  {
    if i < |y| {
      assert (x + y)[|x| + i] == y[i];
      SkipSpacesShift(x, y, i + 1);
    }
  }

  lemma {:induction false} SkipTokenShift(x: String, y: String, i: nat)
    requires i <= |y|
    ensures SkipToken(x + y, |x| + i) == |x| + SkipToken(y, i)
    decreases |y| - i
  {
    if i < |y| {
      assert (x + y)[|x| + i] == y[i];
      SkipTokenShift(x, y, i + 1);
    }
  }

  /** The tokens after a prefix do not depend on the prefix. */
  lemma {:induction false} WordsFromShift(x: String, y: String, i: nat)
    requires i <= |y|
    ensures WordsFrom(x + y, |x| + i) == WordsFrom(y, i)
    decreases |y| - i
  {
    var s := x + y;
    SkipSpacesShift(x, y, i);
    var a := SkipSpaces(y, i);
    if a < |y| {
      SkipTokenShift(x, y, a);
      var b := SkipToken(y, a);
      WordsFromShift(x, y, b);
      SliceShift(x, y, a, b);
      WordsFromStep(s, |x| + i, |x| + a, |x| + b);
      WordsFromStep(y, i, a, b);
      assert WordsFrom(s, |x| + i) == [y[a..b]] + WordsFrom(y, b);
    } else {
      WordsFromEnd(s, |x| + i);
      WordsFromEnd(y, i);
    }
  }

  /** One step of the scan: the next token, then the tokens after it. */
  lemma WordsFromStep(s: String, i: nat, a: nat, b: nat)
    requires i <= |s| && a == SkipSpaces(s, i) < |s| && b == SkipToken(s, a)
    ensures WordsFrom(s, i) == [s[a..b]] + WordsFrom(s, b)
  {
  }

  /** Only spaces remain: no tokens. */
  lemma WordsFromEnd(s: String, i: nat)
    requires i <= |s| && SkipSpaces(s, i) == |s|
    ensures WordsFrom(s, i) == []
  {
  }

  lemma SliceShift(x: String, y: String, a: nat, b: nat)
    requires a <= b <= |y|
    ensures (x + y)[|x| + a..|x| + b] == y[a..b]
  {
    assert forall k :: 0 <= k < b - a ==> (x + y)[|x| + a..|x| + b][k] == y[a..b][k];
  }

  /** A token, one space, then the rest: the token comes first, then the rest's tokens. */
  lemma WordsSpaceJoined(w: String, j: String)
    requires IsWord(w)
    ensures Words(w + [' '] + j) == [w] + Words(j)
  {
    var s := w + [' '] + j;
    assert SkipSpaces(s, 0) == 0;
    SkipTokenShift([], w + [' '] + j, 0);
    assert SkipToken(s, 0) == |w| by {
      assert forall k :: 0 <= k < |w| ==> s[k] == w[k];
      assert s[|w|] == ' ';
      SkipTokenWord(s, |w|, 0);
    }
    assert s[0..|w|] == w;
    WordsFromSpace(s, |w|);
    WordsFromShift(w + [' '], j, 0);
  }

  lemma WordsOfWord(w: String)
    requires IsWord(w)
    ensures Words(w) == [w]
  {
    assert SkipSpaces(w, 0) == 0;
    SkipTokenWord(w, |w|, 0);
    assert w[0..|w|] == w;
    assert WordsFrom(w, |w|) == [];
  }

  /** Scanning a token that ends at `e` stops at `e`. */
  lemma {:induction false} SkipTokenWord(s: String, e: nat, i: nat)
    requires i <= e <= |s|
    requires forall k :: i <= k < e ==> !IsSpace(s[k])
    requires e == |s| || IsSpace(s[e])
    ensures SkipToken(s, i) == e
    decreases e - i
  {
    if i < e {
      SkipTokenWord(s, e, i + 1);
    }
  }

  /** `" ".join` followed by `split()` gives back well-formed tokens. */
  lemma {:induction false} WordsJoin(ws: seq<String>)
    requires forall k :: 0 <= k < |ws| ==> IsWord(ws[k])
    ensures Words(Join(ws, ' ')) == ws
  {
    if |ws| == 1 {
      WordsOfWord(ws[0]);
    } else if |ws| > 1 {
      var tail := ws[1..];
      assert forall k :: 0 <= k < |tail| ==> tail[k] == ws[k + 1];
      WordsJoin(tail);
      WordsSpaceJoined(ws[0], Join(tail, ' '));
    }
  }

  /** A token followed by nothing or by whitespace is the first token, then the tokens of the rest. */
  lemma WordsAfterToken(w: String, t: String)
    requires IsWord(w) && (t == [] || IsSpace(t[0]))
    ensures Words(w + t) == [w] + Words(t)
  {
    var s := w + t;
    assert s[0] == w[0];
    assert SkipSpaces(s, 0) == 0;
    assert forall k :: 0 <= k < |w| ==> s[k] == w[k];
    SkipTokenWord(s, |w|, 0);
    assert s[0..|w|] == w;
    WordsFromStep(s, 0, 0, |w|);
    WordsFromShift(w, t, 0);
  }

  /** The scan from `i` starts where the whitespace after `i` ends. */
  lemma WordsFromSkip(s: String, i: nat)
    requires i <= |s|
    ensures WordsFrom(s, i) == WordsFrom(s, SkipSpaces(s, i))
  {
    SkipSpacesSpec(s, i);
  }

  /** Leading whitespace does not change the tokens (`split()` ignores it). */
  lemma WordsTrimLeft(s: String)
    ensures Words(TrimLeft(s)) == Words(s)
  {
    var n := SpacePrefix(s);
    assert SkipSpaces(s, 0) == n by {
      SkipSpacesSpec(s, 0);
    }
    WordsFromSkip(s, 0);
    TakeDrop(s, n);
    WordsFromShift(s[..n], s[n..], 0);
  }

  /** A token at the head of `s` is kept as it is by `re.sub(r"\s+", " ", s)`. */
  lemma {:induction false} CollapseToken(s: String, b: nat)
    requires b <= |s|
    requires forall k :: 0 <= k < b ==> !IsSpace(s[k])
    ensures Collapse(s) == s[..b] + Collapse(s[b..])
    decreases b
  {
    if b == 0 {
      assert s[..0] + Collapse(s[0..]) == Collapse(s);
    } else {
      var t := s[1..];
      assert forall k :: 0 <= k < b - 1 ==> t[k] == s[k + 1];
      CollapseToken(t, b - 1);
      CollapseTokenStep(s, b);
    }
  }

  /** One more token character in front of what the induction hypothesis covers. */
  lemma CollapseTokenStep(s: String, b: nat)
    requires 0 < b <= |s| && !IsSpace(s[0])
    requires Collapse(s[1..]) == s[1..][..b - 1] + Collapse(s[1..][b - 1..])
    ensures Collapse(s) == s[..b] + Collapse(s[b..])
  {
    var t := s[1..];
    CollapseHead(s);
    var x, y, z := [s[0]], t[..b - 1], Collapse(s[b..]);
    assert t[b - 1..] == s[b..];
    assert Collapse(s) == x + (y + z);
    assert s[..b] == x + y;
    Assoc(x, y, z);
  }

  lemma TakeDrop(s: String, n: nat)
    requires n <= |s|
    ensures s[..n] + s[n..] == s
  {
  }

  lemma Assoc(x: String, y: String, z: String)
    ensures x + (y + z) == (x + y) + z
  {
  }

  /** A non-whitespace head is copied. */
  lemma CollapseHead(s: String)
    requires s != [] && !IsSpace(s[0])
    ensures Collapse(s) == [s[0]] + Collapse(s[1..])
  {
  }

  /** A leading space adds no token. */
  lemma WordsLeadingSpace(c: String)
    ensures Words([' '] + c) == Words(c)
  {
    WordsFromSpace([' '] + c, 0);
    WordsFromShift([' '], c, 0);
  }

  /** Collapsing whitespace runs keeps the tokens. */
  lemma {:induction false} CollapseWords(s: String)
    ensures Words(Collapse(s)) == Words(s)
    decreases |s|
  {
    if s != [] {
      if IsSpace(s[0]) {
        CollapseWords(TrimLeft(s));
        CollapseWordsSpace(s);
      } else {
        var b := SkipToken(s, 0);
        CollapseWords(s[b..]);
        CollapseWordsToken(s, b);
      }
    }
  }

  /** A leading whitespace run collapses to one space, which adds no token. */
  lemma CollapseWordsSpace(s: String)
    requires s != [] && IsSpace(s[0])
    requires Words(Collapse(TrimLeft(s))) == Words(TrimLeft(s))
    ensures Words(Collapse(s)) == Words(s)
  {
    WordsTrimLeft(s);
    WordsLeadingSpace(Collapse(TrimLeft(s)));
  }

  /** A leading token is copied and stays the first token. */
  lemma CollapseWordsToken(s: String, b: nat)
    requires s != [] && !IsSpace(s[0]) && b == SkipToken(s, 0)
    requires Words(Collapse(s[b..])) == Words(s[b..])
    ensures Words(Collapse(s)) == Words(s)
  {
    var w, rest := s[..b], s[b..];
    LeadingToken(s, b);
    CollapseKeepsLead(rest);
    calc {
      Words(Collapse(s));
      == { CollapseToken(s, b); }
      Words(w + Collapse(rest));
      == { WordsAfterToken(w, Collapse(rest)); }
      [w] + Words(Collapse(rest));
      == [w] + Words(rest);
      == { WordsAfterToken(w, rest); }
      Words(w + rest);
      == { TakeDrop(s, b); }
      Words(s);
    }
  }

  /** The scan's first token is a token, and what follows it is empty or starts with whitespace. */
  lemma LeadingToken(s: String, b: nat)
    requires s != [] && !IsSpace(s[0]) && b == SkipToken(s, 0)
    ensures IsWord(s[..b]) && (s[b..] == [] || IsSpace(s[b..][0]))
    ensures forall k :: 0 <= k < b ==> !IsSpace(s[k])
  {
    SkipTokenSpec(s, 0);
    assert forall k :: 0 <= k < b ==> s[..b][k] == s[k];
  }

  /** Collapsing keeps a leading whitespace character, or the emptiness of the string. */
  lemma CollapseKeepsLead(s: String)
    requires s == [] || IsSpace(s[0])
    ensures Collapse(s) == [] || IsSpace(Collapse(s)[0])
  {
  }

  /** Every position from `i` on is whitespace: the scan runs to the end. */
  lemma {:induction false} SkipAllSpaces(s: String, i: nat)
    requires i <= |s|
    requires forall k :: i <= k < |s| ==> IsSpace(s[k])
    ensures SkipSpaces(s, i) == |s|
    decreases |s| - i
  {
    if i < |s| { SkipAllSpaces(s, i + 1); }
  }

  lemma {:induction false} SkipSpacesTrailing(u: String, sp: String, i: nat)
    requires i <= |u|
    requires forall k :: 0 <= k < |sp| ==> IsSpace(sp[k])
    ensures SkipSpaces(u, i) < |u| ==> SkipSpaces(u + sp, i) == SkipSpaces(u, i)
    ensures SkipSpaces(u, i) == |u| ==> SkipSpaces(u + sp, i) == |u + sp|
    decreases |u| - i
  {
    var s := u + sp;
    if i < |u| {
      assert s[i] == u[i];
      SkipSpacesTrailing(u, sp, i + 1);
    } else {
      assert forall k :: i <= k < |s| ==> s[k] == sp[k - |u|];
      SkipAllSpaces(s, i);
    }
  }

  lemma {:induction false} SkipTokenTrailing(u: String, sp: String, i: nat)
    requires i <= |u|
    requires forall k :: 0 <= k < |sp| ==> IsSpace(sp[k])
    ensures SkipToken(u + sp, i) == SkipToken(u, i)
    decreases |u| - i
  {
    var s := u + sp;
    if i < |u| {
      assert s[i] == u[i];
      SkipTokenTrailing(u, sp, i + 1);
    } else if sp != [] {
      assert s[i] == sp[0];
    }
  }

  /** Trailing whitespace does not change the tokens. */
  lemma {:induction false} WordsFromTrailing(u: String, sp: String, i: nat)
    requires i <= |u|
    requires forall k :: 0 <= k < |sp| ==> IsSpace(sp[k])
    ensures WordsFrom(u + sp, i) == WordsFrom(u, i)
    decreases |u| - i
  {
    var s := u + sp;
    SkipSpacesTrailing(u, sp, i);
    var a := SkipSpaces(u, i);
    if a < |u| {
      SkipTokenTrailing(u, sp, a);
      var b := SkipToken(u, a);
      WordsFromTrailing(u, sp, b);
      assert s[a..b] == u[a..b];
      WordsFromStep(s, i, a, b);
      WordsFromStep(u, i, a, b);
    } else {
      WordsFromEnd(s, i);
      WordsFromEnd(u, i);
    }
  }

  /** `strip()` keeps the tokens. */
  lemma StripWords(c: String)
    ensures Words(Strip(c)) == Words(c)
  {
    var a := SpacePrefix(c);
    WordsTrimLeft(c);
    if a < |c| {
      var e := ContentEnd(c);
      assert c[a..] == c[a..e] + c[e..];
      assert forall k :: 0 <= k < |c[e..]| ==> c[e..][k] == c[e + k];
      WordsFromTrailing(c[a..e], c[e..], 0);
    }
  }

  lemma {:induction false} SkipSpacesUpper(s: String, i: nat)
    requires i <= |s|
    ensures SkipSpaces(Upper(s), i) == SkipSpaces(s, i)
    decreases |s| - i
  {
    if i < |s| { SkipSpacesUpper(s, i + 1); }
  }

  lemma {:induction false} SkipTokenUpper(s: String, i: nat)
    requires i <= |s|
    ensures SkipToken(Upper(s), i) == SkipToken(s, i)
    decreases |s| - i
  {
    if i < |s| { SkipTokenUpper(s, i + 1); }
  }

  /** Upper-casing the text upper-cases each token and keeps their number. */
  lemma {:induction false} WordsFromUpper(s: String, i: nat)
    requires i <= |s|
    ensures |WordsFrom(Upper(s), i)| == |WordsFrom(s, i)|
    ensures forall k :: 0 <= k < |WordsFrom(s, i)| ==> WordsFrom(Upper(s), i)[k] == Upper(WordsFrom(s, i)[k])
    decreases |s| - i
  {
    var u := Upper(s);
    SkipSpacesUpper(s, i);
    var a := SkipSpaces(s, i);
    if a < |s| {
      SkipTokenUpper(s, a);
      var b := SkipToken(s, a);
      WordsFromUpper(s, b);
      WordsFromStep(s, i, a, b);
      WordsFromStep(u, i, a, b);
      assert u[a..b] == Upper(s[a..b]);
    } else {
      WordsFromEnd(s, i);
      WordsFromEnd(u, i);
    }
  }

  /**
   * `normalize` keeps the tokens of the name, each upper-cased: neither the
   * collapsing of whitespace nor the strip adds, drops or splits a token.
   */
  lemma NormalizeWords(name: String)
    ensures |Words(Normalize(name))| == |Words(name)|
    ensures forall k :: 0 <= k < |Words(name)| ==> Words(Normalize(name))[k] == Upper(Words(name)[k])
  {
    var u := Upper(name);
    StripWords(Collapse(u));
    CollapseWords(u);
    WordsFromUpper(name, 0);
  }

  /** `" ".join` of upper-case tokens is already normalised. */
  lemma {:induction false} JoinIsNormal(ws: seq<String>)
    requires forall k :: 0 <= k < |ws| ==> IsWord(ws[k]) && NoLower(ws[k])
    ensures IsNormal(Join(ws, ' '))
  {
    if |ws| > 1 {
      var w, j := ws[0], Join(ws[1..], ' ');
      JoinIsNormal(ws[1..]);
      var s := w + [' '] + j;
      assert j != [] by { assert |j| >= |ws[1]| by { JoinLength(ws[1..]); } }
      forall i | 0 <= i < |s| ensures !IsLowerAscii(s[i]) && (IsSpace(s[i]) ==> s[i] == ' ' && (i + 1 == |s| || !IsSpace(s[i + 1]))) {
        if i < |w| {
          assert s[i] == w[i];
          if i + 1 < |w| { assert s[i + 1] == w[i + 1]; }
        } else if i > |w| {
          assert s[i] == j[i - |w| - 1];
          if i + 1 < |s| { assert s[i + 1] == j[i - |w|]; }
        } else {
          assert s[i + 1] == j[0];
        }
      }
      assert s[|s| - 1] == j[|j| - 1];
    }
  }

  lemma {:induction false} JoinLength(ws: seq<String>)
    requires |ws| >= 1
    ensures |Join(ws, ' ')| >= |ws[0]|
  {
    if |ws| > 1 { JoinLength(ws[1..]); }
  }

  /** At most the first two elements. */
  function Take2(ws: seq<String>): (r: seq<String>)
    ensures |r| <= 2
  {
    if |ws| <= 2 then ws else ws[..2]
  }

  /**
   * Python's `first_two_words(name)`: the key is a normalised string whose
   * tokens are the first two tokens of the normalised name.
   */
  function FirstTwoWords(name: String): (key: String)
    ensures IsNormal(key)
    ensures Words(key) == Take2(Words(Normalize(name)))
  {
    var ws := Take2(Words(Normalize(name)));
    WordsFromShape(Normalize(name), 0);
    JoinIsNormal(ws);
    WordsJoin(ws);
    Join(ws, ' ')
  }

  /** The key's tokens are the name's first two tokens, upper-cased. */
  lemma KeyWords(name: String)
    ensures |Words(FirstTwoWords(name))| == if |Words(name)| < 2 then |Words(name)| else 2
    ensures forall k :: 0 <= k < |Words(FirstTwoWords(name))| ==>
      Words(FirstTwoWords(name))[k] == Upper(Words(name)[k])
  {
    NormalizeWords(name);
  }

  /** A name with two or more tokens has the key "<FIRST> <SECOND>", upper-cased. */
  lemma KeyOfTwoWords(name: String)
    requires |Words(name)| >= 2
    ensures FirstTwoWords(name) == Upper(Words(name)[0]) + [' '] + Upper(Words(name)[1])
  {
    NormalizeWords(name);
    var ws := Take2(Words(Normalize(name)));
    assert ws == [Upper(Words(name)[0]), Upper(Words(name)[1])];
    assert Join(ws, ' ') == ws[0] + [' '] + Join(ws[1..], ' ');
  }

  /** Leading whitespace of any length is skipped. */
  lemma {:induction false} WordsAfterBlank(sp: String, t: String)
    requires forall k :: 0 <= k < |sp| ==> IsSpace(sp[k])
    ensures Words(sp + t) == Words(t)
    decreases |sp|
  {
    if sp != [] {
      var s := sp + t;
      var r := sp[1..] + t;
      assert s[0] == sp[0];
      WordsFromSpace(s, 0);
      assert s == [sp[0]] + r;
      WordsFromShift([sp[0]], r, 0);
      assert WordsFrom(s, 1) == WordsFrom(r, 0);
      WordsAfterBlank(sp[1..], t);
      assert Words(r) == Words(t);
    } else {
      assert sp + t == t;
    }
  }

  /** Two tokens separated by any run of whitespace split into exactly those two. */
  lemma TwoWordsSpaced(w1: String, sp: String, w2: String)
    requires IsWord(w1) && IsWord(w2) && sp != []
    requires forall k :: 0 <= k < |sp| ==> IsSpace(sp[k])
    ensures Words(w1 + sp + w2) == [w1, w2]
  {
    assert w1 + sp + w2 == w1 + (sp + w2);
    WordsAfterToken(w1, sp + w2);
    WordsAfterBlank(sp, w2);
    WordsOfWord(w2);
  }

  /**
   * Whatever follows the second token, and however many spaces separate the
   * first two, the key is the two tokens upper-cased with one space between.
   */
  lemma KeyIgnoresRest(w1: String, sp: String, w2: String, rest: String)
    requires IsWord(w1) && IsWord(w2) && sp != []
    requires forall k :: 0 <= k < |sp| ==> IsSpace(sp[k])
    requires rest == [] || IsSpace(rest[0])
    ensures FirstTwoWords(w1 + sp + w2 + rest) == Upper(w1) + [' '] + Upper(w2)
  {
    var name := w1 + sp + w2 + rest;
    assert name == w1 + (sp + (w2 + rest));
    WordsAfterToken(w1, sp + (w2 + rest));
    WordsAfterBlank(sp, w2 + rest);
    WordsAfterToken(w2, rest);
    KeyOfTwoWords(name);
  }

  /** A trailing suite number and extra spacing do not change the key: both names give "JOHN SMITH". */
  lemma KeyExample(a: String, b: String)
    requires a == "John Smith Suite 4" && b == "JOHN   SMITH"
    ensures FirstTwoWords(a) == "JOHN SMITH"
    ensures FirstTwoWords(b) == "JOHN SMITH"
  {
    SuiteNameParts(a);
    KeyIgnoresRest("John", " ", "Smith", " Suite 4");
    SpacedNameParts(b);
    KeyIgnoresRest("JOHN", "   ", "SMITH", "");
    UpperJohnSmith();
    JohnSmithKey();
  }

  lemma SuiteNameParts(a: String)
    requires a == "John Smith Suite 4"
    ensures a == "John" + " " + "Smith" + " Suite 4"
  {
  }

  lemma SpacedNameParts(b: String)
    requires b == "JOHN   SMITH"
    ensures b == "JOHN" + "   " + "SMITH" + ""
  {
  }

  lemma JohnSmithKey()
    ensures "JOHN" + [' '] + "SMITH" == "JOHN SMITH"
  {
  }

  lemma UpperJohnSmith()
    ensures Upper("John") == "JOHN" && Upper("Smith") == "SMITH"
    ensures Upper("JOHN") == "JOHN" && Upper("SMITH") == "SMITH"
  {
    UpperLetters("John", "JOHN");
    UpperLetters("Smith", "SMITH");
    UpperLetters("JOHN", "JOHN");
    UpperLetters("SMITH", "SMITH");
  }

  lemma UpperLetters(w: String, u: String)
    requires |w| == |u|
    requires forall k :: 0 <= k < |w| ==> (IsLowerAscii(w[k]) ==> u[k] as int == w[k] as int - 32) && (!IsLowerAscii(w[k]) ==> u[k] == w[k])
    ensures Upper(w) == u
  {
  }

  /** Applying `first_two_words` to a key gives the key back. */
  lemma FirstTwoWordsIdempotent(name: String)
    ensures FirstTwoWords(FirstTwoWords(name)) == FirstTwoWords(name)
  {
    var key := FirstTwoWords(name);
    NormalIsFixed(key);
    assert Take2(Words(key)) == Words(key);
  }

  /** Two names share a key exactly when their first two normalised tokens agree. */
  lemma SameKey(a: String, b: String)
    ensures FirstTwoWords(a) == FirstTwoWords(b) <==> Take2(Words(Normalize(a))) == Take2(Words(Normalize(b)))
  {
  }

  /** A name with a non-whitespace character has a non-empty key. */
  lemma KeyNonEmpty(name: String, i: nat)
    requires i < |name| && !IsSpace(name[i])
    ensures FirstTwoWords(name) != []
  {
    var u := Upper(name);
    assert !IsSpace(u[i]);
    var j := CollapseKeepsText(u, i);
    var c := Collapse(u);
    var n := Normalize(name);
    assert n != [] by {
      assert SpacePrefix(c) <= j;
    }
    WordsOfSpaces(n);
    assert Words(FirstTwoWords(name)) != [];
  }

  /** Collapsing keeps some non-whitespace character of the input. */
  lemma {:induction false} CollapseKeepsText(s: String, i: nat) returns (j: nat)
    requires i < |s| && !IsSpace(s[i])
    ensures j < |Collapse(s)| && !IsSpace(Collapse(s)[j])
    decreases |s|
  {
    if IsSpace(s[0]) {
      var n := SpacePrefix(s);
      assert n <= i;
      assert TrimLeft(s)[i - n] == s[i];
      var j' := CollapseKeepsText(TrimLeft(s), i - n);
      var c := Collapse(TrimLeft(s));
      assert Collapse(s) == [' '] + c;
      assert ([' '] + c)[j' + 1] == c[j'];
      j := j' + 1;
    } else if i == 0 {
      j := 0;
    } else {
      var j' := CollapseKeepsText(s[1..], i - 1);
      var c := Collapse(s[1..]);
      assert Collapse(s) == [s[0]] + c;
      assert ([s[0]] + c)[j' + 1] == c[j'];
      j := j' + 1;
    }
  }
}
