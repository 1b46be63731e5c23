/**
 * `extract_tenant_name`: the tenant named on a page, found from the first
 * line that is an "Invoice To" / "To:" / "Received from" header or a
 * "... Statement" title.
 */
module Names {
  import opened Common
  import opened Text

  /** A header after which the next line holds the name (on the lower-cased line). */
  predicate IsHeader(low: String) {
    low == "invoice to" || low == "to:" || Contains(low, "received from")
  }

  /** A `"<name> Statement"` title (on the lower-cased line). */
  predicate IsTitle(low: String) {
    EndsWith(low, " statement")
  }

  /** A line one of the three rules fires on. */
  predicate Recognised(line: String) {
    var low := Lower(line);
    IsHeader(low) || IsTitle(low)
  }

  /**
   * What a recognised line yields: for a header, the next line, or the
   * `IndexError` Python raises when the header is the last line; for a
   * title, the line without the word `Statement`, stripped.
   */
  function NameAt(lines: seq<String>, j: nat): Result<Option<String>>
    requires j < |lines| && Recognised(lines[j])
  {
    if IsHeader(Lower(lines[j])) then
      if j + 1 < |lines| then Ok(Some(lines[j + 1])) else Err(IndexOutOfRange)
    else Ok(Some(Strip(RemoveAll(lines[j], "Statement"))))
  }

  /** The `for i in range(len(lines))` loop from line `i` on. */
  function ScanNames(lines: seq<String>, i: nat): Result<Option<String>>
    requires i <= |lines|
    decreases |lines| - i
  {
    if i == |lines| then Ok(None)
    else if Recognised(lines[i]) then NameAt(lines, i)
    else ScanNames(lines, i + 1)
  }

  /** Python's `extract_tenant_name(text)`, with `None` as `Ok(None)`. */
  function ExtractTenantName(text: String): Result<Option<String>> {
    ScanNames(Lines(text, 2), 0)
  }

  /** No name exactly when no line from `i` on is recognised. */
  lemma {:induction false} ScanNamesNone(lines: seq<String>, i: nat)
    requires i <= |lines|
    ensures ScanNames(lines, i) == Ok(None) <==> forall j :: i <= j < |lines| ==> !Recognised(lines[j])
    decreases |lines| - i
  {
    if i < |lines| && !Recognised(lines[i]) {
      ScanNamesNone(lines, i + 1);
    }
  }

  /** The first recognised line from `i` on decides the result. */
  lemma {:induction false} ScanNamesFirst(lines: seq<String>, i: nat, j: nat)
    requires i <= j < |lines| && Recognised(lines[j])
    requires forall k :: i <= k < j ==> !Recognised(lines[k])
    ensures ScanNames(lines, i) == NameAt(lines, j)
    decreases j - i
  {
    if i < j {
      ScanNamesFirst(lines, i + 1, j);
    }
  }

  /**
   * `None` exactly when no kept line (stripped, longer than two characters)
   * is recognised; otherwise the first recognised one decides.
   */
  lemma TenantNameCases(text: String)
    ensures var lines := Lines(text, 2);
      && (ExtractTenantName(text) == Ok(None) <==> forall j :: 0 <= j < |lines| ==> !Recognised(lines[j]))
      && forall j :: 0 <= j < |lines| && Recognised(lines[j]) && (forall k :: 0 <= k < j ==> !Recognised(lines[k])) ==>
           ExtractTenantName(text) == NameAt(lines, j)
  {
    var lines := Lines(text, 2);
    ScanNamesNone(lines, 0);
    forall j | 0 <= j < |lines| && Recognised(lines[j]) && (forall k :: 0 <= k < j ==> !Recognised(lines[k]))
      ensures ExtractTenantName(text) == NameAt(lines, j)
    {
      ScanNamesFirst(lines, 0, j);
    }
  }

  /**
   * A name found is stripped; one taken after a header is longer than two
   * characters; the error arises only from a header on the last kept line.
   */
  lemma {:induction false} ScanNamesShape(lines: seq<String>, i: nat)
    requires i <= |lines|
    requires forall k :: 0 <= k < |lines| ==> IsStripped(lines[k]) && |lines[k]| > 2
    ensures ScanNames(lines, i).Ok? && ScanNames(lines, i).value.Some? ==> IsStripped(ScanNames(lines, i).value.value)
    ensures ScanNames(lines, i).Err? ==>
      && ScanNames(lines, i).error == IndexOutOfRange
      && Recognised(lines[|lines| - 1]) && IsHeader(Lower(lines[|lines| - 1]))
    decreases |lines| - i
  {
    if i < |lines| && !Recognised(lines[i]) {
      ScanNamesShape(lines, i + 1);
    }
  }

  /** The name on a page is stripped, and an error means the last kept line is a header. */
  lemma TenantNameShape(text: String)
    ensures var r := ExtractTenantName(text);
      && (r.Ok? && r.value.Some? ==> IsStripped(r.value.value))
      && (r.Err? ==> r.error == IndexOutOfRange && |Lines(text, 2)| > 0 && IsHeader(Lower(Lines(text, 2)[|Lines(text, 2)| - 1])))
  {
    ScanNamesShape(Lines(text, 2), 0);
  }

  /** `Lower` distributes over concatenation. */
  lemma LowerAppend(a: String, b: String)
    ensures Lower(a + b) == Lower(a) + Lower(b)
  {
  }

  /** A stripped, non-empty `n` followed by whitespace strips back to `n`. */
  lemma StripTrailing(n: String, tail: String)
    requires n != [] && IsStripped(n)
    requires forall k :: 0 <= k < |tail| ==> IsSpace(tail[k])
    ensures Strip(n + tail) == n
  {
    var s := n + tail;
    assert !IsSpace(s[0]);
    var e := ContentEnd(s);
    assert !IsSpace(s[|n| - 1]);
    assert e == |n|;
    assert s[0..e] == n;
  }

  /** Without a match at the front, `RemoveAll` keeps the first character. */
  lemma RemoveAllKeepsHead(s: String, pat: String)
    requires pat != [] && s != [] && !OccursAt(s, pat, 0)
    ensures RemoveAll(s, pat) == [s[0]] + RemoveAll(s[1..], pat)
  {
    if |s| >= |pat| {
      assert s[0..0 + |pat|] == s[..|pat|];
    } else {
      assert RemoveAll(s[1..], pat) == s[1..];
      assert s == [s[0]] + s[1..];
    }
  }

  /**
   * `RemoveAll` leaves a prefix `a` alone when the pattern occurs nowhere
   * starting inside it.
   */
  lemma {:induction false} RemoveAllAfter(a: String, b: String, pat: String)
    requires pat != []
    requires forall i :: 0 <= i < |a| ==> !OccursAt(a + b, pat, i)
    ensures RemoveAll(a + b, pat) == a + RemoveAll(b, pat)
    decreases |a|
  {
    if a == [] {
      assert a + b == b;
    } else {
      var s := a + b;
      var t := a[1..] + b;
      assert s[1..] == t;
      forall i | 0 <= i < |a| - 1 ensures !OccursAt(t, pat, i) {
        OccursShift(s, pat, i);
      }
      RemoveAllAfter(a[1..], b, pat);
      RemoveAllKeepsHead(s, pat);
      var r := RemoveAll(b, pat);
      assert RemoveAll(s, pat) == [a[0]] + (a[1..] + r);
      assert [a[0]] + (a[1..] + r) == ([a[0]] + a[1..]) + r;
      assert [a[0]] + a[1..] == a;
    }
  }

  /** "received from" cannot run from `a` into `" statement"`. */
  lemma NoReceivedAcross(a: String)
    requires !Contains(a, "received from")
    ensures !Contains(a + " statement", "received from")
  {
    var low := a + " statement";
    var pat := "received from";
    ContainsIff(low, pat);
    ContainsIff(a, pat);
    forall i | 0 <= i && i + |pat| <= |a| ensures !OccursAt(low, pat, i) {
      assert low[i..i + |pat|] == a[i..i + |pat|];
      assert !OccursAt(a, pat, i);
    }
    forall i | 0 <= i && |a| < i + |pat| && i + |pat| <= |low| ensures !OccursAt(low, pat, i) {
      var k := |a| - i;
      assert low[i + k] == ' ' && low[i + k + 1] == 's';
      if k == 8 {
        NotOccursAt(low, pat, i, k + 1);
      } else {
        NotOccursAt(low, pat, i, k);
      }
    }
  }

  /** "Statement" cannot start inside `n + " "` when `n` does not contain it. */
  lemma NoStatementAcross(n: String)
    requires !Contains(n, "Statement")
    ensures forall i :: 0 <= i < |n + " "| ==> !OccursAt(n + " " + "Statement", "Statement", i)
  {
    var s := n + " " + "Statement";
    var pat := "Statement";
    ContainsIff(n, pat);
    forall i | 0 <= i && i + |pat| <= |n| ensures !OccursAt(s, pat, i) {
      assert s[i..i + |pat|] == n[i..i + |pat|];
      assert !OccursAt(n, pat, i);
    }
    forall i | 0 <= i <= |n| && |n| < i + |pat| ensures !OccursAt(s, pat, i) {
      assert s[|n|] == ' ';
      NotOccursAt(s, pat, i, |n| - i);
    }
  }

  /** The one line `n + " Statement"` is kept, stripped, on its own. */
  lemma TitleLines(n: String)
    requires n != [] && IsStripped(n) && '\n' !in n
    ensures Lines(n + " Statement", 2) == [n + " Statement"]
  {
    var line := n + " Statement";
    assert '\n' !in line by {
      forall k | 0 <= k < |line| ensures line[k] != '\n' {
        if k < |n| { assert line[k] == n[k]; }
      }
    }
    SplitFree(line, '\n');
    assert IsStripped(line);
    StripStripped(line);
  }

  /** `"<n> Statement"` is a title and not a header. */
  lemma TitleRecognised(n: String)
    requires !Contains(Lower(n), "received from")
    ensures var low := Lower(n + " Statement"); IsTitle(low) && !IsHeader(low)
  {
    LowerAppend(n, " Statement");
    assert Lower(" Statement") == " statement";
    var low := Lower(n + " Statement");
    assert low == Lower(n) + " statement";
    assert low[|low| - 10..] == " statement";
    NoReceivedAcross(Lower(n));
    assert low[|low| - 1] == 't';
  }

  /** Removing "Statement" from `"<n> Statement"` and stripping gives `n`. */
  lemma TitleName(n: String)
    requires n != [] && IsStripped(n) && !Contains(n, "Statement")
    ensures Strip(RemoveAll(n + " Statement", "Statement")) == n
  {
    assert n + " Statement" == n + " " + "Statement";
    NoStatementAcross(n);
    RemoveAllAfter(n + " ", "Statement", "Statement");
    assert RemoveAll("Statement", "Statement") == [];
    assert n + " " + [] == n + " ";
    StripTrailing(n, " ");
  }

  /**
   * Round trip through a statement title: the page whose only text is
   * `"<n> Statement"` names `n`, for any stripped single-line `n` without
   * the word "Statement" and without "received from".
   */
  lemma TitleRoundTrip(n: String)
    requires n != [] && IsStripped(n) && '\n' !in n
    requires !Contains(n, "Statement") && !Contains(Lower(n), "received from")
    ensures ExtractTenantName(n + " Statement") == Ok(Some(n))
  {
    var line := n + " Statement";
    TitleLines(n);
    TitleRecognised(n);
    TitleName(n);
    ScanNamesFirst([line], 0, 0);
  }

  /** The kept lines of `h + "\n" + n` for two kept single lines. */
  lemma TwoLines(h: String, n: String)
    requires IsStripped(h) && |h| > 2 && '\n' !in h
    requires IsStripped(n) && |n| > 2 && '\n' !in n
    ensures Lines(h + "\n" + n, 2) == [h, n]
  {
    var rest := "\n" + n;
    assert h + "\n" + n == h + rest;
    SplitPrefix(h, rest, '\n');
    assert rest[1..] == n;
    SplitFree(n, '\n');
    assert Split(h + "\n" + n, '\n') == [h, n];
    StripStripped(h);
    StripStripped(n);
    assert [h, n][1..] == [n];
    assert KeepLines([n], 2) == [n];
  }

  /** Round trip through an "Invoice To" header: the line after it is the name. */
  lemma HeaderRoundTrip(n: String)
    requires IsStripped(n) && |n| > 2 && '\n' !in n
    ensures ExtractTenantName("Invoice To\n" + n) == Ok(Some(n))
  {
    var h := "Invoice To";
    assert "Invoice To\n" + n == h + "\n" + n;
    TwoLines(h, n);
    assert Lower(h) == "invoice to";
    ScanNamesFirst([h, n], 0, 0);
  }

  /**
   * A header that is both the first recognised line and the last kept line
   * raises: Python's `lines[i + 1]` is out of range. Shown on a page of two
   * kept lines whose first line is not recognised.
   */
  lemma HeaderAtEnd(a: String, h: String)
    requires IsStripped(a) && |a| > 2 && '\n' !in a && !Recognised(a)
    requires IsStripped(h) && |h| > 2 && '\n' !in h && IsHeader(Lower(h))
    ensures ExtractTenantName(a + "\n" + h) == Err(IndexOutOfRange)
  {
    TwoLines(a, h);
    ScanNamesFirst([a, h], 0, 1);
  }
}
