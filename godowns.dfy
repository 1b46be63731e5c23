/**
 * `extract_godowns`: the storage-unit ("godown") code printed under the
 * tenant's name on a statement page, or the marker `(OP)`.
 */
module Godowns {
  import opened Common
  import opened Text

  const OP: String := "(OP)"

  /** The line is skipped: a bare DD/MM/YYYY date, or a PO box. */
  predicate Skipped(up: String) {
    (|up| == 10 && DateShapeAt(up, 0)) || Contains(up, "PO BOX") || Contains(up, "P O BOX")
  }

  predicate HasDigit(s: String) {
    exists i :: 0 <= i < |s| && IsDigit(s[i])
  }

  /** Index of the first digit (`re.search(r"\d", s)`). */
  function FirstDigit(s: String): (i: nat)
    requires HasDigit(s)
    ensures i < |s| && IsDigit(s[i])
    ensures forall j :: 0 <= j < i ==> !IsDigit(s[j])
  {
    if IsDigit(s[0]) then 0
    else
      assert HasDigit(s[1..]) by {
        var k :| 0 <= k < |s| && IsDigit(s[k]);
        assert s[1..][k - 1] == s[k];
      }
      1 + FirstDigit(s[1..])
  }

  /** A window line that yields the code. */
  predicate Qualifies(line: String) {
    var up := Upper(line);
    !Skipped(up) && HasDigit(up)
  }

  /** `re.search(r"\d.*", up).group().strip()` on the upper-cased line. */
  function Code(line: String): String
    requires Qualifies(line)
  {
    var up := Upper(line);
    Strip(up[FirstDigit(up)..])
  }

  /** The inner loop over the (at most three) lines after the name line. */
  function ScanWindow(window: seq<String>): String {
    if window == [] then OP
    else if Qualifies(window[0]) then Code(window[0])
    else ScanWindow(window[1..])
  }

  /** The window yields `(OP)` exactly when none of its lines qualifies. */
  lemma {:induction false} ScanWindowOP(window: seq<String>)
    ensures ScanWindow(window) == OP <==> forall k :: 0 <= k < |window| ==> !Qualifies(window[k])
  {
    if window != [] {
      if Qualifies(window[0]) {
        var up := Upper(window[0]);
        StripKeepsHead(up[FirstDigit(up)..]);
      } else {
        ScanWindowOP(window[1..]);
        assert forall k :: 1 <= k < |window| ==> window[1..][k - 1] == window[k];
      }
    }
  }

  /** The first qualifying line of the window gives the code. */
  lemma {:induction false} ScanWindowFirst(window: seq<String>, k: nat)
    requires k < |window| && Qualifies(window[k])
    requires forall j :: 0 <= j < k ==> !Qualifies(window[j])
    ensures ScanWindow(window) == Code(window[k])
  {
    if k > 0 {
      assert forall j :: 0 <= j < k - 1 ==> window[1..][j] == window[j + 1];
      ScanWindowFirst(window[1..], k - 1);
    }
  }

  /** Index of the first line at or after `i` whose upper-cased form contains `name`. */
  function FindNameLine(lines: seq<String>, name: String, i: nat): (r: Option<nat>)
    requires i <= |lines|
    ensures r.None? ==> forall j :: i <= j < |lines| ==> !Contains(Upper(lines[j]), name)
    ensures r.Some? ==>
      && i <= r.value < |lines|
      && Contains(Upper(lines[r.value]), name)
      && forall j :: i <= j < r.value ==> !Contains(Upper(lines[j]), name)
    decreases |lines| - i
  {
    if i == |lines| then None
    else if Contains(Upper(lines[i]), name) then Some(i)
    else FindNameLine(lines, name, i + 1)
  }

  /** `lines[i + 1:i + 4]`, clipped to the end of the list. */
  function Window(lines: seq<String>, i: nat): seq<String>
    requires i < |lines|
  {
    lines[i + 1..if i + 4 <= |lines| then i + 4 else |lines|]
  }

  /** The godown code found in `lines` under the first line containing `key`. */
  function GodownsIn(lines: seq<String>, key: String): String {
    match FindNameLine(lines, key, 0)
    case None => OP
    case Some(i) => ScanWindow(Window(lines, i))
  }

  /**
   * Python's `extract_godowns(text, tenant_name)`: find the first non-empty
   * stripped line containing the upper-cased name, then take the code of the
   * first qualifying line among the next three; `(OP)` when there is none.
   */
  function ExtractGodowns(text: String, tenantName: String): String {
    GodownsIn(Lines(text, 0), Upper(tenantName))
  }

  /** The code of a stripped qualifying line is the suffix of its upper-cased form from the first digit. */
  lemma CodeIsSuffix(line: String)
    requires IsStripped(line) && Qualifies(line)
    ensures var up := Upper(line); Code(line) == up[FirstDigit(up)..]
    ensures Code(line) != [] && IsDigit(Code(line)[0])
  {
    var up := Upper(line);
    var d := FirstDigit(up);
    assert IsStripped(up[d..]);
    StripStripped(up[d..]);
  }

  /** Over stripped lines the result is `(OP)` or a non-empty string starting with a digit. */
  lemma GodownsInShape(lines: seq<String>, key: String)
    requires forall k :: 0 <= k < |lines| ==> IsStripped(lines[k])
    ensures var r := GodownsIn(lines, key); r == OP || (r != [] && IsDigit(r[0]))
  {
    var found := FindNameLine(lines, key, 0);
    if found.Some? {
      var w := Window(lines, found.value);
      ScanWindowOP(w);
      if ScanWindow(w) != OP {
        var k0 :| 0 <= k0 < |w| && Qualifies(w[k0]);
        var k := FirstQualifying(w, k0);
        ScanWindowFirst(w, k);
        assert w[k] == lines[found.value + 1 + k];
        CodeIsSuffix(w[k]);
      }
    }
  }

  /** The result is `(OP)` or a non-empty string starting with a digit. */
  lemma GodownsShape(text: String, tenantName: String)
    ensures var r := ExtractGodowns(text, tenantName); r == OP || (r != [] && IsDigit(r[0]))
  {
    GodownsInShape(Lines(text, 0), Upper(tenantName));
  }

  /** Without a line naming the tenant the result is `(OP)`. */
  lemma GodownsWithoutName(text: String, tenantName: String)
    requires forall j :: 0 <= j < |Lines(text, 0)| ==> !Contains(Upper(Lines(text, 0)[j]), Upper(tenantName))
    ensures ExtractGodowns(text, tenantName) == OP
  {
  }

  /**
   * When the first line containing `key` is line `i` and the first
   * qualifying line of the three after it is line `i + 1 + k`, the result is
   * the suffix of that upper-cased line from its first digit; when no line
   * of the window qualifies, it is `(OP)`.
   */
  lemma GodownsInWindow(lines: seq<String>, key: String, i: nat)
    requires forall k :: 0 <= k < |lines| ==> IsStripped(lines[k])
    requires i < |lines| && Contains(Upper(lines[i]), key)
    requires forall j :: 0 <= j < i ==> !Contains(Upper(lines[j]), key)
    ensures var w := Window(lines, i);
      && |w| <= 3
      && ((forall k :: 0 <= k < |w| ==> !Qualifies(w[k])) ==> GodownsIn(lines, key) == OP)
      && forall k :: 0 <= k < |w| && Qualifies(w[k]) && (forall j :: 0 <= j < k ==> !Qualifies(w[j])) ==>
           GodownsIn(lines, key) == Upper(w[k])[FirstDigit(Upper(w[k]))..]
  {
    var w := Window(lines, i);
    assert FindNameLine(lines, key, 0) == Some(i);
    ScanWindowOP(w);
    forall k | 0 <= k < |w| && Qualifies(w[k]) && (forall j :: 0 <= j < k ==> !Qualifies(w[j]))
      ensures GodownsIn(lines, key) == Upper(w[k])[FirstDigit(Upper(w[k]))..]
    {
      ScanWindowFirst(w, k);
      assert w[k] == lines[i + 1 + k];
      CodeIsSuffix(w[k]);
    }
  }

  /** Some qualifying line has no qualifying line before it. */
  lemma {:induction false} FirstQualifying(w: seq<String>, k: nat) returns (k': nat)
    requires k < |w| && Qualifies(w[k])
    ensures k' <= k && Qualifies(w[k']) && forall j :: 0 <= j < k' ==> !Qualifies(w[j])
  {
    if exists j :: 0 <= j < k && Qualifies(w[j]) {
      var j :| 0 <= j < k && Qualifies(w[j]);
      k' := FirstQualifying(w, j);
    } else {
      k' := k;
    }
  }
}
