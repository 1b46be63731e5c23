/** `extract_park`: the park (property site) named in a statement page. */
module Park {
  import opened Text

  const Parks: set<String> := {"SAPPHIRE", "GRAPHITE", "EMERALD", "SCARLET", "UNKNOWN"}

  /** The page mentions `keyword`, ignoring case. */
  predicate Mentions(text: String, keyword: String) {
    Contains(Upper(text), keyword)
  }

  predicate MentionsSapphire(text: String) {
    Mentions(text, "SAPHIRE") || Mentions(text, "SAPPHIRE")
  }

  /**
   * Python's `extract_park(text)`: a case-insensitive keyword scan in the fixed
   * priority SAPPHIRE (also spelled SAPHIRE), GRAPHITE, EMERALD, SCARLET, with
   * UNKNOWN when none of them occurs.
   */
  function ExtractPark(text: String): String
  {
    var t := Upper(text);
    if Contains(t, "SAPHIRE") || Contains(t, "SAPPHIRE") then "SAPPHIRE"
    else if Contains(t, "GRAPHITE") then "GRAPHITE"
    else if Contains(t, "EMERALD") then "EMERALD"
    else if Contains(t, "SCARLET") then "SCARLET"
    else "UNKNOWN"
  }

  /**
   * The priority order of the scan: SAPPHIRE whenever either spelling
   * occurs, otherwise the first of GRAPHITE, EMERALD, SCARLET that occurs,
   * and UNKNOWN exactly when none does.
   */
  lemma ParkCases(text: String)
    ensures ExtractPark(text) in Parks
    ensures ExtractPark(text) == "UNKNOWN" <==>
      !MentionsSapphire(text) && !Mentions(text, "GRAPHITE") && !Mentions(text, "EMERALD") && !Mentions(text, "SCARLET")
    ensures MentionsSapphire(text) ==> ExtractPark(text) == "SAPPHIRE"
    ensures ExtractPark(text) == "GRAPHITE" <==> !MentionsSapphire(text) && Mentions(text, "GRAPHITE")
    ensures ExtractPark(text) == "EMERALD" <==>
      !MentionsSapphire(text) && !Mentions(text, "GRAPHITE") && Mentions(text, "EMERALD")
    ensures ExtractPark(text) == "SCARLET" <==>
      !MentionsSapphire(text) && !Mentions(text, "GRAPHITE") && !Mentions(text, "EMERALD") && Mentions(text, "SCARLET")
  {
  }

  lemma UpperLower(text: String)
    ensures Upper(Lower(text)) == Upper(text)
    ensures Upper(Upper(text)) == Upper(text)
  {
    forall i | 0 <= i < |text| ensures UpperChar(LowerChar(text[i])) == UpperChar(text[i]) {
      var c := text[i];
      if IsUpperAscii(c) {
        assert LowerChar(c) as int == c as int + 32;
      }
    }
  }

  /** The park does not depend on the case of the page text. */
  lemma ParkIgnoresCase(text: String)
    ensures ExtractPark(Lower(text)) == ExtractPark(text)
    ensures ExtractPark(Upper(text)) == ExtractPark(text)
  {
    UpperLower(text);
  }

  /** The misspelling SAPHIRE, in any case, selects SAPPHIRE whatever else the page mentions. */
  lemma SaphireIsSapphire(pre: String, w: String, post: String)
    requires Upper(w) == "SAPHIRE"
    ensures ExtractPark(pre + w + post) == "SAPPHIRE"
  {
    var s := pre + w + post;
    var i := |pre|;
    assert Upper(s)[i..i + 7] == "SAPHIRE" by {
      forall k | 0 <= k < 7 ensures Upper(s)[i + k] == "SAPHIRE"[k] {
        assert s[i + k] == w[k];
        assert Upper(w)[k] == UpperChar(w[k]);
      }
    }
    assert OccursAt(Upper(s), "SAPHIRE", i);
    ContainsIff(Upper(s), "SAPHIRE");
  }
}
