/** The two region classifiers: free-text province names for the
    collection report, numeric location ids for the sales report. */
module Regions {
  import opened Wrappers
  import opened JsText

  datatype Region = Gauteng | Limpopo | Other

  /** `String(province || '').trim().toLowerCase()` checked for `gauteng`
      first and `limpopo` second. */
  function ClassifyProvince(text: string): Region {
    var p := ToLower(Trim(text));
    if Contains(p, "gauteng") then Gauteng
    else if Contains(p, "limpopo") then Limpopo
    else Other
  }

  /** The region name, in any mix of upper and lower case and anywhere in
      the text, decides the region: Gauteng wins whenever it is named, and
      Limpopo wins when it is named and Gauteng is not. */
  lemma ProvinceNamed(a: string, w: string, b: string)
    requires ToLower(w) == "gauteng" || ToLower(w) == "limpopo"
    ensures ToLower(w) == "gauteng" ==> ClassifyProvince(a + w + b) == Gauteng
    ensures (ToLower(w) == "limpopo" && !Contains(ToLower(Trim(a + w + b)), "gauteng"))
              ==> ClassifyProvince(a + w + b) == Limpopo
  {
    assert LowerChar(w[0]) == ToLower(w)[0];
    assert LowerChar(w[|w| - 1]) == ToLower(w)[|w| - 1];
    TrimAround(a, w, b);
    ContainsLowered(TrimStart(a), w, TrimEnd(b));
  }

  /** Blank province text (empty, or only white space) is Other. */
  lemma BlankProvince(text: string)
    requires forall i :: 0 <= i < |text| ==> IsJsSpace(text[i])
    ensures ClassifyProvince(text) == Other
  {
    assert TrimStart(text) == [];
    assert Trim(text) == [] by {
      assert TrimEnd([]) == [];
    }
    assert ToLower([]) == [];
    assert !Contains([], "gauteng") && !Contains([], "limpopo");
  }

  /** The sales report's location ids for Gauteng and for Limpopo. */
  const GautengIds: seq<int> := [3, 5, 6, 7, 8, 9, 10]
  const LimpopoIds: seq<int> := [2, 11]

  /** `GAUTENG_IDS.includes(locId)`, then `LIMPOPO_IDS.includes(locId)`; an
      id that did not parse (`NaN`) is in neither list. */
  function ClassifyLocation(id: Option<int>): (r: Region)
    ensures r == Gauteng <==> id.Some? && (id.value == 3 || 5 <= id.value <= 10)
    ensures r == Limpopo <==> id.Some? && (id.value == 2 || id.value == 11)
    ensures r == Other <==> id.None? || !(2 <= id.value <= 11) || id.value == 4
  {
    match id
    case None => Other
    case Some(n) =>
      if n in GautengIds then Gauteng
      else if n in LimpopoIds then Limpopo
      else Other
  }
}
