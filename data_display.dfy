/** The list and text rules of the data preview (`display_data_preview`):
    which of the expected calendar features the table has, the split of the
    table's columns into original and system ones, and the one-line summary
    of the detected articles. */
module DataDisplay {
  import opened Wrappers
  import opened Seqs
  import opened Strings

  /** `features_esperadas`, in the order the preview lists them. */
  const EXPECTED_FEATURES: seq<string> :=
    ["año", "mes", "dia", "semana_año", "dia_semana", "nombre_dia", "es_fin_semana"]

  /** The seven expected names are all different. */
  lemma ExpectedFeaturesDistinct()
    ensures NoDuplicates(EXPECTED_FEATURES)
  {
    var e := EXPECTED_FEATURES;
    assert |e[0]| == 3 && |e[1]| == 3 && |e[2]| == 3;
    assert |e[3]| == 10 && |e[4]| == 10 && |e[5]| == 10 && |e[6]| == 13;
    assert e[0][0] == 'a' && e[1][0] == 'm' && e[2][0] == 'd';
    assert e[3][0] == 's' && e[4][0] == 'd' && e[5][0] == 'n';
  }

  /** `features_encontradas`: the expected names that are columns of the
      table, each once, in the expected order. */
  function FeaturesFound(columns: seq<string>): (found: seq<string>)
    ensures forall c :: c in found <==> c in EXPECTED_FEATURES && c in columns
    ensures SubsequenceOf(found, EXPECTED_FEATURES)
    ensures NoDuplicates(found)
    ensures |found| <= |EXPECTED_FEATURES|
  {
    var present := (c: string) => c in columns;
    FilterContents(EXPECTED_FEATURES, present);
    FilterIsSubsequence(EXPECTED_FEATURES, present);
    ExpectedFeaturesDistinct();
    FilterNoDuplicates(EXPECTED_FEATURES, present);
    Filter(EXPECTED_FEATURES, present)
  }

  /** What the verification banner says: how many features were found and
      their names joined by ", ", or the warning that none were. */
  datatype FeatureNotice = FeaturesCreated(count: nat, listing: string) | NoFeaturesCreated

  function FeatureNoticeFor(columns: seq<string>): (n: FeatureNotice)
    ensures n.FeaturesCreated? <==> exists c :: c in EXPECTED_FEATURES && c in columns
    ensures n.FeaturesCreated? ==>
      && 1 <= n.count <= |EXPECTED_FEATURES|
      && n.count == |FeaturesFound(columns)|
      && n.listing == Join(FeaturesFound(columns), ", ")
  {
    var found := FeaturesFound(columns);
    if found != [] then
      assert found[0] in found;
      FeaturesCreated(|found|, Join(found, ", "))
    else
      NoFeaturesCreated
  }

  /** `columnas_originales` and `columnas_sistema`: the table's columns that
      are not system features, in table order, and the system features as
      `file_info` lists them (none when it has no such entry). */
  function SplitColumns(columns: seq<string>, systemEntry: Option<seq<string>>): (r: (seq<string>, seq<string>))
    ensures r.1 == systemEntry.GetOr([])
    ensures SubsequenceOf(r.0, columns)
    ensures forall c :: c in r.0 <==> c in columns && c !in r.1
    ensures forall c :: c in columns ==> c in r.0 || c in r.1
    ensures |r.0| <= |columns|
  {
    var system := systemEntry.GetOr([]);
    var original := (c: string) => c !in system;
    FilterContents(columns, original);
    FilterIsSubsequence(columns, original);
    (Filter(columns, original), system)
  }

  /** Without system features every column is shown as original, in table order. */
  lemma SplitWithoutSystemFeatures(columns: seq<string>)
    ensures SplitColumns(columns, None).0 == columns
    ensures SplitColumns(columns, Some([])).0 == columns
  {
    FilterAll(columns, (c: string) => c !in []);
  }

  /** The roster entries the articles line names: those at positions 1 to 3
      (`unique_articles[1:4]`), which leaves out the leading "Todos". */
  function ShownArticles(roster: seq<string>): (shown: seq<string>)
    requires |roster| > 1
    ensures |shown| == if |roster| > 4 then 3 else |roster| - 1
    ensures forall i :: 0 <= i < |shown| ==> shown[i] == roster[i + 1]
  {
    roster[1..if |roster| > 4 then 4 else |roster|]
  }

  /** The text after "Artículos detectados:", or None when the line is not
      shown (a roster of "Todos" alone, or none at all). */
  function ArticlesText(roster: seq<string>): (t: Option<string>)
    ensures t.Some? <==> |roster| > 1
  {
    if |roster| <= 1 then None
    else
      var text := Join(ShownArticles(roster), ", ");
      if |roster| > 4 then Some(text + "... (+" + NatToDecimal(|roster| - 4) + " más)")
      else Some(text)
  }

  /** The articles line accounts for every article of the roster: it names
      the first three after "Todos" and, when there are more, ends with a
      count that reads back as the number of articles it leaves out. */
  lemma ArticlesTextAccountsForRoster(roster: seq<string>)
    requires |roster| > 1
    ensures var shown := ShownArticles(roster);
      var t := ArticlesText(roster).value;
      if |roster| <= 4 then
        t == Join(shown, ", ") && 1 + |shown| == |roster|
      else
        exists count :: && t == Join(shown, ", ") + "... (+" + count + " más)"
                         && (forall i :: 0 <= i < |count| ==> IsDigit(count[i]))
                         && 1 + |shown| + DecimalValue(count) == |roster|
  {
    if |roster| > 4 {
      var count := NatToDecimal(|roster| - 4);
      DecimalRoundTrip(|roster| - 4);
      assert ArticlesText(roster).value == Join(ShownArticles(roster), ", ") + "... (+" + count + " más)";
    }
  }
}
