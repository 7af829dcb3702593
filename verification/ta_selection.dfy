/**
 * The two searches of the territorial-authority loader: which layer of the
 * ArcGIS service holds the latest "Territorial Authorities YYYY" boundaries,
 * and which attribute of the fetched features holds the authority's name.
 */
module LayerSelection {
  import opened Common
  import opened Text

  /** One entry of the service's `layers` list. */
  datatype LayerInfo = LayerInfo(id: int, name: string)

  /** The layer chosen and the year read from its name. */
  datatype Selection = Selection(id: int, year: nat)

  // ---------------------------------------------------------------------------
  // The layer-name pattern ^Territorial\sAuthorities\s(\d{4})$

  /**
   * The year a layer name carries, if it matches the pattern. `\s` is one
   * ASCII whitespace character, `\d` one ASCII digit, and `$` also matches
   * just before a final newline.
   */
  function LayerYear(name: string): (r: Option<nat>)
    ensures r.Some? ==> r.value < 10000
  {
    var body := if |name| == 29 && name[28] == '\n' then name[..28] else name;
    if && |body| == 28
       && body[..11] == "Territorial" && IsSpace(body[11])
       && body[12..23] == "Authorities" && IsSpace(body[23])
       && AllDigits(body[24..])
    then
      DigitsValueBound(body[24..]);
      assert Pow10(4) == 10 * Pow10(3) == 100 * Pow10(2) == 1000 * Pow10(1) == 10000;
      Some(DigitsValue(body[24..]))
    else None
  }

  /** The `n`-digit, zero-padded spelling of `y`. */
  function Padded(y: nat, n: nat): (s: string)
    requires y < Pow10(n)
    ensures |s| == n && AllDigits(s) && DigitsValue(s) == y
  {
    if n == 0 then ""
    else
      var s := Padded(y / 10, n - 1) + [DigitChar(y % 10)];
      assert s[..n - 1] == Padded(y / 10, n - 1);
      s
  }

  /** A layer named for a year is read back as that year. */
  lemma LayerYearOfName(y: nat)
    requires y < 10000
    ensures LayerYear("Territorial Authorities " + Padded(y, 4)) == Some(y)
  {
    assert Pow10(4) == 10 * Pow10(3) == 100 * Pow10(2) == 1000 * Pow10(1) == 10000;
    var name := "Territorial Authorities " + Padded(y, 4);
    assert name[..11] == "Territorial";
    assert name[12..23] == "Authorities";
    assert name[24..] == Padded(y, 4);
  }

  /** The year each listed layer's name carries, in list order. */
  function Years(layers: seq<LayerInfo>): (ys: seq<Option<nat>>)
    ensures |ys| == |layers|
    ensures forall j :: 0 <= j < |layers| ==> ys[j] == LayerYear(layers[j].name)
  {
    seq(|layers|, j requires 0 <= j < |layers| => LayerYear(layers[j].name))
  }

  /**
   * Index the selection loop ends on, over the years the layer names carry.
   * The loop replaces its choice when nothing is chosen yet, when the chosen
   * year is 0 (Python's `not latest_year` is also true of 0), or when the
   * new year is greater.
   */
  function LatestIndex(ys: seq<Option<nat>>): (r: Option<nat>)
    ensures r.Some? ==> r.value < |ys| && ys[r.value].Some?
  {
    if |ys| == 0 then None
    else
      var n := |ys|;
      var prev := LatestIndex(ys[..n - 1]);
      match ys[n - 1]
      case None => prev
      case Some(y) =>
        if prev.None? || ys[prev.value].value == 0 || y > ys[prev.value].value
        then Some(n - 1)
        else prev
  }

  /** The layer id and year the loader goes on with, if any layer matched. */
  function LatestLayer(layers: seq<LayerInfo>): Option<Selection> {
    var ys := Years(layers);
    match LatestIndex(ys)
    case None => None
    case Some(k) => Some(Selection(layers[k].id, ys[k].value))
  }

  /** No year in `ys` is above `y`. */
  predicate NoneAbove(ys: seq<Option<nat>>, y: nat) {
    forall j :: 0 <= j < |ys| ==> ys[j].None? || ys[j].value <= y
  }

  /** Every year listed before `k` is below `y`. */
  predicate AllBelowBefore(ys: seq<Option<nat>>, k: nat, y: nat)
    requires k <= |ys|
  {
    forall j :: 0 <= j < k ==> ys[j].None? || ys[j].value < y
  }

  /** No layer listed after `k` matches. */
  predicate NoMatchAfter(ys: seq<Option<nat>>, k: nat) {
    forall j :: k < j < |ys| ==> ys[j].None?
  }

  /**
   * What the choice at index `k` means: its year `y` is the greatest; when
   * `y` is positive it is the first layer with that year; when `y` is 0 it is
   * the last layer that matches at all.
   */
  predicate ChosenAt(ys: seq<Option<nat>>, k: nat)
    requires k < |ys| && ys[k].Some?
  {
    var y := ys[k].value;
    && NoneAbove(ys, y)
    && (y > 0 ==> AllBelowBefore(ys, k, y))
    && (y == 0 ==> NoMatchAfter(ys, k))
  }

  /**
   * The selected layer carries the greatest year of all matching layers;
   * among equal years the earliest listed is kept (for a year of 0, the last
   * matching layer); nothing is selected exactly when no name matches.
   */
  lemma {:induction false} LatestIndexIsGreatest(ys: seq<Option<nat>>)
    ensures LatestIndex(ys).None? <==> forall j :: 0 <= j < |ys| ==> ys[j].None?
    ensures LatestIndex(ys).Some? ==> ChosenAt(ys, LatestIndex(ys).value)
  {
    if |ys| > 0 {
      var n := |ys|;
      var init := ys[..n - 1];
      LatestIndexIsGreatest(init);
      assert forall j :: 0 <= j < n - 1 ==> ys[j] == init[j];
      var prev := LatestIndex(init);
      match ys[n - 1]
      case None =>
        if prev.Some? {
          var k := prev.value;
          var y := init[k].value;
          assert NoneAbove(ys, y);
          assert y > 0 ==> AllBelowBefore(ys, k, y);
          assert y == 0 ==> NoMatchAfter(ys, k);
        }
      case Some(y) =>
        if prev.None? || init[prev.value].value == 0 || y > init[prev.value].value {
          assert LatestIndex(ys) == Some(n - 1);
          assert NoneAbove(ys, y);
          assert y > 0 ==> AllBelowBefore(ys, n - 1, y);
        } else {
          var k := prev.value;
          var yk := init[k].value;
          assert LatestIndex(ys) == prev;
          assert NoneAbove(ys, yk);
          assert AllBelowBefore(ys, k, yk);
        }
    }
  }

  /** The same, for the layers: the year selected is the greatest any layer name carries. */
  lemma LatestLayerIsGreatest(layers: seq<LayerInfo>)
    ensures LatestLayer(layers).None? <==> forall j :: 0 <= j < |layers| ==> LayerYear(layers[j].name).None?
    ensures LatestLayer(layers).Some? ==>
      forall j :: 0 <= j < |layers| && LayerYear(layers[j].name).Some? ==>
        LayerYear(layers[j].name).value <= LatestLayer(layers).value.year
    ensures LatestLayer(layers).Some? ==>
      exists k :: 0 <= k < |layers| && layers[k].id == LatestLayer(layers).value.id
        && LayerYear(layers[k].name) == Some(LatestLayer(layers).value.year)
  {
    var ys := Years(layers);
    LatestIndexIsGreatest(ys);
    if LatestIndex(ys).Some? {
      var k := LatestIndex(ys).value;
      assert ChosenAt(ys, k);
      assert NoneAbove(ys, ys[k].value);
    }
  }

  /**
   * The selection loop: keep `latest_year` and `latest_layer`, and replace
   * them on a match when no year is kept yet (or it is 0) or the new year is
   * greater.
   */
  method SelectLatestLayer(layers: seq<LayerInfo>) returns (latest: Option<Selection>)
    ensures latest == LatestLayer(layers)
  {
    var latestYear: Option<nat> := None;
    var latestLayer: Option<int> := None;
    ghost var ys := Years(layers);
    ghost var chosen: Option<nat> := None;
    for i := 0 to |layers|
      invariant chosen == LatestIndex(ys[..i])
      invariant chosen.None? ==> latestYear.None? && latestLayer.None?
      invariant chosen.Some? ==> latestYear == ys[chosen.value] && latestLayer == Some(layers[chosen.value].id)
    {
      assert ys[..i + 1][..i] == ys[..i];
      var m := LayerYear(layers[i].name);
      if m.Some? {
        if latestYear.None? || latestYear.value == 0 || m.value > latestYear.value {
          latestYear := m;
          latestLayer := Some(layers[i].id);
          chosen := Some(i);
        }
      }
    }
    assert ys[..|layers|] == ys;
    if latestLayer.None? {
      return None;
    }
    return Some(Selection(latestLayer.value, latestYear.value));
  }

  /** With layers for 2013 and 2018 listed, the 2018 layer is chosen. */
  lemma SelectsNewerOfTwo(id2013: int, id2018: int)
    ensures LatestLayer([LayerInfo(id2013, "Territorial Authorities " + Padded(2013, 4)),
                         LayerInfo(id2018, "Territorial Authorities " + Padded(2018, 4))])
            == Some(Selection(id2018, 2018))
  {
    var layers := [LayerInfo(id2013, "Territorial Authorities " + Padded(2013, 4)),
                   LayerInfo(id2018, "Territorial Authorities " + Padded(2018, 4))];
    LayerYearOfName(2013);
    LayerYearOfName(2018);
    assert layers[..1][..0] == [];
    assert layers[..1] == [layers[0]];
  }

  // ---------------------------------------------------------------------------
  // The name field ^TA<year>.+NAME$

  /**
   * A field name matching `'^TA' + str(year) + '.+NAME$'`: case-sensitive,
   * at least one character between the prefix and `NAME`, none of them a
   * newline, and `$` also matching just before a final newline.
   */
  predicate IsNameField(field: string, year: nat) {
    MatchesName(field, "TA" + NatToString(year))
  }

  /** `'^' + prefix + '.+NAME$'` for a prefix free of regex metacharacters. */
  predicate MatchesName(field: string, prefix: string) {
    var body := if |field| > 0 && field[|field| - 1] == '\n' then field[..|field| - 1] else field;
    && |body| >= |prefix| + 5
    && body[..|prefix|] == prefix
    && body[|body| - 4..] == "NAME"
    && '\n' !in body[|prefix|..|body| - 4]
  }

  /**
   * The pattern, stated as the shape of the names it accepts: the prefix,
   * one or more characters other than a newline, `NAME`, and at most one
   * newline after it.
   */
  ghost predicate HasShape(field: string, prefix: string) {
    exists middle :: |middle| >= 1 && '\n' !in middle &&
      (field == prefix + middle + "NAME" || field == prefix + middle + "NAME\n")
  }

  lemma MatchHasShape(field: string, prefix: string)
    requires MatchesName(field, prefix)
    ensures HasShape(field, prefix)
  {
    var body := if |field| > 0 && field[|field| - 1] == '\n' then field[..|field| - 1] else field;
    var middle := body[|prefix|..|body| - 4];
    assert body == prefix + middle + "NAME";
    if |field| > 0 && field[|field| - 1] == '\n' {
      assert field == body + "\n";
    }
  }

  lemma ShapeMatches(field: string, prefix: string, middle: string)
    requires |middle| >= 1 && '\n' !in middle
    requires field == prefix + middle + "NAME" || field == prefix + middle + "NAME\n"
    ensures MatchesName(field, prefix)
  {
    var body := prefix + middle + "NAME";
    if field == body {
      assert field[|field| - 1] == 'E';
    } else {
      assert field[..|field| - 1] == body;
    }
    assert body[..|prefix|] == prefix;
    assert body[|body| - 4..] == "NAME";
    assert body[|prefix|..|body| - 4] == middle;
  }

  /** Both directions: a field matches exactly when it has that shape. */
  lemma IsNameFieldShape(field: string, year: nat)
    ensures IsNameField(field, year) <==> HasShape(field, "TA" + NatToString(year))
  {
    var prefix := "TA" + NatToString(year);
    if MatchesName(field, prefix) {
      MatchHasShape(field, prefix);
    }
    if HasShape(field, prefix) {
      var middle :| |middle| >= 1 && '\n' !in middle &&
        (field == prefix + middle + "NAME" || field == prefix + middle + "NAME\n");
      ShapeMatches(field, prefix, middle);
    }
  }

  /** The field the search loop ends on: the last one that matches. */
  function LastNameField(fields: seq<string>, year: nat): Option<string> {
    if |fields| == 0 then None
    else if IsNameField(fields[|fields| - 1], year) then Some(fields[|fields| - 1])
    else LastNameField(fields[..|fields| - 1], year)
  }

  /** Field `k` matches and none after it does. */
  predicate LastMatchAt(fields: seq<string>, k: nat, year: nat)
    requires k < |fields|
  {
    IsNameField(fields[k], year) && forall j :: k < j < |fields| ==> !IsNameField(fields[j], year)
  }

  /** No field is found exactly when none matches; otherwise it is the last match. */
  lemma {:induction false} LastNameFieldIsLastMatch(fields: seq<string>, year: nat)
    ensures LastNameField(fields, year).None? <==> forall j :: 0 <= j < |fields| ==> !IsNameField(fields[j], year)
    ensures LastNameField(fields, year).Some? ==>
      exists k :: 0 <= k < |fields| && fields[k] == LastNameField(fields, year).value && LastMatchAt(fields, k, year)
  {
    if |fields| > 0 {
      var n := |fields|;
      var init := fields[..n - 1];
      LastNameFieldIsLastMatch(init, year);
      assert forall j :: 0 <= j < n - 1 ==> init[j] == fields[j];
      if IsNameField(fields[n - 1], year) {
        assert LastMatchAt(fields, n - 1, year);
      } else if LastNameField(fields, year).Some? {
        var k :| 0 <= k < n - 1 && init[k] == LastNameField(init, year).value && LastMatchAt(init, k, year);
        assert LastMatchAt(fields, k, year);
      }
    }
  }

  /** The field-search loop: remember every field whose name matches; the last one stays. */
  method FindNameField(fields: seq<string>, year: nat) returns (nameField: Option<string>)
    ensures nameField == LastNameField(fields, year)
  {
    nameField := None;
    for i := 0 to |fields|
      invariant nameField == LastNameField(fields[..i], year)
    {
      assert fields[..i + 1][..i] == fields[..i];
      if IsNameField(fields[i], year) {
        nameField := Some(fields[i]);
      }
    }
    assert fields[..|fields|] == fields;
  }
}
