/** Selection helpers of the HTML test report (drivers/report_html.py):
    columns, DC channels, units, the test rules for a template and the
    family/model split of a serial number.  Its voltage-column search,
    x-axis choice and letterhead choice are the ones of drivers/report.py
    and are modelled once, in `Report`. */
module ReportHtml {
  import opened Wrappers
  import Lists
  import Text
  import Sequencer
  import Report

  // ---------------------------------------------------------------------
  // _pick_col
  // ---------------------------------------------------------------------

  /** The first candidate, in candidate order, that is a column. */
  function FirstColumn(cols: seq<string>, candidates: seq<string>): (r: Option<string>)
    ensures r.Some? ==> r.value in cols && r.value in candidates
    ensures r.None? <==> forall c :: c in candidates ==> c !in cols
    ensures r.Some? ==> exists i :: 0 <= i < |candidates| && candidates[i] == r.value
                                    && forall j :: 0 <= j < i ==> candidates[j] !in cols
  {
    match Lists.First(candidates, c => c in cols)
    case Some(i) => Some(candidates[i])
    case None => None
  }

  /** `_pick_col(df, candidates)` */
  method PickCol(cols: seq<string>, candidates: seq<string>) returns (r: Option<string>)
    ensures r == FirstColumn(cols, candidates)
  {
    var i := 0;
    while i < |candidates|
      invariant 0 <= i <= |candidates|
      invariant forall j :: 0 <= j < i ==> candidates[j] !in cols
    {
      if candidates[i] in cols {
        return Some(candidates[i]);
      }
      i := i + 1;
    }
    return None;
  }

  // ---------------------------------------------------------------------
  // _allowed_chans_from_template
  // ---------------------------------------------------------------------

  const AllChannels: set<string> := {"DC1", "DC2", "DC3"}

  function TemplateTag(path: string): string {
    Text.Upper(Text.Basename(path))
  }

  /** The channels a template allows: the DC tags in its upper-cased
      name, all three when it names none. */
  function AllowedChans(path: string): (allowed: set<string>)
    ensures allowed != {}
    ensures allowed <= AllChannels
    ensures (exists t :: t in AllChannels && Text.Contains(TemplateTag(path), t)) ==>
              forall t :: t in AllChannels ==> (t in allowed <==> Text.Contains(TemplateTag(path), t))
    ensures (forall t :: t in AllChannels ==> !Text.Contains(TemplateTag(path), t)) ==> allowed == AllChannels
  {
    var named := set t | t in AllChannels && Text.Contains(TemplateTag(path), t);
    if named == {} then AllChannels else named
  }

  /** `_allowed_chans_from_template(template_path)` */
  method AllowedChansFromTemplate(path: string) returns (allowed: set<string>)
    ensures allowed == AllowedChans(path)
  {
    var base := TemplateTag(path);
    allowed := {};
    var k := 0;
    while k < |Report.DcTags|
      invariant 0 <= k <= |Report.DcTags|
      invariant allowed == set t | t in Report.DcTags[..k] && Text.Contains(base, t)
    {
      var tag := Report.DcTags[k];
      if Text.Contains(base, tag) {
        allowed := allowed + {tag};
      }
      k := k + 1;
    }
    assert Report.DcTags[..3] == Report.DcTags;
    assert forall t :: t in AllChannels <==> t in Report.DcTags;
    if allowed == {} {
      allowed := AllChannels;
    }
  }

  // ---------------------------------------------------------------------
  // _norm / _unit_scale
  // ---------------------------------------------------------------------

  /** `(s or "").strip().lower()` */
  function Norm(s: Option<string>): (n: string)
    ensures |n| <= |s.GetOr("")|
  {
    Text.Lower(Text.Strip(s.GetOr("")))
  }

  lemma LowerKeepsSpaces(s: string)
    ensures forall i :: 0 <= i < |s| ==> (Text.IsSpace(Text.Lower(s)[i]) <==> Text.IsSpace(s[i]))
  {
  }

  /** Normalising twice is normalising once. */
  lemma NormIdempotent(s: Option<string>)
    ensures Norm(Some(Norm(s))) == Norm(s)
  {
    var r := Text.Strip(s.GetOr(""));
    var n := Text.Lower(r);
    LowerKeepsSpaces(r);
    if n != [] {
      assert !Text.IsSpace(n[0]) && !Text.IsSpace(n[|n| - 1]);
      assert Text.LeadingSpaces(n) == 0;
      assert Text.TrailingSpaces(n) == 0;
    }
    assert Text.Strip(n) == n;
    assert Text.Lower(n) == n;
  }

  /** `_unit_scale(src, dst)`: the factor from `src` to `dst` units. */
  function UnitScale(src: Option<string>, dst: Option<string>): (k: real)
    ensures k > 0.0
    ensures Norm(src) == [] || Norm(dst) == [] || Norm(src) == Norm(dst) ==> k == 1.0
    ensures Norm(src) == "kw" && Norm(dst) == "w" ==> k == 1000.0
    ensures Norm(src) == "w" && Norm(dst) == "kw" ==> k == 0.001
    ensures k != 1.0 ==> {Norm(src), Norm(dst)} == {"kw", "w"}
  {
    var s := Norm(src);
    var d := Norm(dst);
    if s == [] || d == [] || s == d then 1.0
    else if s == "kw" && d == "w" then 1000.0
    else if s == "w" && d == "kw" then 0.001
    else 1.0
  }

  /** Converting there and back is the identity. */
  lemma UnitScaleReciprocal(src: Option<string>, dst: Option<string>)
    ensures UnitScale(src, dst) * UnitScale(dst, src) == 1.0
  {
  }

  // ---------------------------------------------------------------------
  // _guess_spec_from_template
  // ---------------------------------------------------------------------

  /** The evaluation rules `TEST_SPECS` names, or the generic rules. */
  datatype TestSpec = CurvaMppt | CicloBatteria | Generic(title: string)

  /** `_norm(os.path.splitext(basename)[0])` */
  function TemplateStem(path: string): string {
    Norm(Some(Text.Stem(Text.Basename(path))))
  }

  /** `_guess_spec_from_template(template_path)`: the first key of
      `TEST_SPECS`, in its order, contained in the normalised stem. */
  function GuessSpec(path: string): (spec: TestSpec)
    ensures spec == CurvaMppt <==> Text.Contains(TemplateStem(path), "curva mppt")
    ensures spec == CicloBatteria <==>
              !Text.Contains(TemplateStem(path), "curva mppt") && Text.Contains(TemplateStem(path), "ciclo batteria")
    ensures spec.Generic? ==> spec.title == "Report Test – " + Text.Stem(Text.Basename(path))
  {
    var nb := TemplateStem(path);
    if Text.Contains(nb, "curva mppt") then CurvaMppt
    else if Text.Contains(nb, "ciclo batteria") then CicloBatteria
    else Generic("Report Test – " + Text.Stem(Text.Basename(path)))
  }

  /** Only the file name counts, not the folder it is in. */
  lemma GuessSpecIgnoresFolder(dir: string, name: string)
    requires forall i :: 0 <= i < |name| ==> !Text.IsSep(name[i])
    ensures GuessSpec(dir + "/" + name) == GuessSpec(name)
  {
    Text.BasenameAfterSep(dir, name);
    Text.BasenameAfterSep([], name);
    assert [] + "/" + name == "/" + name;
    assert Text.Basename(name) == name by {
      var p := "/" + name;
      assert Text.Basename(p) == name;
      if name != [] {
        NoSepBaseStart(name);
      }
    }
  }

  lemma {:induction false} NoSepBaseStart(n: string)
    requires forall i :: 0 <= i < |n| ==> !Text.IsSep(n[i])
    ensures Text.BaseStart(n) == 0
    decreases |n|
  {
    if n != [] {
      NoSepBaseStart(n[..|n| - 1]);
    }
  }

  // ---------------------------------------------------------------------
  // _parse_sn_family_model
  // ---------------------------------------------------------------------

  /** `_parse_sn_family_model(sn)`: family and model code for the
      database lookup, from the stripped serial. */
  function ParseSnFamilyModel(sn: Option<string>): (fm: (string, string))
    ensures var s := Text.Strip(sn.GetOr(""));
            Text.StartsWith(s, fm.0) && |fm.0| == (if |s| == 20 then 6 else if |s| < 3 then |s| else 3)
    ensures var s := Text.Strip(sn.GetOr(""));
            (|fm.1| == 3 <==> |s| >= 8) && (fm.1 == [] <==> |s| < 8)
    ensures var s := Text.Strip(sn.GetOr(""));
            (|s| == 20 ==> fm.1 == s[6..9]) && (|s| >= 8 && |s| != 20 ==> fm.1 == s[5..8])
  {
    var s := Text.Strip(sn.GetOr(""));
    if |s| == 14 then (s[..3], s[5..8])
    else if |s| == 20 then (s[..6], s[6..9])
    else (if |s| >= 3 then s[..3] else s, if |s| >= 8 then s[5..8] else "")
  }

  /** For 14 characters the two serial parsers agree on the family and
      disagree on the model code: five characters from index 3 against
      three from index 5. */
  lemma SnParsersDisagreeOn14(sn: string)
    requires Sequencer.WellFormedSn(Text.Strip(sn)) && |Text.Strip(sn)| == 14
    ensures var s := Text.Strip(sn);
            var info := Sequencer.ParseSn(Some(sn)).value;
            info.family == ParseSnFamilyModel(Some(sn)).0 == s[..3]
            && info.modelCode == s[3..8] && ParseSnFamilyModel(Some(sn)).1 == s[5..8]
            && info.modelCode != ParseSnFamilyModel(Some(sn)).1
  {
  }

  /** For 20 characters they agree on both. */
  lemma SnParsersAgreeOn20(sn: string)
    requires Sequencer.WellFormedSn(Text.Strip(sn)) && |Text.Strip(sn)| == 20
    ensures Sequencer.ParseSn(Some(sn)).value.family == ParseSnFamilyModel(Some(sn)).0
    ensures Sequencer.ParseSn(Some(sn)).value.modelCode == ParseSnFamilyModel(Some(sn)).1
  {
  }

  // ---------------------------------------------------------------------
  // _detect_dc_channels
  // ---------------------------------------------------------------------

  function VoltageColumn(ch: string): string { "Voltage " + ch + " [V]" }

  function PowerColumn(ch: string): string { "Power " + ch + " [W]" }

  /** `allowed` filters only when it is given and not empty. */
  predicate Admits(allowed: Option<set<string>>, ch: string) {
    allowed.None? || allowed.value == {} || ch in allowed.value
  }

  predicate Measured(cols: seq<string>, allowed: Option<set<string>>, ch: string) {
    Admits(allowed, ch) && VoltageColumn(ch) in cols && PowerColumn(ch) in cols
  }

  /** The DC channels with a voltage and a power column, in DC1..DC3
      order, among the admitted ones. */
  function DcChannels(cols: seq<string>, allowed: Option<set<string>>): (chans: seq<string>)
    ensures forall ch :: ch in chans <==> ch in Report.DcTags && Measured(cols, allowed, ch)
    ensures Lists.IsSubseq(chans, Report.DcTags)
  {
    Lists.Filter(Report.DcTags, ch => Measured(cols, allowed, ch))
  }

  /** `_detect_dc_channels(df, allowed)` */
  method DetectDcChannels(cols: seq<string>, allowed: Option<set<string>>) returns (chans: seq<string>)
    ensures chans == DcChannels(cols, allowed)
  {
    chans := [];
    var k := |Report.DcTags|;
    while k > 0
      invariant 0 <= k <= |Report.DcTags|
      invariant chans == Lists.Filter(Report.DcTags[k..], ch => Measured(cols, allowed, ch))
    {
      k := k - 1;
      var ch := Report.DcTags[k];
      assert Report.DcTags[k..][1..] == Report.DcTags[k + 1..];
      if Admits(allowed, ch) && VoltageColumn(ch) in cols && PowerColumn(ch) in cols {
        chans := [ch] + chans;
      }
    }
  }

  // ---------------------------------------------------------------------
  // _find_batt_power_col
  // ---------------------------------------------------------------------

  const BattCandidates: seq<string> := ["Charge/Discharge Power [W]", "Battery Power [W]", "PBAT [W]"]

  predicate NamesBattPower(c: string) {
    Text.Contains(Text.Lower(c), "batt") && Text.Contains(Text.Lower(c), "power")
  }

  /** A known battery power column, else the first column whose name
      has "batt" and "power" in any case. */
  function BattPowerColumn(cols: seq<string>): (r: Option<string>)
    ensures r.Some? ==> r.value in cols
    ensures (exists c :: c in BattCandidates && c in cols) ==> r == FirstColumn(cols, BattCandidates)
    ensures r.None? <==> (forall c :: c in BattCandidates ==> c !in cols) && (forall c :: c in cols ==> !NamesBattPower(c))
    ensures r.Some? && r.value !in BattCandidates ==>
              exists i :: 0 <= i < |cols| && cols[i] == r.value && NamesBattPower(cols[i])
                          && forall j :: 0 <= j < i ==> !NamesBattPower(cols[j])
  {
    match FirstColumn(cols, BattCandidates)
    case Some(c) => Some(c)
    case None =>
      match Lists.First(cols, NamesBattPower)
      case Some(i) => Some(cols[i])
      case None => None
  }

  /** `_find_batt_power_col(df)` */
  method FindBattPowerCol(cols: seq<string>) returns (r: Option<string>)
    ensures r == BattPowerColumn(cols)
  {
    r := PickCol(cols, BattCandidates);
    if r.Some? {
      return;
    }
    var i := 0;
    while i < |cols|
      invariant 0 <= i <= |cols|
      invariant forall j :: 0 <= j < i ==> !NamesBattPower(cols[j])
    {
      if NamesBattPower(cols[i]) {
        return Some(cols[i]);
      }
      i := i + 1;
    }
  }

  // ---------------------------------------------------------------------
  // _find_pout_column and _write_graphs
  // ---------------------------------------------------------------------

  /** The unit text this file looks for, as written: upper-case, looked for
      in a lower-cased name. */
  const PoutUnitAsWritten: string := "[W"

  /** The unit text evidently meant: watts, lower-cased. */
  const PoutUnit: string := "[w"

  /** A lower-cased name holds no 'W', so as written no column is ever the
      output power column. */
  lemma PoutAsWrittenNeverFound(cols: seq<string>)
    ensures Report.PoutColumn(cols, PoutUnitAsWritten).None?
  {
    forall c | c in cols
      ensures !Report.IsActivePower(c, PoutUnitAsWritten) && !Report.IsDcPower(c, PoutUnitAsWritten)
    {
      var l := Text.Lower(c);
      assert 'W' !in l by {
        forall i | 0 <= i < |l| ensures l[i] != 'W' {
          assert l[i] == Text.LowerChar(c[i]);
        }
      }
      assert PoutUnitAsWritten[1] == 'W';
      if Text.Contains(l, PoutUnitAsWritten) {
        Text.ContainsChars(l, PoutUnitAsWritten);
        assert false;
      }
    }
  }

  /** The plotted axes of `_write_graphs`: the x column and the output
      power column, when both exist. */
  function GraphAxes(templatePath: string, cols: seq<string>, unit: string): (axes: Option<(string, string)>)
    ensures axes.Some? <==> Report.FindVdcColumns(cols) != [] && Report.PoutColumn(cols, unit).Some?
    ensures axes.Some? ==> axes.value.0 in cols && Report.IsVdcColumn(axes.value.0) && axes.value.1 in cols
  {
    var vdc := Report.FindVdcColumns(cols);
    var x := Report.XColumn(templatePath, vdc);
    var pout := Report.PoutColumn(cols, unit);
    if x.Some? && x.value != [] && pout.Some? && pout.value != [] then Some((x.value, pout.value))
    else
      assert x.Some? ==> x.value != [] by {
        if x.Some? {
          assert Report.IsVdcColumn(x.value);
        }
      }
      assert pout.Some? ==> pout.value != [] by {
        if pout.Some? && pout.value == [] {
          assert Text.Lower(pout.value) == [];
          EmptyHasNoUnit(unit);
        }
      }
      None
  }

  lemma EmptyHasNoUnit(unit: string)
    requires unit != []
    ensures !Text.Contains([], unit)
  {
  }

  /** The column a log of the curve test has. */
  const MeasColumn: string := "Active Output Power [W]"

  /** As written, `_write_graphs` would never draw a graph, whatever the
      log holds (nothing in the file calls it; the report's graphs come
      from `_graphs_multi`). */
  lemma GraphAxesAsWrittenNone(templatePath: string, cols: seq<string>)
    ensures GraphAxes(templatePath, cols, PoutUnitAsWritten).None?
  {
    PoutAsWrittenNeverFound(cols);
  }

  /** With the unit lower-cased, the curve test's power column is found
      and, with any voltage column, plotted. */
  lemma GraphAxesFindsMeasColumn(templatePath: string, cols: seq<string>, v: string)
    requires v in cols && Report.IsVdcColumn(v) && MeasColumn in cols
    ensures Report.PoutColumn(cols, PoutUnit).Some?
    ensures Report.IsActivePower(Report.PoutColumn(cols, PoutUnit).value, PoutUnit)
    ensures GraphAxes(templatePath, cols, PoutUnit).Some?
    ensures Report.PoutColumn(cols, PoutUnitAsWritten).None?
  {
    MeasColumnIsActivePower();
    assert v in Report.FindVdcColumns(cols);
    PoutAsWrittenNeverFound(cols);
  }

  lemma MeasColumnIsActivePower()
    ensures Report.IsActivePower(MeasColumn, PoutUnit)
  {
    LowerMeasColumn();
    LowerMeasHasPhrase();
    LowerMeasHasUnit();
  }

  lemma LowerMeasColumn()
    ensures Text.Lower(MeasColumn) == "active output power [w]"
  {
    var a, b := "Active Output Power", " [W]";
    assert MeasColumn == a + b;
    LowerAppend(a, b);
    assert Text.Lower(a) == "active output power";
    assert Text.Lower(b) == " [w]";
  }

  lemma LowerMeasHasPhrase()
    ensures Text.Contains("active output power [w]", "active output power")
  {
    Text.ContainsInside([], "active output power", " [w]");
    assert [] + "active output power" + " [w]" == "active output power [w]";
  }

  lemma LowerMeasHasUnit()
    ensures Text.Contains("active output power [w]", PoutUnit)
  {
    Text.ContainsInside("active output power ", "[w", "]");
    assert "active output power " + "[w" + "]" == "active output power [w]";
  }

  lemma LowerAppend(a: string, b: string)
    ensures Text.Lower(a + b) == Text.Lower(a) + Text.Lower(b)
  {
  }

}
