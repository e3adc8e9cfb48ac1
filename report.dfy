/** Column, sheet and image selection of the MPPT report
    (drivers/report.py).  A data frame is its list of column names, a
    workbook the list of its sheet names, the letterhead folder the list
    of paths `glob` returns.  Reading and rendering are not modelled. */
module Report {
  import opened Wrappers
  import opened Exceptions
  import Lists
  import Text

  /** The DC channel tags looked for in template names and columns. */
  const DcTags: seq<string> := ["DC1", "DC2", "DC3"]

  // ---------------------------------------------------------------------
  // _find_vdc_columns / _find_pout_column
  // ---------------------------------------------------------------------

  predicate IsVdcColumn(c: string) {
    Text.StartsWith(Text.Lower(c), "voltage dc") && Text.Contains(Text.Lower(c), "[v")
  }

  /** `_find_vdc_columns(df)`: the DC voltage columns, in frame order. */
  function FindVdcColumns(cols: seq<string>): (r: seq<string>)
    ensures forall c :: c in r <==> c in cols && IsVdcColumn(c)
    ensures Lists.IsSubseq(r, cols)
  {
    Lists.Filter(cols, IsVdcColumn)
  }

  /** An "active output power" column in the unit `unit` (as written in
      the lower-cased name). */
  predicate IsActivePower(c: string, unit: string) {
    Text.Contains(Text.Lower(c), "active output power") && Text.Contains(Text.Lower(c), unit)
  }

  /** A "power dc…" column in the unit `unit`. */
  predicate IsDcPower(c: string, unit: string) {
    Text.StartsWith(Text.Lower(c), "power dc") && Text.Contains(Text.Lower(c), unit)
  }

  /** The column `_find_pout_column` settles on when it looks for `unit`:
      the first active-power column, else the first DC-power column. */
  function PoutColumn(cols: seq<string>, unit: string): (r: Option<string>)
    ensures r.Some? ==> r.value in cols
    ensures r.None? <==> forall c :: c in cols ==> !IsActivePower(c, unit) && !IsDcPower(c, unit)
  {
    match Lists.First(cols, c => IsActivePower(c, unit))
    case Some(i) => Some(cols[i])
    case None =>
      match Lists.First(cols, c => IsDcPower(c, unit))
      case Some(i) => Some(cols[i])
      case None => None
  }

  /** An active-power column wins over every DC-power column, and the
      first of its kind is taken. */
  lemma PoutColumnPrefersActivePower(cols: seq<string>, unit: string, i: nat)
    requires i < |cols|
    ensures IsActivePower(cols[i], unit) ==>
              exists k :: 0 <= k <= i && PoutColumn(cols, unit) == Some(cols[k]) && IsActivePower(cols[k], unit)
                          && forall j :: 0 <= j < k ==> !IsActivePower(cols[j], unit)
    ensures IsDcPower(cols[i], unit) && (forall c :: c in cols ==> !IsActivePower(c, unit)) ==>
              exists k :: 0 <= k <= i && PoutColumn(cols, unit) == Some(cols[k]) && IsDcPower(cols[k], unit)
                          && forall j :: 0 <= j < k ==> !IsDcPower(cols[j], unit)
  {
    var a := Lists.First(cols, c => IsActivePower(c, unit));
    var d := Lists.First(cols, c => IsDcPower(c, unit));
    if IsActivePower(cols[i], unit) {
      assert a.Some? && a.value <= i;
    } else if IsDcPower(cols[i], unit) && (forall c :: c in cols ==> !IsActivePower(c, unit)) {
      assert a.None?;
      assert d.Some? && d.value <= i;
    }
  }

  /** The two search loops of `_find_pout_column`, for the unit text the
      caller names ("[kw" in this file). */
  method SearchPoutColumn(cols: seq<string>, unit: string) returns (r: Option<string>)
    ensures r == PoutColumn(cols, unit)
  {
    var i := 0;
    while i < |cols|
      invariant 0 <= i <= |cols|
      invariant forall j :: 0 <= j < i ==> !IsActivePower(cols[j], unit)
    {
      if IsActivePower(cols[i], unit) {
        return Some(cols[i]);
      }
      i := i + 1;
    }
    i := 0;
    while i < |cols|
      invariant 0 <= i <= |cols|
      invariant forall j :: 0 <= j < i ==> !IsDcPower(cols[j], unit)
    {
      if IsDcPower(cols[i], unit) {
        return Some(cols[i]);
      }
      i := i + 1;
    }
    return None;
  }

  /** `_find_pout_column(df)` of this file: power in kilowatts. */
  method FindPoutColumn(cols: seq<string>) returns (r: Option<string>)
    ensures r == PoutColumn(cols, "[kw")
  {
    r := SearchPoutColumn(cols, "[kw");
  }

  // ---------------------------------------------------------------------
  // _default_header_footer
  // ---------------------------------------------------------------------

  predicate NamesHeader(p: string) {
    var n := Text.Lower(Text.Basename(p));
    Text.Contains(n, "head") || Text.Contains(n, "header")
  }

  predicate NamesFooter(p: string) {
    var n := Text.Lower(Text.Basename(p));
    Text.Contains(n, "foot") || Text.Contains(n, "footer")
  }

  /** The header and footer images chosen from the letterhead images:
      the first image named "head…", else the first image; the first
      named "foot…", else the last; nothing without images. */
  function HeaderFooter(imgs: seq<string>): (hf: (Option<string>, Option<string>))
    ensures imgs == [] <==> hf.0.None?
    ensures imgs == [] <==> hf.1.None?
    ensures hf.0.Some? ==> hf.0.value in imgs
    ensures hf.1.Some? ==> hf.1.value in imgs
    ensures imgs != [] && (forall p :: p in imgs ==> !NamesHeader(p)) ==> hf.0 == Some(imgs[0])
    ensures imgs != [] && (forall p :: p in imgs ==> !NamesFooter(p)) ==> hf.1 == Some(imgs[|imgs| - 1])
  {
    if imgs == [] then (None, None)
    else
      var h := NamedImage(imgs, NamesHeader).GetOr(imgs[0]);
      var f := NamedImage(imgs, NamesFooter).GetOr(imgs[|imgs| - 1]);
      (Some(h), Some(f))
  }

  /** The first image whose name passes `named`. */
  function NamedImage(imgs: seq<string>, named: string -> bool): (r: Option<string>)
    ensures r.Some? ==> r.value in imgs && named(r.value)
    ensures r.None? <==> forall j :: 0 <= j < |imgs| ==> !named(imgs[j])
  {
    match Lists.First(imgs, named)
    case Some(i) => Some(imgs[i])
    case None => None
  }

  /** A named header or footer wins over the fallback, and the first
      named one is taken. */
  lemma HeaderFooterPicksFirstNamed(imgs: seq<string>, i: nat)
    requires i < |imgs|
    ensures NamesHeader(imgs[i]) ==>
              exists k :: 0 <= k <= i && HeaderFooter(imgs).0 == Some(imgs[k]) && NamesHeader(imgs[k])
                          && forall j :: 0 <= j < k ==> !NamesHeader(imgs[j])
    ensures NamesFooter(imgs[i]) ==>
              exists k :: 0 <= k <= i && HeaderFooter(imgs).1 == Some(imgs[k]) && NamesFooter(imgs[k])
                          && forall j :: 0 <= j < k ==> !NamesFooter(imgs[j])
  {
    var h := Lists.First(imgs, NamesHeader);
    var f := Lists.First(imgs, NamesFooter);
    if NamesHeader(imgs[i]) {
      assert h.Some? && h.value <= i;
    }
    if NamesFooter(imgs[i]) {
      assert f.Some? && f.value <= i;
    }
  }

  /** `_default_header_footer()` with the result of `glob` as input.  A
      path whose name contains "head" is not empty, so `not header` in
      the loop holds exactly while no header has been found. */
  method DefaultHeaderFooter(imgs: seq<string>) returns (header: Option<string>, footer: Option<string>)
    ensures (header, footer) == HeaderFooter(imgs)
  {
    header, footer := None, None;
    if imgs == [] {
      return;
    }
    header, footer := ScanNamedImages(imgs, NamesHeader, NamesFooter);
    if header.None? {
      header := Some(imgs[0]);
    }
    if footer.None? {
      footer := Some(imgs[if |imgs| > 1 then |imgs| - 1 else 0]);
    }
  }

  /** The loop of `_default_header_footer`: the first image named as a
      header and the first named as a footer (the name tests are
      `NamesHeader` and `NamesFooter`). */
  method ScanNamedImages(imgs: seq<string>, isHeader: string -> bool, isFooter: string -> bool)
    returns (header: Option<string>, footer: Option<string>)
    ensures header == NamedImage(imgs, isHeader)
    ensures footer == NamedImage(imgs, isFooter)
  {
    header, footer := None, None;
    ghost var hk: nat, fk: nat := 0, 0;
    var i := 0;
    while i < |imgs|
      invariant 0 <= i <= |imgs|
      invariant header.None? ==> forall j :: 0 <= j < i ==> !isHeader(imgs[j])
      invariant header.Some? ==> hk < i && header == Some(imgs[hk]) && isHeader(imgs[hk])
                                 && forall j :: 0 <= j < hk ==> !isHeader(imgs[j])
      invariant footer.None? ==> forall j :: 0 <= j < i ==> !isFooter(imgs[j])
      invariant footer.Some? ==> fk < i && footer == Some(imgs[fk]) && isFooter(imgs[fk])
                                 && forall j :: 0 <= j < fk ==> !isFooter(imgs[j])
    {
      if isHeader(imgs[i]) && header.None? {
        header, hk := Some(imgs[i]), i;
      }
      if isFooter(imgs[i]) && footer.None? {
        footer, fk := Some(imgs[i]), i;
      }
      i := i + 1;
    }
    if header.Some? {
      Lists.FirstIs(imgs, isHeader, hk);
    }
    if footer.Some? {
      Lists.FirstIs(imgs, isFooter, fk);
    }
  }

  /** The test for "header" adds nothing to the test for "head". */
  lemma HeadSuffices(p: string)
    ensures NamesHeader(p) <==> Text.Contains(Text.Lower(Text.Basename(p)), "head")
    ensures NamesFooter(p) <==> Text.Contains(Text.Lower(Text.Basename(p)), "foot")
  {
    var n := Text.Lower(Text.Basename(p));
    if Text.Contains(n, "header") {
      assert "header" == "head" + "er";
      Text.ContainsPrefixOf(n, "head", "er");
    }
    if Text.Contains(n, "footer") {
      assert "footer" == "foot" + "er";
      Text.ContainsPrefixOf(n, "foot", "er");
    }
  }

  // ---------------------------------------------------------------------
  // render_mppt_report: x column
  // ---------------------------------------------------------------------

  predicate NamesTag(c: string, tag: string) {
    Text.Contains(Text.Upper(c), tag)
  }

  /** The first voltage column naming `tag`. */
  function ColumnWithTag(vdc: seq<string>, tag: string): (r: Option<string>)
    ensures r.Some? ==> r.value in vdc && NamesTag(r.value, tag)
    ensures r.None? <==> forall c :: c in vdc ==> !NamesTag(c, tag)
  {
    match Lists.First(vdc, c => NamesTag(c, tag))
    case Some(i) => Some(vdc[i])
    case None => None
  }

  /** `preferred` after the tags `tags`: each tag in the template name
      that some voltage column names replaces the earlier choice. */
  function Preferred(base: string, vdc: seq<string>, tags: seq<string>): (r: Option<string>)
    ensures r.Some? ==> r.value in vdc
    decreases |tags|
  {
    if tags == [] then None
    else
      var t := tags[|tags| - 1];
      var c := if Text.Contains(base, t) then ColumnWithTag(vdc, t) else None;
      if c.Some? then c else Preferred(base, vdc, tags[..|tags| - 1])
  }

  /** The x axis: the preferred voltage column, else the first voltage
      column, else none. */
  function XColumn(templatePath: string, vdc: seq<string>): (x: Option<string>)
    ensures x.None? <==> vdc == []
    ensures x.Some? ==> x.value in vdc
  {
    var p := Preferred(Text.Upper(Text.Basename(templatePath)), vdc, DcTags);
    if p.Some? && p.value != [] then p
    else if vdc != [] then Some(vdc[0])
    else None
  }

  /** The tag loop of `render_mppt_report`. */
  method ChooseXColumn(templatePath: string, vdc: seq<string>) returns (x: Option<string>)
    ensures x == XColumn(templatePath, vdc)
  {
    var preferred: Option<string> := None;
    var base := Text.Upper(Text.Basename(templatePath));
    var k := 0;
    while k < |DcTags|
      invariant 0 <= k <= |DcTags|
      invariant preferred == Preferred(base, vdc, DcTags[..k])
    {
      var tag := DcTags[k];
      assert DcTags[..k + 1][..k] == DcTags[..k];
      if Text.Contains(base, tag) {
        var i := 0;
        while i < |vdc|
          invariant 0 <= i <= |vdc|
          invariant forall j :: 0 <= j < i ==> !NamesTag(vdc[j], tag)
        {
          if NamesTag(vdc[i], tag) {
            preferred := Some(vdc[i]);
            assert ColumnWithTag(vdc, tag) == preferred;
            break;
          }
          i := i + 1;
        }
      }
      k := k + 1;
    }
    assert DcTags[..|DcTags|] == DcTags;
    if preferred.Some? && preferred.value != [] {
      x := preferred;
    } else if vdc != [] {
      x := Some(vdc[0]);
    } else {
      x := None;
    }
  }

  /** A later tag wins: the choice is the column of the last tag that is
      in the name and named by some voltage column. */
  lemma {:induction false} LaterTagWins(base: string, vdc: seq<string>, tags: seq<string>, i: nat)
    requires i < |tags| && Text.Contains(base, tags[i]) && ColumnWithTag(vdc, tags[i]).Some?
    requires forall j :: i < j < |tags| ==> !Text.Contains(base, tags[j]) || ColumnWithTag(vdc, tags[j]).None?
    ensures Preferred(base, vdc, tags) == ColumnWithTag(vdc, tags[i])
    decreases |tags|
  {
    if i < |tags| - 1 {
      var pre := tags[..|tags| - 1];
      assert pre[i] == tags[i];
      forall j | i < j < |pre| ensures !Text.Contains(base, pre[j]) || ColumnWithTag(vdc, pre[j]).None? {
        assert pre[j] == tags[j];
      }
      LaterTagWins(base, vdc, pre, i);
    }
  }

  /** Without a usable tag the x axis is the first voltage column. */
  lemma {:induction false} NoTagFallsBack(base: string, vdc: seq<string>, tags: seq<string>)
    requires forall j :: 0 <= j < |tags| ==> !Text.Contains(base, tags[j]) || ColumnWithTag(vdc, tags[j]).None?
    ensures Preferred(base, vdc, tags).None?
    decreases |tags|
  {
    if tags != [] {
      var pre := tags[..|tags| - 1];
      forall j | 0 <= j < |pre| ensures !Text.Contains(base, pre[j]) || ColumnWithTag(vdc, pre[j]).None? {
        assert pre[j] == tags[j];
      }
      NoTagFallsBack(base, vdc, pre);
    }
  }

  // ---------------------------------------------------------------------
  // render_mppt_report: sheet
  // ---------------------------------------------------------------------

  /** The sheet read and the serial the report is about. */
  datatype SheetPick = SheetPick(sheet: string, mainSerial: string)

  predicate NamesSheet(sheets: seq<string>, sn: string) {
    sn in sheets
  }

  /** The sheet of the first serial that names one, which becomes the
      main serial; otherwise the first sheet (`IndexError` without
      sheets) and the first serial or "INV1".  A serial "" naming a sheet
      is falsy: the first sheet is read and "" stays the main serial. */
  function SheetChoice(serials: seq<string>, sheets: seq<string>): (r: Result<SheetPick, Exc>)
    ensures r.Err? <==> sheets == []
    ensures r.Err? ==> r.error == IndexError
    ensures r.Ok? ==> r.value.sheet in sheets
    ensures forall i :: 0 <= i < |serials| && serials[i] in sheets ==>
              exists k :: 0 <= k <= i && serials[k] in sheets && r.Ok? && r.value.mainSerial == serials[k]
                          && (serials[k] != [] ==> r.value.sheet == serials[k])
    ensures r.Ok? && (forall s :: s in serials ==> s !in sheets) ==>
              r.value.sheet == sheets[0] && r.value.mainSerial == (if serials != [] then serials[0] else "INV1")
  {
    var found := Lists.First(serials, s => NamesSheet(sheets, s));
    var main := if found.Some? then serials[found.value] else if serials != [] then serials[0] else "INV1";
    if found.Some? && serials[found.value] != [] then Ok(SheetPick(serials[found.value], main))
    else if sheets == [] then Err(IndexError)
    else Ok(SheetPick(sheets[0], main))
  }

  /** The sheet loop of `render_mppt_report`. */
  method ChooseSheet(serials: seq<string>, sheets: seq<string>) returns (r: Result<SheetPick, Exc>)
    ensures r == SheetChoice(serials, sheets)
  {
    var mainSerial := if serials != [] then serials[0] else "INV1";
    var sheetName: Option<string> := None;
    var i := 0;
    while i < |serials|
      invariant 0 <= i <= |serials|
      invariant forall j :: 0 <= j < i ==> serials[j] !in sheets
    {
      if serials[i] in sheets {
        sheetName := Some(serials[i]);
        mainSerial := serials[i];
        break;
      }
      i := i + 1;
    }
    if sheetName.None? || sheetName.value == [] {
      if sheets == [] {
        return Err(IndexError);
      }
      sheetName := Some(sheets[0]);
    }
    r := Ok(SheetPick(sheetName.value, mainSerial));
  }

  // ---------------------------------------------------------------------
  // render_mppt_report: template overview rows
  // ---------------------------------------------------------------------

  /** One overview row: a template column and its first value as text. */
  datatype TemplateRow = TemplateRow(col: string, val: string)

  const OverviewColumns: nat := 10

  /** The rows of `cols` whose first value exists (`firstValue` is `None`
      where reading it raises), in column order. */
  function RowsOf(cols: seq<string>, firstValue: string -> Option<string>): (rows: seq<TemplateRow>)
    ensures |rows| <= |cols|
    ensures forall r :: r in rows ==> r.col in cols && firstValue(r.col) == Some(r.val)
    ensures forall c :: c in cols && firstValue(c).Some? ==> TemplateRow(c, firstValue(c).value) in rows
  {
    if cols == [] then []
    else
      var c := cols[|cols| - 1];
      RowsOf(cols[..|cols| - 1], firstValue) + (if firstValue(c).Some? then [TemplateRow(c, firstValue(c).value)] else [])
  }

  /** Column order: the rows are `[TemplateRow(c, v) for c in cols if the
      first value v of c reads]`, one per such column, in column order. */
  lemma {:induction false} RowsOfInColumnOrder(cols: seq<string>, firstValue: string -> Option<string>)
    ensures RowsOf(cols, firstValue)
            == Lists.MapFilter(cols, c => firstValue(c).Some?, c => TemplateRow(c, firstValue(c).GetOr("")))
  {
    if cols != [] {
      var pre, last := cols[..|cols| - 1], cols[|cols| - 1];
      assert pre + [last] == cols;
      RowsOfInColumnOrder(pre, firstValue);
      Lists.MapFilterSnoc(pre, last, c => firstValue(c).Some?, c => TemplateRow(c, firstValue(c).GetOr("")));
    }
  }

  /** The overview rows: at most the first ten columns. */
  function TemplateRows(cols: seq<string>, firstValue: string -> Option<string>): (rows: seq<TemplateRow>)
    ensures |rows| <= OverviewColumns
    ensures forall r :: r in rows ==> exists i :: 0 <= i < OverviewColumns && i < |cols| && r.col == cols[i]
  {
    var n := if |cols| < OverviewColumns then |cols| else OverviewColumns;
    var rows := RowsOf(cols[..n], firstValue);
    assert forall r :: r in rows ==> r.col in cols[..n];
    rows
  }

  /** The overview loop of `render_mppt_report`. */
  method ReadTemplateRows(cols: seq<string>, firstValue: string -> Option<string>) returns (rows: seq<TemplateRow>)
    ensures rows == TemplateRows(cols, firstValue)
  {
    var n := if |cols| < OverviewColumns then |cols| else OverviewColumns;
    var head := cols[..n];
    rows := [];
    var i := 0;
    while i < n
      invariant 0 <= i <= n
      invariant rows == RowsOf(head[..i], firstValue)
    {
      assert head[..i + 1][..i] == head[..i];
      var v := firstValue(head[i]);
      if v.Some? {
        rows := rows + [TemplateRow(head[i], v.value)];
      }
      i := i + 1;
    }
    assert head[..n] == head;
  }
}
