/** The ranges of the sanitiser as inequalities, and what of a document stands after it. */
module BatchLimits {
  import opened Options
  import opened BatchDocument
  import opened BatchRanges

  // The ranges

  /** A field of a cell, with a number that it may hold. */
  predicate IsCellValue(technology: Technology, field: ValueField, value: int) {
    match technology
    case Gsm =>
      || (field == Lac && 0 <= value <= 65_535) || (field == Cid && 0 <= value <= 65_535)
      || (field == Arfcn && 0 <= value <= 1_023) || (field == Bsic && 0 <= value <= 63)
    case Umts =>
      || (field == Lac && 0 <= value <= 65_535) || (field == LongCid && 0 <= value <= 268_435_455)
      || (field == Uarfcn && 0 <= value <= 16_383) || (field == Psc && 0 <= value <= 511)
    case Lte =>
      || (field == Eci && 0 <= value <= 268_435_455) || (field == Tac && 0 <= value <= 65_535)
      || (field == Earfcn && 0 <= value <= 262_143) || (field == Pci && 0 <= value <= 503)
      || (field == BandwidthKhz && 1_400 <= value <= 20_000) || (field == UlEarfcn && 0 <= value <= 262_143)
      || (field == UlBandwidthKhz && 1_400 <= value <= 20_000)
    case Nr =>
      || (field == Nci && 0 <= value <= 68_719_476_735) || (field == Tac && 0 <= value <= 16_777_215)
      || (field == Arfcn && 0 <= value <= 3_279_165) || (field == Pci && 0 <= value <= 1_007)
      || (field == BandwidthKhz && 5_000 <= value <= 400_000) || (field == UlArfcn && 0 <= value <= 3_279_165)
      || (field == UlBandwidthKhz && 5_000 <= value <= 400_000)
  }

  predicate IsSpacing(value: int) {
    value == 15 || value == 30 || value == 60 || value == 120 || value == 240 || value == 480 || value == 960
  }

  predicate IsSignalValue(technology: Technology, field: ValueField, value: int) {
    match technology
    case Gsm =>
      || (field == RssiDbm && -113 <= value <= -51) || (field == BitErrorRate && 0 <= value <= 7)
      || (field == TimingAdvance && 0 <= value <= 219)
    case Umts =>
      || (field == RscpDbm && -120 <= value <= -24) || (field == EcNoDb && -24 <= value <= 1)
      || (field == RssiDbm && -113 <= value <= -51)
    case Lte =>
      || (field == RsrpDbm && -140 <= value <= -43) || (field == RsrqDb && -34 <= value <= 3)
      || (field == RssnrDb && -20 <= value <= 30) || (field == RssiDbm && -113 <= value <= -51)
      || (field == Cqi && 0 <= value <= 15) || (field == TimingAdvance && 0 <= value <= 1_282)
    case Nr =>
      || (field == SsRsrpDbm && -156 <= value <= -31) || (field == SsRsrqDb && -43 <= value <= 20)
      || (field == SsSinrDb && -23 <= value <= 40) || (field == CsiRsrpDbm && -156 <= value <= -31)
      || (field == CsiRsrqDb && -20 <= value <= -3) || (field == CsiSinrDb && -23 <= value <= 23)
      || (field == TimingAdvance && 0 <= value <= 3_846) || (field == SsbIndex && 0 <= value <= 63)
      || (field == SubcarrierSpacingKhz && IsSpacing(value))
  }

  predicate IsFixValue(field: ValueField, value: real) {
    || (field == AltitudeMeters && -1_000.0 <= value <= 50_000.0)
    || (field == SpeedMetersPerSecond && 0.0 <= value <= 1_000.0)
    || (field == BearingDegrees && 0.0 <= value <= 360.0)
  }

  predicate IsBandNumber(technology: Technology, band: int) {
    match technology
    case Gsm => 0 < band < 15
    case Umts => 0 < band < 107
    case Lte => 0 < band < 256
    case Nr => 0 < band < 1_025
  }

  predicate IsOnEarth(fix: Fix) {
    -90.0 <= fix.latitude <= 90.0 && -180.0 <= fix.longitude <= 180.0
  }

  // The fields that the records have

  predicate IsCellField(technology: Technology, field: ValueField) {
    match technology
    case Gsm => field in {Lac, Cid, Arfcn, Bsic}
    case Umts => field in {Lac, LongCid, Uarfcn, Psc}
    case Lte => field in {Eci, Tac, Earfcn, Pci, BandwidthKhz, UlEarfcn, UlBandwidthKhz}
    case Nr => field in {Nci, Tac, Arfcn, Pci, BandwidthKhz, UlArfcn, UlBandwidthKhz}
  }

  predicate IsSignalField(field: ValueField) {
    field in {RsrpDbm, RsrqDb, RssnrDb, RssiDbm, Cqi, SsRsrpDbm, SsRsrqDb, SsSinrDb, CsiRsrpDbm, CsiRsrqDb, CsiSinrDb,
              SubcarrierSpacingKhz, SsbIndex, RscpDbm, EcNoDb, BitErrorRate, TimingAdvance}
  }

  predicate IsFixField(field: ValueField) {
    field in {AltitudeMeters, SpeedMetersPerSecond, BearingDegrees}
  }

  // The tables say the same

  predicate HasField<T>(rules: seq<Rule<T>>, field: ValueField) {
    field in Elements(FieldsOf(rules))
  }

  /** A field's rule is the first one of that field; without one nothing is admitted. */
  lemma {:induction false} FieldHasRule<T>(rules: seq<Rule<T>>, k: nat, field: ValueField, value: T)
    requires k <= |rules| && forall j | 0 <= j < k :: rules[j].field != field
    requires k < |rules| ==> rules[k].field == field
    ensures IsAdmitted(rules, field, value) <==> k < |rules| && rules[k].admits(value)
    ensures HasField(rules, field) <==> k < |rules|
  {
    FirstRule(rules, k, field);
    var fields := FieldsOf(rules);
    assert k < |rules| ==> fields[k] in Elements(fields);
    assert field in Elements(fields) ==> exists j :: 0 <= j < |fields| && fields[j] == field;
  }

  lemma {:induction false} FirstRule<T>(rules: seq<Rule<T>>, k: nat, field: ValueField)
    requires k <= |rules| && forall j | 0 <= j < k :: rules[j].field != field
    requires k < |rules| ==> rules[k].field == field
    ensures RuleOf(rules, field) == if k < |rules| then Some(rules[k].admits) else None
  {
    if k > 0 {
      FirstRule(rules[1..], k - 1, field);
    }
  }

  lemma GsmCellTable(field: ValueField, value: int)
    ensures IsAdmitted(CellRules(Gsm), field, value) <==> IsCellValue(Gsm, field, value)
    ensures HasField(CellRules(Gsm), field) <==> IsCellField(Gsm, field)
  {
    hide IsAdmitted, HasField;
    var rules := CellRules(Gsm);
    if field == Lac {
      FieldHasRule(rules, 0, field, value);
    } else if field == Cid {
      FieldHasRule(rules, 1, field, value);
    } else if field == Arfcn {
      FieldHasRule(rules, 2, field, value);
    } else if field == Bsic {
      FieldHasRule(rules, 3, field, value);
    } else {
      FieldHasRule(rules, 4, field, value);
    }
  }

  lemma UmtsCellTable(field: ValueField, value: int)
    ensures IsAdmitted(CellRules(Umts), field, value) <==> IsCellValue(Umts, field, value)
    ensures HasField(CellRules(Umts), field) <==> IsCellField(Umts, field)
  {
    hide IsAdmitted, HasField;
    var rules := CellRules(Umts);
    if field == Lac {
      FieldHasRule(rules, 0, field, value);
    } else if field == LongCid {
      FieldHasRule(rules, 1, field, value);
    } else if field == Uarfcn {
      FieldHasRule(rules, 2, field, value);
    } else if field == Psc {
      FieldHasRule(rules, 3, field, value);
    } else {
      FieldHasRule(rules, 4, field, value);
    }
  }

  lemma LteCellTable(field: ValueField, value: int)
    ensures IsAdmitted(CellRules(Lte), field, value) <==> IsCellValue(Lte, field, value)
    ensures HasField(CellRules(Lte), field) <==> IsCellField(Lte, field)
  {
    hide IsAdmitted, HasField;
    var rules := CellRules(Lte);
    if field == Eci {
      FieldHasRule(rules, 0, field, value);
    } else if field == Tac {
      FieldHasRule(rules, 1, field, value);
    } else if field == Earfcn {
      FieldHasRule(rules, 2, field, value);
    } else if field == Pci {
      FieldHasRule(rules, 3, field, value);
    } else if field == BandwidthKhz {
      FieldHasRule(rules, 4, field, value);
    } else if field == UlEarfcn {
      FieldHasRule(rules, 5, field, value);
    } else if field == UlBandwidthKhz {
      FieldHasRule(rules, 6, field, value);
    } else {
      FieldHasRule(rules, 7, field, value);
    }
  }

  lemma NrCellTable(field: ValueField, value: int)
    ensures IsAdmitted(CellRules(Nr), field, value) <==> IsCellValue(Nr, field, value)
    ensures HasField(CellRules(Nr), field) <==> IsCellField(Nr, field)
  {
    hide IsAdmitted, HasField;
    var rules := CellRules(Nr);
    if field == Nci {
      FieldHasRule(rules, 0, field, value);
    } else if field == Tac {
      FieldHasRule(rules, 1, field, value);
    } else if field == Arfcn {
      FieldHasRule(rules, 2, field, value);
    } else if field == Pci {
      FieldHasRule(rules, 3, field, value);
    } else if field == BandwidthKhz {
      FieldHasRule(rules, 4, field, value);
    } else if field == UlArfcn {
      FieldHasRule(rules, 5, field, value);
    } else if field == UlBandwidthKhz {
      FieldHasRule(rules, 6, field, value);
    } else {
      FieldHasRule(rules, 7, field, value);
    }
  }

  lemma GsmSignalTable(field: ValueField, value: int)
    ensures IsAdmitted(SignalRules(Gsm), field, value) <==> IsSignalValue(Gsm, field, value)
  {
    hide IsAdmitted, HasField;
    var rules := SignalRules(Gsm);
    if field == RssiDbm {
      FieldHasRule(rules, 0, field, value);
    } else if field == BitErrorRate {
      FieldHasRule(rules, 1, field, value);
    } else if field == TimingAdvance {
      FieldHasRule(rules, 2, field, value);
    } else {
      FieldHasRule(rules, 3, field, value);
    }
  }

  lemma UmtsSignalTable(field: ValueField, value: int)
    ensures IsAdmitted(SignalRules(Umts), field, value) <==> IsSignalValue(Umts, field, value)
  {
    hide IsAdmitted, HasField;
    var rules := SignalRules(Umts);
    if field == RscpDbm {
      FieldHasRule(rules, 0, field, value);
    } else if field == EcNoDb {
      FieldHasRule(rules, 1, field, value);
    } else if field == RssiDbm {
      FieldHasRule(rules, 2, field, value);
    } else {
      FieldHasRule(rules, 3, field, value);
    }
  }

  lemma LteSignalTable(field: ValueField, value: int)
    ensures IsAdmitted(SignalRules(Lte), field, value) <==> IsSignalValue(Lte, field, value)
  {
    hide IsAdmitted, HasField;
    var rules := SignalRules(Lte);
    if field == RsrpDbm {
      FieldHasRule(rules, 0, field, value);
    } else if field == RsrqDb {
      FieldHasRule(rules, 1, field, value);
    } else if field == RssnrDb {
      FieldHasRule(rules, 2, field, value);
    } else if field == RssiDbm {
      FieldHasRule(rules, 3, field, value);
    } else if field == Cqi {
      FieldHasRule(rules, 4, field, value);
    } else if field == TimingAdvance {
      FieldHasRule(rules, 5, field, value);
    } else {
      FieldHasRule(rules, 6, field, value);
    }
  }

  lemma SpacingIsListed(value: int)
    ensures OneOf([15, 30, 60, 120, 240, 480, 960])(value) <==> IsSpacing(value)
  {
  }

  lemma NrSignalTable(field: ValueField, value: int)
    ensures IsAdmitted(SignalRules(Nr), field, value) <==> IsSignalValue(Nr, field, value)
  {
    hide IsAdmitted, HasField, OneOf, IsSpacing;
    var rules := SignalRules(Nr);
    if field == SsRsrpDbm {
      FieldHasRule(rules, 0, field, value);
    } else if field == SsRsrqDb {
      FieldHasRule(rules, 1, field, value);
    } else if field == SsSinrDb {
      FieldHasRule(rules, 2, field, value);
    } else if field == CsiRsrpDbm {
      FieldHasRule(rules, 3, field, value);
    } else {
      NrSignalTableFurtherOn(field, value);
    }
  }

  lemma NrSignalTableFurtherOn(field: ValueField, value: int)
    requires field !in {SsRsrpDbm, SsRsrqDb, SsSinrDb, CsiRsrpDbm}
    ensures IsAdmitted(SignalRules(Nr), field, value) <==> IsSignalValue(Nr, field, value)
  {
    hide IsAdmitted, HasField, OneOf, IsSpacing;
    var rules := SignalRules(Nr);
    if field == CsiRsrqDb {
      FieldHasRule(rules, 4, field, value);
    } else if field == CsiSinrDb {
      FieldHasRule(rules, 5, field, value);
    } else if field == TimingAdvance {
      FieldHasRule(rules, 6, field, value);
    } else if field == SubcarrierSpacingKhz {
      SpacingIsListed(value);
      FieldHasRule(rules, 7, field, value);
    } else if field == SsbIndex {
      FieldHasRule(rules, 8, field, value);
    } else {
      FieldHasRule(rules, 9, field, value);
    }
  }

  lemma FixTable(field: ValueField, value: real)
    ensures IsAdmitted(FixRules(), field, value) <==> IsFixValue(field, value)
    ensures HasField(FixRules(), field) <==> IsFixField(field)
  {
    hide IsAdmitted, HasField;
    var rules := FixRules();
    if field == AltitudeMeters {
      FieldHasRule(rules, 0, field, value);
    } else if field == SpeedMetersPerSecond {
      FieldHasRule(rules, 1, field, value);
    } else if field == BearingDegrees {
      FieldHasRule(rules, 2, field, value);
    } else {
      FieldHasRule(rules, 3, field, value);
    }
  }

  lemma CellTable(technology: Technology, field: ValueField, value: int)
    ensures IsAdmitted(CellRules(technology), field, value) <==> IsCellValue(technology, field, value)
    ensures HasField(CellRules(technology), field) <==> IsCellField(technology, field)
  {
    hide IsAdmitted, HasField, CellRules, IsCellValue, IsCellField;
    match technology
    case Gsm => GsmCellTable(field, value);
    case Umts => UmtsCellTable(field, value);
    case Lte => LteCellTable(field, value);
    case Nr => NrCellTable(field, value);
  }

  lemma SignalTable(technology: Technology, field: ValueField, value: int)
    ensures IsAdmitted(SignalRules(technology), field, value) <==> IsSignalValue(technology, field, value)
  {
    hide IsAdmitted, SignalRules, IsSignalValue;
    match technology
    case Gsm => GsmSignalTable(field, value);
    case Umts => UmtsSignalTable(field, value);
    case Lte => LteSignalTable(field, value);
    case Nr => NrSignalTable(field, value);
  }

  lemma SignalFields(field: ValueField)
    ensures field in Elements(SIGNAL_FIELDS) <==> IsSignalField(field)
  {
    ElementsAreListed(SIGNAL_FIELDS, field);
    hide Elements;
  }

  lemma ElementsAreListed(fields: seq<ValueField>, field: ValueField)
    ensures field in Elements(fields) <==> field in fields
  {
  }

  lemma BandRange(technology: Technology, band: int)
    ensures IsBand(technology, band) <==> IsBandNumber(technology, band)
  {
  }

  // What stands

  /** What stands of a cell's values, unchanged: those in range, and those of fields that such a cell does not have. */
  ghost predicate CellValuesStand(technology: Technology, before: Values<int>, after: Values<int>) {
    && (forall field :: field in after
          <==> field in before
               && (IsCellField(technology, field) ==> IsCellValue(technology, field, before[field])))
    && forall field | field in after :: after[field] == before[field]
  }

  ghost predicate SignalValuesStand(technology: Technology, before: Values<int>, after: Values<int>) {
    && (forall field :: field in after
          <==> field in before && (IsSignalField(field) ==> IsSignalValue(technology, field, before[field])))
    && forall field | field in after :: after[field] == before[field]
  }

  ghost predicate FixStands(before: Fix, after: Fix) {
    && after.t == before.t && after.accuracies == before.accuracies
    && after.latitude == before.latitude && after.longitude == before.longitude
    && (forall field :: field in after.values
          <==> field in before.values && (IsFixField(field) ==> IsFixValue(field, before.values[field])))
    && forall field | field in after.values :: after.values[field] == before.values[field]
  }

  /** The places, in order, at which a list has what stands. */
  ghost predicate AreInOrder(places: seq<nat>) {
    forall j, k | 0 <= j < k < |places| :: places[j] < places[k]
  }

  /** The fixes at these places stand, and they are the ones on earth. */
  ghost predicate FixesStandAt(places: seq<nat>, before: seq<Fix>, after: seq<Fix>) {
    && AreInOrder(places) && |places| == |after|
    && (forall k: nat :: k in places <==> k < |before| && IsOnEarth(before[k]))
    && forall k | 0 <= k < |places| :: places[k] < |before| && FixStands(before[places[k]], after[k])
  }

  ghost predicate BandsStandAt(places: seq<nat>, technology: Technology, before: seq<int>, after: seq<int>) {
    && AreInOrder(places) && |places| == |after|
    && (forall k: nat :: k in places <==> k < |before| && IsBandNumber(technology, before[k]))
    && forall k | 0 <= k < |places| :: places[k] < |before| && before[places[k]] == after[k]
  }

  ghost predicate CellStands(before: Cell, after: Cell) {
    && after.technology == before.technology
    && CellValuesStand(before.technology, before.values, after.values)
    && (after.bands.Some? <==> before.bands.Some?)
    && (before.bands.Some? ==>
          exists places :: BandsStandAt(places, before.technology, before.bands.value, after.bands.value))
  }

  /** The measurements of a snapshot stand, each in the ranges of its own cell's technology. */
  ghost predicate SnapshotStands(before: Snapshot, after: Snapshot, cells: seq<Cell>)
    requires forall m | 0 <= m < |before.measurements| :: before.measurements[m].cell < |cells|
  {
    && after.t == before.t && after.reader == before.reader && |after.measurements| == |before.measurements|
    && forall m | 0 <= m < |before.measurements| ::
         && after.measurements[m].cell == before.measurements[m].cell
         && SignalValuesStand(cells[before.measurements[m].cell].technology, before.measurements[m].values,
              after.measurements[m].values)
  }

  lemma {:induction false} CellValuesInRangeStand(technology: Technology, before: Values<int>)
    ensures var rules := CellRules(technology);
            CellValuesStand(technology, before, Admitted(before, Elements(FieldsOf(rules)), rules))
  {
    hide CellRules, IsAdmitted, Elements, FieldsOf, IsCellField, IsCellValue;
    var rules := CellRules(technology);
    var after := Admitted(before, Elements(FieldsOf(rules)), rules);
    forall field
      ensures field in after
         <==> field in before
              && (IsCellField(technology, field) ==> IsCellValue(technology, field, before[field]))
    {
      CellTable(technology, field, if field in before then before[field] else 0);
    }
  }

  lemma {:induction false} SignalValuesInRangeStand(technology: Technology, before: Values<int>)
    ensures SignalValuesStand(technology, before, Admitted(before, Elements(SIGNAL_FIELDS), SignalRules(technology)))
  {
    hide SignalRules, IsAdmitted, Elements, IsSignalField, IsSignalValue;
    var after := Admitted(before, Elements(SIGNAL_FIELDS), SignalRules(technology));
    forall field
      ensures field in after
         <==> field in before && (IsSignalField(field) ==> IsSignalValue(technology, field, before[field]))
    {
      SignalTable(technology, field, if field in before then before[field] else 0);
      SignalFields(field);
    }
  }

  lemma {:induction false} FixInRangeStands(fix: Fix)
    ensures FixStands(fix, SanitisedFix(fix)) && (IsPlaced(fix) <==> IsOnEarth(fix))
  {
    hide FixRules, IsAdmitted, Elements, FieldsOf, IsFixField, IsFixValue;
    var after := SanitisedFix(fix).values;
    forall field
      ensures field in after
         <==> field in fix.values && (IsFixField(field) ==> IsFixValue(field, fix.values[field]))
    {
      FixTable(field, if field in fix.values then fix.values[field] else 0.0);
    }
  }

  lemma InOrder(places: seq<nat>, n: nat)
    requires AreInOrder(places) && forall k | k in places :: k < n
    ensures AreInOrder(places + [n])
  {
    assert forall k | 0 <= k < |places| :: places[k] in places;
  }

  lemma FixStandsLast(places: seq<nat>, before: seq<Fix>, after: seq<Fix>, fix: Fix, last: Fix)
    requires FixesStandAt(places, before, after) && FixStands(fix, last)
    ensures if IsOnEarth(fix) then FixesStandAt(places + [|before|], before + [fix], after + [last])
            else FixesStandAt(places, before + [fix], after)
  {
    hide IsOnEarth, FixStands, AreInOrder;
    InOrder(places, |before|);
  }

  lemma {:induction false} FixesStand(fixes: seq<Fix>) returns (places: seq<nat>)
    ensures FixesStandAt(places, fixes, SanitisedFixes(fixes))
  {
    hide IsOnEarth, IsPlaced, FixStands, SanitisedFix;
    places := [];
    if fixes != [] {
      var n := |fixes| - 1;
      places := FixesStand(fixes[..n]);
      FixInRangeStands(fixes[n]);
      FixStandsLast(places, fixes[..n], SanitisedFixes(fixes[..n]), fixes[n], SanitisedFix(fixes[n]));
      hide FixesStandAt;
      assert fixes[..n] + [fixes[n]] == fixes;
      places := if IsPlaced(fixes[n]) then places + [n] else places;
    }
  }

  lemma BandStandsLast(places: seq<nat>, technology: Technology, before: seq<int>, after: seq<int>, band: int)
    requires BandsStandAt(places, technology, before, after)
    ensures if IsBandNumber(technology, band)
            then BandsStandAt(places + [|before|], technology, before + [band], after + [band])
            else BandsStandAt(places, technology, before + [band], after)
  {
    hide IsBandNumber, AreInOrder;
    InOrder(places, |before|);
  }

  lemma {:induction false} BandsStand(technology: Technology, bands: seq<int>) returns (places: seq<nat>)
    ensures BandsStandAt(places, technology, bands, BandsWithin(technology, bands))
  {
    hide IsBand, IsBandNumber;
    places := [];
    if bands != [] {
      var n := |bands| - 1;
      places := BandsStand(technology, bands[..n]);
      BandRange(technology, bands[n]);
      BandStandsLast(places, technology, bands[..n], BandsWithin(technology, bands[..n]), bands[n]);
      hide BandsStandAt;
      assert bands[..n] + [bands[n]] == bands;
      places := if IsBand(technology, bands[n]) then places + [n] else places;
    }
  }

  lemma {:induction false} CellStandsInRange(cell: Cell)
    ensures CellStands(cell, SanitisedCell(cell))
  {
    hide CellRules, FieldsOf, Elements, Admitted, CellValuesStand, BandsStandAt, BandsWithin;
    CellValuesInRangeStand(cell.technology, cell.values);
    if cell.bands.Some? {
      var places := BandsStand(cell.technology, cell.bands.value);
    }
  }

  lemma {:induction false} SnapshotStandsInRange(d: Document, k: nat)
    requires PointsAtCells(d) && k < |d.snapshots|
    ensures SnapshotStands(d.snapshots[k], Sanitised(d).snapshots[k], d.cells)
  {
    hide SignalRules, Elements, Admitted, SignalValuesStand, SanitisedFixes, SanitisedCells;
    forall m | 0 <= m < |d.snapshots[k].measurements|
      ensures var technology := d.cells[d.snapshots[k].measurements[m].cell].technology;
              SignalValuesStand(technology, d.snapshots[k].measurements[m].values,
                Sanitised(d).snapshots[k].measurements[m].values)
    {
      var technology := d.cells[d.snapshots[k].measurements[m].cell].technology;
      SignalValuesInRangeStand(technology, d.snapshots[k].measurements[m].values);
    }
  }

  /**
    Of a document stand the fixes on earth, all cells and all snapshots, each with the very
    values that lie in the ranges above, and of a cell's bands those of its technology in order.
  */
  lemma {:induction false} WhatIsInRangeStands(d: Document)
    requires PointsAtCells(d)
    ensures exists places :: FixesStandAt(places, d.fixes, Sanitised(d).fixes)
    ensures |Sanitised(d).cells| == |d.cells| && forall k | 0 <= k < |d.cells| ::
              CellStands(d.cells[k], Sanitised(d).cells[k])
    ensures |Sanitised(d).snapshots| == |d.snapshots| && forall k | 0 <= k < |d.snapshots| ::
              SnapshotStands(d.snapshots[k], Sanitised(d).snapshots[k], d.cells)
    ensures Sanitised(d).readers == d.readers
  {
    hide FixesStandAt, CellStands, SnapshotStands, SanitisedFixes, SanitisedCell, SanitisedMeasurements;
    var places := FixesStand(d.fixes);
    assert FixesStandAt(places, d.fixes, Sanitised(d).fixes);
    forall k | 0 <= k < |d.cells| ensures CellStands(d.cells[k], Sanitised(d).cells[k]) {
      CellStandsInRange(d.cells[k]);
    }
    forall k | 0 <= k < |d.snapshots| ensures SnapshotStands(d.snapshots[k], Sanitised(d).snapshots[k], d.cells) {
      SnapshotStandsInRange(d, k);
    }
  }
}
