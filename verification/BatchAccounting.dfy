/** What the sanitiser leaves, what it counts, and that a second pass is idle. */
module BatchAccounting {
  import opened BatchDocument
  import opened BatchRanges

  // What is left is in range

  /** The fields that the record types have. */
  ghost predicate IsTyped(d: Document) {
    && (forall k, field | 0 <= k < |d.fixes| && field in d.fixes[k].values :: field in Elements(FieldsOf(FixRules())))
    && (forall k, field | 0 <= k < |d.cells| && field in d.cells[k].values ::
        field in Elements(FieldsOf(CellRules(d.cells[k].technology))))
    && forall k, m, field | 0 <= k < |d.snapshots| && 0 <= m < |d.snapshots[k].measurements|
                            && field in d.snapshots[k].measurements[m].values :: field in Elements(SIGNAL_FIELDS)
  }

  ghost predicate IsFixClean(fix: Fix) {
    IsPlaced(fix) && forall field | field in fix.values :: IsAdmitted(FixRules(), field, fix.values[field])
  }

  ghost predicate IsCellClean(cell: Cell) {
    && (forall field | field in cell.values :: IsAdmitted(CellRules(cell.technology), field, cell.values[field]))
    && (cell.bands.Some? ==> forall k | 0 <= k < |cell.bands.value| :: IsBand(cell.technology, cell.bands.value[k]))
  }

  ghost predicate IsMeasurementClean(measurement: Measurement, technology: Technology) {
    forall field | field in measurement.values :: IsAdmitted(SignalRules(technology), field, measurement.values[field])
  }

  /** Every value lies in the range that the technology of its own cell gives its field. */
  ghost predicate IsClean(d: Document) {
    && (forall k | 0 <= k < |d.fixes| :: IsFixClean(d.fixes[k]))
    && (forall k | 0 <= k < |d.cells| :: IsCellClean(d.cells[k]))
    && forall k, m | 0 <= k < |d.snapshots| && 0 <= m < |d.snapshots[k].measurements| ::
         IsMeasurementClean(d.snapshots[k].measurements[m],
             TechnologyOf(TechnologiesOf(d.cells), d.snapshots[k].measurements[m].cell))
  }

  lemma {:induction false} FixesAreClean(fixes: seq<Fix>)
    requires forall k, field | 0 <= k < |fixes| && field in fixes[k].values :: field in Elements(FieldsOf(FixRules()))
    ensures forall k | 0 <= k < |SanitisedFixes(fixes)| :: IsFixClean(SanitisedFixes(fixes)[k])
  {
    hide FixRules, FieldsOf, Elements, IsAdmitted;
    if fixes != [] {
      FixesAreClean(fixes[..|fixes| - 1]);
      FixIsClean(fixes[|fixes| - 1]);
      hide IsFixClean, SanitisedFix;
    }
  }

  lemma FixIsClean(fix: Fix)
    requires forall field | field in fix.values :: field in Elements(FieldsOf(FixRules()))
    ensures IsPlaced(fix) ==> IsFixClean(SanitisedFix(fix))
  {
    hide FixRules, FieldsOf, Elements, IsAdmitted;
  }

  lemma {:induction false} BandsAreWithin(technology: Technology, bands: seq<int>)
    ensures forall k | 0 <= k < |BandsWithin(technology, bands)| ::
             IsBand(technology, BandsWithin(technology, bands)[k])
  {
    if bands != [] {
      BandsAreWithin(technology, bands[..|bands| - 1]);
    }
  }

  lemma CellIsClean(cell: Cell)
    requires forall field | field in cell.values :: field in Elements(FieldsOf(CellRules(cell.technology)))
    ensures IsCellClean(SanitisedCell(cell))
  {
    hide CellRules, FieldsOf, Elements, IsAdmitted, IsBand;
    if cell.bands.Some? {
      BandsAreWithin(cell.technology, cell.bands.value);
    }
  }

  lemma MeasurementIsClean(measurement: Measurement, technology: Technology)
    requires forall field | field in measurement.values :: field in Elements(SIGNAL_FIELDS)
    ensures IsMeasurementClean(SanitisedMeasurement(measurement, technology), technology)
  {
    hide SignalRules, Elements, IsAdmitted;
  }

  /** Sanitising leaves only values in range, each for the technology of its own cell. */
  lemma {:induction false} SanitisedIsClean(d: Document)
    requires IsTyped(d)
    ensures IsClean(Sanitised(d)) && IsTyped(Sanitised(d))
  {
    hide FixRules, CellRules, SignalRules, FieldsOf, Elements, IsFixClean, IsCellClean, IsMeasurementClean;
    FixesAreClean(d.fixes);
    TechnologiesStay(d.cells);
    forall k | 0 <= k < |d.cells| ensures IsCellClean(Sanitised(d).cells[k]) {
      CellIsClean(d.cells[k]);
    }
    forall k, m | 0 <= k < |d.snapshots| && 0 <= m < |d.snapshots[k].measurements|
      ensures IsMeasurementClean(Sanitised(d).snapshots[k].measurements[m],
                TechnologyOf(TechnologiesOf(d.cells), d.snapshots[k].measurements[m].cell))
    {
      MeasurementIsClean(d.snapshots[k].measurements[m],
          TechnologyOf(TechnologiesOf(d.cells), d.snapshots[k].measurements[m].cell));
    }
    SanitisedIsTyped(d);
  }

  lemma {:induction false} FixesStayTyped(fixes: seq<Fix>)
    requires forall k, field | 0 <= k < |fixes| && field in fixes[k].values :: field in Elements(FieldsOf(FixRules()))
    ensures forall k, field | 0 <= k < |SanitisedFixes(fixes)| && field in SanitisedFixes(fixes)[k].values ::
             field in Elements(FieldsOf(FixRules()))
  {
    hide FixRules, FieldsOf, Elements, IsAdmitted;
    if fixes != [] {
      FixesStayTyped(fixes[..|fixes| - 1]);
    }
  }

  lemma SanitisedIsTyped(d: Document)
    requires IsTyped(d)
    ensures IsTyped(Sanitised(d))
  {
    hide FixRules, CellRules, SignalRules, FieldsOf, Elements, IsAdmitted;
    FixesStayTyped(d.fixes);
  }

  // What is counted

  function Present<T>(values: Values<T>, field: ValueField): nat {
    if field in values then 1 else 0
  }

  function PresentInFix(fix: Fix, field: ValueField): nat {
    Present(fix.values, field) + if field == Latitude || field == Longitude then 1 else 0
  }

  function PresentInFixes(fixes: seq<Fix>, field: ValueField): nat {
    if fixes == [] then 0 else PresentInFixes(fixes[..|fixes| - 1], field) + PresentInFix(fixes[|fixes| - 1], field)
  }

  function PresentInCell(cell: Cell, field: ValueField): nat {
    Present(cell.values, field) + if field == Bands && cell.bands.Some? then |cell.bands.value| else 0
  }

  function PresentInCells(cells: seq<Cell>, field: ValueField): nat {
    if cells == [] then 0 else PresentInCells(cells[..|cells| - 1], field) + PresentInCell(cells[|cells| - 1], field)
  }

  function PresentInMeasurements(measurements: seq<Measurement>, field: ValueField): nat {
    if measurements == [] then 0
    else
      PresentInMeasurements(measurements[..|measurements| - 1], field)
      + Present(measurements[|measurements| - 1].values, field)
  }

  function PresentInSnapshots(snapshots: seq<Snapshot>, field: ValueField): nat {
    if snapshots == [] then 0
    else
      PresentInSnapshots(snapshots[..|snapshots| - 1], field)
      + PresentInMeasurements(snapshots[|snapshots| - 1].measurements, field)
  }

  /** How many values of a field a document holds. */
  function PresentIn(d: Document, field: ValueField): nat {
    PresentInFixes(d.fixes, field) + PresentInCells(d.cells, field) + PresentInSnapshots(d.snapshots, field)
  }

  /** The records that stay: the fixes with both coordinates in range, and all others. */
  function KeptRecords(d: Document): Document {
    d.(fixes := PlacedFixes(d.fixes))
  }

  function PlacedFixes(fixes: seq<Fix>): seq<Fix> {
    if fixes == [] then []
    else PlacedFixes(fixes[..|fixes| - 1]) + if IsPlaced(fixes[|fixes| - 1]) then [fixes[|fixes| - 1]] else []
  }

  /** The bad coordinates of that field. Each belongs to a fix that is removed. */
  function BadCoordinates(fixes: seq<Fix>, field: ValueField): nat {
    if fixes == [] then 0
    else BadCoordinates(fixes[..|fixes| - 1], field) + BadCoordinate(fixes[|fixes| - 1], field)
  }

  function BadCoordinate(fix: Fix, field: ValueField): nat {
    if (field == Latitude && !IsLatitude(fix.latitude)) || (field == Longitude && !IsLongitude(fix.longitude))
        then 1 else 0
  }

  lemma RefusedIsMissing<T>(values: Values<T>, fields: set<ValueField>, rules: seq<Rule<T>>, field: ValueField)
    ensures Present(Admitted(values, fields, rules), field) + Refused(values, fields, rules, field)
             == Present(values, field)
  {
    hide IsAdmitted;
  }

  lemma FixIsCounted(fix: Fix, field: ValueField)
    ensures IsPlaced(fix) ==>
              DroppedByFix(fix, field) + PresentInFix(SanitisedFix(fix), field) == PresentInFix(fix, field)
    ensures IsPlaced(fix) ==> BadCoordinate(fix, field) == 0
    ensures !IsPlaced(fix) ==> DroppedByFix(fix, field) == BadCoordinate(fix, field)
  {
    hide Admitted, Refused, Elements, FieldsOf, FixRules, Present;
    RefusedIsMissing(fix.values, Elements(FieldsOf(FixRules())), FixRules(), field);
  }

  lemma {:induction false} FixesAreCounted(fixes: seq<Fix>, field: ValueField)
    ensures DroppedByFixes(fixes, field) + PresentInFixes(SanitisedFixes(fixes), field)
         == PresentInFixes(PlacedFixes(fixes), field) + BadCoordinates(fixes, field)
  {
    if fixes != [] {
      hide *;
      var front, last := fixes[..|fixes| - 1], fixes[|fixes| - 1];
      FixesAreCounted(front, field);
      FixIsCounted(last, field);
      LastFix(fixes, field);
      if IsPlaced(last) {
        PresentInMore(SanitisedFixes(front), SanitisedFix(last), field);
        PresentInMore(PlacedFixes(front), last, field);
      }
    }
  }

  lemma LastFix(fixes: seq<Fix>, field: ValueField)
    requires fixes != []
    ensures var front, last := fixes[..|fixes| - 1], fixes[|fixes| - 1];
            && SanitisedFixes(fixes)
                == (if IsPlaced(last) then SanitisedFixes(front) + [SanitisedFix(last)] else SanitisedFixes(front))
            && PlacedFixes(fixes) == (if IsPlaced(last) then PlacedFixes(front) + [last] else PlacedFixes(front))
            && DroppedByFixes(fixes, field) == DroppedByFixes(front, field) + DroppedByFix(last, field)
            && BadCoordinates(fixes, field) == BadCoordinates(front, field) + BadCoordinate(last, field)
  {
    hide IsPlaced, SanitisedFix, DroppedByFix, BadCoordinate;
  }

  lemma PresentInMore(fixes: seq<Fix>, fix: Fix, field: ValueField)
    ensures PresentInFixes(fixes + [fix], field) == PresentInFixes(fixes, field) + PresentInFix(fix, field)
  {
    assert (fixes + [fix])[..|fixes|] == fixes;
  }

  lemma CellIsCounted(cell: Cell, field: ValueField)
    ensures DroppedByCell(cell, field) + PresentInCell(SanitisedCell(cell), field) == PresentInCell(cell, field)
  {
    hide Admitted, Refused, Elements, FieldsOf, CellRules, BandsWithin, BandsOutside, Present;
    RefusedIsMissing(cell.values, Elements(FieldsOf(CellRules(cell.technology))), CellRules(cell.technology), field);
    if cell.bands.Some? {
      BandsAreKeptOrOutside(cell.technology, cell.bands.value);
    }
  }

  lemma {:induction false} CellsAreCounted(cells: seq<Cell>, field: ValueField)
    ensures DroppedByCells(cells, field) + PresentInCells(SanitisedCells(cells), field) == PresentInCells(cells, field)
  {
    hide SanitisedCell, DroppedByCell, PresentInCell;
    if cells != [] {
      CellsAreCounted(cells[..|cells| - 1], field);
      CellIsCounted(cells[|cells| - 1], field);
      assert SanitisedCells(cells)[..|cells| - 1] == SanitisedCells(cells[..|cells| - 1]);
    }
  }

  lemma {:induction false} MeasurementsAreCounted(measurements: seq<Measurement>, technologies: seq<Technology>,
        field: ValueField)
    ensures DroppedByMeasurements(measurements, technologies, field)
             + PresentInMeasurements(SanitisedMeasurements(measurements, technologies), field)
         == PresentInMeasurements(measurements, field)
  {
    hide Admitted, Refused, Elements, SignalRules;
    if measurements != [] {
      var last := measurements[|measurements| - 1];
      var front := measurements[..|measurements| - 1];
      MeasurementsAreCounted(front, technologies, field);
      assert SanitisedMeasurements(measurements, technologies)[..|measurements| - 1]
          == SanitisedMeasurements(front, technologies);
      RefusedIsMissing(last.values, Elements(SIGNAL_FIELDS), SignalRules(TechnologyOf(technologies, last.cell)), field);
    }
  }

  lemma {:induction false} SnapshotsAreCounted(snapshots: seq<Snapshot>, technologies: seq<Technology>,
        field: ValueField)
    ensures DroppedBySnapshots(snapshots, technologies, field)
             + PresentInSnapshots(SanitisedSnapshots(snapshots, technologies), field)
         == PresentInSnapshots(snapshots, field)
  {
    hide DroppedByMeasurements, PresentInMeasurements, SanitisedMeasurements;
    if snapshots != [] {
      var last := snapshots[|snapshots| - 1];
      var front := snapshots[..|snapshots| - 1];
      SnapshotsAreCounted(front, technologies, field);
      assert SanitisedSnapshots(snapshots, technologies)[..|snapshots| - 1] == SanitisedSnapshots(front, technologies);
      MeasurementsAreCounted(last.measurements, technologies, field);
    }
  }

  /**
    Each value that a kept record loses is counted once, and so
    is each bad coordinate of a removed fix; nothing else is.
  */
  lemma {:induction false} CountsAreExact(d: Document, field: ValueField)
    ensures DroppedBy(d, field) == PresentIn(KeptRecords(d), field) - PresentIn(Sanitised(d), field)
             + BadCoordinates(d.fixes, field)
  {
    hide DroppedByFixes, DroppedByCells, DroppedBySnapshots, SanitisedFixes, SanitisedCells, SanitisedSnapshots;
    FixesAreCounted(d.fixes, field);
    CellsAreCounted(d.cells, field);
    SnapshotsAreCounted(d.snapshots, TechnologiesOf(d.cells), field);
  }

  // A second pass

  lemma {:induction false} CleanFixesStay(fixes: seq<Fix>, field: ValueField)
    requires forall k | 0 <= k < |fixes| :: IsFixClean(fixes[k])
    ensures SanitisedFixes(fixes) == fixes && DroppedByFixes(fixes, field) == 0
  {
    hide FixRules, FieldsOf, Elements, IsAdmitted;
    if fixes != [] {
      var last := fixes[|fixes| - 1];
      CleanFixesStay(fixes[..|fixes| - 1], field);
      assert Admitted(last.values, Elements(FieldsOf(FixRules())), FixRules()) == last.values;
    }
  }

  lemma {:induction false} CleanBandsStay(technology: Technology, bands: seq<int>)
    requires forall k | 0 <= k < |bands| :: IsBand(technology, bands[k])
    ensures BandsWithin(technology, bands) == bands && BandsOutside(technology, bands) == 0
  {
    if bands != [] {
      CleanBandsStay(technology, bands[..|bands| - 1]);
    }
  }

  lemma AdmittedStay<T>(values: Values<T>, fields: set<ValueField>, rules: seq<Rule<T>>, field: ValueField)
    requires forall other | other in values :: IsAdmitted(rules, other, values[other])
    ensures Admitted(values, fields, rules) == values && Refused(values, fields, rules, field) == 0
  {
    hide IsAdmitted;
  }

  lemma CleanCellStays(cell: Cell, field: ValueField)
    requires IsCellClean(cell)
    ensures SanitisedCell(cell) == cell && DroppedByCell(cell, field) == 0
  {
    hide CellRules, FieldsOf, Elements, IsAdmitted, IsBand;
    AdmittedStay(cell.values, Elements(FieldsOf(CellRules(cell.technology))), CellRules(cell.technology), field);
    hide Admitted, Refused;
    if cell.bands.Some? {
      CleanBandsStay(cell.technology, cell.bands.value);
    }
  }

  lemma {:induction false} CleanCellsStay(cells: seq<Cell>, field: ValueField)
    requires forall k | 0 <= k < |cells| :: IsCellClean(cells[k])
    ensures SanitisedCells(cells) == cells && DroppedByCells(cells, field) == 0
  {
    hide IsCellClean, SanitisedCell, DroppedByCell;
    if cells != [] {
      CleanCellsStay(cells[..|cells| - 1], field);
      CleanCellStays(cells[|cells| - 1], field);
      assert SanitisedCells(cells) == SanitisedCells(cells[..|cells| - 1]) + [SanitisedCell(cells[|cells| - 1])];
    }
  }

  lemma CleanMeasurementStays(measurement: Measurement, technology: Technology, field: ValueField)
    requires IsMeasurementClean(measurement, technology)
    ensures SanitisedMeasurement(measurement, technology) == measurement
             && DroppedByMeasurement(measurement, technology, field) == 0
  {
    hide SignalRules, Elements, IsAdmitted;
    assert Admitted(measurement.values, Elements(SIGNAL_FIELDS), SignalRules(technology)) == measurement.values;
  }

  lemma {:induction false} CleanMeasurementsStay(measurements: seq<Measurement>, technologies: seq<Technology>,
        field: ValueField)
    requires forall k | 0 <= k < |measurements| ::
             IsMeasurementClean(measurements[k], TechnologyOf(technologies, measurements[k].cell))
    ensures SanitisedMeasurements(measurements, technologies) == measurements
    ensures DroppedByMeasurements(measurements, technologies, field) == 0
  {
    hide IsMeasurementClean, SanitisedMeasurement, DroppedByMeasurement;
    if measurements != [] {
      var front, last := measurements[..|measurements| - 1], measurements[|measurements| - 1];
      CleanMeasurementsStay(front, technologies, field);
      CleanMeasurementStays(last, TechnologyOf(technologies, last.cell), field);
      assert SanitisedMeasurements(measurements, technologies)
          == SanitisedMeasurements(front, technologies)
              + [SanitisedMeasurement(last, TechnologyOf(technologies, last.cell))];
    }
  }

  lemma {:induction false} CleanSnapshotsStay(snapshots: seq<Snapshot>, technologies: seq<Technology>,
        field: ValueField)
    requires forall k, m | 0 <= k < |snapshots| && 0 <= m < |snapshots[k].measurements| ::
               IsMeasurementClean(snapshots[k].measurements[m],
                   TechnologyOf(technologies, snapshots[k].measurements[m].cell))
    ensures SanitisedSnapshots(snapshots, technologies) == snapshots
             && DroppedBySnapshots(snapshots, technologies, field) == 0
  {
    hide IsMeasurementClean, SanitisedMeasurements, DroppedByMeasurements;
    if snapshots != [] {
      var front, last := snapshots[..|snapshots| - 1], snapshots[|snapshots| - 1];
      CleanSnapshotsStay(front, technologies, field);
      CleanMeasurementsStay(last.measurements, technologies, field);
      assert SanitisedSnapshots(snapshots, technologies)
          == SanitisedSnapshots(front, technologies)
              + [last.(measurements := SanitisedMeasurements(last.measurements, technologies))];
    }
  }

  /** A clean document passes as it is, with nothing counted. */
  lemma CleanDocumentStays(d: Document, field: ValueField)
    requires IsClean(d)
    ensures Sanitised(d) == d && DroppedBy(d, field) == 0
  {
    hide IsFixClean, IsCellClean, IsMeasurementClean;
    CleanFixesStay(d.fixes, field);
    CleanCellsStay(d.cells, field);
    CleanSnapshotsStay(d.snapshots, TechnologiesOf(d.cells), field);
  }

  /** A second pass changes and counts nothing, and a first one only where something is out of range. */
  lemma {:induction false} SecondPassIsIdle(d: Document, field: ValueField)
    requires IsTyped(d)
    ensures Sanitised(Sanitised(d)) == Sanitised(d) && DroppedBy(Sanitised(d), field) == 0
    ensures Sanitised(d) == d <==> IsClean(d)
  {
    hide IsTyped, IsClean, Sanitised, DroppedBy;
    SanitisedIsClean(d);
    CleanDocumentStays(Sanitised(d), field);
    if IsClean(d) {
      CleanDocumentStays(d, field);
    }
  }
}
