/** The range sanitiser of ranges.rs, in place on a batch, with the counters of dropped_values.rs. */
module BatchRanges {
  import opened Options
  import opened BatchDocument

  // The tables

  datatype Rule<!T> = Rule(field: ValueField, admits: T -> bool)

  function Between(lowest: int, highest: int): int -> bool {
    (value: int) => lowest <= value <= highest
  }

  function Within(lowest: real, highest: real): real -> bool {
    (value: real) => lowest <= value <= highest
  }

  function OneOf(values: seq<int>): int -> bool {
    (value: int) => value in values
  }

  function AreaCode16Bits(): int -> bool { Between(0, 65_535) }
  function CellId28Bits(): int -> bool { Between(0, 268_435_455) }
  function NrArfcn(): int -> bool { Between(0, 3_279_165) }
  function LteEarfcn(): int -> bool { Between(0, 262_143) }
  function LteBandwidthKhz(): int -> bool { Between(1_400, 20_000) }
  function NrBandwidthKhz(): int -> bool { Between(5_000, 400_000) }

  predicate IsLatitude(latitude: real) {
    -90.0 <= latitude <= 90.0
  }

  predicate IsLongitude(longitude: real) {
    -180.0 <= longitude <= 180.0
  }

  function FixRules(): seq<Rule<real>> {
    [Rule(AltitudeMeters, Within(-1_000.0, 50_000.0)), Rule(SpeedMetersPerSecond, Within(0.0, 1_000.0)),
     Rule(BearingDegrees, Within(0.0, 360.0))]
  }

  function CellRules(technology: Technology): seq<Rule<int>> {
    match technology
    case Gsm =>
      [Rule(Lac, AreaCode16Bits()), Rule(Cid, Between(0, 65_535)), Rule(Arfcn, Between(0, 1_023)),
       Rule(Bsic, Between(0, 63))]
    case Umts =>
      [Rule(Lac, AreaCode16Bits()), Rule(LongCid, CellId28Bits()), Rule(Uarfcn, Between(0, 16_383)),
       Rule(Psc, Between(0, 511))]
    case Lte =>
      [Rule(Eci, CellId28Bits()), Rule(Tac, AreaCode16Bits()), Rule(Earfcn, LteEarfcn()),
       Rule(Pci, Between(0, 503)), Rule(BandwidthKhz, LteBandwidthKhz()), Rule(UlEarfcn, LteEarfcn()),
       Rule(UlBandwidthKhz, LteBandwidthKhz())]
    case Nr =>
      [Rule(Nci, Between(0, 68_719_476_735)), Rule(Tac, Between(0, 16_777_215)), Rule(Arfcn, NrArfcn()),
       Rule(Pci, Between(0, 1_007)), Rule(BandwidthKhz, NrBandwidthKhz()), Rule(UlArfcn, NrArfcn()),
       Rule(UlBandwidthKhz, NrBandwidthKhz())]
  }

  predicate IsBand(technology: Technology, band: int) {
    match technology
    case Gsm => 1 <= band <= 14
    case Umts => 1 <= band <= 106
    case Lte => 1 <= band <= 255
    case Nr => 1 <= band <= 1_024
  }

  function SignalRules(technology: Technology): seq<Rule<int>> {
    match technology
    case Gsm =>
      [Rule(RssiDbm, Between(-113, -51)), Rule(BitErrorRate, Between(0, 7)),
       Rule(TimingAdvance, Between(0, 219))]
    case Umts =>
      [Rule(RscpDbm, Between(-120, -24)), Rule(EcNoDb, Between(-24, 1)), Rule(RssiDbm, Between(-113, -51))]
    case Lte =>
      [Rule(RsrpDbm, Between(-140, -43)), Rule(RsrqDb, Between(-34, 3)), Rule(RssnrDb, Between(-20, 30)),
       Rule(RssiDbm, Between(-113, -51)), Rule(Cqi, Between(0, 15)), Rule(TimingAdvance, Between(0, 1_282))]
    case Nr =>
      [Rule(SsRsrpDbm, Between(-156, -31)), Rule(SsRsrqDb, Between(-43, 20)),
       Rule(SsSinrDb, Between(-23, 40)), Rule(CsiRsrpDbm, Between(-156, -31)),
       Rule(CsiRsrqDb, Between(-20, -3)), Rule(CsiSinrDb, Between(-23, 23)),
       Rule(TimingAdvance, Between(0, 3_846)),
       Rule(SubcarrierSpacingKhz, OneOf([15, 30, 60, 120, 240, 480, 960])), Rule(SsbIndex, Between(0, 63))]
  }

  const SIGNAL_FIELDS: seq<ValueField> :=
    [RsrpDbm, RsrqDb, RssnrDb, RssiDbm, Cqi, SsRsrpDbm, SsRsrqDb, SsSinrDb, CsiRsrpDbm, CsiRsrqDb, CsiSinrDb,
     SubcarrierSpacingKhz, SsbIndex, RscpDbm, EcNoDb, BitErrorRate, TimingAdvance]

  /** The first rule of the field, as `find` gives it. */
  function RuleOf<T>(rules: seq<Rule<T>>, field: ValueField): Option<T -> bool> {
    if rules == [] then None
    else if rules[0].field == field then Some(rules[0].admits)
    else RuleOf(rules[1..], field)
  }

  function FieldsOf<T>(rules: seq<Rule<T>>): (fields: seq<ValueField>)
    ensures |fields| == |rules| && forall k | 0 <= k < |rules| :: fields[k] == rules[k].field
  {
    seq(|rules|, k requires 0 <= k < |rules| => rules[k].field)
  }

  // The sanitised records

  predicate IsAdmitted<T>(rules: seq<Rule<T>>, field: ValueField, value: T) {
    RuleOf(rules, field).Some? && RuleOf(rules, field).value(value)
  }

  /** What is left once the given fields are checked: a value that its field's rule admits, or one not looked at. */
  function Admitted<T>(values: Values<T>, fields: set<ValueField>, rules: seq<Rule<T>>): Values<T> {
    map field | field in values && (field in fields ==> IsAdmitted(rules, field, values[field])) :: values[field]
  }

  function Refused<T>(values: Values<T>, fields: set<ValueField>, rules: seq<Rule<T>>, field: ValueField): nat {
    if field in values && field in fields && !IsAdmitted(rules, field, values[field]) then 1 else 0
  }

  function Elements(fields: seq<ValueField>): set<ValueField> {
    set k | 0 <= k < |fields| :: fields[k]
  }

  predicate IsPlaced(fix: Fix) {
    IsLatitude(fix.latitude) && IsLongitude(fix.longitude)
  }

  function SanitisedFix(fix: Fix): Fix {
    fix.(values := Admitted(fix.values, Elements(FieldsOf(FixRules())), FixRules()))
  }

  function SanitisedFixes(fixes: seq<Fix>): seq<Fix> {
    if fixes == [] then []
    else
      var last := fixes[|fixes| - 1];
      SanitisedFixes(fixes[..|fixes| - 1]) + if IsPlaced(last) then [SanitisedFix(last)] else []
  }

  function BandsWithin(technology: Technology, bands: seq<int>): seq<int> {
    if bands == [] then []
    else
      var last := bands[|bands| - 1];
      BandsWithin(technology, bands[..|bands| - 1]) + if IsBand(technology, last) then [last] else []
  }

  function SanitisedCell(cell: Cell): Cell {
    var rules := CellRules(cell.technology);
    Cell(cell.technology, Admitted(cell.values, Elements(FieldsOf(rules)), rules),
         match cell.bands case None => None case Some(bands) => Some(BandsWithin(cell.technology, bands)))
  }

  function SanitisedCells(cells: seq<Cell>): (sanitised: seq<Cell>)
    ensures |sanitised| == |cells| && forall k | 0 <= k < |cells| :: sanitised[k] == SanitisedCell(cells[k])
  {
    seq(|cells|, k requires 0 <= k < |cells| => SanitisedCell(cells[k]))
  }

  function SanitisedMeasurement(measurement: Measurement, technology: Technology): Measurement {
    measurement.(values := Admitted(measurement.values, Elements(SIGNAL_FIELDS), SignalRules(technology)))
  }

  /** The technology of the cell a measurement points at. */
  function TechnologyOf(technologies: seq<Technology>, cell: nat): Technology {
    if cell < |technologies| then technologies[cell] else Gsm
  }

  function SanitisedMeasurements(measurements: seq<Measurement>,
        technologies: seq<Technology>): (sanitised: seq<Measurement>)
    ensures |sanitised| == |measurements|
    ensures forall k | 0 <= k < |measurements| ::
              sanitised[k] == SanitisedMeasurement(measurements[k], TechnologyOf(technologies, measurements[k].cell))
  {
    seq(|measurements|, k requires 0 <= k < |measurements| =>
      SanitisedMeasurement(measurements[k], TechnologyOf(technologies, measurements[k].cell)))
  }

  function SanitisedSnapshots(snapshots: seq<Snapshot>, technologies: seq<Technology>): (sanitised: seq<Snapshot>)
    ensures |sanitised| == |snapshots|
    ensures forall k | 0 <= k < |snapshots| ::
              sanitised[k] == snapshots[k].(measurements := SanitisedMeasurements(snapshots[k].measurements,
                  technologies))
  {
    seq(|snapshots|, k requires 0 <= k < |snapshots| =>
      snapshots[k].(measurements := SanitisedMeasurements(snapshots[k].measurements, technologies)))
  }

  function TechnologiesOf(cells: seq<Cell>): (technologies: seq<Technology>)
    ensures |technologies| == |cells| && forall k | 0 <= k < |cells| :: technologies[k] == cells[k].technology
  {
    seq(|cells|, k requires 0 <= k < |cells| => cells[k].technology)
  }

  function Sanitised(d: Document): Document {
    Document(d.readers, SanitisedFixes(d.fixes), SanitisedCells(d.cells),
        SanitisedSnapshots(d.snapshots, TechnologiesOf(d.cells)))
  }

  // The counts

  function DroppedByFix(fix: Fix, field: ValueField): nat {
    if IsPlaced(fix) then Refused(fix.values, Elements(FieldsOf(FixRules())), FixRules(), field)
    else if (field == Latitude && !IsLatitude(fix.latitude)) || (field == Longitude && !IsLongitude(fix.longitude))
        then 1
    else 0
  }

  function DroppedByFixes(fixes: seq<Fix>, field: ValueField): nat {
    if fixes == [] then 0 else DroppedByFixes(fixes[..|fixes| - 1], field) + DroppedByFix(fixes[|fixes| - 1], field)
  }

  function BandsOutside(technology: Technology, bands: seq<int>): nat {
    if bands == [] then 0
    else BandsOutside(technology, bands[..|bands| - 1]) + if IsBand(technology, bands[|bands| - 1]) then 0 else 1
  }

  function DroppedByCell(cell: Cell, field: ValueField): nat {
    var rules := CellRules(cell.technology);
    Refused(cell.values, Elements(FieldsOf(rules)), rules, field)
    + if field == Bands && cell.bands.Some? then BandsOutside(cell.technology, cell.bands.value) else 0
  }

  function DroppedByCells(cells: seq<Cell>, field: ValueField): nat {
    if cells == [] then 0 else DroppedByCells(cells[..|cells| - 1], field) + DroppedByCell(cells[|cells| - 1], field)
  }

  function DroppedByMeasurement(measurement: Measurement, technology: Technology, field: ValueField): nat {
    Refused(measurement.values, Elements(SIGNAL_FIELDS), SignalRules(technology), field)
  }

  function DroppedByMeasurements(measurements: seq<Measurement>, technologies: seq<Technology>,
        field: ValueField): nat
  {
    if measurements == [] then 0
    else
      var last := measurements[|measurements| - 1];
      DroppedByMeasurements(measurements[..|measurements| - 1], technologies, field)
      + DroppedByMeasurement(last, TechnologyOf(technologies, last.cell), field)
  }

  function DroppedBySnapshots(snapshots: seq<Snapshot>, technologies: seq<Technology>, field: ValueField): nat {
    if snapshots == [] then 0
    else DroppedBySnapshots(snapshots[..|snapshots| - 1], technologies, field)
         + DroppedByMeasurements(snapshots[|snapshots| - 1].measurements, technologies, field)
  }

  function DroppedBy(d: Document, field: ValueField): nat {
    DroppedByFixes(d.fixes, field) + DroppedByCells(d.cells, field)
        + DroppedBySnapshots(d.snapshots, TechnologiesOf(d.cells), field)
  }

  // No counter overflows

  const MAX_U32: nat := 0xFFFF_FFFF

  lemma {:induction false} FixesFit(fixes: seq<Fix>, field: ValueField)
    ensures DroppedByFixes(fixes, field) <= |fixes|
  {
    if fixes != [] {
      FixesFit(fixes[..|fixes| - 1], field);
    }
  }

  lemma {:induction false} BandsFit(technology: Technology, bands: seq<int>)
    ensures BandsOutside(technology, bands) <= |bands|
  {
    if bands != [] {
      BandsFit(technology, bands[..|bands| - 1]);
    }
  }

  lemma {:induction false} CellsFit(cells: seq<Cell>, field: ValueField)
    requires forall k | 0 <= k < |cells| && cells[k].bands.Some? :: |cells[k].bands.value| <= BANDS_MAX
    ensures DroppedByCells(cells, field) <= 17 * |cells|
  {
    if cells != [] {
      var last := cells[|cells| - 1];
      CellsFit(cells[..|cells| - 1], field);
      if last.bands.Some? {
        BandsFit(last.technology, last.bands.value);
      }
    }
  }

  lemma {:induction false} MeasurementsFit(measurements: seq<Measurement>, technologies: seq<Technology>,
        field: ValueField)
    ensures DroppedByMeasurements(measurements, technologies, field) <= |measurements|
  {
    if measurements != [] {
      MeasurementsFit(measurements[..|measurements| - 1], technologies, field);
    }
  }

  lemma {:induction false} SnapshotsFit(snapshots: seq<Snapshot>, technologies: seq<Technology>, field: ValueField)
    requires forall k | 0 <= k < |snapshots| :: |snapshots[k].measurements| <= MEASUREMENTS_MAX
    ensures DroppedBySnapshots(snapshots, technologies, field) <= MEASUREMENTS_MAX * |snapshots|
  {
    if snapshots != [] {
      var last := snapshots[|snapshots| - 1];
      SnapshotsFit(snapshots[..|snapshots| - 1], technologies, field);
      MeasurementsFit(last.measurements, technologies, field);
    }
  }

  /** No count of an accepted document comes near the width of a counter. */
  lemma {:induction false} CountsFit(d: Document, field: ValueField)
    requires IsAccepted(d)
    ensures DroppedBy(d, field) <= 1_405_000
  {
    AcceptedFits(d);
    FixesFit(d.fixes, field);
    CellsFit(d.cells, field);
    SnapshotsFit(d.snapshots, TechnologiesOf(d.cells), field);
  }

  // In place

  class DroppedValues {
    var counts: map<ValueField, nat>

    constructor ()
      ensures forall field :: Get(field) == 0
    {
      counts := map[];
    }

    function Get(field: ValueField): nat
      reads this
    {
      if field in counts then counts[field] else 0
    }

    /** Adding panics where the counter, of 32 bits, would overflow. */
    method Add(field: ValueField, count: nat)
      requires Get(field) + count <= MAX_U32
      modifies this
      ensures forall other :: Get(other) == old(Get(other)) + if other == field then count else 0
    {
      if count > 0 {
        counts := counts[field := Get(field) + count];
      }
    }
  }

  method Keep<T>(values: Values<T>, field: ValueField, admits: T -> bool, dropped: DroppedValues)
    returns (kept: Values<T>)
    requires field in values ==> dropped.Get(field) < MAX_U32
    modifies dropped
    ensures kept == if field in values && !admits(values[field]) then values - {field} else values
    ensures forall other ::
              dropped.Get(other) == old(dropped.Get(other))
                  + if other == field && field in values && !admits(values[field]) then 1 else 0
  {
    kept := values;
    if field in values && !admits(values[field]) {
      kept := values - {field};
      dropped.Add(field, 1);
    }
  }

  method DropForeign<T>(values: Values<T>, field: ValueField, dropped: DroppedValues) returns (kept: Values<T>)
    requires field in values ==> dropped.Get(field) < MAX_U32
    modifies dropped
    ensures kept == if field in values then values - {field} else values
    ensures forall other ::
              dropped.Get(other) == old(dropped.Get(other))
              + if other == field && field in values then 1 else 0
  {
    kept := values;
    if field in values {
      kept := values - {field};
      dropped.Add(field, 1);
    }
  }

  /** What checking one more field does: it takes the value away and counts it, or leaves both alone. */
  lemma OneMoreField<T>(values: Values<T>, fields: seq<ValueField>, n: nat, rules: seq<Rule<T>>, other: ValueField)
    requires n < |fields|
    ensures var kept, field := Admitted(values, Elements(fields[..n]), rules), fields[n];
            var goes := field in kept && !IsAdmitted(rules, field, kept[field]);
            && Admitted(values, Elements(fields[..n + 1]), rules) == (if goes then kept - {field} else kept)
            && Refused(values, Elements(fields[..n + 1]), rules, other)
               == Refused(values, Elements(fields[..n]), rules, other) + (if other == field && goes then 1 else 0)
            && (field in kept ==> Refused(values, Elements(fields[..n]), rules, field) == 0)
  {
    hide IsAdmitted;
    assert Elements(fields[..n + 1]) == Elements(fields[..n]) + {fields[n]};
  }

  lemma NoFieldYet<T>(values: Values<T>, fields: seq<ValueField>, rules: seq<Rule<T>>, other: ValueField)
    ensures Admitted(values, Elements(fields[..0]), rules) == values
             && Refused(values, Elements(fields[..0]), rules, other) == 0
  {
  }

  /** Checks the fields one by one: against the rule of the field, or dropping the value where there is none. */
  method CheckValues<T>(values: Values<T>, fields: seq<ValueField>, rules: seq<Rule<T>>, dropped: DroppedValues)
    returns (kept: Values<T>)
    requires forall field :: dropped.Get(field) < MAX_U32
    modifies dropped
    ensures kept == Admitted(values, Elements(fields), rules)
    ensures forall field ::
              dropped.Get(field) == old(dropped.Get(field))
              + Refused(values, Elements(fields), rules, field)
  {
    hide Admitted, Refused, RuleOf, Elements, DroppedValues.Get;
    kept := values;
    NoFieldYet(values, fields, rules, Bands);
    forall other ensures Refused(values, Elements(fields[..0]), rules, other) == 0 {
      NoFieldYet(values, fields, rules, other);
    }
    for n := 0 to |fields|
      invariant kept == Admitted(values, Elements(fields[..n]), rules)
      invariant forall other ::
                dropped.Get(other) == old(dropped.Get(other))
                + Refused(values, Elements(fields[..n]), rules, other)
    {
      OneMoreField(values, fields, n, rules, fields[n]);
      forall other
        ensures Refused(values, Elements(fields[..n + 1]), rules, other)
             == Refused(values, Elements(fields[..n]), rules, other)
                + (if other == fields[n] && fields[n] in kept && !IsAdmitted(rules, fields[n], kept[fields[n]])
                    then 1 else 0)
      {
        OneMoreField(values, fields, n, rules, other);
      }
      match RuleOf(rules, fields[n])
      case Some(admits) => kept := Keep(kept, fields[n], admits, dropped);
      case None => kept := DropForeign(kept, fields[n], dropped);
    }
    assert fields[..|fields|] == fields;
  }

  function ToU32(n: nat): nat {
    if n <= MAX_U32 then n else MAX_U32
  }

  lemma {:induction false} BandsAreKeptOrOutside(technology: Technology, bands: seq<int>)
    ensures |BandsWithin(technology, bands)| + BandsOutside(technology, bands) == |bands|
  {
    if bands != [] {
      BandsAreKeptOrOutside(technology, bands[..|bands| - 1]);
    }
  }

  method KeepBands(bands: Option<seq<int>>, technology: Technology, dropped: DroppedValues)
    returns (kept: Option<seq<int>>)
    requires bands.Some? ==> |bands.value| <= BANDS_MAX
    requires dropped.Get(Bands) + BANDS_MAX <= MAX_U32
    modifies dropped
    ensures kept == if bands.Some? then Some(BandsWithin(technology, bands.value)) else None
    ensures forall field ::
              dropped.Get(field) == old(dropped.Get(field))
                  + if field == Bands && bands.Some? then BandsOutside(technology, bands.value) else 0
  {
    if bands == None {
      return None;
    }
    var reported := |bands.value|;
    var retained := BandsWithin(technology, bands.value);
    BandsAreKeptOrOutside(technology, bands.value);
    dropped.Add(Bands, ToU32(reported - |retained|));
    return Some(retained);
  }

  method KeepFix(fix: Fix, dropped: DroppedValues) returns (kept: Option<Fix>)
    requires forall field :: dropped.Get(field) < MAX_U32
    modifies dropped
    ensures kept == if IsPlaced(fix) then Some(SanitisedFix(fix)) else None
    ensures forall field :: dropped.Get(field) == old(dropped.Get(field)) + DroppedByFix(fix, field)
  {
    hide Admitted, Refused, Elements, FixRules, FieldsOf, DroppedValues.Get;
    var latitudeInRange := IsLatitude(fix.latitude);
    var longitudeInRange := IsLongitude(fix.longitude);
    if !(latitudeInRange && longitudeInRange) {
      dropped.Add(Latitude, if latitudeInRange then 0 else 1);
      dropped.Add(Longitude, if longitudeInRange then 0 else 1);
      return None;
    }
    var values := CheckValues(fix.values, FieldsOf(FixRules()), FixRules(), dropped);
    return Some(fix.(values := values));
  }

  method CheckCell(cell: Cell, dropped: DroppedValues) returns (checked: Cell)
    requires cell.bands.Some? ==> |cell.bands.value| <= BANDS_MAX
    requires forall field :: dropped.Get(field) + 1 + BANDS_MAX <= MAX_U32
    modifies dropped
    ensures checked == SanitisedCell(cell)
    ensures forall field :: dropped.Get(field) == old(dropped.Get(field)) + DroppedByCell(cell, field)
  {
    hide Admitted, Elements, CellRules, FieldsOf, DroppedValues.Get, RuleOf, BandsOutside, BandsWithin;
    var rules := CellRules(cell.technology);
    var values := CheckValues(cell.values, FieldsOf(rules), rules, dropped);
    var bands := KeepBands(cell.bands, cell.technology, dropped);
    return Cell(cell.technology, values, bands);
  }

  method CheckSignal(measurement: Measurement, technology: Technology, dropped: DroppedValues)
    returns (checked: Measurement)
    requires forall field :: dropped.Get(field) < MAX_U32
    modifies dropped
    ensures checked == SanitisedMeasurement(measurement, technology)
    ensures forall field ::
              dropped.Get(field) == old(dropped.Get(field))
              + DroppedByMeasurement(measurement, technology, field)
  {
    hide Admitted, Refused, Elements, SignalRules, DroppedValues.Get;
    var values := CheckValues(measurement.values, SIGNAL_FIELDS, SignalRules(technology), dropped);
    return measurement.(values := values);
  }

  method CheckMeasurements(measurements: seq<Measurement>, technologies: seq<Technology>, dropped: DroppedValues)
    returns (checked: seq<Measurement>)
    requires forall k | 0 <= k < |measurements| :: measurements[k].cell < |technologies|
    requires forall field :: dropped.Get(field) + |measurements| <= MAX_U32
    modifies dropped
    ensures checked == SanitisedMeasurements(measurements, technologies)
    ensures forall field ::
              dropped.Get(field) == old(dropped.Get(field))
              + DroppedByMeasurements(measurements, technologies, field)
  {
    hide SanitisedMeasurement, DroppedByMeasurement, DroppedValues.Get, SanitisedMeasurements;
    checked := [];
    for n := 0 to |measurements|
      invariant |checked| == n
      invariant forall k | 0 <= k < n ::
                checked[k] == SanitisedMeasurement(measurements[k], technologies[measurements[k].cell])
      invariant forall field ::
                dropped.Get(field) == old(dropped.Get(field))
                + DroppedByMeasurements(measurements[..n], technologies, field)
    {
      assert measurements[..n + 1][..n] == measurements[..n];
      forall field ensures dropped.Get(field) < MAX_U32 {
        MeasurementsFit(measurements[..n], technologies, field);
      }
      var technology := technologies[measurements[n].cell];
      var one := CheckSignal(measurements[n], technology, dropped);
      checked := checked + [one];
    }
    assert measurements[..|measurements|] == measurements;
  }

  class Batch {
    var readers: nat
    var fixes: seq<Fix>
    var cells: seq<Cell>
    var snapshots: seq<Snapshot>

    function Now(): Document
      reads this
    {
      Document(readers, fixes, cells, snapshots)
    }

    method RetainFixes(dropped: DroppedValues)
      requires |fixes| <= FIXES_MAX && forall field :: dropped.Get(field) == 0
      modifies this`fixes, dropped
      ensures fixes == SanitisedFixes(old(fixes))
      ensures forall field :: dropped.Get(field) == DroppedByFixes(old(fixes), field)
    {
      hide SanitisedFix, DroppedByFix, IsPlaced, DroppedValues.Get;
      var kept := [];
      for n := 0 to |fixes|
        invariant fixes == old(fixes) && kept == SanitisedFixes(fixes[..n])
        invariant forall field :: dropped.Get(field) == DroppedByFixes(fixes[..n], field)
      {
        assert fixes[..n + 1][..n] == fixes[..n];
        forall field ensures dropped.Get(field) < MAX_U32 {
          FixesFit(fixes[..n], field);
        }
        var fix := KeepFix(fixes[n], dropped);
        if fix.Some? {
          kept := kept + [fix.value];
        }
      }
      assert fixes[..|fixes|] == fixes;
      fixes := kept;
    }

    method CheckCells(dropped: DroppedValues)
      requires |cells| <= CELLS_MAX && forall field :: dropped.Get(field) <= FIXES_MAX
      requires forall k | 0 <= k < |cells| && cells[k].bands.Some? :: |cells[k].bands.value| <= BANDS_MAX
      modifies this`cells, dropped
      ensures cells == SanitisedCells(old(cells))
      ensures forall field :: dropped.Get(field) == old(dropped.Get(field)) + DroppedByCells(old(cells), field)
    {
      hide SanitisedCell, DroppedByCell, SanitisedCells, DroppedValues.Get;
      for n := 0 to |cells|
        invariant |cells| == |old(cells)|
        invariant forall k | 0 <= k < |cells| ::
                  cells[k] == if k < n then SanitisedCell(old(cells)[k]) else old(cells)[k]
        invariant forall field :: dropped.Get(field) == old(dropped.Get(field)) + DroppedByCells(old(cells)[..n], field)
      {
        assert old(cells)[..n + 1][..n] == old(cells)[..n];
        forall field ensures dropped.Get(field) + 1 + BANDS_MAX <= MAX_U32 {
          CellsFit(old(cells)[..n], field);
        }
        var cell := CheckCell(cells[n], dropped);
        cells := cells[n := cell];
      }
      assert old(cells)[..|cells|] == old(cells);
    }

    method CheckSnapshots(technologies: seq<Technology>, dropped: DroppedValues)
      requires |snapshots| <= SNAPSHOTS_MAX && forall field :: dropped.Get(field) <= FIXES_MAX + 17 * CELLS_MAX
      requires forall k | 0 <= k < |snapshots| :: |snapshots[k].measurements| <= MEASUREMENTS_MAX
      requires forall k, m | 0 <= k < |snapshots| && 0 <= m < |snapshots[k].measurements| ::
               snapshots[k].measurements[m].cell < |technologies|
      modifies this`snapshots, dropped
      ensures snapshots == SanitisedSnapshots(old(snapshots), technologies)
      ensures forall field ::
                dropped.Get(field) == old(dropped.Get(field))
                + DroppedBySnapshots(old(snapshots), technologies, field)
    {
      hide SanitisedMeasurements, DroppedByMeasurements, SanitisedSnapshots, DroppedValues.Get;
      for n := 0 to |snapshots|
        invariant |snapshots| == |old(snapshots)|
        invariant forall k | 0 <= k < |snapshots| ::
                    snapshots[k] ==
                    if k < n
                    then old(snapshots)[k].(
                      measurements := SanitisedMeasurements(old(snapshots)[k].measurements, technologies))
                    else old(snapshots)[k]
        invariant forall field ::
                  dropped.Get(field) == old(dropped.Get(field))
                  + DroppedBySnapshots(old(snapshots)[..n], technologies, field)
      {
        assert old(snapshots)[..n + 1][..n] == old(snapshots)[..n];
        forall field ensures dropped.Get(field) + MEASUREMENTS_MAX <= MAX_U32 {
          SnapshotsFit(old(snapshots)[..n], technologies, field);
        }
        var measurements := CheckMeasurements(snapshots[n].measurements, technologies, dropped);
        snapshots := snapshots[n := snapshots[n].(measurements := measurements)];
      }
      assert old(snapshots)[..|snapshots|] == old(snapshots);
    }

    /** The whole pass, on a batch that the structural checks have accepted. */
    method DropOutOfRange() returns (dropped: DroppedValues)
      requires IsAccepted(Now())
      modifies this
      ensures Now() == Sanitised(old(Now()))
      ensures fresh(dropped) && forall field :: dropped.Get(field) == DroppedBy(old(Now()), field)
    {
      hide IsAccepted, SanitisedFixes, SanitisedCells, SanitisedSnapshots, DroppedByFixes, DroppedByCells,
          DroppedBySnapshots, DroppedValues.Get;
      AcceptedFits(Now());
      dropped := new DroppedValues();
      RetainFixes(dropped);
      forall field ensures dropped.Get(field) <= FIXES_MAX {
        FixesFit(old(fixes), field);
      }
      CheckCells(dropped);
      forall field ensures dropped.Get(field) <= FIXES_MAX + 17 * CELLS_MAX {
        FixesFit(old(fixes), field);
        CellsFit(old(cells), field);
      }
      var technologies := TechnologiesOf(cells);
      assert technologies == TechnologiesOf(old(cells)) by {
        TechnologiesStay(old(cells));
      }
      CheckSnapshots(technologies, dropped);
    }
  }

  lemma TechnologiesStay(cells: seq<Cell>)
    ensures TechnologiesOf(SanitisedCells(cells)) == TechnologiesOf(cells)
  {
  }
}
