/** What the sanitiser reads of an uploaded batch, and the structural checks of structure.rs on it. */
module BatchDocument {
  import opened Options

  datatype ValueField =
    | Latitude | Longitude | AltitudeMeters | SpeedMetersPerSecond | BearingDegrees
    | Lac | Cid | LongCid | Eci | Nci | Tac | Arfcn | Uarfcn | Earfcn | Bsic | Psc | Pci
    | BandwidthKhz | UlArfcn | UlEarfcn | UlBandwidthKhz | Bands
    | RsrpDbm | RsrqDb | RssnrDb | RssiDbm | Cqi
    | SsRsrpDbm | SsRsrqDb | SsSinrDb | CsiRsrpDbm | CsiRsrqDb | CsiSinrDb
    | SubcarrierSpacingKhz | SsbIndex | RscpDbm | EcNoDb | BitErrorRate | TimingAdvance

  datatype Technology = Gsm | Umts | Lte | Nr

  /** The optional numbers of a record: those that are present, by field. */
  type Values<T> = map<ValueField, T>

  datatype Fix = Fix(t: nat, latitude: real, longitude: real, accuracies: seq<real>, values: Values<real>)

  datatype Cell = Cell(technology: Technology, values: Values<int>, bands: Option<seq<int>>)

  datatype Measurement = Measurement(cell: nat, values: Values<int>)

  datatype Snapshot = Snapshot(t: nat, reader: nat, measurements: seq<Measurement>)

  datatype Document = Document(readers: nat, fixes: seq<Fix>, cells: seq<Cell>, snapshots: seq<Snapshot>)

  datatype Rejection = LimitExceeded | InvalidDocument

  const CELLS_MAX := 5_000
  const FIXES_MAX := 40_000
  const SNAPSHOTS_MAX := 20_000
  const SPAN_MILLIS := 24 * 60 * 60 * 1000
  const READERS_MAX := 16
  const BANDS_MAX := 16
  const MEASUREMENTS_MAX := 64
  const MAX_U64: nat := 0xFFFF_FFFF_FFFF_FFFF

  // The checks

  function TimesOf(d: Document): seq<nat> {
    seq(|d.fixes|, k requires 0 <= k < |d.fixes| => d.fixes[k].t)
    + seq(|d.snapshots|, k requires 0 <= k < |d.snapshots| => d.snapshots[k].t)
  }

  function Earliest(times: seq<nat>): nat {
    if times == [] then MAX_U64
    else
      var earlier := Earliest(times[..|times| - 1]);
      if times[|times| - 1] < earlier then times[|times| - 1] else earlier
  }

  function Latest(times: seq<nat>): nat {
    if times == [] then 0
    else
      var later := Latest(times[..|times| - 1]);
      if times[|times| - 1] > later then times[|times| - 1] else later
  }

  function Span(times: seq<nat>): nat {
    if Latest(times) < Earliest(times) then 0 else Latest(times) - Earliest(times)
  }

  predicate IsBandList(bands: Option<seq<int>>) {
    bands.Some? ==> |bands.value| <= BANDS_MAX && forall k | 0 <= k < |bands.value| :: bands.value[k] > 0
  }

  predicate IsCellAccepted(cell: Cell) {
    && (cell.technology == Lte || cell.technology == Nr ==>
          forall field | field in {BandwidthKhz, UlBandwidthKhz} && field in cell.values :: cell.values[field] > 0)
    && IsBandList(cell.bands)
  }

  predicate IsFixAccepted(fix: Fix) {
    forall k | 0 <= k < |fix.accuracies| :: fix.accuracies[k] >= 0.0
  }

  predicate IsSnapshotAccepted(snapshot: Snapshot, readers: nat, cells: nat) {
    && snapshot.reader < readers
    && |snapshot.measurements| <= MEASUREMENTS_MAX
    && forall k | 0 <= k < |snapshot.measurements| :: snapshot.measurements[k].cell < cells
  }

  function CheckLimits(d: Document): Option<Rejection> {
    if |d.cells| > CELLS_MAX || |d.fixes| > FIXES_MAX || |d.snapshots| > SNAPSHOTS_MAX then Some(LimitExceeded)
    else if Span(TimesOf(d)) > SPAN_MILLIS then Some(LimitExceeded)
    else None
  }

  function CheckDocument(d: Document): Option<Rejection> {
    if !(1 <= d.readers <= READERS_MAX) then Some(InvalidDocument)
    else if exists k | 0 <= k < |d.cells| :: !IsCellAccepted(d.cells[k]) then Some(InvalidDocument)
    else if exists k | 0 <= k < |d.fixes| :: !IsFixAccepted(d.fixes[k]) then Some(InvalidDocument)
    else if exists k | 0 <= k < |d.snapshots| :: !IsSnapshotAccepted(d.snapshots[k], d.readers, |d.cells|)
        then Some(InvalidDocument)
    else None
  }

  predicate IsAccepted(d: Document) {
    CheckLimits(d) == None && CheckDocument(d) == None
  }

  // What they promise the sanitiser

  /** Every measurement points at a cell. */
  ghost predicate PointsAtCells(d: Document) {
    forall k, m | 0 <= k < |d.snapshots| && 0 <= m < |d.snapshots[k].measurements| ::
        d.snapshots[k].measurements[m].cell < |d.cells|
  }

  ghost predicate IsBounded(d: Document) {
    && |d.fixes| <= FIXES_MAX && |d.cells| <= CELLS_MAX && |d.snapshots| <= SNAPSHOTS_MAX
    && (forall k | 0 <= k < |d.cells| && d.cells[k].bands.Some? :: |d.cells[k].bands.value| <= BANDS_MAX)
    && forall k | 0 <= k < |d.snapshots| :: |d.snapshots[k].measurements| <= MEASUREMENTS_MAX
  }

  lemma AcceptedFits(d: Document)
    requires IsAccepted(d)
    ensures IsBounded(d) && PointsAtCells(d)
  {
    hide Span, TimesOf;
    assert forall k | 0 <= k < |d.cells| :: IsCellAccepted(d.cells[k]);
    assert forall k | 0 <= k < |d.snapshots| :: IsSnapshotAccepted(d.snapshots[k], d.readers, |d.cells|);
  }

  lemma {:induction false} EarliestAndLatest(times: seq<nat>)
    requires forall k | 0 <= k < |times| :: times[k] <= MAX_U64
    ensures forall k | 0 <= k < |times| :: Earliest(times) <= times[k] <= Latest(times)
    ensures times != [] ==> Earliest(times) in times && Latest(times) in times
  {
    if times != [] {
      EarliestAndLatest(times[..|times| - 1]);
      assert times[|times| - 1] in times;
      assert times[..|times| - 1] != []
          ==> Earliest(times[..|times| - 1]) in times && Latest(times[..|times| - 1]) in times;
    }
  }

  /** The fold accepts exactly the documents of which no two times lie further apart than the span. */
  lemma {:induction false} SpanIsLargestDistance(times: seq<nat>, bound: nat)
    requires forall k | 0 <= k < |times| :: times[k] <= MAX_U64
    ensures Span(times) <= bound <==> forall j, k | 0 <= j < |times| && 0 <= k < |times| :: times[k] - times[j] <= bound
  {
    EarliestAndLatest(times);
    if times != [] {
      var j :| 0 <= j < |times| && times[j] == Earliest(times);
      var k :| 0 <= k < |times| && times[k] == Latest(times);
      hide Earliest, Latest;
      assert times[k] - times[j] == Span(times);
    }
  }

  /** No two times lie further apart than the span. */
  ghost predicate IsWithinSpan(times: seq<nat>) {
    forall j, k | 0 <= j < |times| && 0 <= k < |times| :: times[k] - times[j] <= SPAN_MILLIS
  }

  ghost predicate IsPositive(cell: Cell) {
    && (cell.bands.Some? ==> forall band | band in cell.bands.value :: band > 0)
    && (cell.technology == Lte || cell.technology == Nr ==>
          && (BandwidthKhz in cell.values ==> cell.values[BandwidthKhz] > 0)
          && (UlBandwidthKhz in cell.values ==> cell.values[UlBandwidthKhz] > 0))
  }

  ghost predicate HasPositiveNumbers(d: Document) {
    && (forall k | 0 <= k < |d.cells| :: IsPositive(d.cells[k]))
    && (forall k | 0 <= k < |d.fixes| :: forall accuracy | accuracy in d.fixes[k].accuracies :: accuracy >= 0.0)
  }

  ghost predicate PointsAtReaders(d: Document) {
    1 <= d.readers <= READERS_MAX && forall k | 0 <= k < |d.snapshots| :: d.snapshots[k].reader < d.readers
  }

  lemma CellIsAccepted(cell: Cell)
    ensures IsCellAccepted(cell) <==> IsPositive(cell) && (cell.bands.Some? ==> |cell.bands.value| <= BANDS_MAX)
  {
    assert cell.bands.Some? ==> forall k | 0 <= k < |cell.bands.value| :: cell.bands.value[k] in cell.bands.value;
  }

  lemma FixIsAccepted(fix: Fix)
    ensures IsFixAccepted(fix) <==> forall accuracy | accuracy in fix.accuracies :: accuracy >= 0.0
  {
    assert forall k | 0 <= k < |fix.accuracies| :: fix.accuracies[k] in fix.accuracies;
  }

  /**
    The checks accept exactly the documents within all limits, with positive numbers and every index inside its list.
  */
  lemma {:induction false} AcceptedIsBounded(d: Document)
    requires forall k | 0 <= k < |TimesOf(d)| :: TimesOf(d)[k] <= MAX_U64
    ensures IsAccepted(d)
       <==> IsBounded(d) && PointsAtCells(d) && PointsAtReaders(d) && HasPositiveNumbers(d) && IsWithinSpan(TimesOf(d))
  {
    SpanIsLargestDistance(TimesOf(d), SPAN_MILLIS);
    forall k | 0 <= k < |d.cells|
      ensures IsCellAccepted(d.cells[k])
         <==> IsPositive(d.cells[k]) && (d.cells[k].bands.Some? ==> |d.cells[k].bands.value| <= BANDS_MAX)
    {
      CellIsAccepted(d.cells[k]);
    }
    hide Span, TimesOf, IsCellAccepted, IsPositive;
    forall k | 0 <= k < |d.fixes|
      ensures IsFixAccepted(d.fixes[k]) <==> forall accuracy | accuracy in d.fixes[k].accuracies :: accuracy >= 0.0
    {
      FixIsAccepted(d.fixes[k]);
    }
  }
}
