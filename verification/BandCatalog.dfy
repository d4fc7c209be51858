/** The channel numbers of bandCatalog.ts: the frequency of one channel, and the ranges a band has. */
module BandCatalog {
  import opened Options
  import Sequences

  datatype Rat = Gsm | Umts | Lte | Nr

  datatype ChannelBlock = Span(first: int, last: int, offsetKhz: int) | Listed(list: seq<int>, offsetKhz: int)

  datatype KhzRange = KhzRange(low: int, high: int)

  /** What the channel functions read of a band of the catalogue. */
  datatype Band = Band(code: string, rat: Rat, downlinkKhz: Option<KhzRange>, channels: seq<ChannelBlock>)

  datatype ChannelRange = ChannelRange(first: int, last: int)

  /** One row of the global raster: section 5.4.2.1 of 3GPP TS 38.104. */
  datatype Raster = Raster(first: int, last: int, referenceKhz: int, referenceChannel: int, stepKhz: int)

  const BELOW_3_GHZ := Raster(0, 599_999, 0, 0, 5)
  const BELOW_24_GHZ := Raster(600_000, 2_016_666, 3_000_000, 600_000, 15)
  const ABOVE_24_GHZ := Raster(2_016_667, 3_279_165, 24_250_080, 2_016_667, 60)
  const NR_RASTERS := [BELOW_3_GHZ, BELOW_24_GHZ, ABOVE_24_GHZ]

  function ChannelStepKhz(rat: Rat): int {
    if rat == Lte then 100 else 200
  }

  // The frequency of one channel

  function FrequencyOn(raster: Raster, channel: int): int {
    raster.referenceKhz + raster.stepKhz * (channel - raster.referenceChannel)
  }

  function FirstRaster(rasters: seq<Raster>, channel: int): Option<Raster> {
    if rasters == [] then None
    else if rasters[0].first <= channel <= rasters[0].last then Some(rasters[0])
    else FirstRaster(rasters[1..], channel)
  }

  function NrChannelKhz(channel: int): Option<int> {
    match FirstRaster(NR_RASTERS, channel)
    case None => None
    case Some(raster) => Some(FrequencyOn(raster, channel))
  }

  predicate Holds(block: ChannelBlock, channel: int) {
    match block
    case Span(first, last, _) => first <= channel <= last
    case Listed(list, _) => channel in list
  }

  function BlockKhz(blocks: seq<ChannelBlock>, stepKhz: int, channel: int): Option<int> {
    if blocks == [] then None
    else if Holds(blocks[0], channel) then Some(blocks[0].offsetKhz + stepKhz * channel)
    else BlockKhz(blocks[1..], stepKhz, channel)
  }

  function ChannelKhz(band: Band, channel: int): Option<int> {
    if band.rat != Nr then BlockKhz(band.channels, ChannelStepKhz(band.rat), channel)
    else
      match (NrChannelKhz(channel), band.downlinkKhz)
      case (Some(frequency), Some(downlink)) => if downlink.low <= frequency <= downlink.high
          then Some(frequency) else None
      case _ => None
  }

  method FindChannelKhz(band: Band, channel: int) returns (khz: Option<int>)
    ensures khz == ChannelKhz(band, channel)
  {
    if band.rat == Nr {
      var frequency := NrChannelKhz(channel);
      if frequency == None || band.downlinkKhz == None {
        return None;
      }
      var downlink := band.downlinkKhz.value;
      return if frequency.value >= downlink.low && frequency.value <= downlink.high then frequency else None;
    }
    var stepKhz := ChannelStepKhz(band.rat);
    for n := 0 to |band.channels|
      invariant ChannelKhz(band, channel) == BlockKhz(band.channels[n..], stepKhz, channel)
    {
      if Holds(band.channels[n], channel) {
        return Some(band.channels[n].offsetKhz + stepKhz * channel);
      }
    }
    return None;
  }

  // The ranges

  function Max(a: int, b: int): int {
    if a < b then b else a
  }

  function Min(a: int, b: int): int {
    if a < b then a else b
  }

  function Floor(a: int, step: int): int
    requires step > 0
  {
    a / step
  }

  function Ceil(a: int, step: int): int
    requires step > 0
  {
    -(-a / step)
  }

  function RangeOnRaster(raster: Raster, downlink: KhzRange): seq<ChannelRange>
    requires raster.stepKhz > 0
  {
    var from := Max(raster.first, raster.referenceChannel + Ceil(downlink.low - raster.referenceKhz, raster.stepKhz));
    var to := Min(raster.last, raster.referenceChannel + Floor(downlink.high - raster.referenceKhz, raster.stepKhz));
    if from <= to then [ChannelRange(from, to)] else []
  }

  function RangesOnRasters(rasters: seq<Raster>, downlink: KhzRange): seq<ChannelRange>
    requires forall n | 0 <= n < |rasters| :: rasters[n].stepKhz > 0
  {
    if rasters == [] then [] else RangeOnRaster(rasters[0], downlink) + RangesOnRasters(rasters[1..], downlink)
  }

  function RangesOfBlock(block: ChannelBlock): seq<ChannelRange> {
    match block
    case Span(first, last, _) => [ChannelRange(first, last)]
    case Listed(list, _) => seq(|list|, n requires 0 <= n < |list| => ChannelRange(list[n], list[n]))
  }

  function RangesOfBlocks(blocks: seq<ChannelBlock>): seq<ChannelRange> {
    if blocks == [] then [] else RangesOfBlock(blocks[0]) + RangesOfBlocks(blocks[1..])
  }

  function ChannelRanges(band: Band): seq<ChannelRange> {
    if band.rat != Nr then RangesOfBlocks(band.channels)
    else if band.downlinkKhz == None then []
    else RangesOnRasters(NR_RASTERS, band.downlinkKhz.value)
  }

  function BandsForChannel(catalog: seq<Band>, rat: Rat, channel: int): seq<Band> {
    if catalog == [] then []
    else (if catalog[0].rat == rat && ChannelKhz(catalog[0], channel) != None then [catalog[0]] else [])
         + BandsForChannel(catalog[1..], rat, channel)
  }

  // The two agree

  ghost predicate IsIn(channel: int, ranges: seq<ChannelRange>) {
    exists n | 0 <= n < |ranges| :: ranges[n].first <= channel <= ranges[n].last
  }

  lemma IsInEither(channel: int, a: seq<ChannelRange>, b: seq<ChannelRange>)
    ensures IsIn(channel, a + b) <==> IsIn(channel, a) || IsIn(channel, b)
  {
    if IsIn(channel, a) {
      var n :| 0 <= n < |a| && a[n].first <= channel <= a[n].last;
      assert (a + b)[n] == a[n];
    }
    if IsIn(channel, b) {
      var n :| 0 <= n < |b| && b[n].first <= channel <= b[n].last;
      assert (a + b)[|a| + n] == b[n];
    }
  }

  lemma BlockRangesHoldIt(block: ChannelBlock, channel: int)
    ensures IsIn(channel, RangesOfBlock(block)) <==> Holds(block, channel)
  {
    match block
    case Span(first, last, _) =>
      assert RangesOfBlock(block)[0] == ChannelRange(first, last);
    case Listed(list, _) =>
      if channel in list {
        var n :| 0 <= n < |list| && list[n] == channel;
        assert RangesOfBlock(block)[n] == ChannelRange(channel, channel);
      }
  }

  lemma {:induction false} BlocksAgree(blocks: seq<ChannelBlock>, stepKhz: int, channel: int)
    ensures IsIn(channel, RangesOfBlocks(blocks)) <==> BlockKhz(blocks, stepKhz, channel).Some?
  {
    if blocks != [] {
      BlocksAgree(blocks[1..], stepKhz, channel);
      BlockRangesHoldIt(blocks[0], channel);
      IsInEither(channel, RangesOfBlock(blocks[0]), RangesOfBlocks(blocks[1..]));
    }
  }

  /** The closed form on one raster: the rounded ends of the band hold the channels whose frequency lies in it. */
  lemma {:induction false} RasterAgrees(raster: Raster, downlink: KhzRange, channel: int)
    requires raster.stepKhz > 0
    ensures IsIn(channel, RangeOnRaster(raster, downlink))
       <==> raster.first <= channel <= raster.last && downlink.low <= FrequencyOn(raster, channel) <= downlink.high
  {
    var from := Max(raster.first, raster.referenceChannel + Ceil(downlink.low - raster.referenceKhz, raster.stepKhz));
    var to := Min(raster.last, raster.referenceChannel + Floor(downlink.high - raster.referenceKhz, raster.stepKhz));
    var k := channel - raster.referenceChannel;
    FloorIsGreatest(downlink.high - raster.referenceKhz, raster.stepKhz, k);
    FloorIsGreatest(-(downlink.low - raster.referenceKhz), raster.stepKhz, -k);
    NegatedProduct(raster.stepKhz, k);
    hide Floor;
    assert from <= to ==> RangeOnRaster(raster, downlink)[0] == ChannelRange(from, to);
  }

  lemma FloorIsGreatest(a: int, step: int, k: int)
    requires step > 0
    ensures k <= a / step <==> step * k <= a
  {
    var q := a / step;
    assert step * q <= a < step * (q + 1);
    if k <= q {
      Grows(step, k, q);
    } else {
      Grows(step, q + 1, k);
    }
  }

  lemma Grows(step: int, m: int, n: int)
    requires step > 0 && m <= n
    ensures step * m <= step * n
  {
    assert step * (n - m) >= 0;
  }

  lemma NegatedProduct(step: int, k: int)
    ensures step * -k == -(step * k)
  {
  }

  lemma NrAgrees(downlink: KhzRange, channel: int)
    ensures IsIn(channel, RangesOnRasters(NR_RASTERS, downlink))
       <==> NrChannelKhz(channel).Some? && downlink.low <= NrChannelKhz(channel).value <= downlink.high
  {
    NrRangesAre(downlink);
    NrChannelIsOnItsRaster(channel);
    hide RangeOnRaster, RangesOnRasters, NrChannelKhz, IsIn;
    var a, b, c := RangeOnRaster(BELOW_3_GHZ, downlink), RangeOnRaster(BELOW_24_GHZ, downlink),
        RangeOnRaster(ABOVE_24_GHZ, downlink);
    IsInEither(channel, a, b + c);
    IsInEither(channel, b, c);
    RasterAgrees(BELOW_3_GHZ, downlink, channel);
    RasterAgrees(BELOW_24_GHZ, downlink, channel);
    RasterAgrees(ABOVE_24_GHZ, downlink, channel);
  }

  lemma NrRangesAre(downlink: KhzRange)
    ensures RangesOnRasters(NR_RASTERS, downlink)
         == RangeOnRaster(BELOW_3_GHZ, downlink)
             + (RangeOnRaster(BELOW_24_GHZ, downlink) + RangeOnRaster(ABOVE_24_GHZ, downlink))
  {
    hide RangeOnRaster;
    assert RangesOnRasters([ABOVE_24_GHZ], downlink) == RangeOnRaster(ABOVE_24_GHZ, downlink);
    assert [BELOW_24_GHZ, ABOVE_24_GHZ][1..] == [ABOVE_24_GHZ];
    assert NR_RASTERS[1..] == [BELOW_24_GHZ, ABOVE_24_GHZ];
  }

  lemma NrChannelIsOnItsRaster(channel: int)
    ensures NrChannelKhz(channel)
         == if BELOW_3_GHZ.first <= channel <= BELOW_3_GHZ.last then Some(FrequencyOn(BELOW_3_GHZ, channel))
            else if BELOW_24_GHZ.first <= channel <= BELOW_24_GHZ.last then Some(FrequencyOn(BELOW_24_GHZ, channel))
            else if ABOVE_24_GHZ.first <= channel <= ABOVE_24_GHZ.last then Some(FrequencyOn(ABOVE_24_GHZ, channel))
            else None
  {
    FirstRasterIs(NR_RASTERS, channel);
    FirstRasterIs(NR_RASTERS[1..], channel);
    FirstRasterIs(NR_RASTERS[2..], channel);
    FirstRasterIs(NR_RASTERS[3..], channel);
    assert NR_RASTERS[1..][1..] == NR_RASTERS[2..] && NR_RASTERS[2..][1..] == NR_RASTERS[3..];
  }

  lemma FirstRasterIs(rasters: seq<Raster>, channel: int)
    ensures FirstRaster(rasters, channel)
         == if rasters == [] then None
            else if rasters[0].first <= channel <= rasters[0].last then Some(rasters[0])
            else FirstRaster(rasters[1..], channel)
  {
  }

  /** A channel lies in a range of a band exactly when it has a frequency there. */
  lemma {:induction false} RangesHoldTheChannels(band: Band, channel: int)
    ensures IsIn(channel, ChannelRanges(band)) <==> ChannelKhz(band, channel).Some?
  {
    hide RangesOfBlocks, RangesOnRasters, NrChannelKhz, BlockKhz;
    if band.rat != Nr {
      BlocksAgree(band.channels, ChannelStepKhz(band.rat), channel);
    } else if band.downlinkKhz.Some? {
      NrAgrees(band.downlinkKhz.value, channel);
    }
  }

  /** The bands of a channel are those of its technology with a range that holds it. */
  lemma {:induction false} BandsHoldTheChannel(catalog: seq<Band>, rat: Rat, channel: int, band: Band)
    ensures band in BandsForChannel(catalog, rat, channel)
       <==> band in catalog && band.rat == rat && IsIn(channel, ChannelRanges(band))
  {
    hide ChannelKhz, ChannelRanges, IsIn;
    if catalog != [] {
      BandsHoldTheChannel(catalog[1..], rat, channel, band);
      RangesHoldTheChannels(catalog[0], channel);
    }
  }

  lemma FirstBand(band: Band, catalog: seq<Band>, rat: Rat, channel: int)
    ensures BandsForChannel([band] + catalog, rat, channel)
         == BandsForChannel([band], rat, channel) + BandsForChannel(catalog, rat, channel)
  {
    hide ChannelKhz;
    assert [band][1..] == [] && ([band] + catalog)[1..] == catalog;
  }

  /** They come in catalogue order. */
  lemma {:induction false} BandsKeepTheirOrder(a: seq<Band>, b: seq<Band>, rat: Rat, channel: int)
    ensures BandsForChannel(a + b, rat, channel) == BandsForChannel(a, rat, channel) + BandsForChannel(b, rat, channel)
  {
    if a == [] {
      assert a + b == b;
    } else {
      hide ChannelKhz, BandsForChannel;
      BandsKeepTheirOrder(a[1..], b, rat, channel);
      FirstBand(a[0], a[1..], rat, channel);
      FirstBand(a[0], a[1..] + b, rat, channel);
      var first := BandsForChannel([a[0]], rat, channel);
      Sequences.Associates(first, BandsForChannel(a[1..], rat, channel), BandsForChannel(b, rat, channel));
      assert a == [a[0]] + a[1..];
      assert a + b == [a[0]] + (a[1..] + b);
    }
  }

  // The raster

  /** Every NR channel number has its own frequency, rising across all three rows of the raster. */
  lemma {:induction false} NrFrequencyRises(channel: int, next: int)
    requires channel < next && NrChannelKhz(channel).Some? && NrChannelKhz(next).Some?
    ensures NrChannelKhz(channel).value < NrChannelKhz(next).value
  {
    NrChannelIsOnItsRaster(channel);
    NrChannelIsOnItsRaster(next);
  }

  /** The rows cover every channel number from 0 to the last, and each the frequencies that the standard gives it. */
  lemma {:induction false} RasterHasNoGap(channel: int)
    ensures NrChannelKhz(channel).Some? <==> 0 <= channel <= 3_279_165
    ensures NrChannelKhz(channel).Some? ==>
              var khz := NrChannelKhz(channel).value;
              && 0 <= khz <= 100_000_000
              && (channel < 600_000 <==> khz < 3_000_000)
              && (channel < 2_016_667 <==> khz < 24_250_000)
  {
    NrChannelIsOnItsRaster(channel);
  }

  ghost predicate AreAscending(ranges: seq<ChannelRange>) {
    && (forall n | 0 <= n < |ranges| :: ranges[n].first <= ranges[n].last)
    && forall m, n | 0 <= m < n < |ranges| :: ranges[m].last < ranges[n].first
  }

  /** The ranges of an NR band are ascending and disjoint. */
  lemma {:induction false} NrRangesAscend(band: Band)
    requires band.rat == Nr
    ensures AreAscending(ChannelRanges(band))
  {
    if band.downlinkKhz.Some? {
      NrRangesAre(band.downlinkKhz.value);
      hide RangesOnRasters, Floor, Ceil;
    }
  }

  // The frequencies

  /** The block lists the channel, or spans it. */
  predicate HasChannel(block: ChannelBlock, channel: int) {
    || (block.Span? && block.first <= channel && channel <= block.last)
    || (block.Listed? && exists n :: 0 <= n < |block.list| && block.list[n] == channel)
  }

  /** The n-th block is the first that has the channel, and gives it that frequency. */
  ghost predicate GivesFrequency(blocks: seq<ChannelBlock>, n: int, channel: int, stepKhz: int, khz: int) {
    && 0 <= n < |blocks| && HasChannel(blocks[n], channel) && khz == blocks[n].offsetKhz + stepKhz * channel
    && forall m | 0 <= m < n :: !HasChannel(blocks[m], channel)
  }

  lemma {:induction false} FirstBlockGives(blocks: seq<ChannelBlock>, stepKhz: int, channel: int) returns (n: nat)
    ensures match BlockKhz(blocks, stepKhz, channel)
            case Some(khz) => GivesFrequency(blocks, n, channel, stepKhz, khz)
            case None => forall m | 0 <= m < |blocks| :: !HasChannel(blocks[m], channel)
  {
    n := 0;
    if blocks != [] {
      BlockHasIt(blocks[0], channel);
      if !Holds(blocks[0], channel) {
        n := FirstBlockGives(blocks[1..], stepKhz, channel);
        n := n + 1;
      }
    }
  }

  lemma BlockHasIt(block: ChannelBlock, channel: int)
    ensures Holds(block, channel) <==> HasChannel(block, channel)
  {
  }

  /** The frequencies of the three rows of the raster, in kHz. */
  function RasterKhz(channel: int): int {
    if channel < 600_000 then 5 * channel
    else if channel < 2_016_667 then 3_000_000 + 15 * (channel - 600_000)
    else 24_250_080 + 60 * (channel - 2_016_667)
  }

  /**
    The frequency of a channel is that of the first block with it, in steps of 100 kHz
    for LTE and 200 kHz for GSM and UMTS, and for NR that of the raster within the band.
  */
  lemma {:induction false} FrequenciesAreExact(band: Band, channel: int, khz: int)
    ensures ChannelKhz(band, channel) == Some(khz)
       <==> match band.rat
            case Nr =>
              && 0 <= channel <= 3_279_165 && khz == RasterKhz(channel)
              && band.downlinkKhz.Some? && band.downlinkKhz.value.low <= khz <= band.downlinkKhz.value.high
            case Lte => exists n :: GivesFrequency(band.channels, n, channel, 100, khz)
            case _ => exists n :: GivesFrequency(band.channels, n, channel, 200, khz)
  {
    if band.rat == Nr {
      NrChannelIsOnItsRaster(channel);
      hide NrChannelKhz, BlockKhz;
    } else {
      var n := FirstBlockGives(band.channels, ChannelStepKhz(band.rat), channel);
      hide BlockKhz, HasChannel;
    }
  }
}
