/**
 * The RMS filter object: its configuration, its table of accumulators and
 * the three things a caller does with it — add samples, set the window size
 * and ask for any completed RMS values to be appended to a reading set.
 */
module Filter {
  import opened KeyOrder
  import opened Rms

  datatype Option<T> = None | Some(value: T)

  /**
   * The host's set of readings, to which the filter appends. Only its
   * append operation is used here.
   */
  class ReadingSet {
    var readings: seq<Reading>

    constructor (initial: seq<Reading>)
      ensures readings == initial
    {
      readings := initial;
    }

    method Append(batch: seq<Reading>)
      modifies this
      ensures readings == old(readings) + batch
    {
      readings := readings + batch;
    }
  }

  /**
   * The configured raw-data flag: on exactly when the item is present and its
   * value starts with 't' (an empty value reads as its terminating NUL, so off).
   */
  predicate RawDataFlag(item: Option<string>)
  {
    item.Some? && |item.value| > 0 && item.value[0] == 't'
  }

  class RmsFilter {
    var sampleSize: u32
    var sendRaw: bool
    var assetName: string
    var values: map<string, RmsData>

    /** Every accumulated sum of squares is non-negative. */
    ghost predicate Valid()
      reads this
    {
      NonNegative(values)
    }

    /**
     * Builds the filter from its configuration items; `None` is an item the
     * configuration does not hold. `samples` is the value already parsed
     * to an `unsigned int`.
     */
    constructor (asset: Option<string>, samples: Option<u32>, rawData: Option<string>)
      ensures Valid()
      ensures assetName == (if asset.Some? then asset.value else "RMS")
      ensures sampleSize == (if samples.Some? then samples.value else 10)
      ensures sendRaw == RawDataFlag(rawData)
      ensures values == map[]
    {
      if asset.Some? {
        assetName := asset.value;
      } else {
        assetName := "RMS";
      }
      if samples.Some? {
        sampleSize := samples.value;
      } else {
        sampleSize := 10;
      }
      sendRaw := RawDataFlag(rawData);
      values := map[];
    }

    /** Changes the threshold for later flushes; the accumulated counts are kept. */
    method SetSampleSize(size: u32)
      modifies this`sampleSize
      ensures sampleSize == size
    {
      sampleSize := size;
    }

    /**
     * Folds one sample into the record for `name`, creating a fresh record
     * the first time the name is seen.
     */
    method AddValue(name: string, value: real)
      requires Valid()
      modifies this`values
      ensures Valid()
      ensures name in values
      ensures values == Added(old(values), name, value)
    {
      if name !in values {
        values := values[name := Fresh];
      }
      var data := values[name];
      values := values[name := RmsData(Next(data.samples), data.cumulative + value * value)];
    }

    /** The integer overload: the sample is converted to a floating value first. */
    method AddLong(name: string, value: i64)
      requires Valid()
      modifies this`values
      ensures Valid()
      ensures name in values
      ensures values == Added(old(values), name, value as real)
    {
      var dvalue := value as real;
      AddValue(name, dvalue);
    }

    /**
     * Flushes every record whose count has reached the sample size: each
     * yields one datapoint, in name order, and is reset. If any did, one
     * reading named after the configured asset, holding all of them, is
     * appended to `readingSet`; otherwise `readingSet` is left alone.
     */
    method OutputData(readingSet: ReadingSet)
      requires Valid() && sampleSize >= 1
      modifies this`values, readingSet
      ensures Valid()
      ensures values == Flushed(old(values), sampleSize)
      ensures Completed(old(values), sampleSize) == {} ==> readingSet.readings == old(readingSet.readings)
      ensures Completed(old(values), sampleSize) != {} ==>
        && |readingSet.readings| == |old(readingSet.readings)| + 1
        && readingSet.readings[..|old(readingSet.readings)|] == old(readingSet.readings)
        && readingSet.readings[|old(readingSet.readings)|].assetName == assetName
        && Emits(readingSet.readings[|old(readingSet.readings)|].datapoints, old(values), sampleSize)
    {
      var dataPoints: seq<Datapoint> := [];
      var remaining := values.Keys;
      ghost var before := values;
      ScanStart(before, sampleSize);
      while remaining != {}
        modifies this`values
        invariant Scanned(before, sampleSize, remaining, values, dataPoints)
        decreases remaining
      {
        LeastExists(remaining);
        var name :| IsLeast(name, remaining);
        ScanStep(before, sampleSize, remaining, values, dataPoints, name);
        var data := values[name];
        if data.samples >= sampleSize {
          var value := data.cumulative / sampleSize as real;
          values := values[name := Fresh];
          dataPoints := dataPoints + [Datapoint(name, value)];
        }
        remaining := remaining - {name};
      }
      ScanDone(before, sampleSize, values, dataPoints);
      if |dataPoints| > 0 {
        readingSet.Append([Reading(assetName, dataPoints)]);
      }
    }

    /** Whether the raw input readings are to be passed on as well. */
    method SendRawData() returns (send: bool)
      ensures send == sendRaw
    {
      send := sendRaw;
    }
  }
}
