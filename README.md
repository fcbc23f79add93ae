# RMS filter — a Dafny model

The FogLAMP "RMS" filter (`RMSFilter`) keeps one accumulator per datapoint
name: a sample count and a running sum of squares. Each `addValue` call
folds one sample into the accumulator for its name, and creates the
accumulator the first time that name is seen. Each `outputData` call walks
the accumulators in name order. Every name whose count has reached the
configured sample size yields one datapoint and is reset to zero. The value
of that datapoint is `sqrt(cumulative / sampleSize)`. If any name yielded a
datapoint, one reading named after the configured asset, holding all of
them, is appended to the caller's reading set.

The project has three modules:

- `KeyOrder` (`key_order.dfy`): the lexicographic order in which the
  filter's ordered map (`std::map<std::string, …>`) visits names. Names are
  sequences of Unicode characters compared by code point; for names in UTF-8
  this is the same order as the map's byte-wise (`unsigned char`) comparison.
  It proves that this order is a strict total order and that every non-empty
  set of names has a least element.
- `Rms` (`rms_data.dfy`): the accumulator table as a value
  (`map<string, RmsData>`), and what adding a sample (`Added`) and a flush
  pass (`Flushed`, `Emits`) do to it. It also proves the window properties:
  each sample is counted once and its square is added once; a window
  completes on exactly the `size`-th sample; and a constant window has mean
  square `v * v`.
- `Filter` (`rms_filter.dfy`): the `RmsFilter` class. Its fields are the
  ones the source updates in place, and its methods are proved against the
  functions of `Rms`. The flush is a loop that visits the least unvisited
  name at each step, as the ordered map does. The caller's reading set is a
  small `ReadingSet` class that can only be appended to.

Datapoint values are carried as the mean square (`meanSquare`). The RMS the
source emits is the square root of that value.

Some facts about this code that the model keeps:

- The accumulator key is the datapoint name alone.
- Every reading goes out under the single configured asset name.
- A flush resets the count to 0, so samples beyond the threshold are
  dropped, not carried over to the next window.
- A sample size of 0 is accepted as configuration. Nothing checks it.

## Model

| member | source | states |
|---|---|---|
| `KeyOrder.LessIrreflexive` | include/rms.h:41-42 | no name is ordered before itself, so the map visits a name at most once |
| `KeyOrder.LessTransitive` | include/rms.h:41-42 | the name order of the map is transitive |
| `KeyOrder.LessTotal` | include/rms.h:41-42 | any two distinct names are ordered one way or the other |
| `KeyOrder.LeastExists` | rms.cpp:116 | every non-empty set of names has a least element, which is the next name the flush loop visits |
| `Rms.Next` | rms.cpp:96 | `samples++` on an `unsigned int` yields the old count plus one, modulo 2^32 |
| `Rms.Added` | rms.cpp:86-98 | one sample `v` adds its name to the table if it is absent, starting from a zeroed record. It raises that name's count by exactly one (mod 2^32) and its sum of squares by exactly `v*v`. Every other name keeps its record, and all sums stay non-negative |
| `Rms.Flushed` | rms.cpp:116-127 | a flush keeps every name. Each name whose count reached the size becomes a zeroed record, and every other name is untouched. Sums stay non-negative, and for a size of at least 1 no name is left at or over the threshold |
| `Rms.NameSetAppend` | rms.cpp:125 | pushing a datapoint adds exactly its name to the emitted names |
| `Rms.SortedCount` | rms.cpp:116-125 | datapoints emitted in strict name order hold each name once, so their count equals the number of distinct names |
| `Rms.SortedUnique` | rms.cpp:116-125 | two strictly name-ordered datapoint lists over the same names list them identically |
| `Rms.DropFirst` | rms.cpp:116-125 | after the first datapoint of a name-ordered list, the rest are still ordered and hold exactly the other names |
| `Rms.EmitsDetermined` | rms.cpp:116-127 | a flush pass emits exactly one datapoint per completed name, and the table and the size fully determine the emitted list |
| `Rms.ScanStart` | rms.cpp:114-116 | before the loop, no name has been visited, nothing has been reset and no datapoint has been collected |
| `Rms.ScanStep` | rms.cpp:116-127 | visiting the least remaining name resets it and appends its datapoint `cumulative / sampleSize` when its count has reached the size, and otherwise leaves both unchanged. Either way the scan stays consistent |
| `Rms.ScanDone` | rms.cpp:116-128 | a finished scan has produced exactly the flushed table and the emitted datapoints, and collected none exactly when no name had reached the size |
| `Rms.AddedAllFolds` | rms.cpp:96-97 | folding a list of samples into one name raises its count by the list's length and its sum by the sum of their squares, and leaves other names alone |
| `Rms.WindowCompletes` | rms.cpp:96-123 | starting from a zeroed record, a name reaches the threshold on exactly the `size`-th sample, and holds then the count `size` and the sum of squares of exactly those samples |
| `Rms.WindowRepeats` | rms.cpp:96-123 | a flush resets a completed window to a zeroed record, so feeding the same `size` samples again completes the window again with the same record, and so the same emitted value |
| `Rms.SumOfSquaresRepeat` | rms.cpp:97 | `n` equal samples `v` accumulate `n * v * v` |
| `Rms.ConstantWindow` | rms.cpp:96-121 | a window of `size` equal samples `v` completes with mean square `v*v`, so its RMS is `abs(v)` |
| `Rms.ReachesThreshold` | rms.cpp:118 | after one more sample, a name is complete under a given size exactly when its old count plus one reaches that size. The table holds only counts, so the size a flush compares against is the one current when it runs |
| `Filter.RmsFilter.constructor` | rms.cpp:42-65 | the asset is "RMS", the sample size 10 and raw data off when their items are absent. Raw data is on exactly when the item's value starts with 't'. The table starts empty |
| `Filter.RmsFilter.SetSampleSize` | include/rms.h:21-24 | sets the sample size and changes no other field, including the accumulated table |
| `Filter.RmsFilter.AddValue` | rms.cpp:86-98 | the table becomes `Added(old table, name, value)` and then contains `name`. The non-negativity invariant is kept |
| `Filter.RmsFilter.AddLong` | rms.cpp:73-79 | the integer overload has the same effect as adding the value converted to a floating value |
| `Filter.RmsFilter.OutputData` | rms.cpp:111-136 | the table becomes `Flushed(old table, sampleSize)`. If no name had reached the size, the reading set is unchanged. Otherwise exactly one reading is appended, named after the configured asset, whose datapoints are the name-ordered flush of the old table (`Emits`) |
| `Filter.RmsFilter.SendRawData` | rms.cpp:142-146 | returns the configured raw-data flag |

## Left out

- Square root and IEEE doubles: sums and values are exact `real`s, so there is no rounding, overflow to infinity or NaN. A datapoint carries the mean square `cumulative / sampleSize`, and the RMS the source emits is its square root.
- Filter.RmsFilter.OutputData: requires a sample size of at least 1. The source has no guard. With a size of 0, every name flushes on every call and the source divides by zero (an infinity or NaN under IEEE rules), which real arithmetic cannot express.
- Filter.RmsFilter.AddLong: the `long`-to-`double` conversion is modelled as exact. The source rounds magnitudes above 2^53.
- Parsing of the "samples" item with `strtol`, and the narrowing of its result to `unsigned int`: the constructor takes the already parsed `unsigned int`. The configuration-category lookups become `Option` parameters.
- Host plugin glue: the `FogLampFilter` base class, the output handle and stream, and logging. `ReadingSet`, `Reading`, `Datapoint` and `DatapointValue` are external types. They are modelled as values, and the reading set as a sequence that is only appended to.
- Heap management: accumulator records are heap objects that are never freed, and readings and datapoints are allocated for the reading set. All of these are modelled by value.
- Raw-data passthrough and the per-reading ingest loop that calls `addValue` and `outputData` are not part of this model. Only the raw-data flag and its getter are.
- Names that are not valid UTF-8: a `std::string` may hold any bytes, but a name here is a sequence of Unicode characters, so such names cannot be expressed, and the order of names is the byte order only for UTF-8 names.
