# LiveStats streaming estimators in Dafny

This project models the two stream estimators of the LiveStats repository and proves properties about them.

- `LiveHistogram` (`livestats.py`, module `LiveStats`, file `livestats.dfy`) is a marker-based streaming histogram. It is the histogram variant of the P² algorithm of Jain and Chlamtac ("The P² algorithm for dynamic calculation of quantiles and histograms without storing observations", CACM 1985). Heights are the data values at the markers and positions are their ranks.
  - `Add` first buffers items into `heights`.
  - After that, it finds the cell of each item. Its search is a `for`/`else` loop, modelled by `FindCell` and specified by `Locate`.
  - If needed, it stretches the end heights to the item. `Stretched` describes this step.
  - It moves every position from that cell on up by one rank. `ShiftFrom` describes this step.
  - The adjustment pass `__adjust` is the class method `Adjust`. Its single-marker step is `Relocate`, applied by `AdjustAt`. `Relocate` uses the parabolic formula `CalcP2` or the linear form `Linear`. `AdjustFrom` specifies the whole pass.
- `MovingMedian` (`median.py`, module `Median`, file `median.dfy`) keeps a median estimate and a step size. The step size only shrinks, and the estimate moves by exactly one step: up for a larger item, down otherwise, including for an item equal to the estimate. `Next` specifies one call of `add` and `Feed` specifies a whole stream.

Both models use exact arithmetic: `real` for heights, medians and the formula, and `int` for positions and indices.

The model follows the code of `livestats.py` and `median.py` as written. For example, the desired position of marker `i` at position `n` is `1 + (i - 1)(n - 1)/(num_cells - 1)`, and the cell search uses strict comparisons.

Below, `num_cells` is the stored field `self.num_cells`, which is the constructor argument plus one.

### Source defects the model keeps

The model keeps each of these defects as written.

- `calcP2` reads `qp1`, which is never defined (livestats.py:9). `CalcP2` takes it as an explicit last parameter, and `Relocate` passes the upper neighbour's height, as the call at livestats.py:59 evidently means.
- `self.heights.sort` is never called (livestats.py:27). Initialisation only sets `initialized`, and the heights stay in arrival order.
- `self.__adjust` is never called (livestats.py:46). `Add` never adjusts. `Adjust` is a separate method.
- `dist` is a float used as a list index (livestats.py:58, 64). The model uses an `int` that is `+1` or `-1`.
- `pos` has `num_cells - 1` entries, but `heights` fills to `num_cells + 1` (livestats.py:19-23). A cell index equal to `len(pos)` makes the shift a no-op.
- The same length mismatch makes `__adjust` read `pos[i + 1]` one entry past the end at its last iteration (livestats.py:55). `Adjust` stops there with `indexError`. Before that, it has already relocated markers `1 .. num_cells - 3`. It fails exactly when `num_cells >= 3`, that is, for a constructor argument of 2 or more.
- On ordered heights, the cell search falls through to the last cell for two kinds of items: items equal to a height, and items between `heights[0]` and `heights[1]` (livestats.py:35-40). `LocateFallsThrough` states this. Since nothing is sorted, heights in arrival order can still pick an interior cell for such items.

## Model

| member | source | states |
|---|---|---|
| `Median.Initial` | median.py:7-9 | the estimate starts at 0.0 and the step size at sys.maxint, which is positive |
| `Median.Next` | median.py:11-21 | one add: the step size never grows and stays positive. It shrinks exactly when the item is nearer than one step but not equal to the estimate, and then it becomes that distance. The estimate moves by exactly the new step, up only for a larger item and down otherwise, including for an equal item. An item nearer than one step but not equal to the estimate is landed on exactly |
| `Median.Feed` | median.py:11-21 | after any stream of adds, the step size is positive and no larger than at the start |
| `Median.FeedAppend` | median.py:11-21 | adding two streams one after the other gives the same state as adding their concatenation |
| `Median.StepNeverRecovers` | median.py:12-14 | once the step size is below sys.maxint, no later stream brings it back |
| `Median.MovingMedian.constructor` | median.py:7-9 | a fresh estimator has median 0.0 and step sys.maxint |
| `Median.MovingMedian.Add` | median.py:11-21 | the new fields are `Next` of the old fields, the returned value is the stored step, and the step stays positive |
| `LiveStats.CalcP2` | livestats.py:7-12 | the parabolic prediction with a zero move d is the current height q |
| `LiveStats.CalcP2Collinear` | livestats.py:7-12 | on three collinear markers with slope s, the parabolic prediction is q + d·s, for any non-zero divisors |
| `LiveStats.LinearUp` | livestats.py:62-64 | a linear move up, with room above, lands between the marker's height and the upper neighbour's height |
| `LiveStats.LinearDown` | livestats.py:62-64 | a linear move down, with room below, lands between the lower neighbour's height and the marker's height |
| `LiveStats.Relocate` | livestats.py:50-66 | an untriggered marker keeps its height and position. A triggered marker moves exactly one rank in the sign of its distance and stays strictly between its neighbours' positions. Its new height is the parabolic value when that lies strictly between the neighbours' heights, and the linear value otherwise. Ordered neighbourhoods stay ordered |
| `LiveStats.AdjustAt` | livestats.py:49-66 | one iteration touches only marker i. It moves that marker's position by at most one rank, keeps positions strictly increasing and keeps ordered heights ordered |
| `LiveStats.AdjustFrom` | livestats.py:48-66 | the adjustment pass preserves both lengths and keeps positions strictly increasing. It keeps ordered heights ordered, never touches earlier markers or the top height, and moves no position by more than one rank |
| `LiveStats.ScanFrom` | livestats.py:35-38 | the interior scan yields only a cell at or after its start index that holds the item strictly inside it, or no match |
| `LiveStats.ScanFromBetween` | livestats.py:35-38 | the scan picks cell k exactly when k is the first cell from the start that holds the item strictly inside it |
| `LiveStats.ScanFromNoMatch` | livestats.py:35-40 | the scan finds nothing exactly when no interior cell from the start holds the item strictly inside it |
| `LiveStats.Locate` | livestats.py:31-40 | the search picks an interior cell only when it holds the item strictly inside it, and never gives cell 0 from the first branch to an item at or above the first height |
| `LiveStats.LocateFallsThrough` | livestats.py:35-40 | on ordered heights, an item equal to a height, or lying between the first two heights, falls through to the last cell |
| `LiveStats.LocateBelowFirst` | livestats.py:31-33 | cell 0 is chosen by the first branch exactly for items below the first height |
| `LiveStats.LocateBetween` | livestats.py:31-38 | interior cell k is chosen exactly when the item is not below the first height and k is the first interior cell with heights[k] < item < heights[k+1] |
| `LiveStats.LocateNoMatch` | livestats.py:34-40 | the search falls through exactly when the item is not below the first height and no interior cell holds it strictly inside it |
| `LiveStats.CellIndexInRange` | livestats.py:31-40 | the cell index k always lies in 0 .. num_cells - 1 |
| `LiveStats.Stretched` | livestats.py:31-42 | the search keeps the length and every interior height. The first height only drops to an item below it, the last height only rises to an item above it when the search fell through, and afterwards the first height is at or below the item |
| `LiveStats.StretchedOrdered` | livestats.py:31-42 | on ordered heights, the stretched ends enclose the item and the heights stay ordered |
| `LiveStats.FindCell` | livestats.py:30-42 | the for/else loop returns the cell index of `Locate`, which lies in 0 .. num_cells - 1, and the stretched heights |
| `LiveStats.ShiftFrom` | livestats.py:44-45 | the length is kept, positions below k are unchanged and positions from k on rise by exactly one. For k at or beyond the end, nothing changes. Strictly increasing positions stay strictly increasing |
| `LiveStats.Zip` | livestats.py:71 | zip pairs equal indices, as many pairs as the shorter list has |
| `LiveStats.LiveHistogram.constructor` | livestats.py:18-20 | the argument defaults to 10 and is stored plus one as num_cells, `pos` is 0 .. argument - 1, the heights are empty and not initialised |
| `LiveStats.LiveHistogram.Add` | livestats.py:22-46 | in the fill phase the item is appended and `pos` and `initialized` are unchanged. Once full, `initialized` becomes true and stays true, the heights are stretched and the positions are shifted from the found cell. The class invariant, with strictly increasing positions, is kept |
| `LiveStats.LiveHistogram.Adjust` | livestats.py:48-66 | the new heights and positions are those of `AdjustFrom`. Ordered heights stay ordered, and the pass ends with an IndexError exactly when num_cells >= 3 |
| `LiveStats.LiveHistogram.Histogram` | livestats.py:68-73 | empty before initialisation. Afterwards it holds the (position, height) pairs of equal index, as many as `pos` and `heights` both have |

## Left out

- Demo and reporting code is not modelled: `bimodal`, `output` and the `__main__` blocks (livestats.py:76-127, median.py:23-48). They use random numbers, printing and command-line arguments.
- `setup.py` is packaging metadata only.
- Floating point is not modelled. Heights, medians, `calcP2` and the desired position are computed over `real`. Python float rounding and overflow are not reproduced.
- The class attribute `heights = []` (livestats.py:15) is one list shared by every `LiveHistogram` instance. The model gives each instance its own `heights`, so it does not capture the aliasing between instances.
- `LiveStats.CalcP2` does not model the `NameError` raised by the undefined `qp1`. It takes `qp1` as a parameter.
- `LiveStats.Relocate` does not model the `TypeError` raised by a float list index at livestats.py:64. It uses an integer direction.
- `LiveStats.Relocate` requires strictly increasing neighbour positions, so it does not model a `ZeroDivisionError`. The class invariant always provides this order.
- `LiveStats.LiveHistogram.Adjust` requires full heights (`num_cells + 1` of them), because its only call site, which is never executed, is in the full-buffer branch of `add`. It reports the IndexError at livestats.py:55 as the flag `indexError` rather than as an exception.
- `LiveStats.LiveHistogram.constructor` takes a natural number of cells. Negative arguments, which Python accepts, are not modelled.
- `Median.MovingMedian.constructor` uses sys.maxint of a 64-bit CPython 2 build (2^63 - 1). Python 2's mixing of int and float for this value is not modelled.
- The source has no mean, variance, skewness, kurtosis, min/max tracking or multi-quantile facade, so none is modelled.
