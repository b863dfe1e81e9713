# Statistics service — a Dafny model

The service answers `/mean`, `/median`, `/mode`, `/all` and `/save` requests.
Each one takes a comma-separated `nums` query parameter and computes descriptive
statistics of it. This project models the computational core of
`statisticsApp.js` and proves properties of that model:

- **Validation** (`CommaSplit`, `StatisticsApp.ParseNumbers`). The parameter is
  split on every comma, as JavaScript's `split(',')` does, and every token goes
  through `parseFloat`. The list is rejected with "Invalid number" if any token
  is NaN. The check for an empty list ("nums are required") comes after the NaN
  check and can never fire, because a split yields at least one token. An empty
  parameter is therefore one empty token, NaN, and "Invalid number". An absent
  parameter makes `nums.split` throw a TypeError, modelled as the separate error
  `MissingNums`. `StatisticsApp.Message` gives the text each error puts in the
  400 response. Query values that are arrays or objects rather than strings are
  not modelled (see "Left out").
- **Mean** (`Statistics.Mean`). The left-to-right sum divided by the count. Its
  contract says the mean times the count gives back the sum, and that the mean
  lies between the smallest and the largest element.
- **Median** (`Statistics.Median`, `Sorting`). The list is sorted ascending. The
  result is the middle element when the length is odd, and the average of the
  two middle elements when it is even. Its contract says that:
  - the median lies between the minimum and the maximum;
  - at least half of the elements are at most the median;
  - at least half of the elements are at least the median;
  - for an odd length, the median is an element of the list.

  The sort is specified as "sorted and a permutation", and such a list is proved
  unique. So the result does not depend on which sorting algorithm is used.
- **Mode** (`ModeScan.Modes`). One imperative pass keeps a map from value to
  count, the running maximum count, and the list of values at that maximum. The
  list is reset when a value exceeds the maximum and extended when a value ties
  it. The method is proved against `IsModeResult`:
  - its elements are exactly the most frequent values;
  - they are ordered by the index at which each first reached the highest
    frequency.

  That specification is proved to determine the result uniquely. For an input
  whose values are all distinct, the result is proved to be the whole input.
- **Handlers** (`StatisticsApp`). `calculateMean`, `calculateMedian`,
  `calculateMode`, and the `/all` and `/save` handlers without the HTTP layer.

`parseFloat` is a parameter, `parse: string -> Option<real>`, where `None`
stands for NaN. Numbers are mathematical reals.

The message "nums are required" (statisticsApp.js:18) suggests that an empty
or absent `nums` is rejected with it. In the code it is never raised: an empty
`nums` gives "Invalid number", and an absent one gives the TypeError's message.
`StatisticsApp.EmptyInputIsInvalid` and the contracts of the `Calculate*`
members (the error is never `NumsRequired`) state this.

## Model

| member | source | states |
|---|---|---|
| CommaSplit.Split | statisticsApp.js:13 | Splitting always yields at least one token, and no token contains a comma. |
| CommaSplit.JoinSplit | statisticsApp.js:13 | Joining the tokens of a split with commas gives back the original parameter, so splitting loses nothing. |
| CommaSplit.SplitJoin | statisticsApp.js:13 | Splitting the comma-join of comma-free tokens gives back exactly those tokens. |
| CommaSplit.SplitNoComma | statisticsApp.js:13 | A parameter without commas is a single token. |
| CommaSplit.SplitAfterToken | statisticsApp.js:13 | A comma-free prefix followed by a comma becomes the first token, and the rest splits on its own. |
| StatisticsApp.ParseNumbers | statisticsApp.js:13-19 | An absent parameter fails with `MissingNums`. Otherwise parsing fails iff some token parses to NaN (the `some(isNaN)` test). Every failure is `InvalidNumber`. A success has one number per token (at least one), each the parse of its token. |
| StatisticsApp.Message | statisticsApp.js:15-18 | The text is "Invalid number" exactly for the invalid-number error and "nums are required" exactly for the empty-list error, so the two are told apart by their message. |
| StatisticsApp.EmptyInputIsInvalid | statisticsApp.js:13-19 | When the empty string parses to NaN, an empty parameter fails with the error whose message is "Invalid number", not "nums are required". |
| StatisticsApp.CalculateMean | statisticsApp.js:12-22 | Fails exactly when validation fails, with the same error, never `NumsRequired`. Otherwise returns the mean of the parsed numbers. |
| StatisticsApp.CalculateMedian | statisticsApp.js:25-39 | Fails exactly when validation fails, with the same error, never `NumsRequired`. Otherwise returns the median of the parsed numbers. |
| StatisticsApp.CalculateMode | statisticsApp.js:42-65 | Fails exactly when validation fails, with the same error, never `NumsRequired`. Otherwise returns a nonempty list of distinct values that satisfies `IsModeResult` for the parsed numbers. |
| StatisticsApp.AllStatistics | statisticsApp.js:98-108 | Fails exactly when validation fails, with that error. Otherwise returns the mean, the median and a mode result of the same parsed numbers. |
| StatisticsApp.SaveStatistics | statisticsApp.js:123-139 | Same failure behaviour as `/all`. On success the `save` flag is true exactly when the `save` parameter is the text "true", and the data are the mean, median and modes of the parsed numbers. |
| NumberLists.SumAppend | statisticsApp.js:20 | One step of the reduction from 0: appending a number adds exactly that number to the sum. |
| NumberLists.SumConcat | statisticsApp.js:20 | The sum of two concatenated lists is the sum of their sums, so the left-to-right accumulation order does not change the total over the reals. |
| Statistics.Mean | statisticsApp.js:20-21 | The mean times the count equals the left-to-right sum, and the mean lies between the minimum and the maximum element. |
| Sorting.Insert | statisticsApp.js:26 | Inserting into a sorted list keeps it sorted and adds exactly the inserted value to its multiset. |
| Sorting.Sort | statisticsApp.js:26 | The ascending sort returns a sorted permutation of its input. |
| Sorting.SortedPermutationUnique | statisticsApp.js:26 | Two sorted lists with the same multiset are equal, so the sorted order of the numbers is determined by the numbers alone. |
| Statistics.Median | statisticsApp.js:33-38 | The median lies between the minimum and the maximum. At least half of the elements are at most it and at least half are at least it. For an odd count it is one of the elements. |
| Statistics.MedianOfSorted | statisticsApp.js:33-38 | For an already sorted list, the median is its middle element (odd length) or the average of its two middle elements (even length). |
| Statistics.MedianOfPermutation | statisticsApp.js:26-38 | Reordering the numbers does not change the median. |
| Statistics.MedianOfSortedPermutation | statisticsApp.js:26-38 | The median of a list is `Middle` of any sorted list with the same elements. |
| Statistics.Middle | statisticsApp.js:33-38 | For a sorted list, the value read off at the middle index lies between the lower and the upper middle element (both are the same element for an odd length). |
| Examples.MedianOddExample | statisticsApp.js:37 | The median of 1, 2, 3 is 2. |
| Examples.MedianEvenExample | statisticsApp.js:35 | The median of 1, 2, 3, 4 is 2.5. |
| Examples.MeanExample | statisticsApp.js:20-21 | The mean of 4, 8, 4, 2 is 4.5. |
| Examples.MedianExample | statisticsApp.js:26-38 | The median of 4, 8, 4, 2 is 4. |
| ModeScan.MaxFrequency | statisticsApp.js:51-58 | The highest count bounds every value's count, is attained by some element of a nonempty list, and is 0 for the empty list. |
| ModeScan.FirstReach | statisticsApp.js:55-58 | For a value occurring at least `c` times, the index at which it occurs for the `c`-th time. |
| ModeScan.ScanStep | statisticsApp.js:54-62 | One iteration (count the value, then reset, extend or keep the modes) preserves the scan state: correct counts, maximum count, modes at that count, ordered by when they reached it. |
| ModeScan.Modes | statisticsApp.js:50-64 | The scan returns exactly the most frequent values, each once, ordered by when each first reached the highest count, and returns at least one value for a nonempty list. |
| ModeScan.ModeResultUnique | statisticsApp.js:50-64 | At most one list satisfies the mode specification for a given input, so `Modes` is fully determined by it. |
| ModeScan.DistinctModes | statisticsApp.js:54-62 | When no value repeats, every value is a mode and the modes are the whole input in input order. |
| ModeScan.OccursIffIn | statisticsApp.js:55 | A value has a positive count exactly when it occurs in the list. |
| Examples.ModeExample | statisticsApp.js:50-64 | The only mode of 4, 8, 4, 2 is 4. |
| Examples.TiedModeExample | statisticsApp.js:50-64 | The modes of 1, 1, 2, 2 are 1 then 2, in the order they reached two occurrences. |

## Left out

- Express routing, the HTTP status codes, and the JSON response shapes of `/mean`, `/median` and `/mode` (lines 68-95): transport, not computation. The handlers' result and error are modelled; the 400 wrapping is not.
- `saveToFile` (lines 111-120) and the file write in `/save`: file I/O and a wall-clock timestamp. `SaveStatistics` models the response only.
- The server start-up on `PORT` (lines 142-145): I/O.
- `parseFloat`'s grammar and IEEE-754 doubles: numbers are reals and `parse` is a parameter. So the model does not capture infinities accepted by `parseFloat("Infinity")`, rounding in the running sum and in the division, overflow, or `-0`.
- Statistics.Mean: does not model floating-point rounding of the running sum, so "mean times count equals sum" holds for reals, not for doubles.
- The median route sorts before the NaN check. The model checks first. Both orders raise "Invalid number" on the same inputs, because sorting is a permutation and does not change whether any element is NaN. JavaScript's comparator behaviour on NaN is outside a model of reals.
- JavaScript object-key coercion in `modeMap` (numbers are converted to strings, so `0` and `-0` share a key). With reals, equal numbers are equal keys.
- Query values that are not strings. Express parses a repeated `nums` (`?nums=1&nums=2`) into an array and `nums[k]=…` into an object. Then `nums.split` at line 13 throws "nums.split is not a function", which the handlers report as a 400, and `req.query.save === 'true'` at line 125 is false. The model's `nums` and `save` are absent or a string, so this path is not modelled.
- The exact text of the TypeError for an absent `nums` depends on the JavaScript engine. It is modelled as the distinct error `MissingNums`, with a representative message.
