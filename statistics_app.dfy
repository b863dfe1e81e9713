/**
 * The three statistics as the application computes them from the raw
 * `nums` query parameter: split on commas, parse every token, reject the
 * list if any token is not a number, then reduce. Also the `/all` and
 * `/save` handlers, which run all three on the same parameter.
 *
 * `parseFloat` is the parameter `parse`: a token either parses to a number
 * (`Some`) or gives NaN (`None`). The parameter being absent from the
 * query is `nums == None`.
 */
module StatisticsApp {
  import opened Wrappers
  import opened CommaSplit
  import opened NumberLists
  import opened Statistics
  import opened ModeScan

  /** The errors a statistic can raise. */
  datatype Error =
    | MissingNums    // `nums` is undefined, so `nums.split` raises a TypeError
    | InvalidNumber  // some token parsed to NaN
    | NumsRequired   // the parsed list is empty

  /** The message the handlers put in the `error` field of a 400 response. */
  function Message(e: Error): (r: string)
    ensures r == "Invalid number" <==> e == InvalidNumber
    ensures r == "nums are required" <==> e == NumsRequired
  {
    match e
    case MissingNums => "Cannot read properties of undefined (reading 'split')"
    case InvalidNumber => "Invalid number"
    case NumsRequired => "nums are required"
  }

  /**
   * The shared prefix of the three statistics: split, parse every token,
   * raise "Invalid number" if any token is NaN, then raise "nums are
   * required" if the list is empty. Splitting never yields zero tokens,
   * so the second error is never raised.
   */
  function ParseNumbers(nums: Option<string>, parse: string -> Option<real>): (r: Result<seq<real>, Error>)
    ensures nums.None? ==> r == Failure(MissingNums)
    ensures nums.Some? ==> (r.Failure? <==> exists i :: 0 <= i < |Split(nums.value)| && parse(Split(nums.value)[i]).None?)
    ensures nums.Some? && r.Failure? ==> r.error == InvalidNumber
    ensures r.Success? ==> nums.Some? && |r.value| == |Split(nums.value)| >= 1
    ensures r.Success? ==> forall i :: 0 <= i < |r.value| ==> parse(Split(nums.value)[i]) == Some(r.value[i])
  {
    match nums
    case None => Failure(MissingNums)
    case Some(s) =>
      var tokens := Split(nums.value);
      if exists i :: 0 <= i < |tokens| && parse(tokens[i]).None? then
        var k :| 0 <= k < |tokens| && parse(tokens[k]).None?;
        assert parse(Split(nums.value)[k]).None?;
        Failure(InvalidNumber)
      else if |tokens| == 0 then Failure(NumsRequired)
      else
        assert forall i :: 0 <= i < |tokens| ==> parse(tokens[i]) == Some(parse(tokens[i]).value);
        Success(seq(|tokens|, i requires 0 <= i < |tokens| => parse(tokens[i]).value))
  }

  /** The empty string is one empty token, which parses to NaN: "Invalid number", not "nums are required". */
  lemma EmptyInputIsInvalid(parse: string -> Option<real>)
    requires parse("") == None
    ensures ParseNumbers(Some(""), parse) == Failure(InvalidNumber)
    ensures Message(ParseNumbers(Some(""), parse).error) == "Invalid number"
  {
    var tokens := Split("");
    assert tokens == [""];
    assert parse(tokens[0]).None?;
  }

  /** `calculateMean`: the parsed numbers' sum divided by their count. */
  function CalculateMean(nums: Option<string>, parse: string -> Option<real>): (r: Result<real, Error>)
    ensures r.Failure? <==> ParseNumbers(nums, parse).Failure?
    ensures r.Failure? ==> r.error == ParseNumbers(nums, parse).error != NumsRequired
    ensures r.Success? ==> r.value == Mean(ParseNumbers(nums, parse).value)
  {
    match ParseNumbers(nums, parse)
    case Failure(e) => Failure(e)
    case Success(xs) => Success(Mean(xs))
  }

  /** `calculateMedian`: the middle of the sorted parsed numbers. */
  function CalculateMedian(nums: Option<string>, parse: string -> Option<real>): (r: Result<real, Error>)
    ensures r.Failure? <==> ParseNumbers(nums, parse).Failure?
    ensures r.Failure? ==> r.error == ParseNumbers(nums, parse).error != NumsRequired
    ensures r.Success? ==> r.value == Median(ParseNumbers(nums, parse).value)
  {
    match ParseNumbers(nums, parse)
    case Failure(e) => Failure(e)
    case Success(xs) => Success(Median(xs))
  }

  /** `calculateMode`: the most frequent parsed numbers, in the order they reached the top count. */
  method CalculateMode(nums: Option<string>, parse: string -> Option<real>) returns (r: Result<seq<real>, Error>)
    ensures r.Failure? <==> ParseNumbers(nums, parse).Failure?
    ensures r.Failure? ==> r.error == ParseNumbers(nums, parse).error != NumsRequired
    ensures r.Success? ==>
      var xs := ParseNumbers(nums, parse).value;
      && IsModeResult(xs, r.value)
      && |r.value| > 0
      && (forall i, j :: 0 <= i < j < |r.value| ==> r.value[i] != r.value[j])
  {
    var numbers := ParseNumbers(nums, parse);
    if numbers.Failure? {
      return Failure(numbers.error);
    }
    var modes := Modes(numbers.value);
    return Success(modes);
  }

  /** The three statistics of one list, as the `/all` route returns them. */
  datatype Summary = Summary(mean: real, median: real, mode: seq<real>)

  /**
   * The `/all` handler: mean, then median, then mode of the same
   * parameter; the first error raised is the one reported.
   */
  method AllStatistics(nums: Option<string>, parse: string -> Option<real>) returns (r: Result<Summary, Error>)
    ensures r.Failure? <==> ParseNumbers(nums, parse).Failure?
    ensures r.Failure? ==> r.error == ParseNumbers(nums, parse).error != NumsRequired
    ensures r.Success? ==>
      var xs := ParseNumbers(nums, parse).value;
      && r.value.mean == Mean(xs)
      && r.value.median == Median(xs)
      && IsModeResult(xs, r.value.mode)
  {
    var mean := CalculateMean(nums, parse);
    if mean.Failure? {
      return Failure(mean.error);
    }
    // The median and the mode validate the same parameter as the mean did,
    // so once the mean has succeeded neither of them raises.
    var median := CalculateMedian(nums, parse);
    var mode := CalculateMode(nums, parse);
    return Success(Summary(mean.value, median.value, mode.value));
  }

  /** The body of a successful `/save` response: the flag and the three statistics. */
  datatype SaveResponse = SaveResponse(save: bool, data: Summary)

  /**
   * The `/save` handler without the file write: the flag is set only by
   * the exact text "true", and the data are those of `/all`.
   */
  method SaveStatistics(nums: Option<string>, saveParam: Option<string>, parse: string -> Option<real>)
    returns (r: Result<SaveResponse, Error>)
    ensures r.Failure? <==> ParseNumbers(nums, parse).Failure?
    ensures r.Failure? ==> r.error == ParseNumbers(nums, parse).error != NumsRequired
    ensures r.Success? ==>
      var xs := ParseNumbers(nums, parse).value;
      && r.value.save == (saveParam == Some("true"))
      && r.value.data.mean == Mean(xs)
      && r.value.data.median == Median(xs)
      && IsModeResult(xs, r.value.data.mode)
  {
    var save := saveParam == Some("true");
    var all := AllStatistics(nums, parse);
    if all.Failure? {
      return Failure(all.error);
    }
    return Success(SaveResponse(save, all.value));
  }
}
