/** The statistics panel: the number-list parsers behind the calculate button
    and the file upload, the random and example data, and the failure record
    shown when the statistics service cannot be reached. */
module StatisticsPanel {
  import opened Wrappers
  import opened Text

  // ---------------------------------------------------------------------------
  // Parsing a list of numbers
  // ---------------------------------------------------------------------------

  /** `parseFloat` applied to a trimmed field: `None` stands for NaN. */
  type NumberReader = string -> Option<real>

  /** The calculate button splits on commas only ... */
  const CommaSeps: set<char> := {','}

  /** ... the file upload on commas and newlines. */
  const FileSeps: set<char> := {'\n', ','}

  /** Each field trimmed: the `.map(s => s.trim())` step. */
  function TrimAll(fields: seq<string>): (ts: seq<string>)
    ensures |ts| == |fields|
  {
    if fields == [] then [] else [Trim(fields[0])] + TrimAll(fields[1..])
  }

  /** The i-th trimmed field is the i-th field, trimmed. */
  lemma {:induction false} TrimAllAt(fields: seq<string>, i: nat)
    requires i < |fields|
    ensures TrimAll(fields)[i] == Trim(fields[i])
  {
    if i > 0 {
      TrimAllAt(fields[1..], i - 1);
    }
  }

  /** A trimmed field contributes a number when it is not empty and
      `parseFloat` does not give NaN. */
  predicate Accepts(t: string, read: NumberReader) {
    t != "" && read(t).Some?
  }

  /** The number a trimmed field contributes, if any. */
  function FieldNumber(t: string, read: NumberReader): (r: seq<real>)
    ensures |r| <= 1
    ensures |r| == 1 <==> Accepts(t, read)
    ensures |r| == 1 ==> r[0] == read(t).value
  {
    if t == "" then []
    else match read(t)
      case Some(x) => [x]
      case None => []
  }

  /** The filter non-empty, map parseFloat, filter non-NaN steps over the
      trimmed fields, field by field. */
  function ParseFields(ts: seq<string>, read: NumberReader): (numbers: seq<real>)
    ensures |numbers| <= |ts|
  {
    if ts == [] then []
    else FieldNumber(ts[0], read) + ParseFields(ts[1..], read)
  }

  /** The list a text parses to, for the given separators. */
  function ParseList(text: string, seps: set<char>, read: NumberReader): (numbers: seq<real>)
    ensures |numbers| <= |Split(text, seps)|
  {
    ParseFields(TrimAll(Split(text, seps)), read)
  }

  /** Parsing distributes over concatenation: each field is handled on its own
      and the results stay in field order. */
  lemma {:induction false} ParseFieldsAppend(a: seq<string>, b: seq<string>, read: NumberReader)
    ensures ParseFields(a + b, read) == ParseFields(a, read) + ParseFields(b, read)
  {
    if a != [] {
      assert (a + b)[0] == a[0];
      assert (a + b)[1..] == a[1..] + b;
      ParseFieldsAppend(a[1..], b, read);
    } else {
      assert a + b == b;
    }
  }

  /** The indices, from `from` on, of the trimmed fields that contribute a
      number. */
  function KeptFrom(ts: seq<string>, read: NumberReader, from: nat): seq<nat>
    requires from <= |ts|
    decreases |ts| - from
  {
    if from == |ts| then []
    else (if Accepts(ts[from], read) then [from] else []) + KeptFrom(ts, read, from + 1)
  }

  /** One step of both recursions. */
  lemma KeptStep(ts: seq<string>, read: NumberReader, from: nat)
    requires from < |ts|
    ensures KeptFrom(ts, read, from)
         == (if Accepts(ts[from], read) then [from] else []) + KeptFrom(ts, read, from + 1)
    ensures ParseFields(ts[from..], read)
         == FieldNumber(ts[from], read) + ParseFields(ts[from + 1..], read)
  {
    assert ts[from..] == [ts[from]] + ts[from + 1..];
  }

  /** As many indices are kept as numbers are parsed. */
  lemma {:induction false} KeptCount(ts: seq<string>, read: NumberReader, from: nat)
    requires from <= |ts|
    ensures |KeptFrom(ts, read, from)| == |ParseFields(ts[from..], read)|
    decreases |ts| - from
  {
    if from < |ts| {
      KeptStep(ts, read, from);
      KeptCount(ts, read, from + 1);
    }
  }

  /** The i-th kept index is an accepted field from `from` on, and its reading
      is the i-th parsed number. */
  lemma {:induction false} KeptReadingAt(ts: seq<string>, read: NumberReader, from: nat, i: nat)
    requires from <= |ts| && i < |KeptFrom(ts, read, from)|
    ensures var k := KeptFrom(ts, read, from)[i];
      && from <= k < |ts| && Accepts(ts[k], read)
      && i < |ParseFields(ts[from..], read)| && ParseFields(ts[from..], read)[i] == read(ts[k]).value
    decreases |ts| - from
  {
    KeptStep(ts, read, from);
    KeptCount(ts, read, from + 1);
    if Accepts(ts[from], read) && i == 0 {
    } else if Accepts(ts[from], read) {
      KeptReadingAt(ts, read, from + 1, i - 1);
    } else {
      KeptReadingAt(ts, read, from + 1, i);
    }
  }

  /** Every kept index is an accepted field from `from` on, and its reading is
      the number in the same position of the parsed list. */
  lemma KeptReadings(ts: seq<string>, read: NumberReader, from: nat)
    requires from <= |ts|
    ensures var idx := KeptFrom(ts, read, from);
      var numbers := ParseFields(ts[from..], read);
      && |idx| == |numbers|
      && forall i :: 0 <= i < |idx| ==>
           from <= idx[i] < |ts| && Accepts(ts[idx[i]], read) && numbers[i] == read(ts[idx[i]]).value
  {
    KeptCount(ts, read, from);
    forall i | 0 <= i < |KeptFrom(ts, read, from)| {
      KeptReadingAt(ts, read, from, i);
    }
  }

  /** Kept indices are strictly increasing, so field order is kept. */
  lemma {:induction false} KeptIncreasing(ts: seq<string>, read: NumberReader, from: nat)
    requires from <= |ts|
    ensures var idx := KeptFrom(ts, read, from);
      forall i, j :: 0 <= i < j < |idx| ==> from <= idx[i] < idx[j]
    decreases |ts| - from
  {
    if from < |ts| {
      KeptStep(ts, read, from);
      KeptReadings(ts, read, from + 1);
      KeptIncreasing(ts, read, from + 1);
    }
  }

  /** Every accepted field from `from` on is kept. */
  lemma {:induction false} KeptComplete(ts: seq<string>, read: NumberReader, from: nat)
    requires from <= |ts|
    ensures forall k :: from <= k < |ts| && Accepts(ts[k], read) ==> k in KeptFrom(ts, read, from)
    decreases |ts| - from
  {
    if from < |ts| {
      KeptStep(ts, read, from);
      KeptComplete(ts, read, from + 1);
    }
  }

  /** The parsed list keeps field order, drops the fields that are blank once
      trimmed or read as NaN, and holds only successful readings (so never
      NaN): it lists, in order, the readings of exactly the accepted fields. */
  lemma ParseKeepsAccepted(fields: seq<string>, read: NumberReader)
    ensures var ts := TrimAll(fields);
      var idx := KeptFrom(ts, read, 0);
      var numbers := ParseFields(ts, read);
      && |idx| == |numbers|
      && (forall i :: 0 <= i < |idx| ==>
            idx[i] < |fields| && Accepts(Trim(fields[idx[i]]), read)
            && numbers[i] == read(Trim(fields[idx[i]])).value)
      && (forall i, j :: 0 <= i < j < |idx| ==> idx[i] < idx[j])
      && (forall k :: 0 <= k < |fields| && Accepts(Trim(fields[k]), read) ==> k in idx)
  {
    var ts := TrimAll(fields);
    forall k | 0 <= k < |fields| ensures ts[k] == Trim(fields[k]) {
      TrimAllAt(fields, k);
    }
    KeptReadings(ts, read, 0);
    KeptIncreasing(ts, read, 0);
    KeptComplete(ts, read, 0);
    assert ts[0..] == ts;
  }

  /** For text without newlines, the file parser and the comma parser give the
      same list. */
  lemma FileParseMatchesComma(text: string, read: NumberReader)
    requires '\n' !in text
    ensures ParseList(text, FileSeps, read) == ParseList(text, CommaSeps, read)
  {
    SplitAgrees(text, FileSeps, CommaSeps);
  }

  // ---------------------------------------------------------------------------
  // Printing a list of numbers and reading it back
  // ---------------------------------------------------------------------------

  /** JavaScript's conversion of a number to a string. */
  type NumberPrinter = real -> string

  function Shown(xs: seq<real>, show: NumberPrinter): (r: seq<string>)
    ensures |r| == |xs|
    ensures forall i :: 0 <= i < |xs| ==> r[i] == show(xs[i])
  {
    if xs == [] then [] else [show(xs[0])] + Shown(xs[1..], show)
  }

  /** `numbers.join(', ')`. */
  function JoinNumbers(xs: seq<real>, show: NumberPrinter): string {
    Join(Shown(xs, show), ", ")
  }

  /** The printed form of `x` is non-empty, has no whitespace at its ends,
      holds no comma, and `parseFloat` reads it back as `x`. */
  predicate PrintsBack(read: NumberReader, show: NumberPrinter, x: real) {
    var w := show(x);
    |w| > 0 && !IsSpace(w[0]) && !IsSpace(w[|w| - 1]) && ',' !in w && read(w) == Some(x)
  }

  /** Every number of the list prints and reads back. */
  predicate ReadsBack(read: NumberReader, show: NumberPrinter, xs: seq<real>) {
    forall x | x in xs :: PrintsBack(read, show, x)
  }

  lemma ReadsBackTail(read: NumberReader, show: NumberPrinter, xs: seq<real>)
    requires |xs| >= 1 && ReadsBack(read, show, xs)
    ensures PrintsBack(read, show, xs[0]) && ReadsBack(read, show, xs[1..])
  {
    assert xs[0] in xs;
    forall x | x in xs[1..] ensures PrintsBack(read, show, x) {
      assert x in xs;
    }
  }

  /** A printed number, after padding, is one field that reads back. */
  lemma PaddedNumber(pad: string, x: real, read: NumberReader, show: NumberPrinter)
    requires AllSpace(pad) && PrintsBack(read, show, x)
    ensures NoneIn(pad + show(x), CommaSeps)
    ensures Trim(pad + show(x)) == show(x)
    ensures FieldNumber(show(x), read) == [x]
  {
    var w := show(x);
    assert |w| > 0 && !IsSpace(w[0]) && !IsSpace(w[|w| - 1]) && ',' !in w && read(w) == Some(x);
    forall k | 0 <= k < |pad + w| ensures (pad + w)[k] !in CommaSeps {
      if k < |pad| {
        assert (pad + w)[k] == pad[k];
      } else {
        assert (pad + w)[k] == w[k - |pad|];
      }
    }
    TrimPadded(pad, w);
  }

  /** The joined text is the first printed number, then ", " and the rest. */
  lemma JoinNumbersCons(pad: string, xs: seq<real>, show: NumberPrinter)
    requires |xs| >= 1
    ensures |xs| == 1 ==> pad + JoinNumbers(xs, show) == pad + show(xs[0])
    ensures |xs| > 1 ==>
              pad + JoinNumbers(xs, show) == (pad + show(xs[0])) + [','] + (" " + JoinNumbers(xs[1..], show))
  {
    var ys := Shown(xs, show);
    assert ys[1..] == Shown(xs[1..], show);
  }

  /** The first field of a list, trimmed and parsed, comes first. */
  lemma ParseFieldsCons(f: string, rest: seq<string>, read: NumberReader)
    ensures ParseFields(TrimAll([f] + rest), read) == FieldNumber(Trim(f), read) + ParseFields(TrimAll(rest), read)
  {
    assert ([f] + rest)[0] == f;
    assert ([f] + rest)[1..] == rest;
  }

  lemma {:induction false} ReparsePadded(pad: string, xs: seq<real>, read: NumberReader, show: NumberPrinter)
    requires AllSpace(pad) && |xs| >= 1
    requires ReadsBack(read, show, xs)
    ensures ParseList(pad + JoinNumbers(xs, show), CommaSeps, read) == xs
    decreases |xs|
  {
    var w := show(xs[0]);
    ReadsBackTail(read, show, xs);
    PaddedNumber(pad, xs[0], read, show);
    if |xs| == 1 {
      JoinNumbersCons(pad, xs, show);
      SplitSingle(pad + w, CommaSeps);
      ParseFieldsCons(pad + w, [], read);
      assert [pad + w] + [] == [pad + w];
    } else {
      var tail := JoinNumbers(xs[1..], show);
      JoinNumbersCons(pad, xs, show);
      SplitCons(pad + w, ',', " " + tail, CommaSeps);
      ReadsBackTail(read, show, xs);
      ReparsePadded(" ", xs[1..], read, show);
      ParseFieldsCons(pad + w, Split(" " + tail, CommaSeps), read);
      assert xs == [xs[0]] + xs[1..];
    }
  }

  /** What the file upload writes into the input, the calculate button parses
      back to the same list, provided `parseFloat` reads printed numbers back. */
  lemma ReparseJoined(xs: seq<real>, read: NumberReader, show: NumberPrinter)
    requires ReadsBack(read, show, xs)
    ensures ParseList(JoinNumbers(xs, show), CommaSeps, read) == xs
  {
    if xs == [] {
      SplitSingle("", CommaSeps);
      ParseFieldsCons("", [], read);
      assert [""] + [] == [""];
    } else {
      ReparsePadded("", xs, read, show);
      assert "" + JoinNumbers(xs, show) == JoinNumbers(xs, show);
    }
  }

  // ---------------------------------------------------------------------------
  // Random and example data
  // ---------------------------------------------------------------------------

  const RandomCount := 20

  /** `Math.floor(r * 100)` for each draw `r` of `Math.random()`. */
  function RandomValues(draws: seq<real>): (values: seq<real>)
    requires forall i :: 0 <= i < |draws| ==> 0.0 <= draws[i] < 1.0
    ensures |values| == |draws|
    ensures forall i :: 0 <= i < |values| ==>
              values[i] == (values[i].Floor) as real && 0.0 <= values[i] <= 99.0
  {
    seq(|draws|, i requires 0 <= i < |draws| => (draws[i] * 100.0).Floor as real)
  }

  /** The text loaded by the example button. */
  const ExampleData := "12, 15, 18, 20, 22, 25, 28, 30, 32, 35, 38, 40, 42, 45, 48"

  // ---------------------------------------------------------------------------
  // Panel state
  // ---------------------------------------------------------------------------

  datatype Histogram = Histogram(labels: seq<real>, frequencies: seq<real>)

  datatype StatisticsResponse = StatisticsResponse(
    mean: real, median: real, mode: Option<real>,
    standardDeviation: real, variance: real,
    min: real, max: real, range: real, sum: real, count: real,
    q1: real, q3: real, histogram: Histogram,
    success: bool, error: Option<string>)

  const FailureMessage := "Failed to calculate statistics"

  /** The record shown when the service call fails: every figure zero, no
      mode, an empty histogram, and the failure message. */
  const FailedStatistics := StatisticsResponse(
    0.0, 0.0, None, 0.0, 0.0, 0.0, 0.0, 0.0, 0.0, 0.0, 0.0, 0.0,
    Histogram([], []), false, Some(FailureMessage))

  class StatisticsCalculator {
    var dataInput: string
    var result: Option<StatisticsResponse>
    var isLoading: bool

    constructor()
      ensures dataInput == "" && result == None && !isLoading
    {
      dataInput := "";
      result := None;
      isLoading := false;
    }

    /** Typing into the text area. */
    method OnInput(value: string)
      modifies this
      ensures dataInput == value && result == old(result) && isLoading == old(isLoading)
    {
      dataInput := value;
    }

    /** Parses the input on commas and, when at least one number remains,
        sends it; `reply` is what the service call produces. Returns the
        numbers sent, if any. */
    method HandleCalculate(read: NumberReader, reply: Reply<StatisticsResponse>) returns (sent: Option<seq<real>>)
      modifies this
      ensures dataInput == old(dataInput)
      ensures AllSpace(old(dataInput)) ==>
                sent == None && result == old(result) && isLoading == old(isLoading)
      ensures !AllSpace(old(dataInput)) ==> !isLoading
      ensures !AllSpace(old(dataInput)) && ParseList(dataInput, CommaSeps, read) == [] ==>
                sent == None && result == old(result)
      ensures !AllSpace(old(dataInput)) && ParseList(dataInput, CommaSeps, read) != [] ==>
                sent == Some(ParseList(dataInput, CommaSeps, read))
                && result == Some(if reply.Delivered? then reply.body else FailedStatistics)
    {
      BlankIffAllSpace(dataInput);
      if IsBlank(dataInput) {
        return None;
      }
      isLoading := true;
      var numbers := ParseList(dataInput, CommaSeps, read);
      if numbers == [] {
        isLoading := false;
        return None;
      }
      sent := Some(numbers);
      match reply {
        case Delivered(body) =>
          result := Some(body);
        case Failed =>
          result := Some(FailedStatistics);
      }
      isLoading := false;
    }

    method LoadExample()
      modifies this
      ensures dataInput == ExampleData && result == old(result) && isLoading == old(isLoading)
    {
      dataInput := ExampleData;
    }

    method ClearData()
      modifies this
      ensures dataInput == "" && result == None && isLoading == old(isLoading)
    {
      dataInput := "";
      result := None;
    }

    /** Fills the input with 20 whole numbers from 0 to 99, joined with ", ";
        `draws` are the 20 results of `Math.random()`. */
    method GenerateRandomData(draws: seq<real>, show: NumberPrinter)
      requires |draws| == RandomCount
      requires forall i :: 0 <= i < |draws| ==> 0.0 <= draws[i] < 1.0
      modifies this
      ensures dataInput == JoinNumbers(RandomValues(draws), show)
      ensures |RandomValues(draws)| == RandomCount
      ensures result == old(result) && isLoading == old(isLoading)
    {
      dataInput := JoinNumbers(RandomValues(draws), show);
    }

    /** Reads an uploaded file, parses it on commas and newlines, and writes
        the numbers back into the input joined with ", ". Nothing happens when
        no file was chosen. */
    method HandleFileUpload(file: Option<string>, read: NumberReader, show: NumberPrinter)
      modifies this
      ensures file.None? ==> dataInput == old(dataInput)
      ensures file.Some? ==>
                dataInput == JoinNumbers(ParseList(file.value, FileSeps, read), show)
      ensures result == old(result) && isLoading == old(isLoading)
    {
      if file.None? {
        return;
      }
      var numbers := ParseList(file.value, FileSeps, read);
      dataInput := JoinNumbers(numbers, show);
    }
  }

  /** After an upload, the calculate button sends exactly the numbers the file
      parser found. */
  lemma UploadThenCalculate(text: string, read: NumberReader, show: NumberPrinter)
    requires ReadsBack(read, show, ParseList(text, FileSeps, read))
    ensures var numbers := ParseList(text, FileSeps, read);
      ParseList(JoinNumbers(numbers, show), CommaSeps, read) == numbers
  {
    ReparseJoined(ParseList(text, FileSeps, read), read, show);
  }
}
