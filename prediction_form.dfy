/** The prediction page's form: its state (`formData`, `prediction`,
    `loading`, `error`), the per-field update, the completeness gate and
    error classification of a submission, the random sample filler, and the
    result panel. Parsing, randomness and the POST request are parameters. */
module PredictionForm {
  import opened Wrappers
  import opened JsObject
  import opened FeatureCatalogue
  import opened Rounding
  import opened Dashboard

  const GateMessage := "Please fill in all fields before making a prediction"
  const PredictFallback := "An error occurred while making the prediction"

  /** JavaScript truthiness of an optional string: present and non-empty. */
  predicate Truthy(s: Option<string>) {
    s.Some? && s.value != ""
  }

  /** `parseFloat(value) || 0`: the parsed number, or 0 when parsing fails
      (`NaN` is falsy; a parsed 0 is 0 either way). */
  function InputValue(parse: string -> Option<real>, value: string): real {
    parse(value).GetOr(0.0)
  }

  /** The completeness gate: the form may be submitted when it has at least
      as many keys as the catalogue has features. It counts keys; it does
      not look at which keys they are. */
  predicate IsComplete(formData: seq<Entry<real>>) {
    !(|Keys(formData)| < |Features|)
  }

  /** The gate looks at the number of keys only: any form with at least 57
      keys passes, whatever the keys are, and any form with fewer fails. */
  lemma GateCountsKeysOnly(formData: seq<Entry<real>>)
    ensures IsComplete(formData) <==> |formData| >= 57
  {
    CatalogueNamesDistinct();
  }

  /** A failed request as the page sees it: axios's `err.code`, the server's
      `error` field of the response body, and `err.message`. */
  datatype RequestError = RequestError(code: Option<string>, serverError: Option<string>, message: Option<string>)

  /** The outcome of `POST /predict`: the server's `Prediction`, or a failure. */
  datatype PostResult = Predicted(prediction: string) | PostFailed(failure: RequestError)

  /** The `catch` branch of `handlePredict`: a network failure gets the
      connection hint; otherwise the server's `error`, else the exception's
      message, else a generic text. The message is never empty. */
  function PredictErrorMessage(e: RequestError): (m: string)
    ensures m != ""
    ensures e.code == Some(NetworkCode) ==> m == NetworkMessage
    ensures e.code != Some(NetworkCode) && Truthy(e.serverError) ==> m == e.serverError.value
    ensures e.code != Some(NetworkCode) && !Truthy(e.serverError) && Truthy(e.message) ==> m == e.message.value
    ensures e.code != Some(NetworkCode) && !Truthy(e.serverError) && !Truthy(e.message) ==> m == PredictFallback
  {
    if e.code == Some(NetworkCode) then NetworkMessage
    else if Truthy(e.serverError) then e.serverError.value
    else if Truthy(e.message) then e.message.value
    else PredictFallback
  }

  /** The error the gate throws: a plain `Error` with no code and no response. */
  const GateError := RequestError(None, None, Some(GateMessage))

  /** The gate's own error is reported with its message. */
  lemma GateErrorMessage()
    ensures PredictErrorMessage(GateError) == GateMessage
  {
  }

  /** What the "Prediction Result" panel shows. */
  datatype Panel = Hidden | ShowError(message: string) | ShowPrediction(verdict: string, highRisk: bool)

  /** `(prediction || error) && (error ? <error> : <prediction>)`. */
  function ResultPanel(prediction: Option<string>, error: Option<string>): (p: Panel)
    ensures Truthy(error) ==> p == ShowError(error.value)
    ensures !Truthy(error) && Truthy(prediction) ==> p.ShowPrediction? && p.verdict == prediction.value
    ensures p.ShowPrediction? ==> (p.highRisk <==> p.verdict == "High Risk")
    ensures !Truthy(error) && !Truthy(prediction) ==> p == Hidden
  {
    if !(Truthy(prediction) || Truthy(error)) then Hidden
    else if Truthy(error) then ShowError(error.value)
    else ShowPrediction(prediction.value, prediction.value == "High Risk")
  }

  // Sample data

  /** `x || d` for a number: 0 is falsy. */
  function OrDefault(x: real, d: real): real {
    if x == 0.0 then d else x
  }

  /** The sampled value of one feature for a draw `r` of `Math.random()`. */
  function SampleValue(f: Feature, r: real): real
    requires WellFormed(f) && 0.0 <= r < 1.0
  {
    match f
    case Select(_, options, _) =>
      var i := (r * |options| as real).Floor;
      DrawIndexInRange(r, |options|);
      options[i]
    case Number(_, lo, hi, _, _) =>
      NumberSample(OrDefault(lo, 0.0), OrDefault(hi, 1.0), r)
  }

  /** `parseFloat((Math.random() * (max - min) + min).toFixed(2))`. */
  function NumberSample(min: real, max: real, r: real): real {
    ToFixed2(ScaledDraw(r, min, max))
  }

  /** `Math.random() * (max - min) + min`. */
  function ScaledDraw(r: real, min: real, max: real): real {
    r * (max - min) + min
  }

  /** `Math.floor(Math.random() * n)` is an index of a list of length `n > 0`. */
  lemma DrawIndexInRange(r: real, n: nat)
    requires 0.0 <= r < 1.0 && n > 0
    ensures 0 <= (r * n as real).Floor < n
  {
    assert r * n as real < n as real by {
      assert (1.0 - r) * n as real > 0.0;
    }
  }

  /** A sampled value lies in its feature's domain: a `select` gets one of
      its options, a `number` a value within `[min || 0, max || 1]`, here
      `[min, max]`. */
  lemma SampleInDomain(f: Feature, r: real)
    requires WellFormed(f) && SampleReady(f) && 0.0 <= r < 1.0
    ensures InDomain(f, SampleValue(f, r))
  {
    if f.Select? {
      DrawIndexInRange(r, |f.options|);
    } else {
      NumberSampleInDomain(f, r);
    }
  }

  lemma NumberSampleInDomain(f: Feature, r: real)
    requires f.Number? && WellFormed(f) && SampleReady(f) && 0.0 <= r < 1.0
    ensures f.min <= SampleValue(f, r) <= f.max
  {
    assert OrDefault(f.min, 0.0) == f.min && OrDefault(f.max, 1.0) == f.max;
    NumberSampleBetween(f.min, f.max, r);
  }

  lemma NumberSampleBetween(lo: real, hi: real, r: real)
    requires lo <= hi && OnCentGrid(lo) && OnCentGrid(hi) && 0.0 <= r < 1.0
    ensures lo <= NumberSample(lo, hi, r) <= hi
  {
    ScaledDrawBetween(r, lo, hi);
    ToFixed2Between(ScaledDraw(r, lo, hi), lo, hi);
  }

  /** `Math.random() * (max - min) + min` lies in `[min, max]`. */
  lemma ScaledDrawBetween(r: real, lo: real, hi: real)
    requires 0.0 <= r < 1.0 && lo <= hi
    ensures lo <= ScaledDraw(r, lo, hi) <= hi
  {
    var w := hi - lo;
    MulNonNegative(r, w);
    MulNonNegative(1.0 - r, w);
    assert hi - (r * w + lo) == (1.0 - r) * w;
  }

  lemma MulNonNegative(a: real, b: real)
    requires a >= 0.0 && b >= 0.0
    ensures a * b >= 0.0
  {
  }

  /** The draws for one sample: one per feature, each in `[0, 1)`. */
  predicate ValidDraws(features: seq<Feature>, draws: seq<real>) {
    |draws| == |features| && forall i :: 0 <= i < |draws| ==> 0.0 <= draws[i] < 1.0
  }

  /** `form` holds, in order, each feature's name with the value sampled
      for it from its draw. */
  predicate SampledFrom(form: seq<Entry<real>>, features: seq<Feature>, draws: seq<real>) {
    ValidDraws(features, draws) && |form| == |features| &&
    (forall i :: 0 <= i < |features| ==> WellFormed(features[i])) &&
    forall i :: 0 <= i < |features| ==> form[i] == Entry(features[i].name, SampleValue(features[i], draws[i]))
  }

  /** `fillSampleData`'s loop: `sampleData[feature.name] = ...` for every
      feature, in declaration order. */
  method SampleData(features: seq<Feature>, draws: seq<real>) returns (sample: seq<Entry<real>>)
    requires DistinctNames(features) && ValidDraws(features, draws)
    requires forall i :: 0 <= i < |features| ==> WellFormed(features[i])
    ensures |sample| == |features| && DistinctKeys(sample)
    ensures forall i :: 0 <= i < |features| ==>
      sample[i] == Entry(features[i].name, SampleValue(features[i], draws[i]))
  {
    sample := [];
    for i := 0 to |features|
      invariant |sample| == i
      invariant forall j :: 0 <= j < i ==>
        sample[j] == Entry(features[j].name, SampleValue(features[j], draws[j]))
    {
      var f := features[i];
      assert f.name !in Keys(sample) by {
        forall j | 0 <= j < i ensures Keys(sample)[j] != f.name {
          assert features[j].name != f.name;
        }
      }
      sample := Put(sample, f.name, SampleValue(f, draws[i]));
    }
  }

  /** The page component's state. */
  class PredictionPage {
    var formData: seq<Entry<real>>
    var prediction: Option<string>
    var loading: bool
    var error: Option<string>

    /** `formData` is an object: its keys are distinct. */
    ghost predicate Valid()
      reads this
    {
      DistinctKeys(formData)
    }

    constructor ()
      ensures Valid()
      ensures formData == [] && prediction == None && !loading && error == None
    {
      formData, prediction, loading, error := [], None, false, None;
    }

    /** `handleInputChange`: only the named field changes, to the parsed
        number or to 0. */
    method HandleInputChange(name: string, value: string, parse: string -> Option<real>)
      requires Valid()
      modifies this`formData
      ensures Valid()
      ensures formData == Put(old(formData), name, InputValue(parse, value))
      ensures Lookup(formData, name) == Some(InputValue(parse, value))
      ensures forall k :: k != name ==> Lookup(formData, k) == Lookup(old(formData), k)
    {
      var v := InputValue(parse, value);
      PutDistinct(formData, name, v);
      PutLookupSame(formData, name, v);
      forall k | k != name ensures Lookup(Put(formData, name, v), k) == Lookup(formData, k) {
        PutLookupOther(formData, name, v, k);
      }
      formData := Put(formData, name, v);
    }

    /** The first two statements of `handlePredict`. */
    method StartPredict()
      modifies this`loading, this`error
      ensures loading && error == None
    {
      loading := true;
      error := None;
    }

    /** `handlePredict` with `post` standing for `axios.post` to `/predict`.
        An incomplete form is refused without a request; a request's outcome
        sets the prediction or the error; `loading` ends false. */
    method HandlePredict(post: seq<Entry<real>> -> PostResult) returns (posted: bool)
      requires Valid()
      modifies this`loading, this`error, this`prediction
      ensures Valid() && !loading
      ensures posted <==> IsComplete(formData)
      ensures !posted ==> error == Some(GateMessage) && prediction == old(prediction)
      ensures posted && post(formData).Predicted? ==>
        prediction == Some(post(formData).prediction) && error == None
      ensures posted && post(formData).PostFailed? ==>
        error == Some(PredictErrorMessage(post(formData).failure)) && prediction == old(prediction)
      ensures error.Some? ==> ResultPanel(prediction, error) == ShowError(error.value)
    {
      StartPredict();
      if !IsComplete(formData) {
        posted := false;
        error := Some(PredictErrorMessage(GateError));
      } else {
        posted := true;
        var outcome := post(formData);
        match outcome
        case Predicted(p) =>
          prediction := Some(p);
        case PostFailed(e) =>
          error := Some(PredictErrorMessage(e));
      }
      loading := false;
    }

    /** `fillSampleData`: every feature of the catalogue gets an in-domain
        value, so the form passes the completeness gate. */
    method FillSampleData(draws: seq<real>)
      requires ValidDraws(Features, draws)
      modifies this`formData
      ensures Valid() && IsComplete(formData)
      ensures |formData| == |Features|
      ensures forall i :: 0 <= i < |Features| ==>
        formData[i].key == Features[i].name && InDomain(Features[i], formData[i].value)
      ensures SampledFrom(formData, Features, draws)
    {
      CatalogueNamesDistinct();
      CatalogueWellFormed();
      var sample := SampleData(Features, draws);
      forall i | 0 <= i < |Features| ensures InDomain(Features[i], sample[i].value) {
        SampleInDomain(Features[i], draws[i]);
      }
      formData := sample;
    }
  }
}
