# Insurance claim prediction dashboard — a verified model

The system is a dashboard for the Porto Seguro safe-driver data. It has a
React front end with four pages and a Flask back end.

The **prediction page** holds a catalogue of 57 input features. The user
fills in a form, or lets the page draw a random sample. The page then posts
the form to `/predict` and shows either the verdict ("High Risk" / "Low
Risk") or an error.

The **visualization page** draws:
- a 20-bin histogram of `ps_reg_03`;
- the class balance;
- the top feature importances, with per-category tallies.

The **preprocessing page** charts the six features with the most missing
values, before and after imputation, and derives summary figures.

The **data analysis page** shows:
- the first ten columns with missing values;
- a binary / categorical / continuous breakdown of the columns;
- the first nine columns of five sample rows.

The back end validates `/predict` requests and builds the JSON payloads the
pages read.

The model is split by concern:
- `js_object.dfy` (`JsObject`): JavaScript objects and Python dicts, as
  ordered lists of entries with distinct keys.
- `text.dfy` (`Text`): substring search and decimal rendering.
- `rounding.dfy` (`Rounding`): `toFixed(2)` read back as a number.
- `catalogue.dfy` (`FeatureCatalogue`): the feature catalogue.
- `grouping.dfy` (`Grouping`): the `groupedFeatures` reduce, as a loop
  method.
- `prediction_form.dfy` (`PredictionForm`): the page state as a class, plus
  the sample filler.
- `histogram.dfy` (`Histogram`): `createHistogram`, on an array.
- `ranking.dfy` (`Ranking`): the stable sort by value and top-k shared by
  both ends.
- `dashboard.dfy` (`Dashboard`): what the pages share — the fetch error
  message, class shares and filters.
- `visualization.dfy`, `preprocessing.dfy`, `data_analysis.dfy`: one
  module per page.
- `backend.dfy` (`Backend`): the Flask handlers' logic.

Numbers are exact reals. Parsing, randomness, the HTTP requests and the
machine-learning pipeline are parameters of the functions that use them.

## Model

| member | source | states |
|---|---|---|
| FeatureCatalogue.CatalogueNamesDistinct | frontend/src/components/PredictionPage.tsx:60-125 | the catalogue has exactly 57 features and no two share a name |
| FeatureCatalogue.CatalogueWellFormed | frontend/src/components/PredictionPage.tsx:60-125 | every `select` has options and every `number` has min ≤ max; number bounds are whole hundredths and max is not 0, so `max \|\| 1` is the max |
| Grouping.CategoriesSpec | frontend/src/components/PredictionPage.tsx:192-198 | the group keys are distinct, and a category is a key exactly when some feature has it |
| Grouping.OfCategoryMembers | frontend/src/components/PredictionPage.tsx:192-198 | a feature is in a group exactly when it is a catalogue feature of that category |
| Grouping.EachFeatureInItsGroup | frontend/src/components/PredictionPage.tsx:193-196 | every feature lands in exactly one group, its own category's |
| Grouping.GroupingKeepsCount | frontend/src/components/PredictionPage.tsx:192-198 | the group sizes add up to the number of features |
| Grouping.GroupFeatures | frontend/src/components/PredictionPage.tsx:192-198 | the reduce loop yields one group per category, in first-appearance order, each group holding its features in declaration order |
| JsObject.Put | frontend/src/components/PredictionPage.tsx:143-146 | `{...prev, [name]: v}` keeps the key order; a new key goes last |
| JsObject.PutLookupSame | frontend/src/components/PredictionPage.tsx:143-146 | after the spread, the named key holds the new value |
| JsObject.PutLookupOther | frontend/src/components/PredictionPage.tsx:143-146 | after the spread, every other key holds what it held before |
| JsObject.PutDistinct | frontend/src/components/PredictionPage.tsx:143-146 | the spread result is still an object with distinct keys |
| JsObject.PutNewKeyCount | frontend/src/components/PredictionPage.tsx:143-146 | setting a key that is not yet present adds exactly one field |
| JsObject.KeysAppend | frontend/src/components/VisualizationPage.tsx:301 | `Object.keys` of entries one after the other is their keys one after the other |
| PredictionForm.PredictionPage.constructor | frontend/src/components/PredictionPage.tsx:52-55 | the page starts with an empty form, no prediction, no error and not loading |
| PredictionForm.PredictionPage.HandleInputChange | frontend/src/components/PredictionPage.tsx:142-147 | only the named field changes, to the parsed number or to 0; every other field is unchanged |
| PredictionForm.GateCountsKeysOnly | frontend/src/components/PredictionPage.tsx:155 | the gate passes exactly the forms with at least 57 keys, whatever the keys are |
| PredictionForm.PredictErrorMessage | frontend/src/components/PredictionPage.tsx:166-171 | a network error gives the connection message; otherwise the server's error, else the exception message, else the generic text; never empty |
| PredictionForm.GateErrorMessage | frontend/src/components/PredictionPage.tsx:155-157 | the gate's own exception is reported with "Please fill in all fields before making a prediction" |
| PredictionForm.PredictionPage.StartPredict | frontend/src/components/PredictionPage.tsx:150-151 | a submission starts with loading on and the error cleared |
| PredictionForm.PredictionPage.HandlePredict | frontend/src/components/PredictionPage.tsx:149-175 | a request is sent iff the form is complete; the outcome sets the prediction, or an error with the prediction kept; loading ends false; a present error wins the panel |
| PredictionForm.ResultPanel | frontend/src/components/PredictionPage.tsx:315-330 | the panel is hidden unless there is a prediction or an error; an error is shown in preference to a prediction |
| PredictionForm.DrawIndexInRange | frontend/src/components/PredictionPage.tsx:182 | `Math.floor(Math.random() * n)` is a valid index into `n` options |
| PredictionForm.ScaledDrawBetween | frontend/src/components/PredictionPage.tsx:186 | `Math.random() * (max - min) + min` lies in `[min, max]` |
| PredictionForm.NumberSampleBetween | frontend/src/components/PredictionPage.tsx:184-186 | after rounding to two decimals, a sampled number is still within bounds that are whole hundredths |
| PredictionForm.SampleInDomain | frontend/src/components/PredictionPage.tsx:180-187 | a sampled `select` value is one of its options; a sampled `number` lies in `[min \|\| 0, max \|\| 1]` |
| PredictionForm.SampleData | frontend/src/components/PredictionPage.tsx:177-188 | the forEach loop writes one entry per feature, in catalogue order, under the feature's name |
| PredictionForm.PredictionPage.FillSampleData | frontend/src/components/PredictionPage.tsx:177-190 | after filling, entry i of the form is catalogue feature i's name with the value sampled from draw i; every value is in its domain, so the form passes the completeness gate |
| Rounding.ToFixed2Between | frontend/src/components/PredictionPage.tsx:186 | rounding to two decimals keeps a number between two whole hundredths |
| Rounding.ToFixed2Monotone | frontend/src/components/VisualizationPage.tsx:117 | rounding to two decimals preserves order |
| Histogram.SeqMin | frontend/src/components/VisualizationPage.tsx:110 | `Math.min(...values)` is a value of the sample and at most every value |
| Histogram.SeqMax | frontend/src/components/VisualizationPage.tsx:111 | `Math.max(...values)` is a value of the sample and at least every value |
| Histogram.BinOf | frontend/src/components/VisualizationPage.tsx:121 | a value's bin index lies in `[0, bins)` |
| Histogram.CreateHistogram | frontend/src/components/VisualizationPage.tsx:109-126 | exactly `bins` labels and counts; label i is `min + i*binWidth` to two decimals; each count is the number of values in that bin; the counts add up to the number of values |
| Histogram.MinInFirstBin | frontend/src/components/VisualizationPage.tsx:121 | the minimum lands in bin 0 |
| Histogram.MaxInLastBin | frontend/src/components/VisualizationPage.tsx:121 | for a spread sample the maximum's raw index is `bins`, and the clamp puts it in the last bin |
| Histogram.BinHoldsValue | frontend/src/components/VisualizationPage.tsx:116-121 | a value's bin starts at or below it, and the next bin starts above it |
| Histogram.LabelsOrdered | frontend/src/components/VisualizationPage.tsx:116-118 | the labels are non-decreasing, and label 0 is the minimum |
| Histogram.BinOfAsWritten | frontend/src/components/VisualizationPage.tsx:112-122 | as written, a zero bin width gives a NaN index, which names no bin |
| Histogram.CountsAsWritten | frontend/src/components/VisualizationPage.tsx:113-123 | as written, there is one count per bin |
| Histogram.AsWrittenAgreesWhenSpread | frontend/src/components/VisualizationPage.tsx:120-123 | on a sample that is not constant, the code as written and the corrected binning count alike |
| Histogram.AsWrittenDropsConstant | frontend/src/components/VisualizationPage.tsx:120-123 | as written, a constant sample is counted in no bin |
| Histogram.ConstantInFirstBin | frontend/src/components/VisualizationPage.tsx:120-123 | corrected, a constant sample is counted entirely in bin 0 |
| Histogram.ConstantSampleLost | frontend/src/components/VisualizationPage.tsx:112-123 | `[5, 5, 5, 5]` in 20 bins: the counts as written add up to 0, and corrected bin 0 holds 4 |
| Dashboard.FetchErrorMessage | frontend/src/components/VisualizationPage.tsx:49-54 | a failed fetch shows either the connection message or the page's own message |
| Dashboard.FetchErrorTellsCause | frontend/src/components/VisualizationPage.tsx:49-54 | the connection message appears exactly for `ERR_NETWORK` |
| Visualization.FetchErrorMessages | frontend/src/components/VisualizationPage.tsx:49-54 | "Failed to fetch visualization data" exactly when the failure is not `ERR_NETWORK` |
| Dashboard.ClassShares | frontend/src/components/VisualizationPage.tsx:174-176 | `class_c / total * 100` for each class; none when the total is 0 |
| Dashboard.ClassSharesSum | frontend/src/components/DataAnalysis.tsx:186-192 | for a positive total, the two percentages add up to 100, each lies in [0, 100], and they are ordered like the counts |
| Visualization.MaxImportance | frontend/src/components/VisualizationPage.tsx:285 | the top importance is one of the importances and at least all of them; none when there are none |
| Visualization.MaxImportanceOfRanked | frontend/src/components/VisualizationPage.tsx:285 | on importances ranked highest first, the top importance is the first one |
| Visualization.CategoryTallies | frontend/src/components/VisualizationPage.tsx:301-315 | each tally is the number of importance keys containing `_ind_`, `_car_` or `_reg_`, and is at most the key count |
| Visualization.TalliesAtMostKeys | frontend/src/components/VisualizationPage.tsx:301-315 | when no key has two markers, the three tallies together are at most the key count |
| Visualization.TalliesAppend | frontend/src/components/VisualizationPage.tsx:301-315 | the tallies add up over the entries: those of two lists one after the other are the sums of theirs |
| Visualization.TallyOfOne | frontend/src/components/VisualizationPage.tsx:301-315 | one entry counts once in each tally whose marker its key contains, and nowhere else |
| Visualization.MarkedKeys | frontend/src/components/VisualizationPage.tsx:301-315 | when no key carries two of `_ind_`, `_car_` and `_reg_`, the three filtered lists together are no longer than the key list |
| Dashboard.Where | frontend/src/components/PreprocessingResults.tsx:110 | `filter` keeps exactly the entries that pass |
| Dashboard.WhereAppend | frontend/src/components/PreprocessingResults.tsx:110 | `filter` keeps input order |
| Dashboard.WhereCount | frontend/src/components/PreprocessingResults.tsx:175 | for a filter and its complement, the entries that pass and the entries that fail add up to all entries |
| Dashboard.KeysContaining | frontend/src/components/VisualizationPage.tsx:301 | `keys.filter(k => k.includes(sub))` keeps exactly the keys containing `sub` |
| Dashboard.KeysContainingAppend | frontend/src/components/VisualizationPage.tsx:301 | `filter` keeps the keys' order and multiplicity: it distributes over concatenation |
| Dashboard.KeysContainingOne | frontend/src/components/VisualizationPage.tsx:301 | a single key is kept exactly when it contains the substring |
| Dashboard.CountContaining | frontend/src/components/DataAnalysis.tsx:118-119 | the count is the length of the key filter `KeysContaining` (order- and multiplicity-preserving, see KeysContainingAppend and KeysContainingOne), at most the key count, and zero exactly when no key contains the substring |
| Dashboard.NotContainsFirst | frontend/src/components/DataAnalysis.tsx:118-119 | a string that lacks the substring's first character does not contain the substring |
| Text.ContainsIffOccurs | frontend/src/components/VisualizationPage.tsx:301 | `includes` holds exactly when the substring occurs at some position |
| Ranking.SortDescCorrect | backend/app.py:56 | the sort by value, highest first, is a sorted permutation of its input |
| Ranking.SortDescStable | frontend/src/components/PreprocessingResults.tsx:111 | the sort is stable: for every value, the entries with that value stay in input order |
| Ranking.TopKCorrect | frontend/src/components/PreprocessingResults.tsx:111-112 | top-k is sorted highest first; kept and dropped entries together make the input; no dropped entry exceeds a kept one |
| Ranking.TopKStable | frontend/src/components/PreprocessingResults.tsx:111-112 | within top-k, entries with equal values keep their input order |
| Ranking.TopK | frontend/src/components/PreprocessingResults.tsx:112 | top-k has `min(k, n)` entries |
| Ranking.WithValuePrefix | frontend/src/components/PreprocessingResults.tsx:112 | filtering a prefix gives a prefix of the filtered list |
| Preprocessing.TopMissingBefore | frontend/src/components/PreprocessingResults.tsx:109-112 | exactly `min(6, n)` entries for the `n` features with missing values, all with value > 0, highest first, all drawn from `missing_before` |
| Preprocessing.TopMissingBeforeIsTop | frontend/src/components/PreprocessingResults.tsx:109-112 | no feature left off the chart has more missing values than one on it; charted ties keep map order |
| Preprocessing.WithValueWhere | frontend/src/components/PreprocessingResults.tsx:110-111 | dropping non-positive entries keeps the order of the entries of each positive value |
| Preprocessing.AfterSeries | frontend/src/components/PreprocessingResults.tsx:125-129 | one value per charted feature: `missing_after[key]`, or 0 when the key is absent |
| Preprocessing.TotalPositiveIffSomeMissing | frontend/src/components/PreprocessingResults.tsx:173-175 | with non-negative counts, the total is non-negative, and positive exactly when some feature has missing values |
| Preprocessing.PositiveSum | frontend/src/components/PreprocessingResults.tsx:173-175 | a sum of non-negative counts is non-negative, and positive exactly when some count is positive |
| Preprocessing.FeaturesWithMissing | frontend/src/components/PreprocessingResults.tsx:175 | at most the feature count and at least the length of the top-six chart |
| Preprocessing.FeaturesWithMissingSplit | frontend/src/components/PreprocessingResults.tsx:175 | features with and without missing values add up to all features |
| Preprocessing.ResolvedFigure | frontend/src/components/PreprocessingResults.tsx:262 | "100%" exactly when nothing is left missing; a percentage `p` shown satisfies `p * before = (before - after) * 100`; over a zero `before`, a positive `after` gives negative infinity and a negative one positive infinity |
| Preprocessing.ResolvedBounds | frontend/src/components/PreprocessingResults.tsx:262 | when some missing values remain, but no more than before, the figure is a percentage in [0, 100) |
| Preprocessing.FeaturesProcessed | frontend/src/components/PreprocessingResults.tsx:276 | corrected: the number of features processed is the key count of `missing_before` |
| Preprocessing.FeaturesProcessedCounts | frontend/src/components/PreprocessingResults.tsx:276 | on a training table with `id` and `target`, the corrected figure is the number of feature columns and the as-written figure is two fewer |
| Preprocessing.FeaturesProcessedExample | frontend/src/components/PreprocessingResults.tsx:276 | for columns `id`, `target`, `ps_ind_01`, one feature is processed, while the page as written shows -1 |
| Preprocessing.FetchErrorMessages | frontend/src/components/PreprocessingResults.tsx:48-53 | "Failed to fetch preprocessing results" exactly when the failure is not `ERR_NETWORK` |
| DataAnalysis.MissingValuesFiltered | frontend/src/components/DataAnalysis.tsx:113-115 | exactly `min(10, n)` entries for the `n` that pass the filter, none for `id` or `target` and none with a count ≤ 0, a prefix of the filtered list |
| DataAnalysis.MissingValuesInOrder | frontend/src/components/DataAnalysis.tsx:113-115 | the chart is exactly the filtered entries of some prefix of `missing_values`, with no sorting; it shows all of them when ten or fewer pass |
| DataAnalysis.TakeWhereIsPrefixWhere | frontend/src/components/DataAnalysis.tsx:113-115 | the first n entries that pass a filter are the entries that pass it within some prefix of the input |
| DataAnalysis.FeatureBreakdown | frontend/src/components/DataAnalysis.tsx:118-120 | binary is the number of keys containing `_bin` and categorical the number containing `_cat`, each at most the key count; binary + categorical + continuous + 2 = columns, with no clamping |
| DataAnalysis.ContinuousKeys | frontend/src/components/DataAnalysis.tsx:120 | the continuous keys are exactly those that are neither `id`, `target`, `_bin` nor `_cat` |
| DataAnalysis.IdTargetPlain | frontend/src/components/DataAnalysis.tsx:118-120 | `id` and `target` count as neither binary nor categorical |
| DataAnalysis.OneKind | frontend/src/components/DataAnalysis.tsx:118-120 | a key with at most one of `_bin` and `_cat` is of exactly one kind |
| DataAnalysis.KeysPartition | frontend/src/components/DataAnalysis.tsx:118-120 | the keys split into binary, categorical, continuous, `id` and `target` |
| DataAnalysis.ContinuousCountsFeatures | frontend/src/components/DataAnalysis.tsx:120 | with `columns` equal to the key count, the continuous figure counts the continuous keys, less whichever of `id` and `target` is absent |
| DataAnalysis.ContinuousUnclamped | frontend/src/components/DataAnalysis.tsx:120 | nothing keeps the continuous figure from going negative |
| DataAnalysis.Header | frontend/src/components/DataAnalysis.tsx:206 | the header is exactly the first `min(9, n)` keys of the first row, and empty when there are no rows |
| DataAnalysis.RowCells | frontend/src/components/DataAnalysis.tsx:214 | a row shows exactly its first `min(9, n)` entries |
| DataAnalysis.HeaderMatchesFirstRow | frontend/src/components/DataAnalysis.tsx:206-214 | the header names exactly the cells of the first row |
| DataAnalysis.FetchErrorMessages | frontend/src/components/DataAnalysis.tsx:46-50 | "Failed to fetch data summary" exactly when the failure is not `ERR_NETWORK` |
| Backend.Predict | backend/app.py:74-106 | 400 exactly for an absent or empty body or a wrong key count; an empty body gets "No input data provided"; success is 200 with one of the two labels; otherwise 500 |
| Backend.CountMismatchReport | backend/app.py:83-88 | a wrong count gives 400 "Expected N features, got M"; missing lists expected names not sent, unexpected lists sent names not expected; at least one list is non-empty |
| Backend.MismatchNamesDiffer | backend/app.py:83-88 | two lists of distinct names of different lengths cannot hold the same names, so a mismatch always reports some name |
| Backend.WrongNamesGive500 | backend/app.py:90-106 | the right count with a wrong name fails column selection: 500 with the exception text |
| Backend.ExpectedNamesPredict | backend/app.py:90-104 | with exactly the expected names, the model sees the values in expected order and its class decides the label |
| Backend.Row | backend/app.py:91 | the row holds each expected column's value, in expected order |
| Backend.NotIn | backend/app.py:86-87 | the comprehension keeps exactly the names of the first list absent from the second |
| Backend.NotInAppend | backend/app.py:86-87 | the comprehension keeps the first list's order |
| Backend.SameNames | backend/app.py:83-91 | two distinct lists of equal length, one containing the other's names, hold the same names |
| Backend.CountMessageInjective | backend/app.py:85 | the count message tells both counts: different counts give different messages |
| Text.NatToStringRoundTrip | backend/app.py:85 | a count's decimal rendering reads back as the count |
| Text.NatToStringInjective | backend/app.py:85 | different counts render as different decimal strings |
| Backend.DigitsPrefix | backend/app.py:85 | a run of digits followed by a non-digit is told apart from another such run |
| Backend.Label | backend/app.py:104 | the label is "High Risk" or "Low Risk" |
| Backend.LabelHighIffOne | backend/app.py:104 | "High Risk" exactly for class 1, "Low Risk" for every other class |
| Backend.Zip | backend/app.py:55 | `dict(zip(columns, importances))` pairs each column with its importance, truncated to the shorter list |
| Backend.TopFeatures | backend/app.py:56 | exactly `min(5, n)` of the `n` pairs, highest importance first, all taken from the pairs |
| Backend.TopFeaturesIsTop | backend/app.py:55-56 | no pair left out has a higher importance than one kept; kept and left-out pairs together are all the pairs; kept ties keep column order |
| Backend.Occurrences | backend/app.py:29 | a class's count is zero exactly when the class does not occur |
| Backend.ValueCounts | backend/app.py:29 | the counts have a key exactly for each class that occurs |
| Backend.TargetCountsOfLabels | backend/app.py:34 | `class_0` and `class_1` are the numbers of 0 and 1 labels, 0 for an absent class, adding up to the label count |
| Backend.PsReg03Series | backend/app.py:57-61 | the series has `min(n, 1000)` values, one per row from the top |
| Backend.PsReg03SeriesReplaces | backend/app.py:57-61 | each -1 becomes the median, every other value is kept, and no -1 is left unless the median is -1 |
| Backend.FeatureColumns | backend/app.py:41 | the columns other than `id` and `target` |
| Backend.FeatureColumnsCount | backend/app.py:41 | dropping `id` and `target` from distinct columns removes exactly the ones present |
| Backend.MissingBefore | backend/app.py:41 | `missing_before` has one entry per feature column, holding that column's count of -1 cells |

## Left out

- Rendering:
  - JSX, Chart.js registration and options, and Tailwind classes.
  - The chart series that only copy keys and values into a chart.
  - The sample table's cell colouring.
  - Navbar.tsx and App.tsx (routing).
- Fetch lifecycles:
  - The `useEffect` fetches, the `loading` and `error` state of the three read-only pages, and the model-metrics fetch on the prediction page. This is asynchronous I/O; each page's error message is modelled.
  - The blob download of the preprocessed CSV.
- Floating point:
  - Numbers are exact reals; there is no IEEE rounding, NaN or infinity. NaN and infinity appear as `None` or as named cases: `ClassShares`, `MaxImportance`, `BinOfAsWritten`, `ResolvedFigure`.
  - `toFixed(2)` is rounding half away from zero on exact values.
  - `toFixed(1)` percentages and `toLocaleString` are display only. The displayed percentages can therefore add up to 99.9 or 100.1; the model's unrounded shares add up to exactly 100.
- Parsing and randomness: `parseFloat` is the `parse` parameter. `Math.random()` is a list of draws in `[0, 1)`.
- Back end, outside the handlers' logic:
  - Model and CSV loading.
  - `encoder.transform`, `scaler.transform` and `model.predict`, which are the `run` parameter.
  - The pandas `KeyError` text, which is the `selectError` parameter.
  - pandas `median`, which is a parameter.
  - The scikit-learn metrics of `/model_metrics`.
  - `send_file`.
  - `backend/model.py` and `backend/data_preprocessing.py`, which are training and preprocessing scripts.
- JSON transport:
  - Flask's `jsonify` sorts object keys by default. The pages therefore receive `feature_importance` and the missing-value maps in key order, not in ranking order. The page functions take the objects in the order they arrive, and this re-ordering is not modelled.
  - A `/predict` body that is JSON but not an object is not modelled. The body is either absent or an object.
- Backend.FeatureColumns: does not model the `KeyError` pandas raises when `id` or `target` is absent from the training table. The function drops whichever of them is present; the training CSV has both.
- Backend.Predict: assumes the Flask behaviour in which `request.json` is `None` for a request that does not carry JSON. Newer Flask versions raise instead (415 for another content type, 400 for a body that does not parse), and the handler's `except` turns that into a 500. An absent body is modelled as the 400 "No input data provided" case.
- JavaScript objects with integer-like keys, which `Object.keys` would list first: no key here is integer-like.
- Histogram.CreateHistogram:
  - Requires a non-empty sample. On an empty sample the source computes infinite bounds and NaN labels.
  - Its labels are numbers rounded to two decimals, where the source has the strings `toFixed(2)` returns.
  - It models the corrected binning. The code as written is `Histogram.BinOfAsWritten` (see Findings).
- PredictionForm.SampleInDomain: requires number bounds that are whole hundredths and a non-zero max, which `CatalogueWellFormed` proves for every catalogue feature. For other bounds, `toFixed(2)` could round a sample just outside `[min, max]`.

## Findings

| source | as written | input that shows it | evidently intended | confidence | as-written member | corrected member |
|---|---|---|---|---|---|---|
| frontend/src/components/VisualizationPage.tsx:112-123 | when all values are equal, `binWidth` is 0, every index is `0 / 0` = NaN, and `binCounts[NaN]++` increments no bin | `createHistogram([5, 5, 5, 5])` returns 20 zero counts | every value is counted once; a constant sample fills the first bin | high, not executed | Histogram.ConstantSampleLost | Histogram.CreateHistogram |
| frontend/src/components/PreprocessingResults.tsx:276 | "Features processed" is `Object.keys(missing_before).length - 2`, but `missing_before` already excludes `id` and `target` (backend/app.py:41) | training columns `id`, `target`, `ps_ind_01` show -1; the real data shows 55 for 57 features | the key count of `missing_before` | medium, not executed | Preprocessing.FeaturesProcessedExample | Preprocessing.FeaturesProcessedCounts |
