# Crop fertilizer recommendation: a Dafny model

This project models the recommendation engine of the soil nutrient manager
(`recommend_fertilizer_for_crop` in `soil.py`). The engine takes a crop name,
the observed soil nutrient levels and the crop-requirements table. It finds
the first table row that names the crop. For each nutrient column of that row,
it recommends the deficit `max(0, required - observed)` when the nutrient was
observed, and the full required level when it was not. An unknown crop gives
an empty recommendation, and no error is raised.

The source reads the requirements table from a global that is loaded from a
CSV file. Here the table is an explicit parameter.

- `nutrient_levels.dfy` (module `NutrientLevels`): an insertion-ordered
  mapping from nutrient name to quantity. It stands for both a crop's row of
  requirements (a pandas Series) and the recommendation (a Python dict).
  `Assign` is dict item assignment: a key that is already present keeps its
  position and gets the new value, and a new key is appended.
- `crop_table.dfy` (module `CropTable`): the requirements table as rows of
  `CropRow(crop, requirements)` in file order. `Lookup` returns the first row
  whose crop name matches.
- `fertilizer.dfy` (module `Fertilizer`): the engine. `Recommend` and `Fill`
  are the functional definition. `RecommendFertilizer`, `FirstRow` and
  `FillLoop` follow the source's scan and loop. Lemmas state the engine's
  promises.

Quantities are exact `real`s. The source computes with floating point, but
its logic is one subtraction and one `max`.

Two facts about the code shape the model:
- Crop names may repeat in the table. The code uses the first matching row
  (`iloc[0]`).
- The code never checks that observed levels are non-negative, so the model
  accepts any observed value. Non-negativity of the result needs only
  non-negative requirements.

## Model

| member | source | states |
|---|---|---|
| NutrientLevels.Assign | soil.py:32-34 | Dict item assignment: an existing key keeps its place, takes the new value there, and the key order is unchanged; a new key is appended at the end, entries under other keys are untouched, every entry is either the new one or an old one at the same position, and distinct keys stay distinct |
| NutrientLevels.AssignGet | soil.py:32-34 | Reading after writing: the assigned nutrient reads back the assigned quantity, and every other nutrient reads what it read before |
| CropTable.Known | soil.py:27 | The `crop in crop_requirements['Crop'].values` test: the crop is in the crop column exactly when some row carries that name; Lookup's `None? <==> !Known` ties it to the lookup |
| CropTable.Lookup | soil.py:27-28 | No profile is found exactly when no row carries the crop name; a profile that is found is the requirements of a row carrying that name |
| CropTable.LookupFirstMatch | soil.py:28 | When several rows share the crop name, the profile used is that of the first such row |
| Fertilizer.Max | soil.py:32 | Python's `max(0, deficit)`: the result is at least both arguments and is one of them |
| Fertilizer.Quantity | soil.py:30-34 | Per nutrient: an unobserved nutrient gets its full requirement; an observed one gets a non-negative quantity that is either 0 or the deficit and is never below the deficit. RecommendObserved and RecommendUnobserved state it for the engine's result |
| Fertilizer.Fill | soil.py:29-34 | The recommendation for a profile has no repeated nutrient and names exactly the profile's nutrients |
| Fertilizer.Recommend | soil.py:24-36 | An unknown crop gives the empty recommendation; a recommendation never names a nutrient twice |
| Fertilizer.FillLookup | soil.py:29-34 | Looked up as a map, the recommendation for a nutrient is the recommended quantity for the requirement the profile gives it, with a later repeated column overriding an earlier one; nutrients outside the profile are absent |
| Fertilizer.FillExact | soil.py:29-34 | For a profile with distinct nutrient names, the dictionary the loop builds equals the reference reading `Expected`: one entry per profile entry, in profile order, each holding its recommended quantity |
| Fertilizer.FillNonNegative | soil.py:32-34 | Non-negative requirements give only non-negative recommended quantities, whatever was observed |
| Fertilizer.FillSaturated | soil.py:30-32 | When every profile nutrient is observed at or above its requirement, every recommended quantity is zero |
| Fertilizer.FillAgree | soil.py:29-30 | Two observations that agree on the profile's nutrients give the same recommendation |
| Fertilizer.RecommendEmpty | soil.py:25-36 | The recommendation is empty if and only if the crop is unknown or its first row requires no nutrient, so the two cases cannot be told apart |
| Fertilizer.RecommendUsesFirstRow | soil.py:27-34 | With repeated crop names, the recommendation is computed from the first matching row only, and with distinct nutrient names it is that row read entry by entry |
| Fertilizer.RecommendKeys | soil.py:29-34 | For a listed crop, the recommendation's nutrient names are the profile's, in profile order, one entry each |
| Fertilizer.RecommendObserved | soil.py:30-32 | An observed nutrient is recommended `required - observed` when that is positive, and 0 otherwise |
| Fertilizer.RecommendUnobserved | soil.py:33-34 | A nutrient that was not observed is recommended its full required level |
| Fertilizer.RecommendNonNegative | soil.py:29-34 | If the crop's required levels are non-negative, every recommended quantity is non-negative, whatever was observed |
| Fertilizer.RecommendIgnoresUnrelated | soil.py:29-30 | Adding or removing an observation of a nutrient the crop does not require leaves the recommendation unchanged |
| Fertilizer.RecommendNothingObserved | soil.py:30-34 | With no observations, the recommendation equals the crop's requirement profile |
| Fertilizer.RecommendSaturated | soil.py:30-32 | If every required nutrient is observed at or above its requirement, every recommended quantity is zero |
| Fertilizer.WheatScenario | soil.py:24-36 | Wheat needs N 120, P 60 and K 40. With N 50 and P 70 observed, the recommendation is N 70, P 0, K 40 |
| Fertilizer.FirstRow | soil.py:27-28 | The scan stops at the first row that carries the crop name, or past the end when no row does |
| Fertilizer.FillLoop | soil.py:25-34 | The loop over the profile, with its observed and unobserved branches, builds the same dictionary as the functional definition |
| Fertilizer.RecommendFertilizer | soil.py:24-36 | The scan-and-loop engine returns the functional recommendation, which is empty for an unknown crop |

## Left out

- Loading the soil data and the crop-requirements table from CSV files (soil.py:10, soil.py:13) is file I/O. The table is a parameter instead.
- The `StandardScaler` and `LinearRegression` fitting (soil.py:15-21) and the scaling of the inputs (soil.py:57) are floating-point statistics in an external library. They do not correctly feed the recommendation.
- The call site at soil.py:59 passes a scaled numpy array instead of a mapping keyed by nutrient name, so its `in` test is not a dictionary lookup. The model takes the observed levels as a name-keyed map, as the engine's own code expects.
- The tkinter form and event loop (soil.py:39-117), the bar chart of required levels (soil.py:39-50) and the two-decimal text rendering of the result (soil.py:61-69) are presentation.
- Floating-point effects (rounding, NaN cells in the table, NaN observations) are not modelled: quantities are exact reals.
- Duplicate nutrient columns cannot reach the engine, because pandas renames repeated CSV headers. The model still gives them Python dict semantics (`FillLookup`). The positional lemmas assume distinct nutrient names.
- The table is assumed to have the crop name as its first column. The source relies on this when it drops column 0 with `iloc[0, 1:]`.
