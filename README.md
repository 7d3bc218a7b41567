# Maintenance calorie calculator, modelled in Dafny

The calculator computes two numbers. The first is the Basal Metabolic Rate (BMR), from
weight (kg), height (cm), age (years) and gender, using the Mifflin-St Jeor
formula. The second is the Total Daily Energy Expenditure (TDEE): the BMR times
the factor of an activity level taken from a fixed table of five levels.
Both operations either return a number or raise `ValueError` with a fixed
message. Numbers beyond the range of a double are the exception; see
"## Left out".

The model is pure, like the source:

- `strings.dfy`, module `Strings`: the string operations the calculator uses.
  These are ASCII `lower()`, `replace` of one character by another, and `join`.
- `calorie_calculator.dfy`, module `CalorieCalculator`: the activity-factor
  table, `CalculateBmr`, the activity-level normalisation, `CalculateTdee` and
  the lemmas about them.

Modelling choices:

- Numbers are Dafny `real`, so every result is exact. Every constant in
  the source (10, 6.25, 5, 161, 1.2, 1.375, 1.55, 1.725, 1.9) is an exact
  decimal. The model matches the source only up to the rounding of IEEE-754
  doubles.
- A call returns `Result<real>`: `Ok(value)`, or `ValueError(message)` with
  the source's message text.
- The table `ActivityFactors` is an ordered `seq<(string, real)>`.
  Python dictionaries keep insertion order, so the order of `keys()` is
  explicit. Dictionary membership is `key in Keys(table)`. Indexing is
  `Lookup`, and `LookupAt` shows that it finds the factor stored with the key,
  because the keys are distinct.
- `replace(" ", "_")` replaces a one-character string with another one, so it
  is a character-by-character map (`ReplaceChar`).
- Both operations are functions, so equal inputs always give equal results.
- The only error modelled is Python's `ValueError`.
- Weight, height and age are not range-checked. Any real weight and height
  and any integer age are accepted, within the range of a double (see
  "## Left out").

## Model

| member | source | states |
|---|---|---|
| `Strings.LowerChar` | calorie_calculator.py:28 | The result is never an upper-case ASCII letter. A character that is not one is returned unchanged. An upper-case letter becomes the lower-case letter at the same alphabet position. |
| `Strings.Lower` | calorie_calculator.py:28 | `lower()` keeps the length and lower-cases each character in place. |
| `Strings.LowerIdempotent` | calorie_calculator.py:28 | Lower-casing an already lower-cased string changes nothing. |
| `Strings.LowerFixedPoint` | calorie_calculator.py:28 | A string equals its lower-casing exactly when it holds no upper-case ASCII letter (both directions). |
| `Strings.ReplaceChar` | calorie_calculator.py:56 | `replace` keeps the length, replaces every occurrence of the target character and leaves every other character unchanged. |
| `Strings.Join` | calorie_calculator.py:59 | Joining no parts gives "". Otherwise the length is the sum of the parts' lengths plus one separator between each pair of neighbours, and the result starts with the first part. |
| `Strings.JoinCons` | calorie_calculator.py:59 | Joining a part in front of a non-empty list gives that part, the separator, then the joined list. |
| `Strings.JoinSnoc` | calorie_calculator.py:59 | Joining one more part appends the separator and then that part, so the parts appear in the order given. |
| `CalorieCalculator.Keys` | calorie_calculator.py:59 | `keys()` has one entry per table row, and entry i is the key of row i. |
| `CalorieCalculator.Lookup` | calorie_calculator.py:58-61 | Indexing by a key finds a factor exactly when the key is in the table, and that factor is stored with that key. |
| `CalorieCalculator.LookupAt` | calorie_calculator.py:61 | In a table without repeated keys, looking up the key of row i gives the factor of row i. |
| `CalorieCalculator.CalculateBmr` | calorie_calculator.py:12-40 | Fails, with the gender message, exactly when the lower-cased gender is neither "male" nor "female". Otherwise it returns 10 W + 6.25 H - 5 A + 5 for "male" and 10 W + 6.25 H - 5 A - 161 for "female". |
| `CalorieCalculator.BmrCaseInsensitive` | calorie_calculator.py:28-38 | Two gender strings with the same lower-casing give the same outcome, error or value. |
| `CalorieCalculator.BmrSpellings` | calorie_calculator.py:28-38 | "Male", "MALE" and "male" give the same valid BMR, and so do "Female" and "female". |
| `CalorieCalculator.BmrGenderGap` | calorie_calculator.py:31-38 | With equal weight, height and age, a male BMR exceeds a female BMR by exactly 166. |
| `CalorieCalculator.BmrMonotonic` | calorie_calculator.py:31 | For a valid gender, the BMR does not decrease when weight or height rises or age falls. It strictly increases when at least one of them changes. |
| `CalorieCalculator.BmrExamples` | calorie_calculator.py:28-40 | 53 kg, 165 cm, 20 years, male gives 1466.25. 70 kg, 170 cm, 30 years, female gives 1451.5. "x", "other", "man" and "" are refused. |
| `CalorieCalculator.NormaliseActivityLevel` | calorie_calculator.py:56 | Keeps the length. Each space becomes an underscore and every other character is lower-cased. |
| `CalorieCalculator.NormaliseIdempotent` | calorie_calculator.py:56 | Normalising an already normalised level changes nothing. |
| `CalorieCalculator.NormalisedForm` | calorie_calculator.py:56 | A normalised level holds no space and no upper-case ASCII letter. A string is its own normalisation exactly when it holds neither. |
| `CalorieCalculator.NormaliseExample` | calorie_calculator.py:56 | "Lightly Active" normalises to "lightly_active". |
| `CalorieCalculator.KeysInOrder` | calorie_calculator.py:4-10 | The keys, in definition order, are sedentary, lightly_active, moderately_active, very_active, super_active. |
| `CalorieCalculator.FactorsIncreasing` | calorie_calculator.py:4-10 | The keys are distinct. The factors strictly increase in table order, from 1.2 to 1.9. |
| `CalorieCalculator.FactorBounds` | calorie_calculator.py:4-10 | Every factor lies in [1.2, 1.9]. |
| `CalorieCalculator.TdeeForKey` | calorie_calculator.py:58-65 | For an already normalised key: fails, with the key-listing message, exactly when the key is not in the table. Otherwise it returns the BMR times the factor of the table row with that key. |
| `CalorieCalculator.CalculateTdee` | calorie_calculator.py:42-65 | Fails, with the key-listing message, exactly when the normalised level is not a table key. Otherwise it returns the BMR times the factor of a table row whose key is the normalised level. |
| `CalorieCalculator.ActivityMessageText` | calorie_calculator.py:58-59 | The error message is "Invalid activity level. Choose from: " followed by the five keys, joined by ", ", in definition order. |
| `CalorieCalculator.TdeeFactor` | calorie_calculator.py:61-63 | If the level normalises to the key of row i, TDEE succeeds and equals the BMR times the factor of row i. |
| `CalorieCalculator.TdeeNormalised` | calorie_calculator.py:56 | A level and its normalisation give the same outcome, so "Lightly Active" and "lightly_active" are interchangeable. |
| `CalorieCalculator.TdeeBounds` | calorie_calculator.py:61-63 | For a non-negative BMR, a successful TDEE lies between 1.2 x BMR and 1.9 x BMR. |
| `CalorieCalculator.TdeeForKeyBounds` | calorie_calculator.py:61-63 | The same bound for an already normalised key. |
| `CalorieCalculator.TdeeIncreasesWithActivity` | calorie_calculator.py:4-10 | For a positive BMR, a level later in the table gives a strictly larger TDEE. |
| `CalorieCalculator.TdeeExamples` | calorie_calculator.py:56-63 | BMR 1466.25 at "lightly_active" or "Lightly Active" gives 2016.09375. "extreme" fails with the key-listing message. |

## Left out

- The `__main__` demonstration block (calorie_calculator.py:68-90) is not modelled. It prints, formats for display (`capitalize`, `replace('_', ' ')`) and rounds floats with `round(..., 2)` and `math.ceil`. None of that is calculation logic.
- IEEE-754 rounding is not modelled. Values are exact reals, so results agree with the source only up to floating-point rounding.
- Values beyond the range of a double are not modelled. An `int` age or weight too large for a double (for example `10**400`) makes line 31 raise `OverflowError`. A float weight such as `1e308` gives `inf`, and combining it with a height of `-1e308` gives `nan`. The model has no `OverflowError`, infinity or NaN: in all these cases it returns a finite `Ok` value.
- `Strings.Lower`: lower-cases ASCII letters only. Python's `str.lower()` also folds non-ASCII letters, and some of those change the string's length. Those characters are left unchanged here. This changes neither operation's outcome. Of the non-ASCII characters, only the Kelvin sign (U+212A) lower-cases to an ASCII letter, 'k', and 'k' occurs in no table key and in neither gender word. Every other non-ASCII character stays non-ASCII after lower-casing, so the string matches no key and no gender word in the source or in the model.
- Argument types are not checked. The source's type hints (float, int, str) are taken as given, and age is an integer, as annotated.
