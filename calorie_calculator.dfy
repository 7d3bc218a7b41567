/** The maintenance-calorie calculator: the Basal Metabolic Rate by the
    Mifflin-St Jeor formula, and the Total Daily Energy Expenditure obtained
    by scaling it with the factor of an activity level. Numbers are exact
    reals; both operations either return a value or fail with a ValueError
    carrying the source's message. */
module CalorieCalculator {
  import opened Strings

  datatype Option<T> = None | Some(value: T)

  /** A call either returns a value or raises ValueError with a message. */
  datatype Result<T> = Ok(value: T) | ValueError(message: string)

  /** The activity-level table, in its definition order. */
  const ActivityFactors: seq<(string, real)> := [
    ("sedentary", 1.2),
    ("lightly_active", 1.375),
    ("moderately_active", 1.55),
    ("very_active", 1.725),
    ("super_active", 1.9)
  ]

  const GenderMessage: string := "Gender must be 'male' or 'female'."

  const ActivityMessagePrefix: string := "Invalid activity level. Choose from: "

  /** The keys of a table, in table order (the dictionary's `keys()`). */
  function Keys(table: seq<(string, real)>): (ks: seq<string>)
    ensures |ks| == |table|
    ensures forall i :: 0 <= i < |table| ==> ks[i] == table[i].0
  {
    if table == [] then [] else [table[0].0] + Keys(table[1..])
  }

  /** No key occurs twice in the table, as in a dictionary. */
  predicate DistinctKeys(table: seq<(string, real)>) {
    forall i, j :: 0 <= i < j < |table| ==> table[i].0 != table[j].0
  }

  /** Indexing the table by a key: the factor stored under it, or None when
      the key is absent. */
  function Lookup(table: seq<(string, real)>, key: string): (r: Option<real>)
    ensures r.Some? <==> key in Keys(table)
    ensures r.Some? ==> exists i :: 0 <= i < |table| && table[i] == (key, r.value)
  {
    if table == [] then None
    else if table[0].0 == key then Some(table[0].1)
    else Lookup(table[1..], key)
  }

  /** In a table without repeated keys, looking up the key at position `i`
      gives the factor at position `i`. */
  lemma {:induction false} LookupAt(table: seq<(string, real)>, i: int)
    requires DistinctKeys(table)
    requires 0 <= i < |table|
    ensures Lookup(table, table[i].0) == Some(table[i].1)
  {
    if i > 0 {
      assert table[0].0 != table[i].0;
      assert table[1..][i - 1] == table[i];
      LookupAt(table[1..], i - 1);
    }
  }

  /** `calculate_bmr`: fails unless the lower-cased gender is "male" or
      "female"; otherwise 10 W + 6.25 H - 5 A plus 5 for men, minus 161 for
      women. */
  function CalculateBmr(weightKg: real, heightCm: real, age: int, gender: string): (r: Result<real>)
    ensures r.ValueError? <==> Lower(gender) != "male" && Lower(gender) != "female"
    ensures r.ValueError? ==> r.message == GenderMessage
    ensures Lower(gender) == "male" ==> r.Ok? && r.value == 10.0 * weightKg + 6.25 * heightCm - 5.0 * (age as real) + 5.0
    ensures Lower(gender) == "female" ==> r.Ok? && r.value == 10.0 * weightKg + 6.25 * heightCm - 5.0 * (age as real) - 161.0
  {
    if Lower(gender) !in ["male", "female"] then
      ValueError(GenderMessage)
    else
      var baseBmr := 10.0 * weightKg + 6.25 * heightCm - 5.0 * (age as real);
      if Lower(gender) == "male" then Ok(baseBmr + 5.0) else Ok(baseBmr - 161.0)
  }

  /** The normalisation `calculate_tdee` applies to its activity level:
      lower-case, then every space becomes an underscore. */
  function NormaliseActivityLevel(s: string): (r: string)
    ensures |r| == |s|
    ensures forall i :: 0 <= i < |s| ==> r[i] == (if s[i] == ' ' then '_' else LowerChar(s[i]))
  {
    ReplaceChar(Lower(s), ' ', '_')
  }

  /** The message of the ValueError for an unknown activity level: the
      prefix, then every key joined by ", " in table order. */
  const ActivityMessage: string := ActivityMessagePrefix + Join(Keys(ActivityFactors), ", ")

  /** The part of `calculate_tdee` after normalisation: fails when `key` is
      not a key of the table; otherwise the BMR times the factor stored
      under `key`. */
  function TdeeForKey(bmr: real, key: string): (r: Result<real>)
    ensures r.ValueError? <==> key !in Keys(ActivityFactors)
    ensures r.ValueError? ==> r.message == ActivityMessage
    ensures r.Ok? ==> exists i :: 0 <= i < |ActivityFactors| && ActivityFactors[i].0 == key && r.value == bmr * ActivityFactors[i].1
  {
    match Lookup(ActivityFactors, key)
    case None => ValueError(ActivityMessage)
    case Some(factor) => Ok(bmr * factor)
  }

  /** `calculate_tdee`: normalise the activity level, then fail when it is
      not a key of the table and otherwise scale the BMR by its factor. */
  function CalculateTdee(bmr: real, activityLevel: string): (r: Result<real>)
    ensures r.ValueError? <==> NormaliseActivityLevel(activityLevel) !in Keys(ActivityFactors)
    ensures r.ValueError? ==> r.message == ActivityMessage
    ensures r.Ok? ==> exists i :: 0 <= i < |ActivityFactors| && ActivityFactors[i].0 == NormaliseActivityLevel(activityLevel) && r.value == bmr * ActivityFactors[i].1
  {
    TdeeForKey(bmr, NormaliseActivityLevel(activityLevel))
  }

  // ---------------------------------------------------------------------
  // The table

  /** The keys, in definition order. */
  lemma KeysInOrder()
    ensures Keys(ActivityFactors) == ["sedentary", "lightly_active", "moderately_active", "very_active", "super_active"]
  {
  }

  /** Table keys are distinct, and the factors strictly increase in table
      order, from 1.2 to 1.9. */
  lemma FactorsIncreasing()
    ensures DistinctKeys(ActivityFactors)
    ensures forall i, j :: 0 <= i < j < |ActivityFactors| ==> ActivityFactors[i].1 < ActivityFactors[j].1
    ensures ActivityFactors[0].1 == 1.2 && ActivityFactors[|ActivityFactors| - 1].1 == 1.9
  {
  }

  /** Every factor lies between the first and the last one. */
  lemma FactorBounds(i: int)
    requires 0 <= i < |ActivityFactors|
    ensures 1.2 <= ActivityFactors[i].1 <= 1.9
  {
    FactorsIncreasing();
  }

  // ---------------------------------------------------------------------
  // BMR

  /** The gender is validated and compared in lower case only, so two
      spellings with the same lower-casing give the same outcome. */
  lemma BmrCaseInsensitive(weightKg: real, heightCm: real, age: int, g1: string, g2: string)
    requires Lower(g1) == Lower(g2)
    ensures CalculateBmr(weightKg, heightCm, age, g1) == CalculateBmr(weightKg, heightCm, age, g2)
  {
  }

  /** "Male", "MALE" and "male" give the same result, and so do "Female"
      and "female". */
  lemma BmrSpellings(weightKg: real, heightCm: real, age: int)
    ensures CalculateBmr(weightKg, heightCm, age, "Male") == CalculateBmr(weightKg, heightCm, age, "male")
    ensures CalculateBmr(weightKg, heightCm, age, "MALE") == CalculateBmr(weightKg, heightCm, age, "male")
    ensures CalculateBmr(weightKg, heightCm, age, "Female") == CalculateBmr(weightKg, heightCm, age, "female")
    ensures CalculateBmr(weightKg, heightCm, age, "male").Ok?
    ensures CalculateBmr(weightKg, heightCm, age, "female").Ok?
  {
    assert Lower("Male") == "male";
    assert Lower("MALE") == "male";
    assert Lower("Female") == "female";
    assert Lower("male") == "male";
    assert Lower("female") == "female";
  }

  /** For the same weight, height and age, a man's BMR exceeds a woman's by
      exactly 166. */
  lemma BmrGenderGap(weightKg: real, heightCm: real, age: int, man: string, woman: string)
    requires Lower(man) == "male" && Lower(woman) == "female"
    ensures CalculateBmr(weightKg, heightCm, age, man).Ok?
    ensures CalculateBmr(weightKg, heightCm, age, woman).Ok?
    ensures CalculateBmr(weightKg, heightCm, age, man).value - CalculateBmr(weightKg, heightCm, age, woman).value == 166.0
  {
  }

  /** BMR strictly increases with weight and with height, and strictly
      decreases with age, whichever valid gender is given. */
  lemma BmrMonotonic(w1: real, w2: real, h1: real, h2: real, a1: int, a2: int, gender: string)
    requires CalculateBmr(w1, h1, a1, gender).Ok?
    requires w1 <= w2 && h1 <= h2 && a1 >= a2
    ensures CalculateBmr(w1, h1, a1, gender).value <= CalculateBmr(w2, h2, a2, gender).value
    ensures (w1 < w2 || h1 < h2 || a1 > a2) ==> CalculateBmr(w1, h1, a1, gender).value < CalculateBmr(w2, h2, a2, gender).value
  {
  }

  /** The outcome for the example profiles: 53 kg, 165 cm, 20 years, male
      gives 1466.25; 70 kg, 170 cm, 30 years, female gives 1451.5; and an
      unknown gender fails with the gender message. */
  lemma BmrExamples()
    ensures CalculateBmr(53.0, 165.0, 20, "male") == Ok(1466.25)
    ensures CalculateBmr(70.0, 170.0, 30, "female") == Ok(1451.5)
    ensures CalculateBmr(70.0, 170.0, 30, "x") == ValueError(GenderMessage)
    ensures CalculateBmr(70.0, 170.0, 30, "other").ValueError?
    ensures CalculateBmr(70.0, 170.0, 30, "man").ValueError?
    ensures CalculateBmr(70.0, 170.0, 30, "").ValueError?
  {
    assert Lower("male") == "male";
    assert Lower("female") == "female";
    assert Lower("x") == "x";
    assert Lower("other") == "other";
    assert Lower("man") == "man";
  }

  // ---------------------------------------------------------------------
  // Activity-level normalisation

  /** Normalising twice is normalising once. */
  lemma NormaliseIdempotent(s: string)
    ensures NormaliseActivityLevel(NormaliseActivityLevel(s)) == NormaliseActivityLevel(s)
  {
    var n := NormaliseActivityLevel(s);
    var nn := NormaliseActivityLevel(n);
    forall i | 0 <= i < |s| ensures nn[i] == n[i] {
      assert n[i] != ' ';
    }
  }

  /** A normalised level holds no space and no upper-case ASCII letter, and
      such a string is its own normalisation. */
  lemma NormalisedForm(s: string)
    ensures forall i :: 0 <= i < |s| ==> NormaliseActivityLevel(s)[i] != ' ' && !IsUpper(NormaliseActivityLevel(s)[i])
    ensures NormaliseActivityLevel(s) == s <==> forall i :: 0 <= i < |s| ==> s[i] != ' ' && !IsUpper(s[i])
  {
    var n := NormaliseActivityLevel(s);
    if n == s {
      forall i | 0 <= i < |s| ensures s[i] != ' ' && !IsUpper(s[i]) {
        assert s[i] == n[i];
      }
    }
  }

  /** "Lightly Active" normalises to the table key "lightly_active". */
  lemma NormaliseExample()
    ensures NormaliseActivityLevel("Lightly Active") == "lightly_active"
  {
    assert Lower("Lightly Active") == "lightly active";
  }

  // ---------------------------------------------------------------------
  // TDEE

  /** The error message lists the keys joined by ", " in definition order. */
  lemma ActivityMessageText()
    ensures ActivityMessage == "Invalid activity level. Choose from: "
      + ("sedentary" + ", " + ("lightly_active" + ", " + ("moderately_active" + ", " + ("very_active" + ", " + "super_active"))))
  {
    var sep := ", ";
    KeysInOrder();
    JoinCons("sedentary", ["lightly_active", "moderately_active", "very_active", "super_active"], sep);
    JoinCons("lightly_active", ["moderately_active", "very_active", "super_active"], sep);
    JoinCons("moderately_active", ["very_active", "super_active"], sep);
    JoinCons("very_active", ["super_active"], sep);
  }

  /** When the level normalises to the key at position `i`, TDEE is the BMR
      times the factor at position `i`. */
  lemma TdeeFactor(bmr: real, activityLevel: string, i: int)
    requires 0 <= i < |ActivityFactors|
    requires NormaliseActivityLevel(activityLevel) == ActivityFactors[i].0
    ensures CalculateTdee(bmr, activityLevel).Ok?
    ensures CalculateTdee(bmr, activityLevel).value == bmr * ActivityFactors[i].1
  {
    FactorsIncreasing();
    LookupAt(ActivityFactors, i);
  }

  /** TDEE depends on the level only through its normalisation. */
  lemma TdeeNormalised(bmr: real, activityLevel: string)
    ensures CalculateTdee(bmr, NormaliseActivityLevel(activityLevel)) == CalculateTdee(bmr, activityLevel)
  {
    NormaliseIdempotent(activityLevel);
  }

  /** For a non-negative BMR, a successful TDEE lies between 1.2 and 1.9
      times the BMR. */
  lemma TdeeBounds(bmr: real, activityLevel: string)
    requires bmr >= 0.0
    requires CalculateTdee(bmr, activityLevel).Ok?
    ensures 1.2 * bmr <= CalculateTdee(bmr, activityLevel).value <= 1.9 * bmr
  {
    TdeeForKeyBounds(bmr, NormaliseActivityLevel(activityLevel));
  }

  /** The bound of TdeeBounds for an already normalised key. */
  lemma TdeeForKeyBounds(bmr: real, key: string)
    requires bmr >= 0.0
    requires TdeeForKey(bmr, key).Ok?
    ensures 1.2 * bmr <= TdeeForKey(bmr, key).value <= 1.9 * bmr
  {
    var f := Lookup(ActivityFactors, key).value;
    assert 1.2 <= f <= 1.9 by {
      var i :| 0 <= i < |ActivityFactors| && ActivityFactors[i] == (key, f);
      FactorBounds(i);
    }
    MulBetween(bmr, f);
  }

  /** A non-negative number times a factor in [1.2, 1.9] lies between 1.2
      and 1.9 times that number. */
  lemma MulBetween(x: real, f: real)
    requires x >= 0.0 && 1.2 <= f <= 1.9
    ensures 1.2 * x <= x * f <= 1.9 * x
  {
    assert x * f - 1.2 * x == x * (f - 1.2);
    assert 1.9 * x - x * f == x * (1.9 - f);
  }

  /** For a positive BMR, a level later in the table gives a strictly
      larger TDEE. */
  lemma TdeeIncreasesWithActivity(bmr: real, lower: string, higher: string, i: int, j: int)
    requires bmr > 0.0
    requires 0 <= i < j < |ActivityFactors|
    requires NormaliseActivityLevel(lower) == ActivityFactors[i].0
    requires NormaliseActivityLevel(higher) == ActivityFactors[j].0
    ensures CalculateTdee(bmr, lower).Ok? && CalculateTdee(bmr, higher).Ok?
    ensures CalculateTdee(bmr, lower).value < CalculateTdee(bmr, higher).value
  {
    TdeeFactor(bmr, lower, i);
    TdeeFactor(bmr, higher, j);
    assert ActivityFactors[i].1 < ActivityFactors[j].1 by {
      FactorsIncreasing();
    }
    MulIncreasing(bmr, ActivityFactors[i].1, ActivityFactors[j].1);
  }

  /** Scaling a positive number by a larger factor gives a larger product. */
  lemma MulIncreasing(x: real, f: real, g: real)
    requires x > 0.0 && f < g
    ensures x * f < x * g
  {
    assert x * g - x * f == x * (g - f);
  }

  /** The demonstration block's example profile: BMR 1466.25 at
      "lightly_active" gives 2016.09375, so does "Lightly Active", and
      "extreme" fails with the listing message. */
  lemma TdeeExamples()
    ensures CalculateTdee(1466.25, "lightly_active") == Ok(2016.09375)
    ensures CalculateTdee(1466.25, "Lightly Active") == Ok(2016.09375)
    ensures CalculateTdee(1466.25, "extreme") == ValueError(ActivityMessage)
  {
    NormaliseExample();
    assert NormaliseActivityLevel("lightly_active") == "lightly_active";
    TdeeFactor(1466.25, "lightly_active", 1);
    TdeeFactor(1466.25, "Lightly Active", 1);
    KeysInOrder();
    assert NormaliseActivityLevel("extreme") == "extreme";
  }
}
