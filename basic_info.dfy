/** The second onboarding step (`src/components/onboarding/BasicInfo.jsx`):
    `handleNext` needs a name, an age and a sex, then an age from 18 to 100,
    and passes on the name, the age as an integer and the sex. The fields hold
    the text typed in, or what an earlier pass through this step stored. */
module BasicInfo {
  import opened Wrappers
  import opened JsValue
  import opened JsText

  const FillAll := "Please fill in all fields"
  const BadAge := "Please enter a valid age"

  /** The error shown, and the data given to `updateData` when the step
      advances. */
  datatype Outcome = Outcome(error: string, update: Option<Record>)

  /** `age < 18 || age > 100` with the age converted to a number. A value that
      converts to NaN is neither, so it passes. */
  predicate AgeOutOfRange(age: Value)
  {
    LessThan(ToNumber(age), 18) || GreaterThan(ToNumber(age), 100)
  }

  /** `handleNext()`. The error is cleared first, so the one shown afterwards
      depends on the inputs alone. */
  function HandleNext(name: Value, age: Value, sex: Value): Outcome
  {
    if !Truthy(name) || !Truthy(age) || !Truthy(sex) then Outcome(FillAll, None)
    else if AgeOutOfRange(age) then Outcome(BadAge, None)
    else Outcome("", Some(map["name" := name, "age" := ParseIntValue(age), "sex" := sex]))
  }

  /** A missing field is reported before the age is looked at, the range check
      comes second, and the step advances exactly when neither error is shown. */
  lemma HandleNextSpec(name: Value, age: Value, sex: Value)
    ensures HandleNext(name, age, sex).update.Some? <==> HandleNext(name, age, sex).error == ""
    ensures HandleNext(name, age, sex).error == FillAll <==> !(Truthy(name) && Truthy(age) && Truthy(sex))
    ensures HandleNext(name, age, sex).error == BadAge <==> Truthy(name) && Truthy(age) && Truthy(sex) && AgeOutOfRange(age)
  {
  }

  /** On success exactly the name, the parsed age and the sex are passed on. */
  lemma HandleNextUpdate(name: Value, age: Value, sex: Value)
    requires HandleNext(name, age, sex).update.Some?
    ensures var u := HandleNext(name, age, sex).update.value;
      u.Keys == {"name", "age", "sex"} && u["name"] == name && u["sex"] == sex && u["age"] == ParseIntValue(age)
  {
  }

  /** An age typed as plain decimal digits is accepted exactly from 18 to 100
      (both ends included), and then stored as that integer. */
  lemma TypedAgeAccepted(name: Value, n: nat, sex: Value)
    requires Truthy(name) && Truthy(sex)
    ensures var o := HandleNext(name, Str(NatToString(n)), sex);
      && (o.update.Some? <==> 18 <= n <= 100)
      && (o.update.Some? ==> o.update.value["age"] == Num(n))
  {
    var s := NatToString(n);
    DecimalTextNumber(n);
    DecimalTextParseInt(n);
    assert Truthy(Str(s));
  }

  /** The decimal text of n starts with '0' only when it is "0". */
  lemma {:induction false} NatToStringLeadingZero(n: nat)
    ensures NatToString(n)[0] == '0' ==> n == 0 && |NatToString(n)| == 1
    decreases n
  {
    if n >= 10 {
      NatToStringLeadingZero(n / 10);
      assert NatToString(n)[0] == NatToString(n / 10)[0];
    }
  }

  /** Reading the decimal text of n back gives n. */
  lemma {:induction false} NatToStringValue(n: nat)
    ensures DigitsValue(NatToString(n), 10) == n
    decreases n
  {
    var s := NatToString(n);
    if n >= 10 {
      NatToStringValue(n / 10);
      assert s[..|s| - 1] == NatToString(n / 10);
      assert DigitValue(s[|s| - 1]) == n % 10;
    } else {
      assert DigitValue(s[0]) == n;
      assert s[..0] == [];
    }
  }

  /** A text of decimal digits is one run of digits. */
  lemma {:induction false} DigitRunAll(s: string)
    requires forall k :: 0 <= k < |s| ==> '0' <= s[k] <= '9'
    ensures DigitRun(s, 10) == |s|
    decreases |s|
  {
    if s != [] {
      DigitRunAll(s[1..]);
    }
  }

  /** The text has nothing for `trim` to cut. */
  lemma TrimOfDigits(s: string)
    requires |s| > 0 && forall k :: 0 <= k < |s| ==> '0' <= s[k] <= '9'
    ensures Trim(s) == s
  {
    assert !IsSpace(s[0]);
    assert LeadingSpace(s) == 0;
    assert s[0..] == s;
    assert !IsSpace(s[|s| - 1]);
    assert TrailingSpace(s) == 0;
  }

  /** `Number("n")` for the decimal text of n is n. */
  lemma DecimalTextNumber(n: nat)
    ensures ToNumber(Str(NatToString(n))) == Finite(n, 1)
  {
    NatToStringLeadingZero(n);
    NatToStringValue(n);
    DigitTextNumber(NatToString(n));
  }

  /** A text of decimal digits without a leading zero converts to the integer
      it writes. */
  lemma DigitTextNumber(s: string)
    requires |s| > 0 && forall k :: 0 <= k < |s| ==> '0' <= s[k] <= '9'
    requires s[0] == '0' ==> |s| == 1
    ensures StringToNumber(s) == Finite(DigitsValue(s, 10), 1)
  {
    DigitRunAll(s);
    TrimOfDigits(s);
    assert s[0] != '-' && s[0] != '+';
    assert !(|s| >= 2 && s[0] == '0');
    DigitsUnsignedDecimal(s);
  }

  /** A text of decimal digits alone is the integer it writes. */
  lemma DigitsUnsignedDecimal(s: string)
    requires |s| > 0 && DigitRun(s, 10) == |s|
    ensures UnsignedDecimal(s) == Finite(DigitsValue(s, 10), 1)
  {
    assert s[0] != 'I';
    assert s != "Infinity";
    assert s[|s|..] == [];
    assert s[..|s|] + [] == s;
  }

  /** `parseInt("n")` for the decimal text of n is n. */
  lemma DecimalTextParseInt(n: nat)
    ensures ParseIntValue(Str(NatToString(n))) == Num(n)
  {
    NatToStringValue(n);
    DigitTextParseInt(NatToString(n));
  }

  /** `parseInt` of a text of decimal digits is the integer it writes. */
  lemma DigitTextParseInt(s: string)
    requires |s| > 0 && forall k :: 0 <= k < |s| ==> '0' <= s[k] <= '9'
    ensures ParseInt(s) == Num(DigitsValue(s, 10))
  {
    DigitRunAll(s);
    assert !IsSpace(s[0]);
    assert LeadingSpace(s) == 0;
    assert s[0..] == s;
    assert s[0] != '-' && s[0] != '+';
    assert !(|s| >= 2 && (s[1] == 'x' || s[1] == 'X'));
    assert s[..|s|] == s;
  }

  /** An age that is not a number at all passes the range check: only the
      empty field is caught, and the age stored is NaN. */
  lemma NonNumericAgePasses(name: Value, sex: Value)
    requires Truthy(name) && Truthy(sex)
    ensures HandleNext(name, Str("abc"), sex).update == Some(map["name" := name, "age" := NaN, "sex" := sex])
  {
    AbcIsNotANumber();
    AbcParsesToNaN();
  }

  lemma AbcIsNotANumber()
    ensures ToNumber(Str("abc")) == NotANumber
  {
    TrimOfAbc();
    UnsignedDecimalOfAbc();
    assert "abc"[0] == 'a';
  }

  lemma TrimOfAbc()
    ensures Trim("abc") == "abc"
  {
    assert LeadingSpace("abc") == 0;
    assert "abc"[0..] == "abc";
    assert TrailingSpace("abc") == 0;
  }

  lemma UnsignedDecimalOfAbc()
    ensures UnsignedDecimal("abc") == NotANumber
  {
    assert "abc" != "Infinity";
    assert DigitRun("abc", 10) == 0;
    assert "abc"[0..] == "abc";
  }

  lemma AbcParsesToNaN()
    ensures ParseIntValue(Str("abc")) == NaN
  {
    assert LeadingSpace("abc") == 0;
    assert "abc"[0..] == "abc";
    assert DigitRun("abc", 10) == 0;
  }
}
