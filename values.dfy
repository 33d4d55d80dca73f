/** The scalar flag-value parsers: blank means "use the default". */
module Values {
  import opened Wrappers
  import opened GoStrings
  import opened GoStrconv

  /**
   * parseBoolWithDefault: a blank value gives the fallback; otherwise the
   * value is true exactly when it is "true" or "yes" in any case, or exactly
   * "1". The value itself is not trimmed.
   */
  function ParseBoolWithDefault(v: string, fallback: bool): (r: bool)
    ensures AllSpace(v) ==> r == fallback
    ensures !AllSpace(v) ==> (r <==> EqualFold(v, "true") || EqualFold(v, "yes") || v == "1")
  {
    if TrimSpace(v) == "" then fallback
    else EqualFold(v, "true") || EqualFold(v, "yes") || v == "1"
  }

  /** A non-blank value decides the result alone: the fallback plays no part. */
  lemma ParseBoolIgnoresFallback(v: string)
    requires !AllSpace(v)
    ensures ParseBoolWithDefault(v, true) == ParseBoolWithDefault(v, false)
  {
  }

  /** Upper-casing a value does not change how it parses. */
  lemma ParseBoolCaseInsensitive(v: string, fallback: bool)
    ensures ParseBoolWithDefault(ToUpper(v), fallback) == ParseBoolWithDefault(v, fallback)
  {
    var u := ToUpper(v);
    EqualFoldToUpper(v, "true");
    EqualFoldToUpper(v, "yes");
    AllSpaceToUpper(v);
    assert u == "1" <==> v == "1" by {
      if u == "1" {
        assert v[0] == '1';
      }
    }
    if !AllSpace(v) {
      assert ParseBoolWithDefault(u, fallback) <==> EqualFold(u, "true") || EqualFold(u, "yes") || u == "1";
    }
  }

  /** A value with white space around it is not trimmed before the comparison. */
  lemma ParseBoolUntrimmed()
    ensures ParseBoolWithDefault(" true", true) == false
  {
    assert !AllSpace(" true") by { assert !IsSpace(" true"[1]); }
    assert !EqualFold(" true", "true");
    assert !EqualFold(" true", "yes");
  }

  /**
   * parseIntWithDefault: a blank value gives the fallback and no error;
   * otherwise strconv.Atoi's result, with 0 beside an error.
   */
  function ParseIntWithDefault(v: string, fallback: int): (r: (int, Option<NumError>))
    ensures AllSpace(v) ==> r == (fallback, None)
    ensures r.1.Some? ==> r.0 == 0
  {
    if TrimSpace(v) == "" then (fallback, None)
    else
      match Atoi(v)
      case Failure(e) => (0, Some(e))
      case Success(n) => (n, None)
  }

  /**
   * A non-blank value parses without error exactly when it is an optional
   * sign and decimal digits denoting a 64-bit int, and then gives that int;
   * a malformed value gives 0 and an error naming it.
   */
  lemma ParseIntMeaning(v: string, fallback: int)
    requires !AllSpace(v)
    ensures var (n, err) := ParseIntWithDefault(v, fallback);
      && (err.None? <==> IsDecimal(v) && MinInt64 <= DecimalValue(v) <= MaxInt64)
      && (err.None? ==> n == DecimalValue(v))
      && (err.Some? ==> n == 0 && err.value.fn == "Atoi" && err.value.num == v)
  {
    AtoiCorrect(v);
  }

  /** Every 64-bit int, written in decimal, parses back to itself. */
  lemma ParseIntFormatInt(n: int, fallback: int)
    requires MinInt64 <= n <= MaxInt64
    ensures ParseIntWithDefault(FormatInt(n), fallback) == (n, None)
  {
    AtoiFormatInt(n);
    FormatIntDecimal(n);
    var s := FormatInt(n);
    assert !AllSpace(s) by {
      var u := Unsigned(s);
      assert s[|s| - 1] == u[|u| - 1];
      assert IsDigit(u[|u| - 1]);
    }
  }

  /** White space around a number is an error, not ignored. */
  lemma ParseIntUntrimmed()
    ensures ParseIntWithDefault(" 5", 1) == (0, Some(NumError("Atoi", " 5", InvalidSyntax)))
  {
    assert !AllSpace(" 5") by { assert !IsSpace(" 5"[1]); }
    assert Unsigned(" 5") == " 5";
  }
}
