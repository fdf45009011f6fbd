/** The documented `cleanNumber` examples, each evaluated in small steps. */
module NormalizerExamples {
  import opened Wrappers
  import opened Strings
  import opened Cells
  import opened Normalizer
  import opened NormalizerFacts

  // "1,234.56": the grouping comma goes, the dot stays.

  lemma GroupedKept()
    ensures KeepNumeric("1,234.56") == "1,234.56"
  {
    KeepNumericOfNumeric("1,23");
    KeepNumericOfNumeric("4.56");
    assert "1,234.56" == "1,23" + "4.56";
    KeepNumericAppend("1,23", "4.56");
  }

  lemma GroupedDropped()
    ensures DropGroupingCommas("1,234.56") == "1234.56"
  {
    var t := "1,234.56";
    assert DropGroupingFrom(t, 5) == ".56";
    assert DropGroupingFrom(t, 2) == "234.56";
    assert GroupingComma(t, 1);
  }

  lemma GroupedParsed()
    ensures ParseNumber("1234.56") == Some(Dec(123456, 2))
  {
    assert "1234.56" == "1234" + "." + "56";
    ParseDigitsDot("1234", "56");
  }

  lemma GroupedRead()
    ensures CleanNumber(Str("1,234.56")) == Value(Dec(123456, 2))
  {
    GroupedKept();
    GroupedDropped();
    GroupedParsed();
    CleanReadsDotted("1,234.56", "1,234.56", "1234.56", Dec(123456, 2));
  }

  lemma GroupedValue()
    ensures Value(Dec(123456, 2)) == 1234.56
  {
  }

  /** Grouping commas before a decimal point are dropped. */
  lemma CleanNumberGroupedExample()
    ensures CleanNumber(Str("1,234.56")) == 1234.56
  {
    GroupedRead();
    GroupedValue();
  }

  // "$1,209,927.14": the currency symbol and both grouping commas go.

  lemma CurrencyHeadKept()
    ensures KeepNumeric("1,209,") == "1,209,"
  {
    KeepNumericOfNumeric("1,20");
    KeepNumericOfNumeric("9,");
    assert "1,209," == "1,20" + "9,";
    KeepNumericAppend("1,20", "9,");
  }

  lemma CurrencyTailKept()
    ensures KeepNumeric("927.14") == "927.14"
  {
    KeepNumericOfNumeric("927");
    KeepNumericOfNumeric(".14");
    assert "927.14" == "927" + ".14";
    KeepNumericAppend("927", ".14");
  }

  lemma CurrencyDigitsKept()
    ensures KeepNumeric("1,209,927.14") == "1,209,927.14"
  {
    CurrencyHeadKept();
    CurrencyTailKept();
    assert "1,209,927.14" == "1,209," + "927.14";
    KeepNumericAppend("1,209,", "927.14");
  }

  lemma CurrencySplit()
    ensures "$1,209,927.14" == "$" + "1,209,927.14"
  {
  }

  lemma KeepNumericAfterSymbol(a: string, b: string)
    requires KeepNumeric(a) == [] && KeepNumeric(b) == b
    ensures KeepNumeric(a + b) == b
  {
    KeepNumericAppend(a, b);
  }

  lemma CurrencyKept()
    ensures KeepNumeric("$1,209,927.14") == "1,209,927.14"
  {
    CurrencyDigitsKept();
    CurrencySplit();
    assert KeepNumeric("$") == [];
    KeepNumericAfterSymbol("$", "1,209,927.14");
  }

  lemma CurrencyDropped()
    ensures DropGroupingCommas("1,209,927.14") == "1209927.14"
  {
    var t := "1,209,927.14";
    assert DropGroupingFrom(t, 9) == ".14";
    assert DropGroupingFrom(t, 6) == "927.14";
    assert GroupingComma(t, 5);
    assert DropGroupingFrom(t, 2) == "209927.14";
    assert GroupingComma(t, 1);
  }

  lemma CurrencyParsed()
    ensures ParseNumber("1209927.14") == Some(Dec(120992714, 2))
  {
    assert "1209927.14" == "1209927" + "." + "14";
    ParseDigitsDot("1209927", "14");
  }

  lemma CurrencyRead()
    ensures CleanNumber(Str("$1,209,927.14")) == Value(Dec(120992714, 2))
  {
    CurrencyKept();
    CurrencyDropped();
    CurrencyParsed();
    CleanReadsDotted("$1,209,927.14", "1,209,927.14", "1209927.14", Dec(120992714, 2));
  }

  lemma CurrencyValue()
    ensures Value(Dec(120992714, 2)) == 1209927.14
  {
  }

  /** A currency symbol is ignored and every grouping comma is dropped. */
  lemma CleanNumberCurrencyExample()
    ensures CleanNumber(Str("$1,209,927.14")) == 1209927.14
  {
    CurrencyRead();
    CurrencyValue();
  }

  // "12,5": no dot, and the comma is not followed by three digits.

  lemma DecimalCommaKept()
    ensures KeepNumeric("12,5") == "12,5" && DropGroupingCommas("12,5") == "12,5"
  {
    KeepNumericOfNumeric("12,5");
    assert !GroupingComma("12,5", 2);
  }

  lemma DecimalCommaDotted()
    ensures CommasToDots("12,5") == "12.5"
  {
  }

  lemma DecimalCommaParsed()
    ensures ParseNumber("12.5") == Some(Dec(125, 1))
  {
    assert "12.5" == "12" + "." + "5";
    ParseDigitsDot("12", "5");
  }

  lemma DecimalCommaRead()
    ensures CleanNumber(Str("12,5")) == Value(Dec(125, 1))
  {
    DecimalCommaKept();
    DecimalCommaDotted();
    DecimalCommaParsed();
    CleanReadsCommaDecimal("12,5", "12,5", "12,5", "12.5", Dec(125, 1));
  }

  /** Without a dot, a comma not followed by three digits is a decimal separator. */
  lemma CleanNumberDecimalCommaExample()
    ensures CleanNumber(Str("12,5")) == 12.5
  {
    DecimalCommaRead();
    assert Value(Dec(125, 1)) == 12.5;
  }

  // "1.234,56": the comma is followed by two digits only, so it stays beside the dot.

  lemma EuropeanKept()
    ensures KeepNumeric("1.234,56") == "1.234,56" && DropGroupingCommas("1.234,56") == "1.234,56"
  {
    var t := "1.234,56";
    KeepNumericOfNumeric(t);
    assert DropGroupingFrom(t, 5) == ",56";
  }

  lemma EuropeanParsed()
    ensures ParseNumber("1.234,56") == None
  {
    calc {
      ScanUnsigned("1.234,56", 0, 0, false, false);
      ScanUnsigned(".234,56", 1, 0, false, true);
      ScanUnsigned("234,56", 1, 0, true, true);
      { assert "234,56" == "234" + ",56"; ScanDigits("234", ",56", 1, 0, true, true); }
      ScanUnsigned(",56", 1234, 3, true, true);
    }
  }

  /** The European form `1.234,56` is NaN once cleaned, hence 0. */
  lemma CleanNumberEuropeanExample()
    ensures CleanNumber(Str("1.234,56")) == 0.0
  {
    EuropeanKept();
    EuropeanParsed();
    CleanRejects("1.234,56", "1.234,56", "1.234,56", "1.234,56");
  }

  // "1-2": a minus sign after a digit.

  lemma InnerMinusKept()
    ensures KeepNumeric("1-2") == "1-2" && DropGroupingCommas("1-2") == "1-2"
    ensures CommasToDots("1-2") == "1-2"
  {
    KeepNumericOfNumeric("1-2");
    DropWithoutCommas("1-2", 0);
    CommasToDotsWithoutCommas("1-2");
  }

  lemma InnerMinusParsed()
    ensures ParseNumber("1-2") == None
  {
    calc {
      ScanUnsigned("1-2", 0, 0, false, false);
      ScanUnsigned("-2", 1, 0, false, true);
    }
  }

  /** A minus sign inside the digits makes the text NaN, hence 0. */
  lemma CleanNumberInnerMinusExample()
    ensures CleanNumber(Str("1-2")) == 0.0
  {
    InnerMinusKept();
    InnerMinusParsed();
    CleanRejects("1-2", "1-2", "1-2", "1-2");
  }

  /** Empty and non-numeric texts, and a boolean's text, give 0, never NaN. */
  lemma CleanNumberEmptyExamples()
    ensures CleanNumber(Str("")) == 0.0
    ensures CleanNumber(Str("abc")) == 0.0
    ensures CleanNumber(Bool(true)) == 0.0
  {
  }
}
