/** The postcode formatter: `str_format` turns loosely written text into
    the "<outward> <inward>" form by keeping only letters and digits and
    choosing how many of them form the outward code. */
module Formatter {
  import opened Text

  /** Prefixes whose outward code has four characters ("AA9A 9AA"). */
  const Aa9aPatternStartsWith: seq<string> := ["WC", "EC1", "EC2", "EC3", "EC4", "NW1W", "SE1P", "SW1"]

  /** Two-character starts whose outward code has three characters ("A9A 9AA"). */
  const A9aPatternStartsWith: seq<string> := ["E1", "N1", "W1"]

  /** Single-letter areas, whose outward code is "A9" or "A99". */
  const A9OrA99PatternStartsWith: seq<char> := ['B', 'E', 'G', 'L', 'M', 'N', 'S', 'W']

  const UnableToFormat: string := "Unable to format "

  /** What `str_format` returns or raises. */
  datatype FormatResult =
    | Ok(value: string)
    | FormatError(message: string)  // ValueError("Unable to format <input>")
    | IndexError                    // formatted_zipcode[0] on an empty string

  /** Which rule of the chain fires on the stripped string. */
  datatype SplitRule =
    | Outward(n: nat)      // outward code = the first n characters
    | NoRule               // no rule fits
    | IndexOutOfRange      // the chain reads the first character of ""

  /** The stripped string: the letters and digits of `s`, in order. */
  function KeepAlnum(s: string): (r: string)
    ensures |r| <= |s|
    ensures forall i :: 0 <= i < |r| ==> IsAlnum(r[i])
  {
    if s == [] then []
    else (if IsAlnum(s[0]) then [s[0]] else []) + KeepAlnum(s[1..])
  }

  /** `' '.join([outward, inward])` */
  function Join(outward: string, inward: string): string {
    outward + " " + inward
  }

  /** The rule chain of `str_format` on the stripped string `c`, in the
      source's order: prefix list, then E1/N1/W1, then single-letter areas
      by length, then the generic length rule. */
  function OutwardLength(c: string): (r: SplitRule)
    ensures r.IndexOutOfRange? <==> c == []
    ensures r.Outward? ==> 2 <= r.n <= 4
    ensures r.Outward? && !StartsWithAny(c, Aa9aPatternStartsWith) && Take(c, 2) !in A9aPatternStartsWith
            ==> r.n + 3 == |c|
    ensures r.NoRule? <==>
              && c != []
              && !StartsWithAny(c, Aa9aPatternStartsWith)
              && Take(c, 2) !in A9aPatternStartsWith
              && !(c[0] in A9OrA99PatternStartsWith && |c| == 5)
              && |c| != 6 && |c| != 7
  {
    if StartsWithAny(c, Aa9aPatternStartsWith) then Outward(4)
    else if Take(c, 2) in A9aPatternStartsWith then Outward(3)
    else if c == [] then IndexOutOfRange
    else if c[0] in A9OrA99PatternStartsWith && |c| == 5 then Outward(2)
    else if c[0] in A9OrA99PatternStartsWith && |c| == 6 then Outward(3)
    else if |c| == 6 then Outward(3)
    else if |c| == 7 then Outward(4)
    else NoRule
  }

  /** `str_format(zipcode)` */
  function StrFormat(zipcode: string): (r: FormatResult)
    ensures r.IndexError? <==> KeepAlnum(zipcode) == []
    ensures r.FormatError? ==> r.message == UnableToFormat + zipcode
    ensures r.Ok? ==>
              exists k :: 2 <= k <= 4 && r.value == Join(Take(KeepAlnum(zipcode), k), LastN(KeepAlnum(zipcode), 3))
  {
    var c := KeepAlnum(zipcode);
    match OutwardLength(c)
    case Outward(n) => Ok(Join(Take(c, n), LastN(c, 3)))
    case NoRule => FormatError(UnableToFormat + zipcode)
    case IndexOutOfRange => IndexError
  }

  // ---------------------------------------------------------------------
  // Stripping

  /** Stripping distributes over concatenation: what survives keeps its order. */
  lemma {:induction false} KeepAlnumAppend(a: string, b: string)
    ensures KeepAlnum(a + b) == KeepAlnum(a) + KeepAlnum(b)
  {
    if a == [] {
      assert a + b == b;
    } else {
      assert (a + b)[1..] == a[1..] + b;
      KeepAlnumAppend(a[1..], b);
    }
  }

  /** A string is left unchanged by stripping exactly when it is all letters and digits. */
  lemma {:induction false} KeepAlnumFixedPoint(s: string)
    ensures KeepAlnum(s) == s <==> forall i :: 0 <= i < |s| ==> IsAlnum(s[i])
  {
    if s != [] {
      KeepAlnumFixedPoint(s[1..]);
      if forall i :: 0 <= i < |s| ==> IsAlnum(s[i]) {
        assert forall i :: 0 <= i < |s[1..]| ==> IsAlnum(s[1..][i]) by {
          forall i | 0 <= i < |s[1..]| ensures IsAlnum(s[1..][i]) {
            assert s[1..][i] == s[i + 1];
          }
        }
        assert s == [s[0]] + s[1..];
      }
    }
  }

  /** Nothing survives stripping exactly when the input has no letter or digit. */
  lemma {:induction false} KeepAlnumEmpty(s: string)
    ensures KeepAlnum(s) == [] <==> forall i :: 0 <= i < |s| ==> !IsAlnum(s[i])
  {
    if s != [] {
      KeepAlnumEmpty(s[1..]);
      assert forall i :: 1 <= i < |s| ==> s[i] == s[1..][i - 1];
    }
  }

  /** Removing one separator (space, '-', '/', ...) does not change the stripped string. */
  lemma KeepAlnumIgnoresSeparator(a: string, sep: char, b: string)
    requires !IsAlnum(sep)
    ensures KeepAlnum(a + [sep] + b) == KeepAlnum(a + b)
  {
    KeepAlnumAppend(a + [sep], b);
    KeepAlnumAppend(a, [sep]);
    KeepAlnumAppend(a, b);
    assert KeepAlnum([sep]) == [] by {
      assert [sep][1..] == [];
    }
  }

  // ---------------------------------------------------------------------
  // The rule chain

  /** A prefix of the four-character list wins whatever the length and
      whatever later rule would also fit. */
  lemma PrefixRuleFirst(zipcode: string)
    requires StartsWithAny(KeepAlnum(zipcode), Aa9aPatternStartsWith)
    ensures var c := KeepAlnum(zipcode);
            StrFormat(zipcode) == Ok(Join(Take(c, 4), LastN(c, 3)))
  {
  }

  /** E1, N1 and W1 give a three-character outward code, whatever the length. */
  lemma A9aRuleSecond(zipcode: string)
    requires !StartsWithAny(KeepAlnum(zipcode), Aa9aPatternStartsWith)
    requires Take(KeepAlnum(zipcode), 2) in A9aPatternStartsWith
    ensures var c := KeepAlnum(zipcode);
            StrFormat(zipcode) == Ok(Join(Take(c, 3), LastN(c, 3)))
  {
  }

  /** A single-letter area splits a 5-character string 2+3 and a
      6-character one 3+3; other lengths fall through to the generic rule. */
  lemma SingleLetterAreaRule(zipcode: string)
    requires var c := KeepAlnum(zipcode);
             && c != []
             && !StartsWithAny(c, Aa9aPatternStartsWith)
             && Take(c, 2) !in A9aPatternStartsWith
             && c[0] in A9OrA99PatternStartsWith
    ensures var c := KeepAlnum(zipcode);
            && (|c| == 5 ==> StrFormat(zipcode) == Ok(c[..2] + " " + c[2..]))
            && (|c| == 6 ==> StrFormat(zipcode) == Ok(c[..3] + " " + c[3..]))
            && (|c| == 7 ==> StrFormat(zipcode) == Ok(c[..4] + " " + c[4..]))
  {
  }

  /** The generic rule: 6 characters split 3+3, 7 split 4+3, any other
      length is a ValueError naming the original input. */
  lemma GenericRule(zipcode: string)
    requires var c := KeepAlnum(zipcode);
             && c != []
             && !StartsWithAny(c, Aa9aPatternStartsWith)
             && Take(c, 2) !in A9aPatternStartsWith
             && c[0] !in A9OrA99PatternStartsWith
    ensures var c := KeepAlnum(zipcode);
            && (|c| == 6 ==> StrFormat(zipcode) == Ok(c[..3] + " " + c[3..]))
            && (|c| == 7 ==> StrFormat(zipcode) == Ok(c[..4] + " " + c[4..]))
            && (|c| != 6 && |c| != 7 ==> StrFormat(zipcode) == FormatError("Unable to format " + zipcode))
  {
  }

  /** Exactly when the ValueError is raised. */
  lemma FormatErrorExactly(zipcode: string)
    ensures var c := KeepAlnum(zipcode);
            StrFormat(zipcode).FormatError? <==>
              && c != []
              && !StartsWithAny(c, Aa9aPatternStartsWith)
              && Take(c, 2) !in A9aPatternStartsWith
              && !(c[0] in A9OrA99PatternStartsWith && |c| == 5)
              && |c| != 6 && |c| != 7
  {
  }

  /** Reading the first character of the stripped string raises
      IndexError exactly for inputs with no letter or digit at all,
      the empty string among them. */
  lemma IndexErrorExactly(zipcode: string)
    ensures StrFormat(zipcode).IndexError? <==> forall i :: 0 <= i < |zipcode| ==> !IsAlnum(zipcode[i])
  {
    KeepAlnumEmpty(zipcode);
  }

  // ---------------------------------------------------------------------
  // Shape of a successful result

  /** `r` is letters and digits except for one space, at index `i`. */
  predicate SingleSpaceAt(r: string, i: int) {
    && 0 <= i < |r|
    && r[i] == ' '
    && forall j :: 0 <= j < |r| && j != i ==> IsAlnum(r[j])
  }

  /** A formatted postcode has exactly one space; when at least three
      characters survived stripping it stands fourth from the end, which
      is where the validator's positional split expects it. */
  lemma FormattedHasOneSpace(zipcode: string)
    requires StrFormat(zipcode).Ok?
    ensures var c, r := KeepAlnum(zipcode), StrFormat(zipcode).value;
            && SingleSpaceAt(r, |Take(c, OutwardLength(c).n)|)
            && (|c| >= 3 ==> SingleSpaceAt(r, |r| - 4))
  {
    var c, r := KeepAlnum(zipcode), StrFormat(zipcode).value;
    var n := OutwardLength(c).n;
    var out, inw := Take(c, n), LastN(c, 3);
    assert r == out + " " + inw;
    forall j | 0 <= j < |r| && j != |out| ensures IsAlnum(r[j]) {
      if j < |out| {
        assert r[j] == c[j];
      } else {
        assert r[j] == inw[j - |out| - 1];
      }
    }
  }

  /** Stripping a joined result leaves the outward part followed by the inward part. */
  lemma KeepAlnumOfJoin(c: string, n: nat)
    requires forall i :: 0 <= i < |c| ==> IsAlnum(c[i])
    ensures KeepAlnum(Join(Take(c, n), LastN(c, 3))) == Take(c, n) + LastN(c, 3)
  {
    var out, inw := Take(c, n), LastN(c, 3);
    KeepAlnumFixedPoint(out);
    KeepAlnumFixedPoint(inw);
    assert Join(out, inw) == out + [' '] + inw;
    KeepAlnumIgnoresSeparator(out, ' ', inw);
    KeepAlnumAppend(out, inw);
  }

  /** Deleting the space gives back the stripped input exactly when the
      chosen outward length and the three inward characters cover it with
      no overlap and no gap. */
  lemma LosslessExactly(zipcode: string)
    requires StrFormat(zipcode).Ok?
    ensures var c := KeepAlnum(zipcode);
            KeepAlnum(StrFormat(zipcode).value) == c <==> OutwardLength(c).n + 3 == |c|
  {
    var c := KeepAlnum(zipcode);
    var n := OutwardLength(c).n;
    assert StrFormat(zipcode).value == Join(Take(c, n), LastN(c, 3));
    KeepAlnumOfJoin(c, n);
    if n + 3 == |c| {
      assert Take(c, n) + LastN(c, 3) == c;
    } else {
      assert |Take(c, n) + LastN(c, 3)| != |c|;
    }
  }

  /** The length-based rules never lose or repeat a character. */
  lemma LengthRulesLossless(zipcode: string)
    requires StrFormat(zipcode).Ok?
    requires !StartsWithAny(KeepAlnum(zipcode), Aa9aPatternStartsWith)
    requires Take(KeepAlnum(zipcode), 2) !in A9aPatternStartsWith
    ensures KeepAlnum(StrFormat(zipcode).value) == KeepAlnum(zipcode)
  {
    LosslessExactly(zipcode);
  }

  /** The result depends only on the letters and digits of the input;
      only the error message repeats the input as written. */
  lemma SeparatorsDoNotMatter(x: string, y: string)
    requires KeepAlnum(x) == KeepAlnum(y)
    ensures StrFormat(x).Ok? ==> StrFormat(y) == StrFormat(x)
    ensures StrFormat(x).IndexError? ==> StrFormat(y).IndexError?
    ensures StrFormat(x).FormatError? ==> StrFormat(y) == FormatError(UnableToFormat + y)
  {
  }

  /** Inserting a space, '-', '/' or any other non-alphanumeric character
      anywhere in the input does not change a formatted result. */
  lemma SeparatorInvisible(a: string, sep: char, b: string)
    requires !IsAlnum(sep)
    ensures StrFormat(a + [sep] + b).Ok? <==> StrFormat(a + b).Ok?
    ensures StrFormat(a + b).Ok? ==> StrFormat(a + [sep] + b) == StrFormat(a + b)
  {
    KeepAlnumIgnoresSeparator(a, sep, b);
    SeparatorsDoNotMatter(a + [sep] + b, a + b);
  }

  /** A result that kept every character is a fixed point of formatting. */
  lemma LosslessResultIsFixedPoint(zipcode: string)
    requires StrFormat(zipcode).Ok?
    requires KeepAlnum(StrFormat(zipcode).value) == KeepAlnum(zipcode)
    ensures StrFormat(StrFormat(zipcode).value) == StrFormat(zipcode)
  {
    SeparatorsDoNotMatter(zipcode, StrFormat(zipcode).value);
  }

  /** Formatting is not idempotent in general: the prefix rule repeats
      the characters of "WC", and a second pass reads them differently. */
  lemma NotIdempotent()
    ensures StrFormat("WC") == Ok("WC WC")
    ensures StrFormat("WC WC") == Ok("WCWC CWC")
  {
    var w := "WC";
    assert KeepAlnum(w) == w && StartsWith(w, Aa9aPatternStartsWith[0]);
    assert Join(Take(w, 4), LastN(w, 3)) == "WC WC";
    var ww := w + w;
    assert KeepAlnum("WC WC") == ww by {
      assert "WC WC" == w + [' '] + w;
      KeepAlnumIgnoresSeparator(w, ' ', w);
      KeepAlnumAppend(w, w);
    }
    assert StartsWith(ww, Aa9aPatternStartsWith[0]);
    assert Join(Take(ww, 4), LastN(ww, 3)) == "WCWC CWC";
  }
}
