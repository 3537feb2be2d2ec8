/** The formatter's example table on the model: each code written with no
    space, with the canonical space, with '-' or '/' in its place, and
    with spaces between its characters, plus the error cases.

    A concrete row takes its strings as parameters pinned by a `requires`
    (`requires o == "EC1A" && i == "1BB"`) instead of writing literals in
    its `ensures`: the verifier unfolds a literal string character by
    character in every fact that mentions it, which is too expensive here,
    while a parameter stays opaque until the proof asks for one of its
    characters. */
module FormatterExamples {
  import opened Text
  import opened Formatter

  lemma FormatsStripped(c: string, n: nat, expected: string)
    requires forall i :: 0 <= i < |c| ==> IsAlnum(c[i])
    requires OutwardLength(c) == Outward(n)
    requires Join(Take(c, n), LastN(c, 3)) == expected
    ensures KeepAlnum(c) == c
    ensures StrFormat(c) == Ok(expected)
  {
    KeepAlnumFixedPoint(c);
  }

  lemma PrefixInitials(k: int)
    requires 0 <= k < |Aa9aPatternStartsWith|
    ensures var p := Aa9aPatternStartsWith[k];
            |p| >= 2 && p[0] in ['W', 'E', 'N', 'S'] && p[1] in ['C', 'W', 'E']
  {
  }

  lemma NoPrefixStartsWith(c: string)
    requires |c| >= 2 && (c[0] !in ['W', 'E', 'N', 'S'] || c[1] !in ['C', 'W', 'E'])
    ensures !StartsWithAny(c, Aa9aPatternStartsWith)
  {
    forall k | 0 <= k < |Aa9aPatternStartsWith| ensures !StartsWith(c, Aa9aPatternStartsWith[k]) {
      PrefixInitials(k);
    }
  }

  /** An outward and an inward part of letters and digits on which the
      rule chain picks the outward part's length format to the two parts
      joined by a space. */
  lemma FormatsJoined(o: string, i: string)
    requires forall k :: 0 <= k < |o| ==> IsAlnum(o[k])
    requires |i| == 3 && forall k :: 0 <= k < |i| ==> IsAlnum(i[k])
    requires OutwardLength(o + i) == Outward(|o|)
    ensures KeepAlnum(o + i) == o + i
    ensures StrFormat(o + i) == Ok(o + " " + i)
  {
    var c := o + i;
    assert forall k :: 0 <= k < |c| ==> IsAlnum(c[k]) by {
      forall k | 0 <= k < |c| ensures IsAlnum(c[k]) {
        if k < |o| {
          assert c[k] == o[k];
        } else {
          assert c[k] == i[k - |o|];
        }
      }
    }
    KeepAlnumFixedPoint(c);
    assert Take(c, |o|) == o && LastN(c, 3) == i;
  }

  lemma NoSpaceEC1A(o: string, i: string)
    requires o == "EC1A" && i == "1BB"
    ensures KeepAlnum(o + i) == o + i
    ensures StrFormat(o + i) == Ok(o + " " + i)
  {
    var c := o + i;
    assert OutwardLength(c) == Outward(4) by {
      assert StartsWith(c, Aa9aPatternStartsWith[1]);
    }
    assert forall k :: 0 <= k < |o| ==> IsAlnum(o[k]);
    assert forall k :: 0 <= k < |i| ==> IsAlnum(i[k]);
    FormatsJoined(o, i);
  }

  lemma RowEC1A(o: string, i: string)
    requires o == "EC1A" && i == "1BB"
    ensures StrFormat(o + i) == Ok(o + " " + i)
    ensures StrFormat(o + " " + i) == Ok(o + " " + i)
    ensures StrFormat(o + "-" + i) == Ok(o + " " + i)
    ensures StrFormat(o + "/" + i) == Ok(o + " " + i)
  {
    NoSpaceEC1A(o, i);
    WithSeparator(o, i, o + " " + i);
  }

  lemma NoSpaceW1A(o: string, i: string)
    requires o == "W1A" && i == "0AX"
    ensures KeepAlnum(o + i) == o + i
    ensures StrFormat(o + i) == Ok(o + " " + i)
  {
    var c := o + i;
    assert OutwardLength(c) == Outward(3) by {
      NoPrefixStartsWith(c);
      assert Take(c, 2) == "W1" && Take(c, 2) in A9aPatternStartsWith;
    }
    assert forall k :: 0 <= k < |o| ==> IsAlnum(o[k]);
    assert forall k :: 0 <= k < |i| ==> IsAlnum(i[k]);
    FormatsJoined(o, i);
  }

  lemma RowW1A(o: string, i: string)
    requires o == "W1A" && i == "0AX"
    ensures StrFormat(o + i) == Ok(o + " " + i)
    ensures StrFormat(o + " " + i) == Ok(o + " " + i)
    ensures StrFormat(o + "-" + i) == Ok(o + " " + i)
    ensures StrFormat(o + "/" + i) == Ok(o + " " + i)
  {
    NoSpaceW1A(o, i);
    WithSeparator(o, i, o + " " + i);
  }

  lemma NoSpaceM1(o: string, i: string)
    requires o == "M1" && i == "1AE"
    ensures KeepAlnum(o + i) == o + i
    ensures StrFormat(o + i) == Ok(o + " " + i)
  {
    var c := o + i;
    assert OutwardLength(c) == Outward(2) by {
      NoPrefixStartsWith(c);
      assert Take(c, 2) == o && o !in A9aPatternStartsWith;
      assert c[0] in A9OrA99PatternStartsWith && |c| == 5;
    }
    assert forall k :: 0 <= k < |o| ==> IsAlnum(o[k]);
    assert forall k :: 0 <= k < |i| ==> IsAlnum(i[k]);
    FormatsJoined(o, i);
  }

  lemma RowM1(o: string, i: string)
    requires o == "M1" && i == "1AE"
    ensures StrFormat(o + i) == Ok(o + " " + i)
    ensures StrFormat(o + " " + i) == Ok(o + " " + i)
    ensures StrFormat(o + "-" + i) == Ok(o + " " + i)
    ensures StrFormat(o + "/" + i) == Ok(o + " " + i)
  {
    NoSpaceM1(o, i);
    WithSeparator(o, i, o + " " + i);
  }

  lemma NoSpaceB33(o: string, i: string)
    requires o == "B33" && i == "8TH"
    ensures KeepAlnum(o + i) == o + i
    ensures StrFormat(o + i) == Ok(o + " " + i)
  {
    var c := o + i;
    assert OutwardLength(c) == Outward(3) by {
      NoPrefixStartsWith(c);
      assert Take(c, 2) == "B3" && "B3" !in A9aPatternStartsWith;
      assert c[0] in A9OrA99PatternStartsWith && |c| == 6;
    }
    assert forall k :: 0 <= k < |o| ==> IsAlnum(o[k]);
    assert forall k :: 0 <= k < |i| ==> IsAlnum(i[k]);
    FormatsJoined(o, i);
  }

  lemma RowB33(o: string, i: string)
    requires o == "B33" && i == "8TH"
    ensures StrFormat(o + i) == Ok(o + " " + i)
    ensures StrFormat(o + " " + i) == Ok(o + " " + i)
    ensures StrFormat(o + "-" + i) == Ok(o + " " + i)
    ensures StrFormat(o + "/" + i) == Ok(o + " " + i)
  {
    NoSpaceB33(o, i);
    WithSeparator(o, i, o + " " + i);
  }

  lemma NoSpaceCR2(o: string, i: string)
    requires o == "CR2" && i == "6XH"
    ensures KeepAlnum(o + i) == o + i
    ensures StrFormat(o + i) == Ok(o + " " + i)
  {
    var c := o + i;
    assert OutwardLength(c) == Outward(3) by {
      NoPrefixStartsWith(c);
      assert Take(c, 2) == "CR" && "CR" !in A9aPatternStartsWith;
      assert c[0] !in A9OrA99PatternStartsWith && |c| == 6;
    }
    assert forall k :: 0 <= k < |o| ==> IsAlnum(o[k]);
    assert forall k :: 0 <= k < |i| ==> IsAlnum(i[k]);
    FormatsJoined(o, i);
  }

  lemma RowCR2(o: string, i: string)
    requires o == "CR2" && i == "6XH"
    ensures StrFormat(o + i) == Ok(o + " " + i)
    ensures StrFormat(o + " " + i) == Ok(o + " " + i)
    ensures StrFormat(o + "-" + i) == Ok(o + " " + i)
    ensures StrFormat(o + "/" + i) == Ok(o + " " + i)
  {
    NoSpaceCR2(o, i);
    WithSeparator(o, i, o + " " + i);
  }

  lemma NoSpaceDN55(o: string, i: string)
    requires o == "DN55" && i == "1PT"
    ensures KeepAlnum(o + i) == o + i
    ensures StrFormat(o + i) == Ok(o + " " + i)
  {
    var c := o + i;
    assert OutwardLength(c) == Outward(4) by {
      NoPrefixStartsWith(c);
      assert Take(c, 2) == "DN" && "DN" !in A9aPatternStartsWith;
      assert c[0] !in A9OrA99PatternStartsWith && |c| == 7;
    }
    assert forall k :: 0 <= k < |o| ==> IsAlnum(o[k]);
    assert forall k :: 0 <= k < |i| ==> IsAlnum(i[k]);
    FormatsJoined(o, i);
  }

  lemma RowDN55(o: string, i: string)
    requires o == "DN55" && i == "1PT"
    ensures StrFormat(o + i) == Ok(o + " " + i)
    ensures StrFormat(o + " " + i) == Ok(o + " " + i)
    ensures StrFormat(o + "-" + i) == Ok(o + " " + i)
    ensures StrFormat(o + "/" + i) == Ok(o + " " + i)
  {
    NoSpaceDN55(o, i);
    WithSeparator(o, i, o + " " + i);
  }

  lemma WithSeparator(outward: string, inward: string, expected: string)
    requires StrFormat(outward + inward) == Ok(expected)
    ensures StrFormat(outward + " " + inward) == Ok(expected)
    ensures StrFormat(outward + "-" + inward) == Ok(expected)
    ensures StrFormat(outward + "/" + inward) == Ok(expected)
  {
    SeparatorInvisible(outward, ' ', inward);
    SeparatorInvisible(outward, '-', inward);
    SeparatorInvisible(outward, '/', inward);
  }

  /** `c` with `gap` between each two of its characters:
      Spread("EC1A1BB", " ") is "E C 1 A 1 B B". */
  function Spread(c: string, gap: string): (r: string)
    ensures |c| > 0 ==> |r| == |c| + (|c| - 1) * |gap|
  {
    if |c| <= 1 then c else [c[0]] + gap + Spread(c[1..], gap)
  }

  /** Gaps without letters or digits vanish in stripping. */
  lemma {:induction false} KeepAlnumSpread(c: string, gap: string)
    requires forall i :: 0 <= i < |gap| ==> !IsAlnum(gap[i])
    ensures KeepAlnum(Spread(c, gap)) == KeepAlnum(c)
  {
    if |c| > 1 {
      KeepAlnumSpread(c[1..], gap);
      KeepAlnumEmpty(gap);
      KeepAlnumAppend([c[0]] + gap, Spread(c[1..], gap));
      KeepAlnumAppend([c[0]], gap);
      KeepAlnumAppend([c[0]], c[1..]);
      assert [c[0]] + c[1..] == c;
    }
  }

  lemma SpacedEC1A(o: string, i: string)
    requires o == "EC1A" && i == "1BB"
    ensures StrFormat(Spread(o + i, " ")) == Ok(o + " " + i)
  {
    KeepAlnumSpread(o + i, " ");
    NoSpaceEC1A(o, i);
    SeparatorsDoNotMatter(o + i, Spread(o + i, " "));
  }

  lemma SpacedW1A(o: string, i: string)
    requires o == "W1A" && i == "0AX"
    ensures StrFormat(Spread(o + i, "  ")) == Ok(o + " " + i)
  {
    KeepAlnumSpread(o + i, "  ");
    NoSpaceW1A(o, i);
    SeparatorsDoNotMatter(o + i, Spread(o + i, "  "));
  }

  lemma SpacedM1(o: string, i: string)
    requires o == "M1" && i == "1AE"
    ensures StrFormat(Spread(o + i, "   ")) == Ok(o + " " + i)
  {
    KeepAlnumSpread(o + i, "   ");
    NoSpaceM1(o, i);
    SeparatorsDoNotMatter(o + i, Spread(o + i, "   "));
  }

  lemma TooShort(z: string)
    requires z == "123"
    ensures StrFormat(z) == FormatError("Unable to format 123")
  {
    KeepAlnumFixedPoint(z);
    NoPrefixStartsWith(z);
    assert Take(z, 2) == "12";
  }

  /** E1, N1 and W1 take three characters whatever the length, so an
      ordinary "A9 9AA" code of those areas repeats its sector digit. */
  lemma E1CodeGainsACharacter(o: string, i: string)
    requires o == "E1" && i == "6AN"
    ensures StrFormat(o + " " + i) == Ok("E16" + " " + i)
  {
    var c := o + i;
    assert KeepAlnum(o + " " + i) == c by {
      assert o + " " + i == o + [' '] + i;
      KeepAlnumIgnoresSeparator(o, ' ', i);
      KeepAlnumFixedPoint(c);
    }
    assert OutwardLength(c) == Outward(3) by {
      NoPrefixStartsWith(c);
      assert Take(c, 2) == "E1" && Take(c, 2) in A9aPatternStartsWith;
    }
    assert Join(Take(c, 3), LastN(c, 3)) == "E16" + " " + i;
  }

  lemma LongPrefixCode(z: string)
    requires z == "EC1A1BBXY"
    ensures StrFormat(z) == Ok("EC1A BXY")
  {
    assert StartsWith(z, Aa9aPatternStartsWith[1]);
    FormatsStripped(z, 4, "EC1A BXY");
  }
}

/** The validator's example tables on the model, stated for whole
    families of codes where the table lists one code per allowed or
    excluded character, plus the behaviours the tables do not show.
    Concrete rows pin their strings by a `requires` on parameters, for
    the reason given on the formatter's examples. */
module ValidatorExamples {
  import opened Text
  import opened Validator

  /** What the validator reads from a code written as outward code, space, inward code. */
  lemma CanonicalReading(o: string, i: string)
    requires IsOutwardShape(o) && IsInwardShape(i)
    ensures var z := o + " " + i;
            && CheckValidationRegex(z)
            && SplitZipcode(z) == Fields(Take(o, 2), Drop(o, 2), i[0], i[1..])
            && z[0] == o[0] && z[1] == o[1]
            && (StartsLikeA9A(z) ==> StartsLikeA9A(o) && z[2] == o[2])
            && (StartsLikeAA9A(z) ==> StartsLikeAA9A(o) && z[3] == o[3])
  {
    CanonicalCodeShapeAndSplit(o, i);
  }

  /** The central London rule holds for such a code when its district
      ends in a letter or its first two characters begin no central London
      prefix. */
  lemma CanonicalCentralLondon(o: string, i: string)
    requires IsOutwardShape(o) && IsInwardShape(i)
    requires (|o| > 2 && IsAlpha(o[|o| - 1])) || !(o[0] in "ENSW" && o[1] in "1CEW")
    ensures var z := o + " " + i;
            var d := SplitZipcode(z).district;
            forall k :: 0 <= k < |CentralLondonDistricts| && StartsWith(z, CentralLondonDistricts[k])
              ==> d != [] && IsAlpha(d[|d| - 1])
  {
    var z := o + " " + i;
    CanonicalReading(o, i);
    var d := SplitZipcode(z).district;
    assert |o| > 2 ==> d[|d| - 1] == o[|o| - 1];
    if StartsWithAny(z, CentralLondonDistricts) {
      CentralLondonInitials(z);
    }
  }

  /** The non-gatekeeping rules hold for such a code when they hold for its parts. */
  lemma CanonicalRules(o: string, i: string)
    requires IsOutwardShape(o) && IsInwardShape(i)
    requires Drop(o, 2) == "0" ==> Take(o, 2) in AreasWithDistrictZero
    requires Drop(o, 2) == "10" && Take(o, 2) in AreasWithDistrictZero ==> Take(o, 2) == "BS"
    requires (|o| > 2 && IsAlpha(o[|o| - 1])) || !(o[0] in "ENSW" && o[1] in "1CEW")
    requires o[0] !in FirstPositionExcluded && o[1] !in SecondPositionExcluded
    requires StartsLikeA9A(o) ==> o[2] in ThirdPositionAllowed
    requires StartsLikeAA9A(o) ==> o[3] in FourthPositionAllowed
    requires i[1] !in UnitExcluded && i[2] !in UnitExcluded
    ensures OtherAreaRules(o + " " + i, SplitZipcode(o + " " + i))
  {
    var z := o + " " + i;
    var f := SplitZipcode(z);
    assert f.area == Take(o, 2) && f.district == Drop(o, 2) && f.unit == [i[1], i[2]]
           && z[0] == o[0] && z[1] == o[1]
           && (StartsLikeA9A(z) ==> StartsLikeA9A(o) && z[2] == o[2])
           && (StartsLikeAA9A(z) ==> StartsLikeAA9A(o) && z[3] == o[3]) by {
      CanonicalReading(o, i);
    }
    CanonicalCentralLondon(o, i);
  }

  /** A code written as outward code, space, inward code, outside the
      gatekeeping areas, is accepted when it passes every remaining rule. */
  lemma CanonicalAccepted(o: string, i: string)
    requires IsOutwardShape(o) && IsInwardShape(i)
    requires Take(o, 2) !in AreasWithSingleDigitDistricts && Take(o, 2) !in AreasWithDoubleDigitsDistricts
    requires Drop(o, 2) == "0" ==> Take(o, 2) in AreasWithDistrictZero
    requires Drop(o, 2) == "10" && Take(o, 2) in AreasWithDistrictZero ==> Take(o, 2) == "BS"
    requires (|o| > 2 && IsAlpha(o[|o| - 1])) || !(o[0] in "ENSW" && o[1] in "1CEW")
    requires o[0] !in FirstPositionExcluded && o[1] !in SecondPositionExcluded
    requires StartsLikeA9A(o) ==> o[2] in ThirdPositionAllowed
    requires StartsLikeAA9A(o) ==> o[3] in FourthPositionAllowed
    requires i[1] !in UnitExcluded && i[2] !in UnitExcluded
    ensures IsValid(o + " " + i) == Returned(true)
  {
    CanonicalReading(o, i);
    CanonicalRules(o, i);
    OtherAreaOutcome(o + " " + i);
  }

  lemma AcceptsEC1A1BB(o: string, i: string)
    requires o == "EC1A" && i == "1BB"
    ensures IsValid(o + " " + i) == Returned(true)
  {
    CanonicalAccepted(o, i);
  }

  lemma AcceptsW1A0AX(o: string, i: string)
    requires o == "W1A" && i == "0AX"
    ensures IsValid(o + " " + i) == Returned(true)
  {
    CanonicalAccepted(o, i);
  }

  lemma AcceptsM11AE(o: string, i: string)
    requires o == "M1" && i == "1AE"
    ensures IsValid(o + " " + i) == Returned(true)
  {
    CanonicalAccepted(o, i);
  }

  lemma AcceptsB338TH(o: string, i: string)
    requires o == "B33" && i == "8TH"
    ensures IsValid(o + " " + i) == Returned(true)
  {
    CanonicalAccepted(o, i);
  }

  lemma AcceptsCR26XH(o: string, i: string)
    requires o == "CR2" && i == "6XH"
    ensures IsValid(o + " " + i) == Returned(true)
  {
    CanonicalAccepted(o, i);
  }

  lemma AcceptsDN551PT(o: string, i: string)
    requires o == "DN55" && i == "1PT"
    ensures IsValid(o + " " + i) == Returned(true)
  {
    CanonicalAccepted(o, i);
  }

  lemma AcceptsEC1A9AA(o: string, i: string)
    requires o == "EC1A" && i == "9AA"
    ensures IsValid(o + " " + i) == Returned(true)
  {
    CanonicalAccepted(o, i);
  }

  lemma AcceptsEC3A9AA(o: string, i: string)
    requires o == "EC3A" && i == "9AA"
    ensures IsValid(o + " " + i) == Returned(true)
  {
    CanonicalAccepted(o, i);
  }

  lemma AcceptsEC4A9AA(o: string, i: string)
    requires o == "EC4A" && i == "9AA"
    ensures IsValid(o + " " + i) == Returned(true)
  {
    CanonicalAccepted(o, i);
  }

  lemma AcceptsW1A9AA(o: string, i: string)
    requires o == "W1A" && i == "9AA"
    ensures IsValid(o + " " + i) == Returned(true)
  {
    CanonicalAccepted(o, i);
  }

  lemma AcceptsEC2A9AA(o: string, i: string)
    requires o == "EC2A" && i == "9AA"
    ensures IsValid(o + " " + i) == Returned(true)
  {
    CanonicalAccepted(o, i);
  }

  lemma AcceptsSW1A9AA(o: string, i: string)
    requires o == "SW1A" && i == "9AA"
    ensures IsValid(o + " " + i) == Returned(true)
  {
    CanonicalAccepted(o, i);
  }

  lemma AcceptsE1W9AA(o: string, i: string)
    requires o == "E1W" && i == "9AA"
    ensures IsValid(o + " " + i) == Returned(true)
  {
    CanonicalAccepted(o, i);
  }

  lemma AcceptsN1C9AA(o: string, i: string)
    requires o == "N1C" && i == "9AA"
    ensures IsValid(o + " " + i) == Returned(true)
  {
    CanonicalAccepted(o, i);
  }

  lemma AcceptsN1P9AA(o: string, i: string)
    requires o == "N1P" && i == "9AA"
    ensures IsValid(o + " " + i) == Returned(true)
  {
    CanonicalAccepted(o, i);
  }

  lemma AcceptsNW1W9AA(o: string, i: string)
    requires o == "NW1W" && i == "9AA"
    ensures IsValid(o + " " + i) == Returned(true)
  {
    CanonicalAccepted(o, i);
  }

  lemma AcceptsSE1P9AA(o: string, i: string)
    requires o == "SE1P" && i == "9AA"
    ensures IsValid(o + " " + i) == Returned(true)
  {
    CanonicalAccepted(o, i);
  }

  /** Every area in the three area lists is two capital letters. */
  lemma AreaIsTwoLetters(area: string)
    requires area in AreasWithSingleDigitDistricts || area in AreasWithDoubleDigitsDistricts
             || area in AreasWithDistrictZero
    ensures |area| == 2 && IsUpper(area[0]) && IsUpper(area[1])
  {
  }

  /** Codes of the single-digit areas are decided by the district alone. */
  lemma CanonicalSingleDigitArea(o: string, i: string)
    requires IsOutwardShape(o) && IsInwardShape(i)
    requires Take(o, 2) in AreasWithSingleDigitDistricts
    ensures Take(o, 2) != "WC" ==> IsValid(o + " " + i) == Returned(|o| == 3)
    ensures Take(o, 2) == "WC" ==> IsValid(o + " " + i) == Returned(|o| == 4 && IsUpper(o[3]))
  {
    var z := o + " " + i;
    CanonicalReading(o, i);
    SingleDigitAreaDecided(z);
    assert z[..2] == Take(o, 2);
    assert |o| >= 3 ==> z[2] == o[2];
    assert |o| == 4 ==> z[3] == o[3];
  }

  /** Codes of the double-digit areas are decided by the district alone. */
  lemma CanonicalDoubleDigitArea(o: string, i: string)
    requires IsOutwardShape(o) && IsInwardShape(i)
    requires Take(o, 2) in AreasWithDoubleDigitsDistricts
    ensures IsValid(o + " " + i) == Returned(|o| == 4 && IsDigit(o[3]))
  {
    var z := o + " " + i;
    CanonicalReading(o, i);
    DoubleDigitAreaDecided(z);
    assert |o| >= 3 ==> z[2] == o[2];
    assert |o| == 4 ==> z[3] == o[3];
  }

  /** Single-digit areas other than WC: one digit is accepted, two are
      not, whatever the inward code. */
  lemma SingleDigitDistricts(area: string, d: char, e: char, i: string)
    requires area in AreasWithSingleDigitDistricts && area != "WC"
    requires IsDigit(d) && IsDigit(e) && IsInwardShape(i)
    ensures IsValid(area + [d] + " " + i) == Returned(true)
    ensures IsValid(area + [d, e] + " " + i) == Returned(false)
  {
    AreaIsTwoLetters(area);
    assert Take(area + [d], 2) == area && Take(area + [d, e], 2) == area;
    CanonicalSingleDigitArea(area + [d], i);
    CanonicalSingleDigitArea(area + [d, e], i);
  }

  /** WC: a digit and a letter is accepted; a digit alone or two digits are not. */
  lemma WcDistricts(d: char, e: char, u: char, i: string)
    requires IsDigit(d) && IsDigit(e) && IsUpper(u) && IsInwardShape(i)
    ensures IsValid("WC" + [d, u] + " " + i) == Returned(true)
    ensures IsValid("WC" + [d] + " " + i) == Returned(false)
    ensures IsValid("WC" + [d, e] + " " + i) == Returned(false)
  {
    assert "WC" in AreasWithSingleDigitDistricts;
    assert Take("WC" + [d, u], 2) == "WC" && Take("WC" + [d], 2) == "WC" && Take("WC" + [d, e], 2) == "WC";
    CanonicalSingleDigitArea("WC" + [d, u], i);
    CanonicalSingleDigitArea("WC" + [d], i);
    CanonicalSingleDigitArea("WC" + [d, e], i);
  }

  /** WC followed by two letters fails the shape check. */
  lemma WcLettersRejected(u: char, v: char, i: string)
    requires IsUpper(u) && IsUpper(v) && IsInwardShape(i)
    ensures IsValid("WC" + [u, v] + " " + i) == Returned(false)
  {
    var z := "WC" + [u, v] + " " + i;
    assert !CheckValidationRegex(z) by {
      assert z[..|z| - 3] == "WC" + [u, v] + " ";
      assert ("WC" + [u, v] + " ")[..4] == "WC" + [u, v];
      assert z[|z| - 1] == i[2];
    }
    ShapeCheckedFirst(z);
  }

  /** AB, LL and SO: two digits are accepted; one digit, or a digit and
      a letter, are not. */
  lemma DoubleDigitDistricts(area: string, d: char, e: char, u: char, i: string)
    requires area in AreasWithDoubleDigitsDistricts
    requires IsDigit(d) && IsDigit(e) && IsUpper(u) && IsInwardShape(i)
    ensures IsValid(area + [d, e] + " " + i) == Returned(true)
    ensures IsValid(area + [d] + " " + i) == Returned(false)
    ensures IsValid(area + [d, u] + " " + i) == Returned(false)
  {
    AreaIsTwoLetters(area);
    assert Take(area + [d, e], 2) == area && Take(area + [d], 2) == area && Take(area + [d, u], 2) == area;
    CanonicalDoubleDigitArea(area + [d, e], i);
    CanonicalDoubleDigitArea(area + [d], i);
    CanonicalDoubleDigitArea(area + [d, u], i);
  }

  /** Every area with a district 0 accepts it. */
  lemma DistrictZeroAccepted(area: string, i: string)
    requires area in AreasWithDistrictZero
    requires IsInwardShape(i) && i[1] !in UnitExcluded && i[2] !in UnitExcluded
    ensures IsValid(area + "0" + " " + i) == Returned(true)
  {
    AreaIsTwoLetters(area);
    var o := area + "0";
    assert Take(o, 2) == area && Drop(o, 2) == "0";
    if area in AreasWithSingleDigitDistricts {
      CanonicalSingleDigitArea(o, i);
    } else {
      assert area != "AB" && area != "LL" && area != "SO";
      assert o[0] in "BCPS" && o[1] in "LSMRA";
      CanonicalAccepted(o, i);
    }
  }

  /** Of the areas with a district 0, all but BS reject district 10. */
  lemma DistrictTenRejected(area: string, i: string)
    requires area in AreasWithDistrictZero && area != "BS" && IsInwardShape(i)
    ensures IsValid(area + "10" + " " + i) == Returned(false)
  {
    AreaIsTwoLetters(area);
    var o := area + "10";
    var z := o + " " + i;
    assert Take(o, 2) == area && Drop(o, 2) == "10";
    CanonicalReading(o, i);
    if area in AreasWithSingleDigitDistricts {
      CanonicalSingleDigitArea(o, i);
    } else {
      assert area != "AB" && area != "LL" && area != "SO";
      DistrictTenRule(z);
    }
  }

  lemma BsTenAccepted(o: string, i: string)
    requires o == "BS10" && i == "9AA"
    ensures IsValid(o + " " + i) == Returned(true)
  {
    assert o[0] in "BCPS" && o[1] in "LSMRA";
    CanonicalAccepted(o, i);
  }

  /** District 0 of an area without one is rejected. */
  lemma DistrictZeroRejected(o: string, i: string)
    requires o == "AA0" && IsInwardShape(i)
    ensures IsValid(o + " " + i) == Returned(false)
  {
    var z := o + " " + i;
    CanonicalReading(o, i);
    assert Take(o, 2) == "AA" && Drop(o, 2) == "0";
    DistrictZeroRule(z);
  }

  /** Q, V and X never open a code. */
  lemma FirstPositionTable(c: char, i: string)
    requires c in FirstPositionExcluded && IsInwardShape(i)
    ensures IsValid([c] + "A9A" + " " + i) == Returned(false)
  {
    var o := [c] + "A9A";
    var z := o + " " + i;
    CanonicalReading(o, i);
    assert Take(o, 2) == [c, 'A'];
    AreaInitials(Take(o, 2));
    FirstPositionRule(z);
  }

  /** I, J and Z never come second. */
  lemma SecondPositionTable(c: char, i: string)
    requires c in SecondPositionExcluded && IsInwardShape(i)
    ensures IsValid(['A', c] + "9A" + " " + i) == Returned(false)
  {
    var o := ['A', c] + "9A";
    var z := o + " " + i;
    CanonicalReading(o, i);
    assert Take(o, 2) == ['A', c];
    FirstLetterA(Take(o, 2));
    SecondPositionRule(z);
  }

  /** No gatekeeping area starts with a letter other than A, B, F, H, J, L, S, W or Z. */
  lemma AreaInitials(area: string)
    requires |area| > 0 && area[0] !in "ABFHJLSWZ"
    ensures area !in AreasWithSingleDigitDistricts && area !in AreasWithDoubleDigitsDistricts
  {
  }

  /** The only gatekeeping area starting with A is AB. */
  lemma FirstLetterA(area: string)
    requires |area| == 2 && area[0] == 'A' && area[1] != 'B'
    ensures area !in AreasWithSingleDigitDistricts && area !in AreasWithDoubleDigitsDistricts
  {
  }

  /** After a letter and a digit, a third letter is accepted exactly when it is allowed. */
  lemma ThirdPositionTable(c: char, i: string)
    requires IsUpper(c) && IsInwardShape(i) && i[1] !in UnitExcluded && i[2] !in UnitExcluded
    ensures IsValid("A9" + [c] + " " + i) == Returned(c in ThirdPositionAllowed)
  {
    var o := "A9" + [c];
    var z := o + " " + i;
    CanonicalReading(o, i);
    assert Take(o, 2) == "A9" && Drop(o, 2) == [c];
    if c in ThirdPositionAllowed {
      CanonicalAccepted(o, i);
    } else {
      ThirdPositionRule(z);
    }
  }

  /** After two letters and a digit, a fourth letter is accepted exactly when it is allowed. */
  lemma FourthPositionTable(c: char, i: string)
    requires IsUpper(c) && IsInwardShape(i) && i[1] !in UnitExcluded && i[2] !in UnitExcluded
    ensures IsValid("AA9" + [c] + " " + i) == Returned(c in FourthPositionAllowed)
  {
    var o := "AA9" + [c];
    var z := o + " " + i;
    CanonicalReading(o, i);
    assert Take(o, 2) == "AA" && Drop(o, 2) == ['9', c];
    if c in FourthPositionAllowed {
      CanonicalAccepted(o, i);
    } else {
      FourthPositionRule(z);
    }
  }

  /** A unit is accepted exactly when neither of its letters is excluded. */
  lemma UnitTable(u: char, v: char)
    requires IsUpper(u) && IsUpper(v)
    ensures IsValid("A9A" + " " + ['9', u, v]) == Returned(u !in UnitExcluded && v !in UnitExcluded)
  {
    var o, i := "A9A", ['9', u, v];
    var z := o + " " + i;
    CanonicalReading(o, i);
    assert Take(o, 2) == "A9" && Drop(o, 2) == "A";
    if u !in UnitExcluded && v !in UnitExcluded {
      CanonicalAccepted(o, i);
    } else {
      assert z[|z| - 2] == u && z[|z| - 1] == v;
      UnitRule(z);
    }
  }

  /** A code whose outward part starts with a central London prefix and
      ends in a digit after the area is rejected. */
  lemma CanonicalCentralLondonRejected(o: string, k: nat, i: string)
    requires IsOutwardShape(o) && IsInwardShape(i) && |o| > 2
    requires Take(o, 2) !in AreasWithSingleDigitDistricts && Take(o, 2) !in AreasWithDoubleDigitsDistricts
    requires k < |CentralLondonDistricts| && StartsWith(o, CentralLondonDistricts[k])
    requires !IsAlpha(o[|o| - 1])
    ensures IsValid(o + " " + i) == Returned(false)
  {
    var z := o + " " + i;
    var p := CentralLondonDistricts[k];
    CanonicalReading(o, i);
    PrefixSurvives(o, " " + i, p);
    assert z == o + (" " + i);
    var d := Drop(o, 2);
    assert d[|d| - 1] == o[|o| - 1];
    CentralLondonRule(z);
  }

  lemma PrefixSurvives(s: string, t: string, p: string)
    requires StartsWith(s, p)
    ensures StartsWith(s + t, p)
  {
    assert (s + t)[..|p|] == s[..|p|];
  }

  /** "W1" with no district letter makes the central London check read
      past the end of the empty district. */
  lemma EmptyCentralLondonDistrictRaises(i: string)
    requires IsInwardShape(i)
    ensures IsValid("W1" + " " + i) == IndexError
  {
    var z := "W1" + " " + i;
    CanonicalReading("W1", i);
    assert Take("W1", 2) == "W1" && Drop("W1", 2) == [];
    assert StartsWith(z, CentralLondonDistricts[5]) by {
      assert z[..2] == "W1";
    }
    CentralLondonRule(z);
  }

  /** Written without its space, a four-character central London
      outward code shifts the positional split: the area stays, the
      district shrinks to the digit alone, and the central London rule
      rejects it. */
  lemma CentralLondonWithoutSpaceRejected(o: string, k: nat, i: string)
    requires IsOutwardShape(o) && |o| == 4 && IsInwardShape(i)
    requires Take(o, 2) !in AreasWithSingleDigitDistricts && Take(o, 2) !in AreasWithDoubleDigitsDistricts
    requires k < |CentralLondonDistricts| && StartsWith(o, CentralLondonDistricts[k])
    ensures IsValid(o + i) == Returned(false)
  {
    var z := o + i;
    var p := CentralLondonDistricts[k];
    var d := SplitZipcode(z).district;
    SpacelessReading(o, i);
    assert StartsWith(z, p) by {
      assert z[..|p|] == o[..|p|];
    }
    CentralLondonRule(z);
  }

  /** What the validator reads from a four-character outward code and an
      inward code written without a space. */
  lemma SpacelessReading(o: string, i: string)
    requires IsOutwardShape(o) && |o| == 4 && IsInwardShape(i)
    ensures var z := o + i;
            && CheckValidationRegex(z)
            && SplitZipcode(z).area == o[..2]
            && SplitZipcode(z).district == [o[2]]
            && z[..3] == o[..3]
  {
    var z := o + i;
    CanonicalCodeShapeAndSplit(o, i);
    assert |z| == 7 && z[..2] == o[..2] && z[2..3] == [o[2]];
  }

  lemma RejectsSpacelessEC1A1BB(o: string, i: string)
    requires o == "EC1A" && i == "1BB"
    ensures IsValid(o + i) == Returned(false)
  {
    assert StartsWith(o, CentralLondonDistricts[0]);
    CentralLondonWithoutSpaceRejected(o, 0, i);
  }

  lemma RejectsSpacelessNW1W9AA(o: string, i: string)
    requires o == "NW1W" && i == "9AA"
    ensures IsValid(o + i) == Returned(false)
  {
    assert StartsWith(o, CentralLondonDistricts[11]);
    CentralLondonWithoutSpaceRejected(o, 11, i);
  }

  lemma RejectsEC19(o: string, i: string)
    requires o == "EC19" && i == "9AA"
    ensures IsValid(o + " " + i) == Returned(false)
  {
    assert StartsWith(o, CentralLondonDistricts[0]);
    CanonicalCentralLondonRejected(o, 0, i);
  }

  lemma RejectsEC29(o: string, i: string)
    requires o == "EC29" && i == "9AA"
    ensures IsValid(o + " " + i) == Returned(false)
  {
    assert StartsWith(o, CentralLondonDistricts[1]);
    CanonicalCentralLondonRejected(o, 1, i);
  }

  lemma RejectsEC39(o: string, i: string)
    requires o == "EC39" && i == "9AA"
    ensures IsValid(o + " " + i) == Returned(false)
  {
    assert StartsWith(o, CentralLondonDistricts[2]);
    CanonicalCentralLondonRejected(o, 2, i);
  }

  lemma RejectsEC49(o: string, i: string)
    requires o == "EC49" && i == "9AA"
    ensures IsValid(o + " " + i) == Returned(false)
  {
    assert StartsWith(o, CentralLondonDistricts[3]);
    CanonicalCentralLondonRejected(o, 3, i);
  }

  lemma RejectsSW19(o: string, i: string)
    requires o == "SW19" && i == "9AA"
    ensures IsValid(o + " " + i) == Returned(false)
  {
    assert StartsWith(o, CentralLondonDistricts[4]);
    CanonicalCentralLondonRejected(o, 4, i);
  }

  lemma RejectsW19(o: string, i: string)
    requires o == "W19" && i == "9AA"
    ensures IsValid(o + " " + i) == Returned(false)
  {
    assert StartsWith(o, CentralLondonDistricts[5]);
    CanonicalCentralLondonRejected(o, 5, i);
  }

  /** Written without its space, a three-character outward code leaves
      the positional split with an empty district: a code that starts
      with a central London prefix then makes the check read past its
      end. */
  lemma SpacelessThreeCharCentralLondonRaises(o: string, i: string)
    requires IsOutwardShape(o) && |o| == 3 && IsInwardShape(i)
    requires Take(o, 2) !in AreasWithSingleDigitDistricts && Take(o, 2) !in AreasWithDoubleDigitsDistricts
    requires StartsWithAny(o + i, CentralLondonDistricts)
    ensures IsValid(o + i) == IndexError
  {
    var z := o + i;
    CanonicalCodeShapeAndSplit(o, i);
    assert |z| == 6 && z[..2] == Take(o, 2);
    assert SplitZipcode(z).district == [];
  }

  /** W1A0AX, the formatter's input for W1A 0AX, makes the validator raise. */
  lemma SpacelessW1A0AXRaises(o: string, i: string)
    requires o == "W1A" && i == "0AX"
    ensures IsValid(o + i) == IndexError
  {
    assert StartsWith(o + i, CentralLondonDistricts[5]) by {
      assert (o + i)[..2] == "W1";
    }
    assert Take(o, 2) == "W1";
    SpacelessThreeCharCentralLondonRaises(o, i);
  }

  /** E16 6AN, what the formatter makes of E1 6AN, is accepted. */
  lemma AcceptsE166AN(o: string, i: string)
    requires o == "E16" && i == "6AN"
    ensures IsValid(o + " " + i) == Returned(true)
  {
    var z := o + " " + i;
    CanonicalReading(o, i);
    var f := SplitZipcode(z);
    assert f == Fields("E1", "6", '6', "AN") by {
      assert Take(o, 2) == "E1" && Drop(o, 2) == "6" && i[1..] == "AN";
    }
    assert Ungated(z) by {
      assert "E1" !in AreasWithSingleDigitDistricts && "E1" !in AreasWithDoubleDigitsDistricts;
    }
    assert OtherAreaRules(z, f) by {
      assert z[0] == 'E' && z[1] == '1' && z[2] == '6' && z[3] == ' ';
      assert forall k :: 0 <= k < |CentralLondonDistricts| ==> !StartsWith(z, CentralLondonDistricts[k]);
      assert f.unit[0] == 'A' && f.unit[1] == 'N';
    }
    OtherAreaOutcome(z);
  }

  /** Facts about a code followed by a newline, which `$` lets through. */
  lemma TrailingNewlineReading(z: string)
    requires z == "M1 1AE\n"
    ensures CheckValidationRegex(z)
    ensures SplitZipcode(z) == Fields("M1", " ", 'A', "E\n")
    ensures Ungated(z) && !StartsWithAny(z, CentralLondonDistricts)
  {
    assert CheckValidationRegex(z) by {
      assert z[..|z| - 1] == "M1" + " " + "1AE";
      CanonicalCodeShapeAndSplit("M1", "1AE");
    }
    assert z[..2] == "M1" && z[2..|z| - 4] == " " && z[|z| - 3] == 'A' && z[|z| - 2..] == "E\n";
    assert "M1" !in AreasWithSingleDigitDistricts && "M1" !in AreasWithDoubleDigitsDistricts;
    if StartsWithAny(z, CentralLondonDistricts) {
      CentralLondonInitials(z);
    }
  }

  /** A code with a trailing newline is accepted, read with a district of
      one space and a unit that ends in the newline. */
  lemma TrailingNewlineAccepted(z: string)
    requires z == "M1 1AE\n"
    ensures IsValid(z) == Returned(true)
  {
    TrailingNewlineReading(z);
    var f := Fields("M1", " ", 'A', "E\n");
    assert OtherAreaRules(z, f) by {
      assert z[0] == 'M' && z[1] == '1' && z[2] == ' ' && z[3] == '1';
      assert forall k :: 0 <= k < |CentralLondonDistricts| ==> !StartsWith(z, CentralLondonDistricts[k]);
      assert f.unit[0] == 'E' && f.unit[1] == '\n';
    }
    OtherAreaOutcome(z);
  }

  /** The single-digit areas skip every later rule, the unit rule among them. */
  lemma AcceptsBR99CA(o: string, i: string)
    requires o == "BR9" && i == "9CA"
    ensures IsValid(o + " " + i) == Returned(true)
  {
    assert o == "BR" + ['9'];
    SingleDigitDistricts("BR", '9', '9', i);
  }
}
