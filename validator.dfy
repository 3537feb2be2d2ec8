/** The postcode validator: `is_valid` checks a code against a fixed
    shape and then against the Royal Mail allocation rules, as an ordered
    chain of early returns. */
module Validator {
  import opened Text

  /** Areas whose districts are a single digit (WC: a digit and a letter). */
  const AreasWithSingleDigitDistricts: seq<string> :=
    ["BR", "FY", "HA", "HD", "HG", "HR", "HS", "HX", "JE", "LD", "SM", "SR", "WC", "WN", "ZE"]

  /** Areas whose districts are two digits. */
  const AreasWithDoubleDigitsDistricts: seq<string> := ["AB", "LL", "SO"]

  /** Areas that have a district 0. */
  const AreasWithDistrictZero: seq<string> := ["BL", "BS", "CM", "CR", "FY", "HA", "PR", "SL", "SS"]

  /** Central London districts subdivided by a trailing letter. */
  const CentralLondonDistricts: seq<string> :=
    ["EC1", "EC2", "EC3", "EC4", "SW1", "W1", "WC1", "WC2", "E1W", "N1C", "N1P", "NW1W", "SE1P"]

  const FirstPositionExcluded: seq<char> := ['Q', 'V', 'X']
  const SecondPositionExcluded: seq<char> := ['I', 'J', 'Z']
  const ThirdPositionAllowed: seq<char> :=
    ['A', 'B', 'C', 'D', 'E', 'F', 'G', 'H', 'J', 'K', 'P', 'S', 'T', 'U', 'W']
  const FourthPositionAllowed: seq<char> := ['A', 'B', 'E', 'H', 'M', 'N', 'P', 'R', 'V', 'W', 'X', 'Y']
  const UnitExcluded: set<char> := {'C', 'I', 'K', 'M', 'O', 'V'}

  /** What `is_valid` returns or raises. */
  datatype Outcome =
    | Returned(valid: bool)
    | IndexError  // district[-1] on an empty district

  /** The four fields `_split_zipcode` returns. */
  datatype Fields = Fields(area: string, district: string, sector: char, unit: string)

  /** What `district[-1]` decides in the central London loop. */
  datatype Scan = Continue | Reject | Crash

  // ---------------------------------------------------------------------
  // The shape check: ^[A-Z]{1,2}[0-9][A-Z0-9]? ?[0-9][A-Z]{2}$

  /** `[A-Z]{1,2}[0-9][A-Z0-9]?` */
  predicate IsOutwardShape(o: string)
    ensures IsOutwardShape(o) ==> 2 <= |o| <= 4
  {
    || (|o| == 2 && IsUpper(o[0]) && IsDigit(o[1]))
    || (|o| == 3 && IsUpper(o[0]) && IsUpper(o[1]) && IsDigit(o[2]))
    || (|o| == 3 && IsUpper(o[0]) && IsDigit(o[1]) && (IsUpper(o[2]) || IsDigit(o[2])))
    || (|o| == 4 && IsUpper(o[0]) && IsUpper(o[1]) && IsDigit(o[2]) && (IsUpper(o[3]) || IsDigit(o[3])))
  }

  /** `[0-9][A-Z]{2}` */
  predicate IsInwardShape(i: string) {
    |i| == 3 && IsDigit(i[0]) && IsUpper(i[1]) && IsUpper(i[2])
  }

  /** The whole of `s` matches the pattern: an outward code, an optional
      space, an inward code. */
  predicate MatchesToEnd(s: string)
    ensures MatchesToEnd(s) ==> 5 <= |s| <= 8
  {
    && |s| >= 3
    && IsInwardShape(s[|s| - 3..])
    && var o := s[..|s| - 3];
       || IsOutwardShape(o)
       || (|o| > 0 && o[|o| - 1] == ' ' && IsOutwardShape(o[..|o| - 1]))
  }

  /** `_check_validation_regex`: `re.match` anchors at the start, and `$`
      matches at the end of the string or just before a final newline. */
  predicate CheckValidationRegex(zipcode: string)
    ensures CheckValidationRegex(zipcode) ==> 5 <= |zipcode| <= 9
  {
    || MatchesToEnd(zipcode)
    || (|zipcode| > 0 && zipcode[|zipcode| - 1] == '\n' && MatchesToEnd(zipcode[..|zipcode| - 1]))
  }

  // ---------------------------------------------------------------------
  // The positional split

  /** `_split_zipcode`: the outward code is all but the last four
      characters, the area its first two, the district the rest of it; the
      inward code is the last three characters. */
  function SplitZipcode(zipcode: string): (f: Fields)
    requires |zipcode| > 0
    ensures |zipcode| >= 6 ==> f.area == zipcode[..2] && f.district == zipcode[2..|zipcode| - 4]
    ensures |zipcode| == 5 ==> f.area == zipcode[..1] && f.district == []
    ensures |zipcode| >= 3 ==> f.sector == zipcode[|zipcode| - 3] && f.unit == zipcode[|zipcode| - 2..]
  {
    // zipcode[:-4] and zipcode[-3:], clamped as Python slices are
    var outward := if |zipcode| >= 4 then zipcode[..|zipcode| - 4] else [];
    var inward := if |zipcode| >= 3 then zipcode[|zipcode| - 3..] else zipcode;
    // outward[:2] and outward[2:]
    var area := if |outward| >= 2 then outward[..2] else outward;
    var district := if |outward| >= 2 then outward[2..] else [];
    Fields(area, district, inward[0], inward[1..])
  }

  /** The split loses nothing but the character fourth from the end
      (the space of a canonical code). */
  lemma SplitReassembles(zipcode: string)
    requires |zipcode| >= 4
    ensures var f := SplitZipcode(zipcode);
            f.area + f.district + [zipcode[|zipcode| - 4]] + [f.sector] + f.unit == zipcode
  {
    var n, f := |zipcode|, SplitZipcode(zipcode);
    OutwardReassembles(zipcode);
    var outward, space, inward := f.area + f.district, [zipcode[n - 4]], [f.sector] + f.unit;
    assert f.area + f.district + space + [f.sector] + f.unit == outward + space + inward;
    assert zipcode == zipcode[..n - 4] + space + zipcode[n - 3..];
  }

  lemma OutwardReassembles(zipcode: string)
    requires |zipcode| >= 4
    ensures var f := SplitZipcode(zipcode);
            && f.area + f.district == zipcode[..|zipcode| - 4]
            && [f.sector] + f.unit == zipcode[|zipcode| - 3..]
  {
    var n := |zipcode|;
    if n >= 6 {
      assert zipcode[..n - 4] == zipcode[..2] + zipcode[2..n - 4];
    }
  }

  /** An outward code, a space and an inward code always pass the shape
      check (so does the same code without its space), and the split
      reads the area and district back from the outward code. */
  lemma CanonicalCodeShapeAndSplit(outward: string, inward: string)
    requires IsOutwardShape(outward) && IsInwardShape(inward)
    ensures CheckValidationRegex(outward + " " + inward)
    ensures CheckValidationRegex(outward + inward)
    ensures SplitZipcode(outward + " " + inward) ==
              Fields(Take(outward, 2), Drop(outward, 2), inward[0], inward[1..])
  {
    var s := outward + " " + inward;
    assert s[|s| - 3..] == inward;
    assert s[..|s| - 3] == outward + " ";
    assert (outward + " ")[..|outward|] == outward;
    assert (outward + inward)[|outward|..] == inward;
    assert (outward + inward)[..|outward|] == outward;
    if |outward| >= 2 {
      assert s[..2] == outward[..2];
      assert s[2..|s| - 4] == outward[2..];
    }
  }

  // ---------------------------------------------------------------------
  // The rules

  /** `_check_areas_with_only_single_digit_districts` */
  predicate CheckSingleDigitDistrict(area: string, district: string) {
    if area == "WC" && |district| == 2 && IsDigit(district[0]) && IsUpper(district[1]) then true
    else if area != "WC" && |district| == 1 && IsDigit(district[0]) then true
    else false
  }

  /** `_check_areas_with_only_double_digit_districts` */
  predicate CheckDoubleDigitDistrict(district: string) {
    |district| == 2 && AllDigits(district)
  }

  /** The loop over the central London prefixes: every prefix the code
      starts with demands that the district end in a letter, and reading
      the last character of an empty district raises IndexError. */
  function CentralLondonScan(zipcode: string, district: string, prefixes: seq<string>): (r: Scan)
    ensures r == Crash <==> district == [] && StartsWithAny(zipcode, prefixes)
    ensures r == Reject <==>
              district != [] && !IsAlpha(district[|district| - 1]) && StartsWithAny(zipcode, prefixes)
  {
    if prefixes == [] then Continue
    else if StartsWith(zipcode, prefixes[0]) then
      if district == [] then Crash
      else if !IsAlpha(district[|district| - 1]) then Reject
      else CentralLondonScan(zipcode, district, prefixes[1..])
    else CentralLondonScan(zipcode, district, prefixes[1..])
  }

  /** `re.match(r'[A-Z][0-9][A-Z].*', zipcode)` */
  predicate StartsLikeA9A(s: string) {
    |s| >= 3 && IsUpper(s[0]) && IsDigit(s[1]) && IsUpper(s[2])
  }

  /** `re.match(r'[A-Z]{2}[0-9][A-Z].*', zipcode)` */
  predicate StartsLikeAA9A(s: string) {
    |s| >= 4 && IsUpper(s[0]) && IsUpper(s[1]) && IsDigit(s[2]) && IsUpper(s[3])
  }

  /** `bool(set(unit) & {'C', 'I', 'K', 'M', 'O', 'V'})` */
  function HasExcludedUnitLetter(unit: string): (r: bool)
    ensures r <==> exists i :: 0 <= i < |unit| && unit[i] in UnitExcluded
  {
    var common := (set c | c in unit) * UnitExcluded;
    assert forall i :: 0 <= i < |unit| && unit[i] in UnitExcluded ==> unit[i] in common;
    common != {}
  }

  /** `is_valid(zipcode)`, guard by guard in the source's order. */
  function IsValid(zipcode: string): (r: Outcome)
    ensures r == Returned(true) ==> CheckValidationRegex(zipcode)
    ensures r == IndexError <==>
              && CheckValidationRegex(zipcode)
              && SplitZipcode(zipcode).area !in AreasWithSingleDigitDistricts
              && SplitZipcode(zipcode).area !in AreasWithDoubleDigitsDistricts
              && SplitZipcode(zipcode).district == []
              && StartsWithAny(zipcode, CentralLondonDistricts)
  {
    if !CheckValidationRegex(zipcode) then Returned(false)
    else
      var f := SplitZipcode(zipcode);
      if f.area in AreasWithSingleDigitDistricts then Returned(CheckSingleDigitDistrict(f.area, f.district))
      else if f.area in AreasWithDoubleDigitsDistricts then Returned(CheckDoubleDigitDistrict(f.district))
      else if f.district == "0" && f.area !in AreasWithDistrictZero then Returned(false)
      else if f.district == "10" && f.area != "BS" && f.area in AreasWithDistrictZero then Returned(false)
      else match CentralLondonScan(zipcode, f.district, CentralLondonDistricts)
        case Crash => IndexError
        case Reject => Returned(false)
        case Continue =>
          if zipcode[0] in FirstPositionExcluded then Returned(false)
          else if zipcode[1] in SecondPositionExcluded then Returned(false)
          else if StartsLikeA9A(zipcode) && zipcode[2] !in ThirdPositionAllowed then Returned(false)
          else if StartsLikeAA9A(zipcode) && zipcode[3] !in FourthPositionAllowed then Returned(false)
          else if HasExcludedUnitLetter(f.unit) then Returned(false)
          else Returned(true)
  }

  // ---------------------------------------------------------------------
  // The rules as one conjunction

  /** The allocation rules stated side by side rather than as a chain:
      the two gatekeeping area lists decide alone; every other area must
      pass all of the remaining rules. */
  predicate Accepted(zipcode: string) {
    && CheckValidationRegex(zipcode)
    && var f := SplitZipcode(zipcode);
       if f.area in AreasWithSingleDigitDistricts then CheckSingleDigitDistrict(f.area, f.district)
       else if f.area in AreasWithDoubleDigitsDistricts then CheckDoubleDigitDistrict(f.district)
       else OtherAreaRules(zipcode, f)
  }

  /** The rules every area outside the two gatekeeping lists must pass. */
  predicate OtherAreaRules(zipcode: string, f: Fields)
    requires |zipcode| >= 4
  {
    && (f.district == "0" ==> f.area in AreasWithDistrictZero)
    && (f.district == "10" && f.area in AreasWithDistrictZero ==> f.area == "BS")
    && (forall k :: 0 <= k < |CentralLondonDistricts| && StartsWith(zipcode, CentralLondonDistricts[k])
          ==> f.district != [] && IsAlpha(f.district[|f.district| - 1]))
    && zipcode[0] !in FirstPositionExcluded
    && zipcode[1] !in SecondPositionExcluded
    && (StartsLikeA9A(zipcode) ==> zipcode[2] in ThirdPositionAllowed)
    && (StartsLikeAA9A(zipcode) ==> zipcode[3] in FourthPositionAllowed)
    && forall k :: 0 <= k < |f.unit| ==> f.unit[k] !in UnitExcluded
  }

  /** The central London loop lets the code through exactly when every
      prefix it starts with is followed by a district ending in a letter. */
  lemma CentralLondonScanPasses(zipcode: string, district: string, prefixes: seq<string>)
    ensures CentralLondonScan(zipcode, district, prefixes) == Continue <==>
              forall k :: 0 <= k < |prefixes| && StartsWith(zipcode, prefixes[k])
                ==> district != [] && IsAlpha(district[|district| - 1])
  {
  }

  lemma ExactlyForSingleDigitArea(zipcode: string)
    requires CheckValidationRegex(zipcode)
    requires SplitZipcode(zipcode).area in AreasWithSingleDigitDistricts
    ensures IsValid(zipcode) == Returned(true) <==> Accepted(zipcode)
  {
  }

  lemma ExactlyForDoubleDigitArea(zipcode: string)
    requires CheckValidationRegex(zipcode)
    requires SplitZipcode(zipcode).area !in AreasWithSingleDigitDistricts
    requires SplitZipcode(zipcode).area in AreasWithDoubleDigitsDistricts
    ensures IsValid(zipcode) == Returned(true) <==> Accepted(zipcode)
  {
  }

  lemma ExactlyForOtherArea(zipcode: string)
    requires Ungated(zipcode)
    ensures IsValid(zipcode) == Returned(true) <==> OtherAreaRules(zipcode, SplitZipcode(zipcode))
  {
    var f := SplitZipcode(zipcode);
    var scan := CentralLondonScan(zipcode, f.district, CentralLondonDistricts);
    CentralLondonScanPasses(zipcode, f.district, CentralLondonDistricts);
    var districtsOk := && (f.district == "0" ==> f.area in AreasWithDistrictZero)
                       && (f.district == "10" && f.area in AreasWithDistrictZero ==> f.area == "BS");
    if !districtsOk {
      assert IsValid(zipcode) == Returned(false);
    } else if scan != Continue {
      assert IsValid(zipcode) != Returned(true);
    } else {
      assert IsValid(zipcode) == Returned(
        && zipcode[0] !in FirstPositionExcluded
        && zipcode[1] !in SecondPositionExcluded
        && (StartsLikeA9A(zipcode) ==> zipcode[2] in ThirdPositionAllowed)
        && (StartsLikeAA9A(zipcode) ==> zipcode[3] in FourthPositionAllowed)
        && !HasExcludedUnitLetter(f.unit));
    }
  }

  /** Outside the gatekeeping areas `is_valid` either raises (empty
      district under a central London prefix) or returns whether every
      remaining rule holds. */
  lemma OtherAreaOutcome(zipcode: string)
    requires Ungated(zipcode)
    ensures var f := SplitZipcode(zipcode);
            IsValid(zipcode) ==
              if f.district == [] && StartsWithAny(zipcode, CentralLondonDistricts) then IndexError
              else Returned(OtherAreaRules(zipcode, f))
  {
    ExactlyForOtherArea(zipcode);
  }

  /** `is_valid` returns True exactly for the codes that satisfy every rule. */
  lemma IsValidExactly(zipcode: string)
    ensures IsValid(zipcode) == Returned(true) <==> Accepted(zipcode)
  {
    if CheckValidationRegex(zipcode) {
      var area := SplitZipcode(zipcode).area;
      if area in AreasWithSingleDigitDistricts {
        ExactlyForSingleDigitArea(zipcode);
      } else if area in AreasWithDoubleDigitsDistricts {
        ExactlyForDoubleDigitArea(zipcode);
      } else {
        ExactlyForOtherArea(zipcode);
      }
    }
  }

  // ---------------------------------------------------------------------
  // The rules one by one

  /** Anything that fails the shape check is rejected before any other rule. */
  lemma ShapeCheckedFirst(zipcode: string)
    requires !CheckValidationRegex(zipcode)
    ensures IsValid(zipcode) == Returned(false)
  {
  }

  /** An area with single-digit districts is decided at once, by the
      length and the characters after the area alone: a digit for most
      such areas, a digit and a letter for WC. */
  lemma SingleDigitAreaDecided(zipcode: string)
    requires CheckValidationRegex(zipcode)
    requires SplitZipcode(zipcode).area in AreasWithSingleDigitDistricts
    ensures zipcode[..2] != "WC" ==> IsValid(zipcode) == Returned(|zipcode| == 7 && IsDigit(zipcode[2]))
    ensures zipcode[..2] == "WC" ==>
              IsValid(zipcode) == Returned(|zipcode| == 8 && IsDigit(zipcode[2]) && IsUpper(zipcode[3]))
  {
    var f := SplitZipcode(zipcode);
    assert |f.area| == 2;
    assert |zipcode| >= 6;
  }

  /** AB, LL and SO are decided at once: exactly two digits after the area. */
  lemma DoubleDigitAreaDecided(zipcode: string)
    requires CheckValidationRegex(zipcode)
    requires SplitZipcode(zipcode).area in AreasWithDoubleDigitsDistricts
    ensures IsValid(zipcode) == Returned(|zipcode| == 8 && IsDigit(zipcode[2]) && IsDigit(zipcode[3]))
  {
    var f := SplitZipcode(zipcode);
    assert f.area == "AB" || f.area == "LL" || f.area == "SO";
    assert f.area !in AreasWithSingleDigitDistricts;
    assert |zipcode| >= 6;
    assert IsValid(zipcode) == Returned(CheckDoubleDigitDistrict(f.district));
    assert |f.district| == |zipcode| - 6;
    if |zipcode| == 8 {
      assert f.district[0] == zipcode[2] && f.district[1] == zipcode[3];
      assert AllDigits(f.district) <==> IsDigit(zipcode[2]) && IsDigit(zipcode[3]);
    }
  }

  /** A code that passed the shape check and is in neither gatekeeping area list. */
  predicate Ungated(zipcode: string) {
    && CheckValidationRegex(zipcode)
    && SplitZipcode(zipcode).area !in AreasWithSingleDigitDistricts
    && SplitZipcode(zipcode).area !in AreasWithDoubleDigitsDistricts
  }

  /** District 0 exists only in BL, BS, CM, CR, FY, HA, PR, SL and SS. */
  lemma DistrictZeroRule(zipcode: string)
    requires Ungated(zipcode)
    requires SplitZipcode(zipcode).district == "0"
    ensures IsValid(zipcode) == Returned(true) ==> SplitZipcode(zipcode).area in AreasWithDistrictZero
    ensures SplitZipcode(zipcode).area !in AreasWithDistrictZero ==> IsValid(zipcode) == Returned(false)
  {
  }

  /** Of the areas with a district 0, only BS also has a district 10. */
  lemma DistrictTenRule(zipcode: string)
    requires Ungated(zipcode)
    requires SplitZipcode(zipcode).district == "10"
    requires SplitZipcode(zipcode).area in AreasWithDistrictZero
    ensures SplitZipcode(zipcode).area != "BS" ==> IsValid(zipcode) == Returned(false)
  {
  }

  /** A code starting with a central London prefix must have a district
      ending in a letter; an empty district makes the check raise. */
  lemma CentralLondonRule(zipcode: string)
    requires Ungated(zipcode)
    requires StartsWithAny(zipcode, CentralLondonDistricts)
    ensures var d := SplitZipcode(zipcode).district;
            && (d == [] <==> IsValid(zipcode) == IndexError)
            && (d != [] && !IsAlpha(d[|d| - 1]) ==> IsValid(zipcode) == Returned(false))
  {
  }

  /** Q, V and X are never in the first position. */
  lemma FirstPositionRule(zipcode: string)
    requires Ungated(zipcode)
    requires zipcode[0] in FirstPositionExcluded
    ensures IsValid(zipcode) == Returned(false)
  {
    if StartsWithAny(zipcode, CentralLondonDistricts) {
      CentralLondonInitials(zipcode);
    }
  }

  /** I, J and Z are never in the second position. */
  lemma SecondPositionRule(zipcode: string)
    requires Ungated(zipcode)
    requires zipcode[1] in SecondPositionExcluded
    ensures IsValid(zipcode) == Returned(false)
  {
    if StartsWithAny(zipcode, CentralLondonDistricts) {
      CentralLondonInitials(zipcode);
    }
  }

  /** The first two characters of every central London prefix. */
  lemma CentralLondonInitials(zipcode: string)
    requires StartsWithAny(zipcode, CentralLondonDistricts)
    ensures zipcode[0] in ['E', 'N', 'S', 'W'] && zipcode[1] in ['1', 'C', 'E', 'W']
  {
    var k :| 0 <= k < |CentralLondonDistricts| && StartsWith(zipcode, CentralLondonDistricts[k]);
    var p := CentralLondonDistricts[k];
    CentralLondonPrefixInitials(k);
    assert zipcode[0] == p[0] && zipcode[1] == p[1];
  }

  lemma CentralLondonPrefixInitials(k: nat)
    requires k < |CentralLondonDistricts|
    ensures var p := CentralLondonDistricts[k];
            |p| >= 2 && p[0] in ['E', 'N', 'S', 'W'] && p[1] in ['1', 'C', 'E', 'W']
  {
  }

  /** After a letter and a digit, the third position is one of ABCDEFGHJKPSTUW. */
  lemma ThirdPositionRule(zipcode: string)
    requires Ungated(zipcode)
    requires StartsLikeA9A(zipcode) && zipcode[2] !in ThirdPositionAllowed
    ensures IsValid(zipcode) != Returned(true)
  {
  }

  /** After two letters and a digit, the fourth position is one of ABEHMNPRVWXY. */
  lemma FourthPositionRule(zipcode: string)
    requires Ungated(zipcode)
    requires StartsLikeAA9A(zipcode) && zipcode[3] !in FourthPositionAllowed
    ensures IsValid(zipcode) != Returned(true)
  {
  }

  /** The last two characters never include C, I, K, M, O or V. */
  lemma UnitRule(zipcode: string)
    requires Ungated(zipcode)
    requires zipcode[|zipcode| - 2] in UnitExcluded || zipcode[|zipcode| - 1] in UnitExcluded
    ensures IsValid(zipcode) != Returned(true)
  {
  }
}
