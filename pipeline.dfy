/** How the formatter's output meets the validator's positional split. */
module Pipeline {
  import opened Text
  import opened Formatter
  import opened Validator

  /** A formatted code puts its one space where `_split_zipcode` expects
      it: the split's outward part is the formatter's outward part and its
      sector and unit are the last three stripped characters. */
  lemma FormattedSplitsAtSpace(zipcode: string)
    requires StrFormat(zipcode).Ok?
    requires |KeepAlnum(zipcode)| >= 3
    ensures var c, r := KeepAlnum(zipcode), StrFormat(zipcode).value;
            var f := SplitZipcode(r);
            && r[|r| - 4] == ' '
            && f.area + f.district == Take(c, OutwardLength(c).n)
            && f.sector == c[|c| - 3]
            && f.unit == c[|c| - 2..]
  {
    var c, r := KeepAlnum(zipcode), StrFormat(zipcode).value;
    var out, inw := Take(c, OutwardLength(c).n), LastN(c, 3);
    assert r == out + " " + inw;
    assert |r| - 4 == |out|;
    OutwardReassembles(r);
    assert r[..|r| - 4] == out;
    assert r[|r| - 3..] == inw;
  }

  /** When the stripped input is a code in the validator's shape without
      its space and the chosen rule splits it with nothing lost, the
      formatted result passes the validator's shape check and splits into
      the code's own outward and inward parts. */
  lemma FormattedCodePassesShapeCheck(zipcode: string)
    requires StrFormat(zipcode).Ok?
    requires var c := KeepAlnum(zipcode);
             && |c| >= 3
             && IsOutwardShape(c[..|c| - 3])
             && IsInwardShape(c[|c| - 3..])
             && OutwardLength(c).n + 3 == |c|
    ensures var c, r := KeepAlnum(zipcode), StrFormat(zipcode).value;
            && r == c[..|c| - 3] + " " + c[|c| - 3..]
            && CheckValidationRegex(r)
            && SplitZipcode(r).area + SplitZipcode(r).district == c[..|c| - 3]
  {
    var c, r := KeepAlnum(zipcode), StrFormat(zipcode).value;
    var out, inw := c[..|c| - 3], c[|c| - 3..];
    assert r == out + " " + inw;
    assert r[|r| - 3..] == inw;
    assert r[..|r| - 3] == out + " ";
    assert (out + " ")[..|out|] == out;
    assert MatchesToEnd(r);
    FormattedSplitsAtSpace(zipcode);
  }
}
