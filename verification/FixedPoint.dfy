/** Collateral amounts with eight decimals, kept as text and added as integers of 1e-8 units. */
module FixedPoint {
  import opened Domain
  import opened Decimal

  const PRECISION := 100_000_000

  /** The eight-decimal text of a number of units, with its sign. */
  function Format(n: int): string {
    var abs := if n < 0 then -n else n;
    (if n < 0 then "-" else "") + PrintNat(abs / PRECISION) + "." + PadStart(PrintNat(abs % PRECISION), 8)
  }

  function Dot(s: string): (i: nat)
    ensures i <= |s|
    ensures forall k :: 0 <= k < i ==> s[k] != '.'
    ensures i < |s| ==> s[i] == '.'
  {
    if s == "" || s[0] == '.' then 0 else 1 + Dot(s[1..])
  }

  /** The text before the first point. */
  function Whole(s: string): string {
    s[..Dot(s)]
  }

  /** The text between the first point and the next, if there is one. */
  function Fraction(s: string): string {
    if Dot(s) == |s| then "" else Whole(s[Dot(s) + 1..])
  }

  /** BigInt on decimal text; the empty text reads as zero and anything else but digits is refused. */
  function ReadInt(s: string): Option<int> {
    if s == "" then Some(0)
    else if AllDigits(s) then Some(ParseNat(s))
    else if s[0] == '-' && |s| > 1 && AllDigits(s[1..]) then
      var n: int := ParseNat(s[1..]);
      Some(-n)
    else None
  }

  /** Eight digits: filled up with zeros, cut off behind. */
  function EightDigits(fraction: string): string {
    PadEnd(fraction, 8)[..8]
  }

  function Combine(whole: Option<int>, fraction: Option<int>): Option<int> {
    if whole.Some? && fraction.Some? then Some(whole.value * PRECISION + fraction.value) else None
  }

  /** How the profit functions read an amount: the sign stays with the whole part. */
  function ReadCostBasis(s: string): Option<int> {
    Combine(ReadInt(Whole(s)), ReadInt(EightDigits(Fraction(s))))
  }

  /** How the adder reads an amount: the sign applies to all of it. */
  function Parse(s: string): Option<int> {
    if s != "" && s[0] == '-' then
      var abs := ReadCostBasis(s[1..]);
      if abs.Some? then Some(-abs.value) else None
    else ReadCostBasis(s)
  }

  function AddFixedPoint(a: string, b: string): Option<string> {
    if Parse(a).Some? && Parse(b).Some? then Some(Format(Parse(a).value + Parse(b).value)) else None
  }

  function ComputeRealizedPnl(yesShares: int, noShares: int, lockedCollateral: string, outcome: bool): Option<string> {
    var winningShares := if outcome then yesShares else noShares;
    var cost := ReadCostBasis(lockedCollateral);
    if cost.Some? then Some(Format(winningShares * PRECISION - cost.value)) else None
  }

  /** Prices are whole numbers of 1e-8 units; without a price there is no result to format. */
  function ComputeUnrealizedPnl(yesShares: int, noShares: int, lockedCollateral: string,
                                prices: Option<(int, int)>): Option<Option<string>> {
    if prices.None? then Some(None)
    else
      var cost := ReadCostBasis(lockedCollateral);
      if cost.Some? then Some(Some(Format(yesShares * prices.value.0 + noShares * prices.value.1 - cost.value)))
        else None
  }

  // ---------------------------------------------------------------- reading

  lemma {:induction false} DotAfter(a: string, b: string)
    requires forall k :: 0 <= k < |a| ==> a[k] != '.'
    ensures Dot(a + "." + b) == |a|
  {
    if a != "" {
      assert (a + "." + b)[1..] == a[1..] + "." + b;
      DotAfter(a[1..], b);
    }
  }

  lemma NoDot(s: string)
    requires AllDigits(s)
    ensures forall k :: 0 <= k < |s| ==> s[k] != '.'
    ensures Dot(s) == |s|
  {
  }

  lemma SplitParts(whole: string, fraction: string)
    requires forall k :: 0 <= k < |whole| ==> whole[k] != '.'
    requires AllDigits(fraction)
    ensures Whole(whole + "." + fraction) == whole
    ensures Fraction(whole + "." + fraction) == fraction
  {
    var s := whole + "." + fraction;
    DotAfter(whole, fraction);
    NoDot(fraction);
    assert s[..|whole|] == whole && s[|whole| + 1..] == fraction;
  }

  lemma EightAre(n: nat)
    requires n < PRECISION
    ensures var t := PadStart(PrintNat(n), 8); |t| == 8 && AllDigits(t) && ParseNat(t) == n && EightDigits(t) == t
  {
    assert Pow10(8) == PRECISION by {
      assert Pow10(4) == 10_000;
    }
    ParsePrint(n);
    PrintLength(n, 8);
    ParseLeadingZeros(8 - |PrintNat(n)|, PrintNat(n));
    var t := PadStart(PrintNat(n), 8);
    assert |PrintNat(n)| == 8 ==> Zeros(0) + PrintNat(n) == PrintNat(n);
    assert t == Zeros(8 - |PrintNat(n)|) + PrintNat(n);
    assert t[..8] == t;
  }

  // -------------------------------------------------------- two ways to read

  /** A decimal text: perhaps a sign, at least one digit, perhaps a point and more digits. */
  function Text(negative: bool, whole: string, fraction: Option<string>): string {
    (if negative then "-" else "") + whole + (if fraction.Some? then "." + fraction.value else "")
  }

  ghost predicate IsText(whole: string, fraction: Option<string>) {
    whole != "" && AllDigits(whole) && (fraction.Some? ==> AllDigits(fraction.value))
  }

  function FractionText(fraction: Option<string>): string {
    if fraction.Some? then fraction.value else ""
  }

  /** A text without a whole part reads as its fraction. */
  lemma NoWholePart(fraction: string)
    requires AllDigits(fraction)
    ensures ReadCostBasis("." + fraction) == Some(FractionUnits(Some(fraction)))
  {
    StartsWithDot(fraction);
    EightDigitsRead(fraction);
    hide EightDigits, Whole, Fraction, ParseNat;
  }

  lemma StartsWithDot(fraction: string)
    requires AllDigits(fraction)
    ensures Whole("." + fraction) == "" && Fraction("." + fraction) == fraction
  {
    assert ("." + fraction)[1..] == fraction;
    NoDot(fraction);
    assert fraction[..|fraction|] == fraction;
  }

  /** The empty text reads as zero, a sign alone is refused. */
  lemma NothingToRead()
    ensures ReadCostBasis("") == Some(0) && ReadCostBasis("-").None?
  {
    NoDot("");
    assert Whole("") == "" && Whole("-") == "-" && Fraction("") == "";
    EightZeros();
    hide EightDigits, Whole, Fraction;
  }

  lemma EightZeros()
    ensures ReadInt(EightDigits("")) == Some(0)
  {
    assert AllDigits("");
    EightDigitsRead("");
    FractionReads("");
    hide EightDigits;
  }

  /** A short fraction counts as if it were filled up with zeros, a long one is cut off after eight digits. */
  lemma FractionReads(fraction: string)
    requires AllDigits(fraction)
    ensures AllDigits(EightDigits(fraction))
    ensures |fraction| <= 8 ==> ParseNat(EightDigits(fraction)) == ParseNat(fraction) * Pow10(8 - |fraction|)
    ensures |fraction| >= 8 ==> EightDigits(fraction) == fraction[..8]
  {
    hide ParseNat, Pow10, Zeros, EightDigits, AllDigits;
    if |fraction| <= 8 {
      ParseTrailingZeros(fraction, 8 - |fraction|);
      FilledUp(fraction);
    }
    if |fraction| >= 8 {
      CutOff(fraction);
    }
  }

  lemma CutOff(fraction: string)
    requires |fraction| >= 8
    ensures EightDigits(fraction) == fraction[..8]
    ensures AllDigits(fraction) ==> AllDigits(EightDigits(fraction))
  {
  }

  lemma FilledUp(fraction: string)
    requires |fraction| <= 8
    ensures EightDigits(fraction) == fraction + Zeros(8 - |fraction|)
  {
    assert fraction + Zeros(0) == fraction;
    assert PadEnd(fraction, 8)[..8] == PadEnd(fraction, 8);
  }

  lemma EightDigitsRead(digits: string)
    requires AllDigits(digits)
    ensures AllDigits(EightDigits(digits)) && ReadInt(EightDigits(digits)) == Some(ParseNat(EightDigits(digits)))
    ensures ParseNat(EightDigits(digits)) >= 0
  {
  }

  lemma TextParts(negative: bool, whole: string, fraction: Option<string>)
    requires IsText(whole, fraction)
    ensures Whole(Text(negative, whole, fraction)) == (if negative then "-" else "") + whole
    ensures Fraction(Text(negative, whole, fraction)) == FractionText(fraction)
  {
    var signed := (if negative then "-" else "") + whole;
    assert forall k :: 0 <= k < |signed| ==> signed[k] != '.';
    if fraction.Some? {
      SplitParts(signed, fraction.value);
      assert Text(negative, whole, fraction) == signed + "." + fraction.value;
    } else {
      assert Text(negative, whole, fraction) == signed && Dot(signed) == |signed|;
      assert signed[..|signed|] == signed;
    }
  }

  lemma ReadDigits(digits: string)
    requires AllDigits(digits) && digits != ""
    ensures ReadInt(digits) == Some(ParseNat(digits))
    ensures var n: int := ParseNat(digits); ReadInt("-" + digits) == Some(-n)
  {
    assert ("-" + digits)[1..] == digits;
    assert !IsDigit(("-" + digits)[0]);
  }

  /** The units of the fraction digits. */
  function FractionUnits(fraction: Option<string>): int
    requires fraction.Some? ==> AllDigits(fraction.value)
  {
    ParseNat(EightDigits(FractionText(fraction)))
  }

  /** The sign belongs to the whole part only. */
  lemma ReadText(negative: bool, whole: string, fraction: Option<string>)
    requires IsText(whole, fraction)
    ensures ReadCostBasis(Text(negative, whole, fraction)) ==
      Some(WholeUnits(negative, whole) + FractionUnits(fraction))
  {
    hide EightDigits, ParseNat, ReadInt, Whole, Fraction, Text, AllDigits, WholeUnits;
    TextParts(negative, whole, fraction);
    EightDigitsRead(FractionText(fraction));
    WholeRead(negative, whole);
  }

  function WholeUnits(negative: bool, whole: string): int
    requires AllDigits(whole)
  {
    var n: int := ParseNat(whole);
    if negative then -(n * PRECISION) else n * PRECISION
  }

  lemma WholeRead(negative: bool, whole: string)
    requires AllDigits(whole) && whole != ""
    ensures var r := ReadInt((if negative then "-" else "") + whole);
      r.Some? && r.value * PRECISION == WholeUnits(negative, whole)
  {
    ReadDigits(whole);
    assert "" + whole == whole;
  }

  /** The profit functions and the adder read the same amount exactly when the text has no sign or its
      fraction is zero; otherwise the profit functions read too much by twice the fraction. */
  lemma ReadersAgree(negative: bool, whole: string, fraction: Option<string>)
    requires IsText(whole, fraction)
    ensures var s := Text(negative, whole, fraction);
      && Parse(s).Some? && ReadCostBasis(s).Some?
      && (ReadCostBasis(s) == Parse(s) <==> !negative || FractionUnits(fraction) == 0)
      && (negative ==> ReadCostBasis(s).value == Parse(s).value + 2 * FractionUnits(fraction))
  {
    ReadText(negative, whole, fraction);
    ReadText(false, whole, fraction);
    ParseText(negative, whole, fraction);
    OppositeUnits(whole);
    hide ReadCostBasis, Parse, FractionUnits, Text, WholeUnits, IsText;
  }

  lemma OppositeUnits(whole: string)
    requires AllDigits(whole)
    ensures WholeUnits(true, whole) == -WholeUnits(false, whole)
  {
  }

  lemma ParseText(negative: bool, whole: string, fraction: Option<string>)
    requires IsText(whole, fraction) && ReadCostBasis(Text(false, whole, fraction)).Some?
    ensures var abs := ReadCostBasis(Text(false, whole, fraction)).value;
      Parse(Text(negative, whole, fraction)) == Some(if negative then -abs else abs)
  {
    TextHead(negative, whole, fraction);
    hide ReadCostBasis, Text, IsText;
  }

  lemma TextHead(negative: bool, whole: string, fraction: Option<string>)
    requires IsText(whole, fraction)
    ensures var s := Text(negative, whole, fraction);
      s != "" && (s[0] == '-' <==> negative) && (negative ==> s[1..] == Text(false, whole, fraction))
  {
    var s := Text(negative, whole, fraction);
    assert negative ==> s[0] == '-' && s[1..] == Text(false, whole, fraction);
    assert !negative ==> s[0] == whole[0] && IsDigit(s[0]);
  }

  lemma {:induction false} PaddedIsText(n: int)
    ensures var abs := if n < 0 then -n else n;
      var whole, digits := PrintNat(abs / PRECISION), PadStart(PrintNat(abs % PRECISION), 8);
      && Format(n) == Text(n < 0, whole, Some(digits)) && IsText(whole, Some(digits))
      && FractionUnits(Some(digits)) == abs % PRECISION
  {
    var abs := if n < 0 then -n else n;
    PrintDigits(abs / PRECISION);
    EightAre(abs % PRECISION);
    hide PrintNat, PadStart, EightDigits, ParseNat;
  }

  // ----------------------------------------------------------- printed amounts

  /** Reading a printed non-negative amount. */
  lemma ReadPrinted(n: nat)
    ensures ReadCostBasis(Format(n)) == Some(n) && Format(n) != "" && Format(n)[0] != '-'
  {
    var whole, digits := PrintNat(n / PRECISION), PadStart(PrintNat(n % PRECISION), 8);
    PaddedIsText(n);
    ParsePrint(n / PRECISION);
    hide PrintNat, PadStart, Format, ReadCostBasis, FractionUnits;
    ReadText(false, whole, Some(digits));
    assert Text(false, whole, Some(digits))[0] == whole[0] && IsDigit(whole[0]);
  }

  lemma NegativeFormat(n: int)
    requires n < 0
    ensures Format(n) == "-" + Format(-n) && Format(n)[0] == '-' && Format(n)[1..] == Format(-n)
  {
    hide PrintNat, PadStart;
    var whole, fraction := PrintNat(-n / PRECISION), PadStart(PrintNat(-n % PRECISION), 8);
    assert "" + whole + "." + fraction == whole + "." + fraction;
    assert "-" + whole + "." + fraction == "-" + (whole + "." + fraction);
  }

  /** Printing and parsing an amount gives the amount back, whatever its sign. */
  lemma PrintThenParse(n: int)
    ensures Parse(Format(n)) == Some(n)
  {
    hide Format, ReadCostBasis;
    if n < 0 {
      NegativeFormat(n);
      ReadPrinted(-n);
    } else {
      ReadPrinted(n);
    }
  }

  /** Adding texts is adding amounts. */
  lemma AddIsExact(a: int, b: int)
    ensures AddFixedPoint(Format(a), Format(b)) == Some(Format(a + b))
  {
    PrintThenParse(a);
    PrintThenParse(b);
    hide Format, Parse;
  }

  // ----------------------------------------------------------------- sums

  function Formatted(amounts: seq<int>): (r: seq<string>)
    ensures |r| == |amounts| && forall i :: 0 <= i < |r| ==> r[i] == Format(amounts[i])
  {
    seq(|amounts|, i requires 0 <= i < |amounts| => Format(amounts[i]))
  }

  function AddAll(acc: string, texts: seq<string>): Option<string>
    decreases |texts|
  {
    if texts == [] then Some(acc)
    else
      var next := AddFixedPoint(acc, texts[0]);
      if next.Some? then AddAll(next.value, texts[1..]) else None
  }

  function SumOf(amounts: seq<int>): int {
    if amounts == [] then 0 else amounts[0] + SumOf(amounts[1..])
  }

  /** The summary folds compute the exact sum of the amounts. */
  lemma {:induction false} FoldIsExact(acc: int, amounts: seq<int>)
    ensures AddAll(Format(acc), Formatted(amounts)) == Some(Format(acc + SumOf(amounts)))
    decreases |amounts|
  {
    hide Format, AddFixedPoint;
    if amounts != [] {
      AddIsExact(acc, amounts[0]);
      assert Formatted(amounts)[1..] == Formatted(amounts[1..]);
      FoldIsExact(acc + amounts[0], amounts[1..]);
    }
  }

  lemma {:induction false} SumWithout(amounts: seq<int>, k: nat)
    requires k < |amounts|
    ensures SumOf(amounts) == SumOf(amounts[..k] + amounts[k + 1..]) + amounts[k]
  {
    if k > 0 {
      SumWithout(amounts[1..], k - 1);
      assert amounts[1..][..k - 1] + amounts[1..][k..] == (amounts[..k] + amounts[k + 1..])[1..];
    } else {
      assert amounts[..0] + amounts[1..] == amounts[1..];
    }
  }

  lemma {:induction false} SumAnyOrder(a: seq<int>, b: seq<int>)
    requires multiset(a) == multiset(b)
    ensures SumOf(a) == SumOf(b)
    decreases |a|
  {
    if a == [] {
      assert |b| == |multiset(b)|;
    } else {
      assert a[0] in multiset(a);
      assert a[0] in multiset(b);
      var k :| 0 <= k < |b| && b[k] == a[0];
      MultisetWithout(a, 0);
      MultisetWithout(b, k);
      SumAnyOrder(a[..0] + a[1..], b[..k] + b[k + 1..]);
      SumWithout(a, 0);
      SumWithout(b, k);
    }
  }

  /** The totals do not depend on the order of the exposures; the fold starts from zero. */
  lemma FoldAnyOrder(a: seq<int>, b: seq<int>)
    requires multiset(a) == multiset(b)
    ensures AddAll("0.00000000", Formatted(a)) == AddAll("0.00000000", Formatted(b)) == Some(Format(SumOf(a)))
  {
    hide Format, AddAll, SumOf;
    ZeroText();
    FoldIsExact(0, a);
    FoldIsExact(0, b);
    SumAnyOrder(a, b);
  }

  lemma ZeroText()
    ensures Format(0) == "0.00000000"
  {
    assert PrintNat(0) == "0";
    assert PadStart("0", 8) == "00000000";
  }

  /** The realized profit is right exactly when the collateral is not negative or a whole number;
      otherwise it comes out too low by twice the fraction of the collateral. */
  lemma RealizedPnl(yesShares: int, noShares: int, outcome: bool, collateral: int)
    ensures var winning := if outcome then yesShares else noShares;
      ComputeRealizedPnl(yesShares, noShares, Format(collateral), outcome) ==
        Some(Format(winning * PRECISION - collateral - CostBasisError(collateral)))
  {
    CostBasisOfPrinted(collateral);
    hide Format, ReadCostBasis;
  }

  /** Different amounts print differently. */
  lemma FormatInjective(a: int, b: int)
    ensures Format(a) == Format(b) <==> a == b
  {
    hide Format, Parse;
    PrintThenParse(a);
    PrintThenParse(b);
  }

  /** By how much the profit functions read the cost basis too high. */
  function CostBasisError(collateral: int): int {
    if collateral < 0 then 2 * (-collateral % PRECISION) else 0
  }

  lemma NoErrorIff(collateral: int)
    ensures CostBasisError(collateral) == 0 <==> collateral >= 0 || collateral % PRECISION == 0
  {
  }

  lemma RealizedPnlRightIff(yesShares: int, noShares: int, outcome: bool, collateral: int)
    ensures var winning := if outcome then yesShares else noShares;
      ComputeRealizedPnl(yesShares, noShares, Format(collateral), outcome) ==
        Some(Format(winning * PRECISION - collateral)) <==>
        collateral >= 0 || collateral % PRECISION == 0
  {
    hide Format, ComputeRealizedPnl, CostBasisError;
    var right := (if outcome then yesShares else noShares) * PRECISION - collateral;
    RealizedPnl(yesShares, noShares, outcome, collateral);
    NoErrorIff(collateral);
    FormatInjective(right - CostBasisError(collateral), right);
  }

  /** The unrealized profit is the mark value minus the collateral under the same condition. */
  lemma UnrealizedPnlRightIff(yesShares: int, noShares: int, yesPrice: int, noPrice: int, collateral: int)
    ensures var right := yesShares * yesPrice + noShares * noPrice - collateral;
      ComputeUnrealizedPnl(yesShares, noShares, Format(collateral), Some((yesPrice, noPrice))) ==
        Some(Some(Format(right))) <==>
        collateral >= 0 || collateral % PRECISION == 0
  {
    hide Format, ComputeUnrealizedPnl, CostBasisError;
    var right := yesShares * yesPrice + noShares * noPrice - collateral;
    UnrealizedPnl(yesShares, noShares, yesPrice, noPrice, collateral);
    NoErrorIff(collateral);
    FormatInjective(right - CostBasisError(collateral), right);
  }

  lemma CostBasisOfPrinted(collateral: int)
    ensures ReadCostBasis(Format(collateral)) == Some(collateral + CostBasisError(collateral))
  {
    var abs := if collateral < 0 then -collateral else collateral;
    var whole, digits := PrintNat(abs / PRECISION), PadStart(PrintNat(abs % PRECISION), 8);
    PaddedIsText(collateral);
    PrintThenParse(collateral);
    hide Format, PrintNat, PadStart, ReadCostBasis, Parse, Text, IsText, FractionUnits;
    ReadersAgree(collateral < 0, whole, Some(digits));
  }

  lemma UnrealizedPnl(yesShares: int, noShares: int, yesPrice: int, noPrice: int, collateral: int)
    ensures ComputeUnrealizedPnl(yesShares, noShares, Format(collateral), Some((yesPrice, noPrice))) ==
      Some(Some(Format(yesShares * yesPrice + noShares * noPrice - collateral - CostBasisError(collateral))))
  {
    CostBasisOfPrinted(collateral);
    hide Format, ReadCostBasis;
  }

  /** A seller who received 1.50 and holds nothing has gained 1.50; the endpoint reports 0.50. */
  lemma SellerProfitIsWrong()
    ensures ComputeRealizedPnl(0, 0, Format(-150_000_000), true) == Some(Format(50_000_000))
    ensures Format(50_000_000) != Format(150_000_000)
  {
    RealizedPnl(0, 0, true, -150_000_000);
    hide Format, Parse, ComputeRealizedPnl;
    PrintThenParse(50_000_000);
    PrintThenParse(150_000_000);
  }
}
