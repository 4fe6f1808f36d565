/** The asset detail screen: the depreciation percentage and its colour, the time
    left until the three-year horizon, and which detail rows are shown. The
    current time is a parameter instead of a clock read. */
module AssetDetail {
  import opened Calendar
  import opened Strings
  import opened Assets
  import opened Depreciation
  import Seqs

  /** `calculateDepreciation`: 0 without a purchase date, otherwise the capped
      percentage of the 3 x 365-day horizon elapsed since the purchase. */
  function CalculateDepreciation(purchase: Field<CivilDate>, now: int): (r: int)
    ensures r <= 100
    ensures !purchase.Value? ==> r == 0
    ensures purchase.Value? && TimeValue(purchase.value) <= now ==> 0 <= r
  {
    if !purchase.Value? then 0 else PercentOfLife(now - TimeValue(purchase.value))
  }

  /** With the purchase date fixed, depreciation never decreases as `now` advances. */
  lemma DepreciationMonotoneInNow(purchase: Field<CivilDate>, now1: int, now2: int)
    requires now1 <= now2
    ensures CalculateDepreciation(purchase, now1) <= CalculateDepreciation(purchase, now2)
  {
    if purchase.Value? {
      PercentMonotone(now1 - TimeValue(purchase.value), now2 - TimeValue(purchase.value));
    }
  }

  /** `getDepreciationColor` of the detail screen: below 40 green, below 70 orange, else red. */
  function DetailColour(depreciation: int): (c: Colour)
    ensures c == Green <==> depreciation < 40
    ensures c == Orange <==> 40 <= depreciation < 70
    ensures c == Red <==> 70 <= depreciation
  {
    if depreciation < 40 then Green
    else if depreciation < 70 then Orange
    else Red
  }

  /** A higher percentage never gets a milder colour. */
  lemma DetailColourMonotone(v1: int, v2: int)
    requires v1 <= v2
    ensures DetailColour(v1).Severity() <= DetailColour(v2).Severity()
  {
  }

  /** The moment the asset reaches the end of its life: the purchase date moved
      three calendar years on with `setFullYear`. */
  function EndOfLife(purchase: CivilDate): int {
    TimeValue(AddYears(purchase, MaxDepreciationYears))
  }

  /** `Math.ceil(n / d)` for `d > 0`. */
  function CeilDiv(n: int, d: int): (r: int)
    requires d > 0
    ensures d * (r - 1) < n <= d * r
  {
    -((-n) / d)
  }

  /** The whole days (rounded up) from `now` to the end of life, never negative. */
  function RemainingDays(purchase: CivilDate, now: int): (r: nat)
    ensures r == 0 <==> now >= EndOfLife(purchase)
    ensures r > 0 ==> MsPerDay * (r - 1) < EndOfLife(purchase) - now <= MsPerDay * r
  {
    var days := CeilDiv(EndOfLife(purchase) - now, MsPerDay);
    if days > 0 then days else 0
  }

  /** The days left never increase as `now` advances. */
  lemma RemainingDaysNonIncreasing(purchase: CivilDate, now1: int, now2: int)
    requires now1 <= now2
    ensures RemainingDays(purchase, now2) <= RemainingDays(purchase, now1)
  {
    var e := EndOfLife(purchase);
    assert (-(e - now1)) / MsPerDay <= (-(e - now2)) / MsPerDay;
  }

  /** On the day of purchase the remaining time is three calendar years: 1095 or
      1096 days, depending on February 29th. */
  lemma RemainingDaysAtPurchase(purchase: CivilDate)
    ensures 1095 <= RemainingDays(purchase, TimeValue(purchase)) <= 1096
  {
    ThreeYearSpan(purchase);
    var span := DayNumber(AddYears(purchase, 3)) - DayNumber(purchase);
    assert EndOfLife(purchase) - TimeValue(purchase) == span * MsPerDay;
  }

  /** The two clocks of the screen agree at the end: once no day remains, the
      percentage has reached 100, since three calendar years are never shorter
      than three 365-day years. */
  lemma NoDaysLeftMeansFullyDepreciated(purchase: CivilDate, now: int)
    requires RemainingDays(purchase, now) == 0
    ensures CalculateDepreciation(Value(purchase), now) == 100
  {
    ThreeYearSpan(purchase);
    var span := DayNumber(AddYears(purchase, 3)) - DayNumber(purchase);
    assert EndOfLife(purchase) - TimeValue(purchase) == span * MsPerDay;
    PercentFullAfterHorizon(now - TimeValue(purchase));
  }

  /** The label after "Time Remaining:", e.g. "1 day remaining", "12 days remaining". */
  function RemainingLabel(days: nat): (r: string)
    ensures EndsWith(r, " day remaining") <==> days == 1
    ensures EndsWith(r, " days remaining") <==> days != 1
  {
    var digits := NatToString(days);
    var r := digits + " day" + (if days != 1 then "s" else "") + " remaining";
    assert days == 1 ==> r == "1 day remaining";
    assert days != 1 ==> r[|r| - 15..] == " days remaining";
    assert days != 1 ==> r[|r| - 14] == 'd';
    r
  }

  /** The number in the label reads back to the day count. */
  lemma RemainingLabelNumber(days: nat)
    ensures var r := RemainingLabel(days);
            var n := |r| - (if days == 1 then 14 else 15);
            0 < n && r[..n] == NatToString(days) && DecimalValue(r[..n]) == days
  {
    var digits := NatToString(days);
    var r := RemainingLabel(days);
    assert r[..|digits|] == digits;
    NatToStringRoundTrip(days);
  }

  /** `getRemainingTime`: "-" without a purchase date, else the label for the days left. */
  function GetRemainingTime(purchase: Field<CivilDate>, now: int): (r: string)
    ensures r == "-" <==> !purchase.Value?
    ensures purchase.Value? ==> r == RemainingLabel(RemainingDays(purchase.value, now))
  {
    if !purchase.Value? then "-"
    else
      var text := RemainingLabel(RemainingDays(purchase.value, now));
      assert EndsWith(text, " day remaining") || EndsWith(text, " days remaining");
      text
  }

  /** One line of the detail card: a label and the value shown after it. */
  datatype DetailRow = DetailRow(caption: string, value: Field<string>)

  /** The unit cost cell: `"$" + cost` when the cost is truthy (present, not 0), else undefined. */
  function UnitCostText(cost: Field<int>): (r: Field<string>)
    ensures r.Value? <==> cost.Value? && cost.value != 0
    ensures r.Value? ==> r.value == "$" + IntToString(cost.value)
  {
    if cost.Value? && cost.value != 0 then Value("$" + IntToString(cost.value)) else Undefined
  }

  function NumberText(n: Field<int>): Field<string> {
    match n
    case Undefined => Undefined
    case Null => Null
    case Value(v) => Value(IntToString(v))
  }

  /** The literal list of candidate rows, in display order. */
  function DetailCandidates(a: Asset): seq<DetailRow> {
    [ DetailRow("Department", a.department),
      DetailRow("Code", a.code),
      DetailRow("Description", a.description),
      DetailRow("Quantity", NumberText(a.qty)),
      DetailRow("Unit Cost", UnitCostText(a.unitCost)),
      DetailRow("Location", a.physicalLocation),
      DetailRow("Condition", a.condition),
      DetailRow("Needs Repair", Value(if a.needRepair == Value(true) then "Yes" else "No")),
      DetailRow("Funding Source", a.fundingSource) ]
  }

  predicate IsShown(row: DetailRow) {
    !row.value.Undefined?
  }

  /** The rows rendered: those whose value is not `undefined` (a `null` value is
      still rendered), in the literal's order. */
  function VisibleRows(a: Asset): (r: seq<DetailRow>)
    ensures Seqs.IsSubsequence(r, DetailCandidates(a))
    ensures forall row :: row in r <==> row in DetailCandidates(a) && IsShown(row)
  {
    var r := Seqs.Filter(IsShown, DetailCandidates(a));
    forall row ensures row in r <==> row in DetailCandidates(a) && IsShown(row) {
      Seqs.FilterMembership(IsShown, DetailCandidates(a), row);
    }
    r
  }

  /** Whether some visible row carries `caption`. */
  predicate HasRow(rows: seq<DetailRow>, caption: string) {
    exists i | 0 <= i < |rows| :: rows[i].caption == caption
  }

  /** "Needs Repair" is always shown: "Yes" exactly when repair is needed. */
  lemma NeedsRepairAlwaysShown(a: Asset)
    ensures DetailRow("Needs Repair", Value(if a.needRepair == Value(true) then "Yes" else "No")) in VisibleRows(a)
  {
    assert DetailCandidates(a)[7] == DetailRow("Needs Repair", Value(if a.needRepair == Value(true) then "Yes" else "No"));
  }

  /** The captions of the candidate rows, in display order. */
  const Captions: seq<string> := ["Department", "Code", "Description", "Quantity", "Unit Cost",
                                  "Location", "Condition", "Needs Repair", "Funding Source"]

  lemma CandidateCaptions(a: Asset)
    ensures |DetailCandidates(a)| == |Captions|
    ensures forall j :: 0 <= j < |Captions| ==> DetailCandidates(a)[j].caption == Captions[j]
  {
  }

  lemma CaptionsDistinct(i: nat, j: nat)
    requires i < |Captions| && j < |Captions| && Captions[i] == Captions[j]
    ensures i == j
  {
  }

  /** Captions are distinct, so a candidate row is found by its caption. */
  lemma CandidateByCaption(a: Asset, row: DetailRow, k: nat)
    requires k < 9 && row in DetailCandidates(a)
    requires row.caption == DetailCandidates(a)[k].caption
    ensures row == DetailCandidates(a)[k]
  {
    var cands := DetailCandidates(a);
    CandidateCaptions(a);
    var j :| 0 <= j < |cands| && cands[j] == row;
    CaptionsDistinct(j, k);
  }

  /** A candidate row is visible exactly when its value is not `undefined`. */
  lemma ShownIffDefined(a: Asset, k: nat)
    requires k < 9
    ensures HasRow(VisibleRows(a), DetailCandidates(a)[k].caption) <==> IsShown(DetailCandidates(a)[k])
  {
    var rows := VisibleRows(a);
    var cand := DetailCandidates(a)[k];
    if HasRow(rows, cand.caption) {
      var i :| 0 <= i < |rows| && rows[i].caption == cand.caption;
      assert rows[i] in rows;
      CandidateByCaption(a, rows[i], k);
    }
    if IsShown(cand) {
      assert cand in DetailCandidates(a);
      assert cand in rows;
      var i :| 0 <= i < |rows| && rows[i] == cand;
    }
  }

  /** "Unit Cost" is shown exactly when the cost is truthy, and then as "$" and the amount. */
  lemma UnitCostShownIffTruthy(a: Asset)
    ensures HasRow(VisibleRows(a), "Unit Cost") <==> a.unitCost.Value? && a.unitCost.value != 0
    ensures a.unitCost.Value? && a.unitCost.value != 0 ==>
      DetailRow("Unit Cost", Value("$" + IntToString(a.unitCost.value))) in VisibleRows(a)
  {
    var cand := DetailCandidates(a)[4];
    assert cand == DetailRow("Unit Cost", UnitCostText(a.unitCost));
    ShownIffDefined(a, 4);
    if a.unitCost.Value? && a.unitCost.value != 0 {
      assert cand in DetailCandidates(a) && IsShown(cand);
    }
  }

  /** The department row is shown exactly when the column is not `undefined`,
      even when it is `null` or empty. */
  lemma DepartmentShownIffDefined(a: Asset)
    ensures HasRow(VisibleRows(a), "Department") <==> !a.department.Undefined?
  {
    ShownIffDefined(a, 0);
  }

  /** The worked example: bought 2022-01-01, viewed 2023-07-01. */
  lemma MidLifeExample()
    ensures CalculateDepreciation(Value(CivilDate(2022, 1, 1)), TimeValue(CivilDate(2023, 7, 1))) == 50
    ensures RemainingDays(CivilDate(2022, 1, 1), TimeValue(CivilDate(2023, 7, 1))) == 550
    ensures DetailColour(50) == Orange
  {
    assert DayNumber(CivilDate(2022, 1, 1)) == 18993;
    assert DayNumber(CivilDate(2023, 7, 1)) == 19539;
    assert DayNumber(CivilDate(2025, 1, 1)) == 20089;
    assert PercentOfLife(546 * MsPerDay) == 50;
  }

  /** Bought 2020-01-01, viewed 2025-01-01: five years on, fully depreciated, no days left. */
  lemma PastHorizonExample()
    ensures CalculateDepreciation(Value(CivilDate(2020, 1, 1)), TimeValue(CivilDate(2025, 1, 1))) == 100
    ensures RemainingDays(CivilDate(2020, 1, 1), TimeValue(CivilDate(2025, 1, 1))) == 0
  {
    assert DayNumber(CivilDate(2020, 1, 1)) == 18262;
    assert DayNumber(CivilDate(2023, 1, 1)) == 19358;
    assert DayNumber(CivilDate(2025, 1, 1)) == 20089;
    PercentFullAfterHorizon(1827 * MsPerDay);
  }
}
