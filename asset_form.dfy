/** The asset entry form: its state fields and the operations that update them
    (reset, photo capture, date choice with the depreciation effect, loading the
    known departments), the department suggestions, and the submission guard
    that decides whether a row is inserted and with which trimmed values. */
module AssetForm {
  import opened Strings
  import opened Depreciation
  import Seqs
  import AssetDetail
  import opened Optional

  const DefaultCondition: string := "Functional"
  const DefaultFundingSource: string := "Gov. Lib"

  /** The values of the form's state fields (the UI-only flags are not part of it).
      `purchaseDate` is a time value in milliseconds, `qty` and `unitCost` the raw text typed. */
  datatype FormState = FormState(
    department: string,
    allDepartments: seq<string>,
    staffName: string,
    code: string,
    purchaseDate: Option<int>,
    description: string,
    qty: string,
    unitCost: string,
    supplierName: string,
    fundingSource: string,
    physicalLocation: string,
    depreciation: int,
    condition: string,
    needRepair: bool,
    images: seq<string>)

  /** The initial `useState` values, around a given list of known departments. */
  function Defaults(allDepartments: seq<string>): FormState {
    FormState("", allDepartments, "", "", None, "", "", "", "", DefaultFundingSource, "",
              0, DefaultCondition, false, [])
  }

  /** Resetting a freshly reset form leaves it as it is. */
  lemma ResetIdempotent(allDepartments: seq<string>)
    ensures var s := Defaults(allDepartments);
            Defaults(s.allDepartments) == s
  {
  }

  // ---------------------------------------------------------------- departments

  /** The position of the first occurrence of `x` in `s`. */
  function FirstIndex(s: seq<string>, x: string): (i: nat)
    requires x in s
    ensures i < |s| && s[i] == x
    ensures forall k :: 0 <= k < i ==> s[k] != x
  {
    if s[0] == x then 0 else 1 + FirstIndex(s[1..], x)
  }

  lemma FirstIndexSnoc(s: seq<string>, y: string, x: string)
    requires x in s
    ensures FirstIndex(s + [y], x) == FirstIndex(s, x)
  {
    var i, i' := FirstIndex(s, x), FirstIndex(s + [y], x);
    assert (s + [y])[i] == x;
  }

  /** `Array.from(new Set(values))`: each value once, and every value of the input. */
  function Dedup(values: seq<string>): (r: seq<string>)
    ensures forall x :: x in r <==> x in values
    ensures forall i, j :: 0 <= i < j < |r| ==> r[i] != r[j]
    decreases |values|
  {
    if values == [] then []
    else
      var init, last := values[..|values| - 1], values[|values| - 1];
      assert values == init + [last];
      var r0 := Dedup(init);
      if last in r0 then r0 else r0 + [last]
  }

  /** The de-duplicated values keep the input's order. */
  lemma {:induction false} DedupSubsequence(values: seq<string>)
    ensures Seqs.IsSubsequence(Dedup(values), values)
    decreases |values|
  {
    if values != [] {
      var init, last := values[..|values| - 1], values[|values| - 1];
      var r0 := Dedup(init);
      DedupSubsequence(init);
      if last !in r0 {
        var r := r0 + [last];
        assert r[..|r| - 1] == r0;
      }
    }
  }

  /** The values of `r`, all taken from `values`, appear in the order of their
      first occurrence in `values`. */
  predicate InFirstOccurrenceOrder(r: seq<string>, values: seq<string>)
    requires forall x :: x in r ==> x in values
  {
    forall i, j :: 0 <= i < j < |r| ==> FirstIndex(values, r[i]) < FirstIndex(values, r[j])
  }

  /** A value new to `s` first occurs at the appended position. */
  lemma FirstIndexOfAppended(s: seq<string>, y: string)
    requires y !in s
    ensures FirstIndex(s + [y], y) == |s|
  {
    assert forall m :: 0 <= m < |s| ==> (s + [y])[m] == s[m];
  }

  /** A `Set` iterates in insertion order: the values come out in the order of
      their first occurrence in the input. */
  lemma {:induction false} DedupFirstOccurrenceOrder(values: seq<string>)
    ensures InFirstOccurrenceOrder(Dedup(values), values)
    decreases |values|
  {
    if values != [] {
      var init, last := values[..|values| - 1], values[|values| - 1];
      assert values == init + [last];
      var r0 := Dedup(init);
      DedupFirstOccurrenceOrder(init);
      forall x | x in r0 ensures FirstIndex(values, x) == FirstIndex(init, x) {
        FirstIndexSnoc(init, last, x);
      }
      if last !in r0 {
        FirstIndexOfAppended(init, last);
        var r := r0 + [last];
        assert Dedup(values) == r;
        forall i, j | 0 <= i < j < |r|
          ensures FirstIndex(values, r[i]) < FirstIndex(values, r[j])
        {
          assert r[i] == r0[i] && r0[i] in r0;
          if j < |r0| {
            assert r[j] == r0[j] && r0[j] in r0;
          }
        }
      }
    }
  }

  /** A list without repeats is its own de-duplication. */
  lemma {:induction false} DedupOfDistinct(values: seq<string>)
    requires forall i, j :: 0 <= i < j < |values| ==> values[i] != values[j]
    ensures Dedup(values) == values
    decreases |values|
  {
    if values != [] {
      var init := values[..|values| - 1];
      var last := values[|values| - 1];
      DedupOfDistinct(init);
      assert last !in init;
      assert values == init + [last];
      assert Dedup(values) == Dedup(init) + [last];
    }
  }

  /** `filteredDepartments`: nothing while the input is empty, otherwise the known
      departments that contain the input, ignoring case, in their order. */
  function FilteredDepartments(allDepartments: seq<string>, input: string): (r: seq<string>)
    ensures input == "" ==> r == []
    ensures Seqs.IsSubsequence(r, allDepartments)
    ensures forall d :: d in r <==> d in allDepartments && input != "" && Contains(Lower(d), Lower(input))
    ensures forall d :: multiset(r)[d] ==
                        if input != "" && Contains(Lower(d), Lower(input)) then multiset(allDepartments)[d] else 0
  {
    var p := d => Contains(Lower(d), Lower(input)) && |input| > 0;
    var r := Seqs.Filter(p, allDepartments);
    forall d ensures d in r <==> d in allDepartments && p(d) {
      Seqs.FilterMembership(p, allDepartments, d);
    }
    r
  }

  // ---------------------------------------------------------------- depreciation

  /** `getDepreciationColor` of the form: 80 and above red, 40 and above orange, else green. */
  function FormColour(depreciation: int): (c: Colour)
    ensures c == Green <==> depreciation < 40
    ensures c == Orange <==> 40 <= depreciation < 80
    ensures c == Red <==> 80 <= depreciation
  {
    if depreciation >= 80 then Red
    else if depreciation >= 40 then Orange
    else Green
  }

  lemma FormColourMonotone(v1: int, v2: int)
    requires v1 <= v2
    ensures FormColour(v1).Severity() <= FormColour(v2).Severity()
  {
  }

  /** The two screens disagree only between 70 and 79, where the detail screen
      already shows red and the form still orange. */
  lemma ColourBandsDiffer(v: int)
    ensures FormColour(v).Severity() <= AssetDetail.DetailColour(v).Severity()
    ensures FormColour(v) != AssetDetail.DetailColour(v) <==> 70 <= v < 80
  {
  }

  /** The effect on `purchaseDate`: without a date nothing changes; with one the
      percentage is recomputed from the current time. */
  function AfterDepreciationEffect(s: FormState, now: int): (r: FormState)
    ensures r == s.(depreciation := r.depreciation)
    ensures s.purchaseDate.None? ==> r == s
    ensures s.purchaseDate.Some? ==> r.depreciation == PercentOfLife(now - s.purchaseDate.value)
    ensures s.purchaseDate.Some? ==> r.depreciation <= 100
    ensures s.purchaseDate.Some? && s.purchaseDate.value <= now ==> 0 <= r.depreciation
  {
    match s.purchaseDate
    case None => s
    case Some(t) => s.(depreciation := PercentOfLife(now - t))
  }

  // ---------------------------------------------------------------- photos

  /** What the camera returns: permission refused, capture cancelled, or a picture. */
  datatype Capture = PermissionDenied | Canceled | Captured(uri: string)

  /** `pickImage`: a captured picture with a non-empty URI is appended; otherwise
      the images stay as they were. Nothing else changes. */
  function WithPickedImage(s: FormState, capture: Capture): (r: FormState)
    ensures r == s.(images := r.images)
    ensures |s.images| <= |r.images| && r.images[..|s.images|] == s.images
    ensures |r.images| == |s.images| + 1 <==> capture.Captured? && capture.uri != ""
    ensures |r.images| == |s.images| + 1 ==> r.images[|s.images|] == capture.uri
    ensures |r.images| <= |s.images| + 1
  {
    if capture.Captured? && capture.uri != "" then
      var images := s.images + [capture.uri];
      assert images[..|s.images|] == s.images;
      s.(images := images)
    else s
  }

  // ---------------------------------------------------------------- submission

  /** The row `handleSubmit` inserts, before `qty`, `unitCost` and the date are
      converted; `imagesToUpload` are the local photo URIs, each of which is
      uploaded and replaced by its public URL. */
  datatype AssetRow = AssetRow(
    department: string,
    staffName: string,
    code: string,
    purchaseDate: int,
    description: string,
    qty: string,
    unitCost: string,
    supplierName: string,
    fundingSource: string,
    physicalLocation: string,
    depreciation: int,
    condition: string,
    needRepair: bool,
    imagesToUpload: seq<string>)

  datatype Submission = Rejected | Insert(row: AssetRow)

  /** The required fields: department, staff name, code, purchase date, quantity, unit cost. */
  predicate MissingRequired(s: FormState) {
    s.department == "" || s.staffName == "" || s.code == "" ||
    s.purchaseDate.None? || s.qty == "" || s.unitCost == ""
  }

  /** The guard of `handleSubmit` and the row it builds: rejected (alert, no insert)
      when a required field is empty; otherwise department, staff name and code are
      trimmed and the other fields are passed on as they are. */
  function PrepareSubmission(s: FormState): (r: Submission)
    ensures r.Rejected? <==> MissingRequired(s)
    ensures r.Insert? ==> s.purchaseDate.Some? && r.row.purchaseDate == s.purchaseDate.value
    ensures r.Insert? ==> r.row.department == Trim(s.department)
    ensures r.Insert? ==> r.row.staffName == Trim(s.staffName) && r.row.code == Trim(s.code)
    ensures r.Insert? ==>
      r.row.description == s.description && r.row.qty == s.qty && r.row.unitCost == s.unitCost &&
      r.row.supplierName == s.supplierName && r.row.fundingSource == s.fundingSource &&
      r.row.physicalLocation == s.physicalLocation && r.row.depreciation == s.depreciation &&
      r.row.condition == s.condition && r.row.needRepair == s.needRepair && r.row.imagesToUpload == s.images
  {
    if MissingRequired(s) then Rejected
    else
      Insert(AssetRow(Trim(s.department), Trim(s.staffName), Trim(s.code), s.purchaseDate.value,
                      s.description, s.qty, s.unitCost, s.supplierName, s.fundingSource,
                      s.physicalLocation, s.depreciation, s.condition, s.needRepair, s.images))
  }

  /** A freshly reset form is never submitted. */
  lemma ResetFormIsRejected(allDepartments: seq<string>)
    ensures PrepareSubmission(Defaults(allDepartments)) == Rejected
  {
  }

  /** The guard tests emptiness before trimming: a department of spaces passes
      and is stored as the empty string. */
  lemma BlankDepartmentStoredEmpty(s: FormState)
    requires !MissingRequired(s) && AllWhitespace(s.department)
    ensures PrepareSubmission(s).Insert? && PrepareSubmission(s).row.department == ""
  {
    TrimEmptyIffBlank(s.department);
  }

  /** The trimmed text fields of an inserted row have no white space at either end. */
  lemma InsertedFieldsTrimmed(s: FormState)
    requires PrepareSubmission(s).Insert?
    ensures var row := PrepareSubmission(s).row;
            (row.department == "" || (!IsWhitespace(row.department[0]) && !IsWhitespace(row.department[|row.department| - 1]))) &&
            (row.staffName == "" || (!IsWhitespace(row.staffName[0]) && !IsWhitespace(row.staffName[|row.staffName| - 1]))) &&
            (row.code == "" || (!IsWhitespace(row.code[0]) && !IsWhitespace(row.code[|row.code| - 1])))
  {
    TrimSlice(s.department);
    TrimSlice(s.staffName);
    TrimSlice(s.code);
  }

  // ---------------------------------------------------------------- the form object

  /** The form component's state, updated in place by its handlers. */
  class Form {
    var department: string
    var allDepartments: seq<string>
    var staffName: string
    var code: string
    var purchaseDate: Option<int>
    var description: string
    var qty: string
    var unitCost: string
    var supplierName: string
    var fundingSource: string
    var physicalLocation: string
    var depreciation: int
    var condition: string
    var needRepair: bool
    var images: seq<string>

    function State(): FormState
      reads this
    {
      FormState(department, allDepartments, staffName, code, purchaseDate, description, qty,
                unitCost, supplierName, fundingSource, physicalLocation, depreciation,
                condition, needRepair, images)
    }

    /** The form as first rendered: defaults and no known departments. */
    constructor ()
      ensures State() == Defaults([])
    {
      department, allDepartments, staffName, code := "", [], "", "";
      purchaseDate, description, qty, unitCost := None, "", "", "";
      supplierName, fundingSource, physicalLocation := "", DefaultFundingSource, "";
      depreciation, condition, needRepair, images := 0, DefaultCondition, false, [];
    }

    /** The first half of `resetForm`: the typed text fields become empty. */
    method ClearTextFields()
      modifies this`department, this`staffName, this`code, this`description,
               this`qty, this`unitCost, this`supplierName, this`physicalLocation
      ensures department == "" && staffName == "" && code == "" && description == ""
      ensures qty == "" && unitCost == "" && supplierName == "" && physicalLocation == ""
    {
      department, staffName, code, description := "", "", "", "";
      qty, unitCost, supplierName, physicalLocation := "", "", "", "";
    }

    /** The second half of `resetForm`: no date, no photos, the default choices. */
    method RestoreDefaultChoices()
      modifies this`purchaseDate, this`depreciation, this`condition, this`needRepair,
               this`images, this`fundingSource
      ensures purchaseDate == None && depreciation == 0 && images == []
      ensures condition == DefaultCondition && !needRepair && fundingSource == DefaultFundingSource
    {
      purchaseDate, depreciation, images := None, 0, [];
      condition, needRepair, fundingSource := DefaultCondition, false, DefaultFundingSource;
    }

    /** `resetForm`: every entry field back to its initial value; the fetched
        department list is not part of the reset. */
    method ResetForm()
      modifies this
      ensures State() == Defaults(old(allDepartments))
    {
      ClearTextFields();
      RestoreDefaultChoices();
    }

    /** `handleSubmit`, with the outcome of the sign-in check, the uploads and the
        insert as the parameter `stored`: a rejected form is left as it is; an
        accepted one is reset once the row is stored, and kept otherwise. */
    method HandleSubmit(stored: bool) returns (r: Submission)
      modifies this
      ensures r == PrepareSubmission(old(State()))
      ensures r.Insert? && stored ==> State() == Defaults(old(allDepartments))
      ensures !(r.Insert? && stored) ==> State() == old(State())
    {
      r := PrepareSubmission(State());
      if r.Insert? && stored {
        ResetForm();
      }
    }

    /** `pickImage`, with the camera's answer as a parameter. */
    method PickImage(capture: Capture)
      modifies this
      ensures State() == WithPickedImage(old(State()), capture)
    {
      if capture.Captured? && capture.uri != "" {
        images := images + [capture.uri];
      }
    }

    /** The date picker's `onChange` followed by the effect on `purchaseDate`: a
        chosen date is stored and the percentage recomputed at time `now`; a
        dismissed picker changes nothing. */
    method OnDateChange(picked: Option<int>, now: int)
      modifies this
      ensures picked.None? ==> State() == old(State())
      ensures picked.Some? ==>
        State() == AfterDepreciationEffect(old(State()).(purchaseDate := picked), now)
    {
      if picked.Some? {
        purchaseDate := picked;
        depreciation := PercentOfLife(now - picked.value);
      }
    }

    /** `fetchDepartments`, with the query's answer as a parameter: when data came
        back, the known departments become its de-duplicated values. */
    method FetchDepartments(data: Option<seq<string>>)
      modifies this
      ensures data.None? ==> State() == old(State())
      ensures data.Some? ==> State() == old(State()).(allDepartments := Dedup(data.value))
    {
      if data.Some? {
        allDepartments := Dedup(data.value);
      }
    }
  }
}
