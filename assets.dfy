/** An asset row as the screens receive it from the datastore. Every column may be
    absent from the object (`undefined`), present but `null`, or hold a value. */
module Assets {
  import opened Calendar

  datatype Field<T> = Undefined | Null | Value(value: T)

  datatype Asset = Asset(
    name: Field<string>,
    code: Field<string>,
    department: Field<string>,
    description: Field<string>,
    qty: Field<int>,
    unitCost: Field<int>,
    physicalLocation: Field<string>,
    condition: Field<string>,
    needRepair: Field<bool>,
    fundingSource: Field<string>,
    purchaseDate: Field<CivilDate>,
    imageUrls: Field<seq<string>>)

  /** JavaScript truthiness of a string column: present, not null, not "". */
  predicate IsTruthyText(f: Field<string>) {
    f.Value? && f.value != ""
  }

  /** `x.name || x.code || "Unnamed Asset"`, the title of an asset card and of the
      detail screen: the first truthy of name and code, else the fallback. */
  function DisplayTitle(a: Asset): (r: string)
    ensures r != ""
    ensures IsTruthyText(a.name) ==> r == a.name.value
    ensures !IsTruthyText(a.name) && IsTruthyText(a.code) ==> r == a.code.value
    ensures !IsTruthyText(a.name) && !IsTruthyText(a.code) ==> r == "Unnamed Asset"
  {
    if IsTruthyText(a.name) then a.name.value
    else if IsTruthyText(a.code) then a.code.value
    else "Unnamed Asset"
  }
}
