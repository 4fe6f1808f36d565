/** The asset list screen: relative purchase times, the search filter, the
    grouping of assets into department folders, and the card's image fallback.
    The current time is a parameter instead of `Date.now()`. */
module AssetsList {
  import opened Calendar
  import opened Strings
  import opened Assets
  import opened Optional
  import Seqs

  // ---------------------------------------------------------------- timeAgo

  datatype AgoUnit = Seconds | Minutes | Hours | Days {
    /** The letter after the number: "s", "m", "h" or "d". */
    function Letter(): string {
      match this
      case Seconds => "s"
      case Minutes => "m"
      case Hours => "h"
      case Days => "d"
    }

    function Ms(): int {
      match this
      case Seconds => MsPerSecond
      case Minutes => MsPerMinute
      case Hours => MsPerHour
      case Days => MsPerDay
    }

    function Rank(): nat {
      match this
      case Seconds => 0
      case Minutes => 1
      case Hours => 2
      case Days => 3
    }
  }

  /** An elapsed time as `timeAgo` prints it: a whole number of some unit. */
  datatype Ago = Ago(amount: int, unit: AgoUnit)

  /** The bucketing of `timeAgo` for a difference of `diffMs`: whole seconds below a
      minute, whole minutes below an hour, whole hours below a day, else whole days.
      Each count is the floor of the whole difference in its unit. */
  function AgoOf(diffMs: int): (r: Ago)
    ensures r.amount == diffMs / r.unit.Ms()
    ensures r.unit == Seconds <==> diffMs < MsPerMinute
    ensures r.unit == Minutes <==> MsPerMinute <= diffMs < MsPerHour
    ensures r.unit == Hours <==> MsPerHour <= diffMs < MsPerDay
    ensures r.unit == Days <==> MsPerDay <= diffMs
    ensures r.unit == Seconds || r.unit == Minutes ==> r.amount < 60
    ensures r.unit == Hours ==> r.amount < 24
    ensures r.unit != Seconds ==> 1 <= r.amount
  {
    var seconds := diffMs / 1000;
    if seconds < 60 then Ago(seconds, Seconds)
    else
      var minutes := seconds / 60;
      if minutes < 60 then Ago(minutes, Minutes)
      else
        var hours := minutes / 60;
        if hours < 24 then Ago(hours, Hours)
        else Ago(hours / 24, Days)
  }

  /** A later purchase (a smaller difference) never shows a coarser unit or, in the
      same unit, a larger number. */
  lemma AgoMonotone(d1: int, d2: int)
    requires d1 <= d2
    ensures AgoOf(d1).unit.Rank() <= AgoOf(d2).unit.Rank()
    ensures AgoOf(d1).unit == AgoOf(d2).unit ==> AgoOf(d1).amount <= AgoOf(d2).amount
  {
    var u := AgoOf(d1).unit;
    if u == AgoOf(d2).unit {
      assert d1 / u.Ms() <= d2 / u.Ms();
    }
  }

  /** `timeAgo(dateStr)`: "" without a date, else e.g. "5m ago". */
  function TimeAgo(date: Field<CivilDate>, now: int): (r: string)
    ensures r == "" <==> !date.Value?
    ensures date.Value? ==>
      var ago := AgoOf(now - TimeValue(date.value));
      r == IntToString(ago.amount) + ago.unit.Letter() + " ago"
  {
    if !date.Value? then ""
    else
      var ago := AgoOf(now - TimeValue(date.value));
      IntToString(ago.amount) + ago.unit.Letter() + " ago"
  }

  // ---------------------------------------------------------------- search

  /** The case-insensitive search test of one asset against a lower-cased query:
      the name, the code or the department contains it; a missing column never matches. */
  predicate MatchesQuery(a: Asset, q: string) {
    (a.name.Value? && Contains(Lower(a.name.value), q)) ||
    (a.code.Value? && Contains(Lower(a.code.value), q)) ||
    (a.department.Value? && Contains(Lower(a.department.value), q))
  }

  /** `filteredAssets`: all assets for an empty query, otherwise the matching ones in order. */
  function FilteredAssets(assets: seq<Asset>, searchQuery: string): (r: seq<Asset>)
    ensures searchQuery == "" ==> r == assets
    ensures |r| <= |assets| && Seqs.IsSubsequence(r, assets)
    ensures searchQuery != "" ==>
      forall a :: a in r <==> a in assets && MatchesQuery(a, Lower(searchQuery))
    ensures searchQuery != "" ==>
      forall a :: multiset(r)[a] == if MatchesQuery(a, Lower(searchQuery)) then multiset(assets)[a] else 0
  {
    if searchQuery == "" then
      Seqs.SubsequenceReflexive(assets);
      assets
    else
      var q := Lower(searchQuery);
      var r := Seqs.Filter(a => MatchesQuery(a, q), assets);
      forall a ensures a in r <==> a in assets && MatchesQuery(a, q) {
        Seqs.FilterMembership(a => MatchesQuery(a, q), assets, a);
      }
      r
  }

  // ---------------------------------------------------------------- grouping

  /** The folder an asset goes into: its department, or "Unknown Department" when
      the department is missing, null or empty. */
  function DepartmentKey(a: Asset): (k: string)
    ensures k != ""
    ensures IsTruthyText(a.department) ==> k == a.department.value
    ensures !IsTruthyText(a.department) ==> k == "Unknown Department"
  {
    if IsTruthyText(a.department) then a.department.value else "Unknown Department"
  }

  /** The assets of folder `k`, in input order: the independent definition of a group. */
  function DepartmentGroup(assets: seq<Asset>, k: string): seq<Asset> {
    Seqs.Filter(a => DepartmentKey(a) == k, assets)
  }

  /** The dictionary the `forEach` loop builds, one asset at a time: create the key
      on first sight, then push the asset onto its array. */
  function Grouped(assets: seq<Asset>): map<string, seq<Asset>>
    decreases |assets|
  {
    if assets == [] then map[]
    else
      var g := Grouped(assets[..|assets| - 1]);
      var a := assets[|assets| - 1];
      var k := DepartmentKey(a);
      g[k := (if k in g then g[k] else []) + [a]]
  }

  /** `groupAssetsByDepartment`. */
  method GroupAssetsByDepartment(assets: seq<Asset>) returns (grouped: map<string, seq<Asset>>)
    ensures grouped == Grouped(assets)
    ensures forall k :: k in grouped ==> grouped[k] == DepartmentGroup(assets, k) && grouped[k] != []
    ensures forall a :: a in assets ==> DepartmentKey(a) in grouped
  {
    grouped := map[];
    var i := 0;
    while i < |assets|
      invariant 0 <= i <= |assets|
      invariant grouped == Grouped(assets[..i])
    {
      var asset := assets[i];
      var dept := DepartmentKey(asset);
      if dept !in grouped {
        grouped := grouped[dept := []];
      }
      grouped := grouped[dept := grouped[dept] + [asset]];
      assert assets[..i + 1][..i] == assets[..i];
      i := i + 1;
    }
    assert assets[..i] == assets;
    forall k | k in grouped ensures grouped[k] == DepartmentGroup(assets, k) && grouped[k] != [] {
      GroupsAreDepartmentGroups(assets, k);
    }
    forall a | a in assets ensures DepartmentKey(a) in grouped {
      GroupsAreDepartmentGroups(assets, DepartmentKey(a));
      Seqs.FilterMembership(x => DepartmentKey(x) == DepartmentKey(a), assets, a);
    }
  }

  /** The folders are exactly the non-empty department groups: folder `k` exists
      iff some asset has key `k`, and then holds exactly those assets, in order. */
  lemma {:induction false} GroupsAreDepartmentGroups(assets: seq<Asset>, k: string)
    ensures k in Grouped(assets) <==> DepartmentGroup(assets, k) != []
    ensures k in Grouped(assets) ==> Grouped(assets)[k] == DepartmentGroup(assets, k)
    decreases |assets|
  {
    if assets != [] {
      var init, a := assets[..|assets| - 1], assets[|assets| - 1];
      assert assets == init + [a];
      GroupsAreDepartmentGroups(init, k);
      Seqs.FilterSnoc(x => DepartmentKey(x) == k, init, a);
    }
  }

  /** Every asset is in exactly one folder: the one named by its key. */
  lemma ExactlyOneGroup(assets: seq<Asset>, a: Asset, k: string)
    requires a in assets
    requires k in Grouped(assets)
    ensures DepartmentKey(a) in Grouped(assets)
    ensures a in Grouped(assets)[k] <==> k == DepartmentKey(a)
  {
    GroupsAreDepartmentGroups(assets, k);
    GroupsAreDepartmentGroups(assets, DepartmentKey(a));
    Seqs.FilterMembership(x => DepartmentKey(x) == k, assets, a);
    Seqs.FilterMembership(x => DepartmentKey(x) == DepartmentKey(a), assets, a);
  }

  /** Some folder name of a non-empty dictionary. */
  ghost function PickKey(m: map<string, seq<Asset>>): (k: string)
    requires m != map[]
    ensures k in m
  {
    assert m.Keys != {};
    var k :| k in m.Keys;
    k
  }

  /** The total of the folder sizes (the "N assets" labels). */
  ghost function SizeSum(m: map<string, seq<Asset>>): nat
    decreases |m|
  {
    if m == map[] then 0
    else
      var k := PickKey(m);
      assert |m.Keys - {k}| == |m.Keys| - 1;
      |m[k]| + SizeSum(m - {k})
  }

  /** The total does not depend on which key is taken out first. */
  lemma {:induction false} SizeSumRemove(m: map<string, seq<Asset>>, k: string)
    requires k in m
    ensures SizeSum(m) == |m[k]| + SizeSum(m - {k})
    decreases |m|
  {
    var j := PickKey(m);
    if j != k {
      var mj, mk := m - {j}, m - {k};
      assert |mj.Keys| == |m.Keys| - 1 && |mk.Keys| == |m.Keys| - 1;
      assert k in mj && mj[k] == m[k];
      assert j in mk && mk[j] == m[j];
      SizeSumRemove(mj, k);
      SizeSumRemove(mk, j);
      assert mj - {k} == mk - {j};
    }
  }

  /** The folder sizes add up to the number of assets. */
  lemma {:induction false} GroupSizesSum(assets: seq<Asset>)
    ensures SizeSum(Grouped(assets)) == |assets|
    decreases |assets|
  {
    if assets != [] {
      var init, a := assets[..|assets| - 1], assets[|assets| - 1];
      var g := Grouped(init);
      var k := DepartmentKey(a);
      var g' := Grouped(assets);
      GroupSizesSum(init);
      SizeSumRemove(g', k);
      if k in g {
        SizeSumRemove(g, k);
        assert g' - {k} == g - {k};
      } else {
        assert g' - {k} == g;
      }
    }
  }

  /** The names a plain JavaScript object inherits from `Object.prototype`: looking
      one of them up in `{}` yields a function (or, for `__proto__`, the prototype),
      which is truthy. */
  const InheritedKeys: set<string> :=
    {"constructor", "hasOwnProperty", "isPrototypeOf", "propertyIsEnumerable",
     "toLocaleString", "toString", "valueOf", "__proto__", "__defineGetter__",
     "__defineSetter__", "__lookupGetter__", "__lookupSetter__"}

  /** The loop as written, on a plain object: for an inherited folder name the test
      `!grouped[dept]` finds a member already there, no array is created, and the
      following `push` throws a TypeError (`None`). */
  function GroupedAsWritten(assets: seq<Asset>): (r: Option<map<string, seq<Asset>>>)
    ensures r.Some? <==> forall a :: a in assets ==> DepartmentKey(a) !in InheritedKeys
    ensures r.Some? ==> r.value == Grouped(assets)
    decreases |assets|
  {
    if assets == [] then Some(map[])
    else
      var init, a := assets[..|assets| - 1], assets[|assets| - 1];
      assert assets == init + [a];
      var k := DepartmentKey(a);
      match GroupedAsWritten(init)
      case None => None
      case Some(g) =>
        if k in InheritedKeys then None
        else Some(g[k := (if k in g then g[k] else []) + [a]])
  }

  /** A single asset of the department "toString" stops the list from rendering,
      where the intended grouping simply gives it a folder of its own. */
  lemma InheritedNameBreaksGrouping()
    ensures var a := Asset(Value("Chair"), Value("C-1"), Value("toString"), Undefined, Undefined,
                           Undefined, Undefined, Undefined, Undefined, Undefined, Undefined, Undefined);
            GroupedAsWritten([a]).None? && Grouped([a]) == map["toString" := [a]]
  {
    var a := Asset(Value("Chair"), Value("C-1"), Value("toString"), Undefined, Undefined,
                   Undefined, Undefined, Undefined, Undefined, Undefined, Undefined, Undefined);
    assert DepartmentKey(a) == "toString" && "toString" in InheritedKeys;
    assert [a][..0] == [];
    assert Grouped([a]) == map[]["toString" := [] + [a]];
    assert [] + [a] == [a];
  }

  // ---------------------------------------------------------------- cards

  const PlaceholderImage: string := "https://via.placeholder.com/100x100?text=No+Image"

  /** The card picture: the first stored URL, or the placeholder when there is none. */
  function CardImage(a: Asset): (r: string)
    ensures a.imageUrls.Value? && |a.imageUrls.value| > 0 ==> r == a.imageUrls.value[0]
    ensures !(a.imageUrls.Value? && |a.imageUrls.value| > 0) ==> r == PlaceholderImage
  {
    if a.imageUrls.Value? && |a.imageUrls.value| > 0 then a.imageUrls.value[0] else PlaceholderImage
  }
}
