/** Legacy privilege ids and the permission names that replaced them. */
module Privileges {
  import opened Lists
  import opened Text

  const PRIVILEGE_ID_TO_NAME: map<int, string> := map[
    1 := "privilege:GetNonLocationHistory",
    2 := "privilege:ExecuteCommands",
    3 := "privilege:GetCurrentLocation",
    4 := "privilege:GetLocationHistory",
    5 := "privilege:GetVINCredential",
    6 := "privilege:GetLiveData",
    7 := "privilege:GetRawData",
    8 := "privilege:GetApproximateLocation"
  ]

  const MANUFACTURER_PRIVILEGE_ID_TO_NAME: map<int, string> := map[
    1 := "privilege:ManufacturerMintDevice",
    2 := "privilege:ManufacturerDistributeDevice",
    3 := "privilege:ManufacturerFactoryReset",
    4 := "privilege:ManufacturerDeviceReprovision",
    5 := "privilege:ManufacturerDeviceDefinitionInsert",
    6 := "privilege:ManufacturerDeviceLastSeen"
  ]

  ghost predicate Injective(table: map<int, string>) {
    forall a, b :: a in table && b in table && table[a] == table[b] ==> a == b
  }

  lemma TablesAreInjective()
    ensures Injective(PRIVILEGE_ID_TO_NAME) && Injective(MANUFACTURER_PRIVILEGE_ID_TO_NAME)
  {
  }

  ghost predicate NoSharedName(table: map<int, string>, other: map<int, string>) {
    forall a, b :: a in table && b in other ==> table[a] != other[b]
  }

  /** No name is both a vehicle's and a manufacturer's. */
  lemma TablesAreDisjoint()
    ensures NoSharedName(PRIVILEGE_ID_TO_NAME, MANUFACTURER_PRIVILEGE_ID_TO_NAME)
  {
  }

  /** The inverse of a table without repeated names. */
  function NameToID(table: map<int, string>): map<string, int>
    requires Injective(table)
  {
    map id | id in table :: table[id] := id
  }

  lemma InverseHolds(table: map<int, string>, id: int)
    requires Injective(table) && id in table
    ensures table[id] in NameToID(table) && NameToID(table)[table[id]] == id
  {
  }

  lemma InverseValue(table: map<int, string>, name: string)
    requires Injective(table) && name in NameToID(table)
    ensures NameToID(table)[name] in table && table[NameToID(table)[name]] == name
  {
  }

  lemma NotInInverse(table: map<int, string>, name: string)
    requires Injective(table)
    requires forall id :: id in table ==> table[id] != name
    ensures name !in NameToID(table)
  {
  }

  /** The inverse tables are filled at start-up by a loop over the table; the order of the loop is
      not fixed, and does not matter. */
  method Invert(table: map<int, string>, order: seq<int>) returns (privMap: map<string, int>)
    requires Injective(table)
    requires forall i :: 0 <= i < |order| ==> order[i] in table
    requires forall id :: id in table ==> exists i :: 0 <= i < |order| && order[i] == id
    ensures privMap == NameToID(table)
  {
    privMap := map[];
    for i := 0 to |order|
      invariant forall j :: 0 <= j < i ==> table[order[j]] in privMap
      invariant forall name :: name in privMap ==> privMap[name] in table && table[privMap[name]] == name
    {
      privMap := privMap[table[order[i]] := order[i]];
    }
    forall name | name in privMap ensures name in NameToID(table) && NameToID(table)[name] == privMap[name] {
      InverseHolds(table, privMap[name]);
    }
    forall name | name in NameToID(table) ensures name in privMap {
      if forall id :: id in table ==> table[id] != name {
        NotInInverse(table, name);
      }
    }
  }

  /** `getPermissionsFromPrivileges`: every unknown id is reported, in order, and one is enough to
      reject the request; otherwise each id becomes its name. */
  method PermissionsFromPrivileges(table: map<int, string>, ids: seq<int>) returns (r: Result<seq<string>, seq<int>>)
    ensures r == NamesOf(table, ids)
    ensures r.Ok? <==> AllKnown(table, ids)
  {
    var names: seq<string> := [];
    var unknown: seq<int> := [];
    for i := 0 to |ids|
      invariant unknown == UnknownIn(table, ids[..i])
      invariant |names| == i
      invariant forall j :: 0 <= j < i && ids[j] in table ==> names[j] == table[ids[j]]
    {
      assert ids[..i + 1][..i] == ids[..i];
      if ids[i] !in table {
        unknown := unknown + [ids[i]];
        names := names + [""];
        continue;
      }
      names := names + [table[ids[i]]];
    }
    assert ids[..|ids|] == ids;
    UnknownOrAllKnown(table, ids);
    if |unknown| > 0 {
      return Err(unknown);
    }
    assert names == NamesOf(table, ids).value;
    return Ok(names);
  }

  ghost predicate AllKnown(table: map<int, string>, ids: seq<int>) {
    forall i :: 0 <= i < |ids| ==> ids[i] in table
  }

  function UnknownIn(table: map<int, string>, ids: seq<int>): seq<int> {
    if ids == [] then []
    else
      var n := |ids| - 1;
      UnknownIn(table, ids[..n]) + (if ids[n] in table then [] else [ids[n]])
  }

  lemma AllKnownSnoc(table: map<int, string>, ids: seq<int>, n: nat)
    requires |ids| == n + 1
    ensures AllKnown(table, ids) <==> AllKnown(table, ids[..n]) && ids[n] in table
  {
    assert forall i :: 0 <= i < n ==> ids[..n][i] == ids[i];
  }

  lemma {:induction false} UnknownOrAllKnown(table: map<int, string>, ids: seq<int>)
    ensures UnknownIn(table, ids) == [] <==> AllKnown(table, ids)
  {
    if ids != [] {
      var n := |ids| - 1;
      UnknownOrAllKnown(table, ids[..n]);
      AllKnownSnoc(table, ids, n);
      assert |UnknownIn(table, ids)| == |UnknownIn(table, ids[..n])| + if ids[n] in table then 0 else 1;
    }
  }

  function NamesOf(table: map<int, string>, ids: seq<int>): Result<seq<string>, seq<int>> {
    UnknownOrAllKnown(table, ids);
    if UnknownIn(table, ids) != [] then Err(UnknownIn(table, ids))
    else Ok(seq(|ids|, i requires 0 <= i < |ids| && ids[i] in table => table[ids[i]]))
  }


  /** The first loop of `ValidateAccessViaRecord`: the names without an id, in order, or all the ids. */
  method IDsFromPermissions(nameToID: map<string, int>, names: seq<string>) returns (r: Result<seq<int>, seq<string>>)
    ensures r == IDsOf(nameToID, names)
    ensures r.Ok? <==> forall i :: 0 <= i < |names| ==> names[i] in nameToID
  {
    var ids: seq<int> := [];
    var missing: seq<string> := [];
    for i := 0 to |names|
      invariant missing == MissingIn(nameToID, names[..i])
      invariant |ids| == i
      invariant forall j :: 0 <= j < i && names[j] in nameToID ==> ids[j] == nameToID[names[j]]
    {
      assert names[..i + 1][..i] == names[..i];
      if names[i] in nameToID {
        ids := ids + [nameToID[names[i]]];
      } else {
        ids := ids + [0];
        missing := missing + [names[i]];
      }
    }
    assert names[..|names|] == names;
    MissingOrAllNamed(nameToID, names);
    if |missing| > 0 {
      return Err(missing);
    }
    assert ids == IDsOf(nameToID, names).value;
    return Ok(ids);
  }

  function MissingIn(nameToID: map<string, int>, names: seq<string>): seq<string> {
    if names == [] then []
    else
      var n := |names| - 1;
      MissingIn(nameToID, names[..n]) + (if names[n] in nameToID then [] else [names[n]])
  }

  lemma {:induction false} MissingOrAllNamed(nameToID: map<string, int>, names: seq<string>)
    ensures MissingIn(nameToID, names) == [] <==> forall i :: 0 <= i < |names| ==> names[i] in nameToID
  {
    if names != [] {
      var n := |names| - 1;
      MissingOrAllNamed(nameToID, names[..n]);
      assert forall i :: 0 <= i < n ==> names[..n][i] == names[i];
    }
  }

  function IDsOf(nameToID: map<string, int>, names: seq<string>): Result<seq<int>, seq<string>> {
    MissingOrAllNamed(nameToID, names);
    if MissingIn(nameToID, names) != [] then Err(MissingIn(nameToID, names))
    else Ok(seq(|names|, i requires 0 <= i < |names| && names[i] in nameToID => nameToID[names[i]]))
  }

  lemma IDsOfMeaning(nameToID: map<string, int>, names: seq<string>)
    ensures IDsOf(nameToID, names).Ok? <==> forall i :: 0 <= i < |names| ==> names[i] in nameToID
    ensures IDsOf(nameToID, names).Ok? ==>
              && |IDsOf(nameToID, names).value| == |names|
              && forall i :: 0 <= i < |names| ==>
                   names[i] in nameToID && IDsOf(nameToID, names).value[i] == nameToID[names[i]]
  {
    MissingOrAllNamed(nameToID, names);
  }

  /** Ids to names and back through the inverse of the same table is the identity. */
  lemma PrivilegeRoundTrip(table: map<int, string>, ids: seq<int>)
    requires Injective(table) && AllKnown(table, ids)
    ensures NamesOf(table, ids).Ok?
    ensures IDsOf(NameToID(table), NamesOf(table, ids).value) == Ok(ids)
  {
    UnknownOrAllKnown(table, ids);
    var names := NamesOf(table, ids).value;
    forall i | 0 <= i < |names| ensures names[i] in NameToID(table) && NameToID(table)[names[i]] == ids[i] {
      assert names[i] == table[ids[i]];
      InverseHolds(table, ids[i]);
    }
    MissingOrAllNamed(NameToID(table), names);
    assert IDsOf(NameToID(table), names).value == ids;
  }

  // ---------- The deprecated claim ----------

  /** The loop over the names when a token is minted: zero stands where a name has no id. */
  function IDsOrZero(nameToID: map<string, int>, names: seq<string>): (r: seq<int>)
    ensures |r| == |names|
  {
    seq(|names|, i requires 0 <= i < |names| => if names[i] in nameToID then nameToID[names[i]] else 0)
  }

  /** That loop, filling a slice by index. */
  method FillIDs(nameToID: map<string, int>, names: seq<string>) returns (privs: seq<int>)
    ensures privs == IDsOrZero(nameToID, names)
  {
    var slice := new int[|names|](_ => 0);
    for i := 0 to |names|
      invariant forall j :: 0 <= j < i ==> slice[j] == IDsOrZero(nameToID, names)[j]
      invariant forall j :: i <= j < slice.Length ==> slice[j] == 0
    {
      if names[i] in nameToID {
        slice[i] := nameToID[names[i]];
      }
    }
    privs := slice[..];
  }

  /** `privilege_ids` of a minted token: always looked up in the vehicle table. */
  function MintedIDs(names: seq<string>): (r: seq<int>)
    ensures |r| == |names|
  {
    TablesAreInjective();
    IDsOrZero(NameToID(PRIVILEGE_ID_TO_NAME), names)
  }

  lemma IDsOrZeroRoundTrip(table: map<int, string>, ids: seq<int>)
    requires Injective(table) && AllKnown(table, ids)
    ensures NamesOf(table, ids).Ok? && IDsOrZero(NameToID(table), NamesOf(table, ids).value) == ids
  {
    UnknownOrAllKnown(table, ids);
    var names := NamesOf(table, ids).value;
    forall i | 0 <= i < |ids| ensures IDsOrZero(NameToID(table), names)[i] == ids[i] {
      assert names[i] == table[ids[i]];
      InverseHolds(table, ids[i]);
    }
  }

  lemma IDsOrZeroOfOthers(table: map<int, string>, other: map<int, string>, ids: seq<int>)
    requires Injective(table) && NoSharedName(table, other) && AllKnown(other, ids)
    ensures NamesOf(other, ids).Ok? && IDsOrZero(NameToID(table), NamesOf(other, ids).value) == seq(|ids|, _ => 0)
  {
    UnknownOrAllKnown(other, ids);
    var names := NamesOf(other, ids).value;
    forall i | 0 <= i < |ids| ensures IDsOrZero(NameToID(table), names)[i] == 0 {
      assert names[i] == other[ids[i]];
      var own := ids[i];
      assert own in other && names[i] == other[own];
      assert forall id :: id in table ==> table[id] != other[own];
      NotInInverse(table, names[i]);
    }
  }

  /** For a vehicle the minted ids are the requested ones; for a manufacturer every one of them is zero. */
  lemma MintedIDsOfLegacyRequest(ids: seq<int>)
    ensures AllKnown(PRIVILEGE_ID_TO_NAME, ids) ==>
              NamesOf(PRIVILEGE_ID_TO_NAME, ids).Ok? && MintedIDs(NamesOf(PRIVILEGE_ID_TO_NAME, ids).value) == ids
    ensures AllKnown(MANUFACTURER_PRIVILEGE_ID_TO_NAME, ids) ==>
              && NamesOf(MANUFACTURER_PRIVILEGE_ID_TO_NAME, ids).Ok?
              && MintedIDs(NamesOf(MANUFACTURER_PRIVILEGE_ID_TO_NAME, ids).value) == seq(|ids|, _ => 0)
  {
    TablesAreInjective();
    TablesAreDisjoint();
    if AllKnown(PRIVILEGE_ID_TO_NAME, ids) {
      IDsOrZeroRoundTrip(PRIVILEGE_ID_TO_NAME, ids);
    }
    if AllKnown(MANUFACTURER_PRIVILEGE_ID_TO_NAME, ids) {
      IDsOrZeroOfOthers(PRIVILEGE_ID_TO_NAME, MANUFACTURER_PRIVILEGE_ID_TO_NAME, ids);
    }
  }

  // ---------- The reports ----------

  function NotKey<K(==), V>(table: map<K, V>): K -> bool { (k: K) => k !in table }

  /** The unknown ids are kept, in order. */
  lemma {:induction false} UnknownKept(table: map<int, string>, ids: seq<int>)
    ensures UnknownIn(table, ids) == Keep(NotKey(table), ids)
  {
    if ids != [] {
      UnknownKept(table, ids[..|ids| - 1]);
    }
  }

  /** The names without an id are kept, in order. */
  lemma {:induction false} MissingKept(nameToID: map<string, int>, names: seq<string>)
    ensures MissingIn(nameToID, names) == Keep(NotKey(nameToID), names)
  {
    if names != [] {
      MissingKept(nameToID, names[..|names| - 1]);
    }
  }
}
