/** The two dictionary parsers of the knowledge base (App.tsx:551-663): the
    variable dictionary `vqd.json` and the lookup dictionary `lkp.json`. Both
    are strict about the container (a top level that is not an array is an
    error) and lenient about its elements (a malformed element is skipped). */
module Dictionary {
  import opened Wrappers
  import opened Text
  import opened Json

  /** A variable-dictionary record (types.ts:32-40). */
  datatype Vqd = Vqd(
    id: Number,
    variableName: string,
    typeTag: string,
    format: Option<string>,
    recordType: Option<string>,
    description: string,
    searchText: string)

  /** A lookup-table row (types.ts:42-46). */
  datatype Lkp = Lkp(id: string, description: string, properties: Option<string>)

  /** A lookup table (types.ts:48-53). The source copies `table_id` and
      `table_description` without a check; `None` stands for a missing one. */
  datatype LkpTable = LkpTable(
    tableId: Option<string>,
    tableDescription: Option<string>,
    tableProperties: seq<string>,
    rows: seq<Lkp>)

  /** What `parseVQDFile` returns. */
  datatype VqdIndex = VqdIndex(list: seq<Vqd>, byVariable: map<string, Vqd>, byId: map<Number, Vqd>)

  /** What `parseLKPFile` returns. */
  datatype LkpIndex = LkpIndex(
    tables: seq<LkpTable>,
    list: seq<Lkp>,
    byId: map<string, Lkp>,
    byDescription: map<string, Lkp>)

  const InvalidVqdJson: string := "Invalid JSON in vqd.json"
  const VqdNotArray: string := "vqd.json must contain a JSON array"
  const InvalidLkpJson: string := "Invalid JSON in lkp.json"
  const LkpNotArray: string := "lkp.json must contain a JSON array of tables"

  // ---------------------------------------------------------------------------
  // Skip-and-continue accumulation and last-write-wins indexes

  /** The elements that `pick` accepts, converted, in their original order:
      a loop that `continue`s past the rejected ones and pushes the others. */
  function Collect<A, B>(xs: seq<A>, pick: A -> Option<B>): (r: seq<B>)
    ensures |r| <= |xs|
  {
    if xs == [] then []
    else
      Collect(xs[..|xs| - 1], pick)
        + (match pick(xs[|xs| - 1]) case Some(b) => [b] case None => [])
  }

  lemma CollectSnoc<A, B>(xs: seq<A>, x: A, pick: A -> Option<B>)
    ensures Collect(xs + [x], pick) == Collect(xs, pick) + (match pick(x) case Some(b) => [b] case None => [])
  {
    assert (xs + [x])[..|xs|] == xs;
  }

  lemma CollectSingle<A, B>(x: A, pick: A -> Option<B>)
    ensures Collect([x], pick) == (match pick(x) case Some(b) => [b] case None => [])
  {
    assert [x][..0] == [];
  }

  /** Collecting distributes over concatenation: the result is the in-order
      subsequence of accepted elements. */
  lemma {:induction false} CollectAppend<A, B>(xs: seq<A>, ys: seq<A>, pick: A -> Option<B>)
    ensures Collect(xs + ys, pick) == Collect(xs, pick) + Collect(ys, pick)
    decreases |ys|
  {
    if ys == [] {
      assert xs + ys == xs;
    } else {
      var n := |ys| - 1;
      assert (xs + ys)[..|xs + ys| - 1] == xs + ys[..n];
      CollectAppend(xs, ys[..n], pick);
    }
  }

  /** Every accepted element is kept, and nothing else is. */
  lemma {:induction false} CollectMembers<A, B>(xs: seq<A>, pick: A -> Option<B>)
    ensures forall b :: b in Collect(xs, pick) <==> exists k :: 0 <= k < |xs| && pick(xs[k]) == Some(b)
  {
    if xs != [] {
      var n := |xs| - 1;
      CollectMembers(xs[..n], pick);
      forall b ensures b in Collect(xs, pick) <==> exists k :: 0 <= k < |xs| && pick(xs[k]) == Some(b) {
        if b in Collect(xs, pick) {
          if b in Collect(xs[..n], pick) {
            var k :| 0 <= k < n && pick(xs[..n][k]) == Some(b);
            assert pick(xs[k]) == Some(b);
          } else {
            assert pick(xs[n]) == Some(b);
          }
        }
        if exists k :: 0 <= k < |xs| && pick(xs[k]) == Some(b) {
          var k :| 0 <= k < |xs| && pick(xs[k]) == Some(b);
          if k < n {
            assert pick(xs[..n][k]) == Some(b);
          }
        }
      }
    }
  }

  lemma {:induction false} CollectNone<A, B>(xs: seq<A>, pick: A -> Option<B>)
    requires forall k :: 0 <= k < |xs| ==> pick(xs[k]).None?
    ensures Collect(xs, pick) == []
  {
    if xs != [] {
      CollectNone(xs[..|xs| - 1], pick);
    }
  }

  /** A `Map` filled by `set(key(v), v)` for each `v` of `list` in turn. */
  function IndexBy<K(==), V>(list: seq<V>, key: V -> K): map<K, V> {
    if list == [] then map[]
    else IndexBy(list[..|list| - 1], key)[key(list[|list| - 1]) := list[|list| - 1]]
  }

  lemma IndexBySnoc<K, V>(list: seq<V>, v: V, key: V -> K)
    ensures IndexBy(list + [v], key) == IndexBy(list, key)[key(v) := v]
  {
    assert (list + [v])[..|list|] == list;
  }

  /** `m` is what last-write-wins insertion of `list` by `key` leaves: its
      keys are the keys of the list's elements, and each key maps to the LAST
      element that has it. */
  ghost predicate LastWriteWins<K, V>(m: map<K, V>, list: seq<V>, key: V -> K) {
    && (forall i :: 0 <= i < |list| ==> key(list[i]) in m)
    && (forall k :: k in m ==> exists i :: 0 <= i < |list| && key(list[i]) == k)
    && (forall i :: 0 <= i < |list| && (forall j :: i < j < |list| ==> key(list[j]) != key(list[i]))
          ==> m[key(list[i])] == list[i])
  }

  lemma {:induction false} IndexByLastWins<K, V>(list: seq<V>, key: V -> K)
    ensures LastWriteWins(IndexBy(list, key), list, key)
  {
    var m := IndexBy(list, key);
    forall i | 0 <= i < |list| ensures key(list[i]) in m {
      IndexByHas(list, key, i);
    }
    forall k | k in m ensures exists i :: 0 <= i < |list| && key(list[i]) == k {
      IndexByFrom(list, key, k);
    }
    forall i | 0 <= i < |list| && (forall j :: i < j < |list| ==> key(list[j]) != key(list[i]))
      ensures m[key(list[i])] == list[i]
    {
      IndexByLast(list, key, i);
    }
  }

  /** Every element's key is in the index. */
  lemma {:induction false} IndexByHas<K, V>(list: seq<V>, key: V -> K, i: nat)
    requires i < |list|
    ensures key(list[i]) in IndexBy(list, key)
  {
    var n := |list| - 1;
    if i < n {
      IndexByHas(list[..n], key, i);
      assert list[..n][i] == list[i];
    }
  }

  /** Every key of the index is some element's key. */
  lemma {:induction false} IndexByFrom<K, V>(list: seq<V>, key: V -> K, k: K)
    requires k in IndexBy(list, key)
    ensures exists i :: 0 <= i < |list| && key(list[i]) == k
  {
    var n := |list| - 1;
    if k != key(list[n]) {
      IndexByFrom(list[..n], key, k);
      var i :| 0 <= i < n && key(list[..n][i]) == k;
      assert list[..n][i] == list[i];
    }
  }

  /** An element whose key does not come up again later is what its key
      maps to. */
  lemma {:induction false} IndexByLast<K, V>(list: seq<V>, key: V -> K, i: nat)
    requires i < |list|
    requires forall j :: i < j < |list| ==> key(list[j]) != key(list[i])
    ensures key(list[i]) in IndexBy(list, key) && IndexBy(list, key)[key(list[i])] == list[i]
  {
    var n := |list| - 1;
    if i < n {
      var init := list[..n];
      assert init[i] == list[i];
      assert key(list[n]) != key(list[i]);
      forall j | i < j < n ensures key(init[j]) != key(init[i]) {
        assert init[j] == list[j];
      }
      IndexByLast(init, key, i);
    }
  }

  // ---------------------------------------------------------------------------
  // JavaScript `??` on the fields the parsers copy without a type check

  /** The field is present and holds a string. */
  predicate HasString(field: Option<JsonValue>) {
    field.Some? && field.value.JString?
  }

  /** `x ?? d` on a field declared as a string. */
  function StringOr(field: Option<JsonValue>, d: string): string {
    match field
    case Some(JString(s)) => s
    case _ => d
  }

  /** `x ?? null` on a field declared as `string | null`. */
  function StringOrNull(field: Option<JsonValue>): Option<string> {
    match field
    case Some(JString(s)) => Some(s)
    case _ => None
  }

  /** `x ?? []` on a field declared as `string[]` and later written out with
      `join`: every element of an array is kept, as the text `join` gives it,
      so a string stays itself and `null` becomes the empty string. */
  function StringListOr(field: Option<JsonValue>): (r: seq<string>)
    ensures field.Some? && field.value.JArray? ==> |r| == |field.value.items|
    ensures field.Some? && field.value.JArray? ==> forall k :: 0 <= k < |r| ==>
      (field.value.items[k].JString? ==> r[k] == field.value.items[k].s)
      && (field.value.items[k].JNull? ==> r[k] == "")
    ensures !(field.Some? && field.value.JArray?) ==> r == []
  {
    match field
    case Some(JArray(items)) => JoinTexts(items)
    case _ => []
  }

  // ---------------------------------------------------------------------------
  // vqd.json

  /** The element check of App.tsx:575-581: a non-null object whose
      `variable_name` is a string (possibly empty). */
  predicate IsVariableEntry(item: JsonValue) {
    match Member(item, "variable_name")
    case Some(JString(_)) => true
    case _ => false
  }

  /** The record built from an accepted element (App.tsx:583-591). */
  function VariableOf(item: JsonValue): (r: Vqd)
    requires IsVariableEntry(item)
    ensures Member(item, "variable_name") == Some(JString(r.variableName))
    ensures r.id == ToNumber(Member(item, "id"))
    ensures HasString(Member(item, "type")) ==> Member(item, "type") == Some(JString(r.typeTag))
    ensures !HasString(Member(item, "type")) ==> r.typeTag == ""
    ensures HasString(Member(item, "description")) ==> Member(item, "description") == Some(JString(r.description))
    ensures !HasString(Member(item, "description")) ==> r.description == ""
    ensures HasString(Member(item, "search_text")) ==> Member(item, "search_text") == Some(JString(r.searchText))
    ensures !HasString(Member(item, "search_text")) ==> r.searchText == ""
    ensures r.format.Some? <==> HasString(Member(item, "format"))
    ensures r.format.Some? ==> Member(item, "format") == Some(JString(r.format.value))
    ensures r.recordType.Some? <==> HasString(Member(item, "record_type"))
    ensures r.recordType.Some? ==> Member(item, "record_type") == Some(JString(r.recordType.value))
  {
    Vqd(
      ToNumber(Member(item, "id")),
      Member(item, "variable_name").value.s,
      StringOr(Member(item, "type"), ""),
      StringOrNull(Member(item, "format")),
      StringOrNull(Member(item, "record_type")),
      StringOr(Member(item, "description"), ""),
      StringOr(Member(item, "search_text"), ""))
  }

  function AsVariable(item: JsonValue): Option<Vqd> {
    if IsVariableEntry(item) then Some(VariableOf(item)) else None
  }

  /** `byVariable` key: the variable name upper-cased. */
  function NameKey(v: Vqd): string {
    Upper(v.variableName)
  }

  function IdKey(v: Vqd): Number {
    v.id
  }

  /** The variable index an array of elements yields. */
  function VariableIndex(items: seq<JsonValue>): VqdIndex {
    var list := Collect(items, AsVariable);
    VqdIndex(list, IndexBy(list, NameKey), IndexBy(list, IdKey))
  }

  /** `parseVQDFile` (App.tsx:551-599) after `file.text()`. */
  method ParseVariables(input: Decoded) returns (r: Result<VqdIndex, string>)
    ensures input.InvalidJson? ==> r == Failure(InvalidVqdJson)
    ensures input.ValidJson? && !input.value.JArray? ==> r == Failure(VqdNotArray)
    ensures input.ValidJson? && input.value.JArray? ==> r == Success(VariableIndex(input.value.items))
  {
    if input.InvalidJson? {
      return Failure(InvalidVqdJson);
    }
    var raw := input.value;
    if !raw.JArray? {
      return Failure(VqdNotArray);
    }
    var items := raw.items;
    var list: seq<Vqd> := [];
    var byVariable: map<string, Vqd> := map[];
    var byId: map<Number, Vqd> := map[];
    for k := 0 to |items|
      invariant list == Collect(items[..k], AsVariable)
      invariant byVariable == IndexBy(list, NameKey)
      invariant byId == IndexBy(list, IdKey)
    {
      assert items[..k + 1] == items[..k] + [items[k]];
      CollectSnoc(items[..k], items[k], AsVariable);
      var item := items[k];
      if !IsVariableEntry(item) {
        continue;
      }
      var vqd := VariableOf(item);
      IndexBySnoc(list, vqd, NameKey);
      IndexBySnoc(list, vqd, IdKey);
      list := list + [vqd];
      byVariable := byVariable[NameKey(vqd) := vqd];
      byId := byId[vqd.id := vqd];
    }
    assert items[..|items|] == items;
    return Success(VqdIndex(list, byVariable, byId));
  }

  /** The record list keeps exactly the accepted elements, and skipping a bad
      element never stops the elements after it from being read. */
  lemma VariableListMembers(items: seq<JsonValue>)
    ensures forall v :: v in VariableIndex(items).list
              <==> exists k :: 0 <= k < |items| && IsVariableEntry(items[k]) && VariableOf(items[k]) == v
  {
    CollectMembers(items, AsVariable);
  }

  /** The `byVariable` map holds, for each upper-cased name in the list, the
      last record with that name; likewise `byId` for each id. */
  lemma VariableIndexLastWins(items: seq<JsonValue>)
    ensures LastWriteWins(VariableIndex(items).byVariable, VariableIndex(items).list, NameKey)
    ensures LastWriteWins(VariableIndex(items).byId, VariableIndex(items).list, IdKey)
  {
    var list := VariableIndex(items).list;
    IndexByLastWins(list, NameKey);
    IndexByLastWins(list, IdKey);
  }

  /** The example of a well-formed record followed by one without
      `variable_name`: one record, with the defaults filled in, and no error. */
  lemma VariableParseExample()
    ensures var good := JObject(map["variable_name" := JString("BRWLOAN"), "id" := JNumber(1),
                                    "description" := JString("Borrower Loan link")]);
            var bad := JObject(map["id" := JNumber(2)]);
            VariableIndex([good, bad]).list
              == [Vqd(Finite(1), "BRWLOAN", "", None, None, "Borrower Loan link", "")]
  {
    var good := JObject(map["variable_name" := JString("BRWLOAN"), "id" := JNumber(1),
                            "description" := JString("Borrower Loan link")]);
    var bad := JObject(map["id" := JNumber(2)]);
    TwoElements(good, bad);
    GoodVariable(good);
    BadVariable(bad);
  }

  lemma TwoElements(good: JsonValue, bad: JsonValue)
    ensures Collect([good, bad], AsVariable) == Collect([good], AsVariable) + Collect([bad], AsVariable)
  {
    CollectAppend([good], [bad], AsVariable);
    assert [good, bad] == [good] + [bad];
  }

  lemma GoodVariable(good: JsonValue)
    requires good == JObject(map["variable_name" := JString("BRWLOAN"), "id" := JNumber(1),
                                 "description" := JString("Borrower Loan link")])
    ensures Collect([good], AsVariable) == [Vqd(Finite(1), "BRWLOAN", "", None, None, "Borrower Loan link", "")]
  {
    CollectSingle(good, AsVariable);
    assert IsVariableEntry(good);
  }

  lemma BadVariable(bad: JsonValue)
    requires bad == JObject(map["id" := JNumber(2)])
    ensures Collect([bad], AsVariable) == []
  {
    CollectSingle(bad, AsVariable);
    assert !IsVariableEntry(bad);
  }

  // ---------------------------------------------------------------------------
  // lkp.json

  /** The row check of App.tsx:640-645: a non-null object whose `id` and
      `description` are both strings. */
  predicate IsRowEntry(row: JsonValue) {
    (match Member(row, "id") case Some(JString(_)) => true case _ => false)
    && (match Member(row, "description") case Some(JString(_)) => true case _ => false)
  }

  function RowOf(row: JsonValue): (r: Lkp)
    requires IsRowEntry(row)
    ensures Member(row, "id") == Some(JString(r.id))
    ensures Member(row, "description") == Some(JString(r.description))
    ensures r.properties.Some? <==> HasString(Member(row, "properties"))
    ensures r.properties.Some? ==> Member(row, "properties") == Some(JString(r.properties.value))
  {
    Lkp(Member(row, "id").value.s, Member(row, "description").value.s, StringOrNull(Member(row, "properties")))
  }

  function AsRow(row: JsonValue): Option<Lkp> {
    if IsRowEntry(row) then Some(RowOf(row)) else None
  }

  /** The table check of App.tsx:626-630: a non-null object whose `rows` is an
      array. */
  predicate IsTableEntry(table: JsonValue) {
    match Member(table, "rows")
    case Some(JArray(_)) => true
    case _ => false
  }

  function TableOf(table: JsonValue): (r: LkpTable)
    requires IsTableEntry(table)
    ensures r.tableId.Some? <==> HasString(Member(table, "table_id"))
    ensures r.tableId.Some? ==> Member(table, "table_id") == Some(JString(r.tableId.value))
    ensures r.tableDescription.Some? <==> HasString(Member(table, "table_description"))
    ensures r.tableDescription.Some? ==> Member(table, "table_description") == Some(JString(r.tableDescription.value))
    ensures |r.rows| <= |Member(table, "rows").value.items|
  {
    LkpTable(
      StringOrNull(Member(table, "table_id")),
      StringOrNull(Member(table, "table_description")),
      StringListOr(Member(table, "table_properties")),
      Collect(Member(table, "rows").value.items, AsRow))
  }

  function AsTable(table: JsonValue): Option<LkpTable> {
    if IsTableEntry(table) then Some(TableOf(table)) else None
  }

  /** The rows of all tables, table after table: the flat `list`. */
  function AllRows(tables: seq<LkpTable>): seq<Lkp> {
    if tables == [] then [] else AllRows(tables[..|tables| - 1]) + tables[|tables| - 1].rows
  }

  lemma AllRowsSnoc(tables: seq<LkpTable>, t: LkpTable)
    ensures AllRows(tables + [t]) == AllRows(tables) + t.rows
  {
    assert (tables + [t])[..|tables|] == tables;
  }

  function RowIdKey(row: Lkp): string {
    row.id
  }

  function RowDescriptionKey(row: Lkp): string {
    row.description
  }

  /** The lookup index an array of elements yields. */
  function LookupIndex(items: seq<JsonValue>): LkpIndex {
    var tables := Collect(items, AsTable);
    var list := AllRows(tables);
    LkpIndex(tables, list, IndexBy(list, RowIdKey), IndexBy(list, RowDescriptionKey))
  }

  /** The row loop of `parseLKPFile` (App.tsx:639-657): each valid row is
      pushed onto the table's rows and onto the flat list, and recorded in
      both maps. */
  method PushRows(rowItems: seq<JsonValue>, list0: seq<Lkp>, byId0: map<string, Lkp>, byDescription0: map<string, Lkp>)
    returns (rows: seq<Lkp>, list: seq<Lkp>, byId: map<string, Lkp>, byDescription: map<string, Lkp>)
    requires byId0 == IndexBy(list0, RowIdKey) && byDescription0 == IndexBy(list0, RowDescriptionKey)
    ensures rows == Collect(rowItems, AsRow) && list == list0 + rows
    ensures byId == IndexBy(list, RowIdKey) && byDescription == IndexBy(list, RowDescriptionKey)
  {
    rows, list, byId, byDescription := [], list0, byId0, byDescription0;
    for j := 0 to |rowItems|
      invariant rows == Collect(rowItems[..j], AsRow)
      invariant list == list0 + rows
      invariant byId == IndexBy(list, RowIdKey)
      invariant byDescription == IndexBy(list, RowDescriptionKey)
    {
      assert rowItems[..j + 1] == rowItems[..j] + [rowItems[j]];
      CollectSnoc(rowItems[..j], rowItems[j], AsRow);
      var row := rowItems[j];
      if !IsRowEntry(row) {
        continue;
      }
      var lkp := RowOf(row);
      PushRowStep(list0, rows, lkp);
      rows := rows + [lkp];
      list := list + [lkp];
      byId := byId[lkp.id := lkp];
      byDescription := byDescription[lkp.description := lkp];
    }
    assert rowItems[..|rowItems|] == rowItems;
  }

  /** Pushing one row onto the flat list sets it under both of its keys. */
  lemma PushRowStep(list0: seq<Lkp>, rows: seq<Lkp>, lkp: Lkp)
    ensures list0 + (rows + [lkp]) == (list0 + rows) + [lkp]
    ensures IndexBy((list0 + rows) + [lkp], RowIdKey) == IndexBy(list0 + rows, RowIdKey)[lkp.id := lkp]
    ensures IndexBy((list0 + rows) + [lkp], RowDescriptionKey) == IndexBy(list0 + rows, RowDescriptionKey)[lkp.description := lkp]
  {
    IndexBySnoc(list0 + rows, lkp, RowIdKey);
    IndexBySnoc(list0 + rows, lkp, RowDescriptionKey);
  }

  /** `parseLKPFile` (App.tsx:601-663) after `file.text()`. */
  method ParseLookupTables(input: Decoded) returns (r: Result<LkpIndex, string>)
    ensures input.InvalidJson? ==> r == Failure(InvalidLkpJson)
    ensures input.ValidJson? && !input.value.JArray? ==> r == Failure(LkpNotArray)
    ensures input.ValidJson? && input.value.JArray? ==> r == Success(LookupIndex(input.value.items))
  {
    if input.InvalidJson? {
      return Failure(InvalidLkpJson);
    }
    var raw := input.value;
    if !raw.JArray? {
      return Failure(LkpNotArray);
    }
    var items := raw.items;
    var tables: seq<LkpTable> := [];
    var list: seq<Lkp> := [];
    var byId: map<string, Lkp> := map[];
    var byDescription: map<string, Lkp> := map[];
    for k := 0 to |items|
      invariant tables == Collect(items[..k], AsTable)
      invariant list == AllRows(tables)
      invariant byId == IndexBy(list, RowIdKey)
      invariant byDescription == IndexBy(list, RowDescriptionKey)
    {
      assert items[..k + 1] == items[..k] + [items[k]];
      CollectSnoc(items[..k], items[k], AsTable);
      var table := items[k];
      if !IsTableEntry(table) {
        continue;
      }
      var rows;
      rows, list, byId, byDescription := PushRows(Member(table, "rows").value.items, list, byId, byDescription);
      var lkpTable := LkpTable(
        StringOrNull(Member(table, "table_id")),
        StringOrNull(Member(table, "table_description")),
        StringListOr(Member(table, "table_properties")),
        rows);
      assert lkpTable == TableOf(table);
      AllRowsSnoc(tables, lkpTable);
      tables := tables + [lkpTable];
    }
    assert items[..|items|] == items;
    return Success(LkpIndex(tables, list, byId, byDescription));
  }

  /** A table is kept exactly when it is an object with an array `rows`. */
  lemma LookupTablesMembers(items: seq<JsonValue>)
    ensures forall t :: t in LookupIndex(items).tables
              <==> exists k :: 0 <= k < |items| && IsTableEntry(items[k]) && TableOf(items[k]) == t
  {
    CollectMembers(items, AsTable);
  }

  /** A table whose `rows` array holds no valid row is still kept, with no
      rows. */
  lemma TableKeptWithoutRows(table: JsonValue)
    requires IsTableEntry(table)
    requires forall j :: 0 <= j < |Member(table, "rows").value.items| ==> !IsRowEntry(Member(table, "rows").value.items[j])
    ensures LookupIndex([table]).tables == [TableOf(table)]
    ensures TableOf(table).rows == []
  {
    CollectSingle(table, AsTable);
    CollectNone(Member(table, "rows").value.items, AsRow);
  }

  /** The rows of a kept table are exactly its accepted rows. */
  lemma TableRowsMembers(table: JsonValue)
    requires IsTableEntry(table)
    ensures forall row :: row in TableOf(table).rows <==>
              exists j :: 0 <= j < |Member(table, "rows").value.items|
                && IsRowEntry(Member(table, "rows").value.items[j])
                && RowOf(Member(table, "rows").value.items[j]) == row
  {
    CollectMembers(Member(table, "rows").value.items, AsRow);
  }

  /** The flat row list is the tables' rows one table after another, and the
      two maps are last-write-wins over it. */
  lemma LookupIndexLastWins(items: seq<JsonValue>)
    ensures LookupIndex(items).list == AllRows(LookupIndex(items).tables)
    ensures LastWriteWins(LookupIndex(items).byId, LookupIndex(items).list, RowIdKey)
    ensures LastWriteWins(LookupIndex(items).byDescription, LookupIndex(items).list, RowDescriptionKey)
  {
    var list := LookupIndex(items).list;
    IndexByLastWins(list, RowIdKey);
    IndexByLastWins(list, RowDescriptionKey);
  }
}
