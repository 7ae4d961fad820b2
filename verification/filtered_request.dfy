/** The filter-to-SQL fragment builder of models/filteredRequest.go: a list of
    (field code, value, operator code) filters becomes a conjunctive WHERE-clause
    fragment `Field<op>@P1 and Field<op>@P2 and` (always ending in `and`, so that
    the caller appends its own predicate) together with the named arguments
    `P1 .. Pn` that carry the filter values. */
module FilteredRequest {
  import opened Text

  /** One filter as the client sends it: `Property` is a field code, `Operator`
      a comparison code; both are looked up in the tables below. */
  datatype FilterModel = FilterModel(property: int, value: string, operator: int)

  /** `sql.NamedArg`: the argument bound to the placeholder `@name`. */
  datatype NamedArg = NamedArg(name: string, value: string)

  /** The two errors the builder reports ("sign was not found", "field was not found"). */
  datatype FilterError = SignNotFound | FieldNotFound
  {
    /** The error text; each text identifies its error. */
    function Message(): (text: string)
      ensures text == "sign was not found" <==> this == SignNotFound
      ensures text == "field was not found" <==> this == FieldNotFound
    {
      match this
      case SignNotFound => "sign was not found"
      case FieldNotFound => "field was not found"
    }
  }

  datatype Option<T> = None | Some(value: T)

  datatype Result<T> = Ok(value: T) | Err(error: FilterError)

  /** What `FilterModel.Build` yields on success: one comparison and its argument. */
  datatype Clause = Clause(text: string, arg: NamedArg)

  /** What `FilterBatch.Build` yields on success. */
  datatype Compiled = Compiled(fragment: string, args: seq<NamedArg>)

  // Operator codes.
  const Equal: int := 0
  const Less: int := 1
  const Greater: int := 2
  const NotEqual: int := 3
  const LessOrEqual: int := 4
  const GreaterOrEqual: int := 5

  // Field codes.
  const Amount: int := 0
  const SpentAt: int := 1
  const Note: int := 2
  const CategoryId: int := 3

  /** Operator code to SQL comparison. */
  const SignsMap: map<int, string> := map[
    Equal := "=",
    Less := "<",
    Greater := ">",
    NotEqual := "<>",
    LessOrEqual := "<=",
    GreaterOrEqual := ">="
  ]

  /** Field code to column name. */
  const FieldsMap: map<int, string> := map[
    Amount := "Amount",
    SpentAt := "SpentAt",
    Note := "Note",
    CategoryId := "CategoryId"
  ]

  /** The known operator codes are exactly `Equal` (0) to `GreaterOrEqual` (5). */
  lemma SignsDomain(o: int)
    ensures o in SignsMap <==> Equal <= o <= GreaterOrEqual
    ensures SignsMap[Equal] == "=" && SignsMap[Less] == "<" && SignsMap[Greater] == ">"
    ensures SignsMap[NotEqual] == "<>" && SignsMap[LessOrEqual] == "<=" && SignsMap[GreaterOrEqual] == ">="
  {
  }

  /** The known field codes are exactly `Amount` (0) to `CategoryId` (3), each
      naming the column of the same name. */
  lemma FieldsDomain(p: int)
    ensures p in FieldsMap <==> Amount <= p <= CategoryId
    ensures FieldsMap[Amount] == "Amount" && FieldsMap[SpentAt] == "SpentAt"
    ensures FieldsMap[Note] == "Note" && FieldsMap[CategoryId] == "CategoryId"
  {
  }

  /** Both codes of the filter are known. */
  predicate ValidFilter(m: FilterModel) {
    m.operator in SignsMap && m.property in FieldsMap
  }

  /** The comparison `column<sign>@name`. */
  function ClauseText(property: int, operator: int, name: string): string
    requires property in FieldsMap && operator in SignsMap
  {
    FieldsMap[property] + SignsMap[operator] + "@" + name
  }

  /** `FilterModel.Build(nameForParameter)`. The operator is looked up first, so
      a filter with two bad codes reports the sign; on success the argument
      carries the filter's value unchanged under the given name. */
  function BuildClause(m: FilterModel, nameForParameter: string): (r: Result<Clause>)
    ensures r.Ok? <==> ValidFilter(m)
    ensures m.operator !in SignsMap ==> r == Err(SignNotFound)
    ensures m.operator in SignsMap && m.property !in FieldsMap ==> r == Err(FieldNotFound)
    ensures r.Ok? ==> r.value.arg == NamedArg(nameForParameter, m.value)
    ensures r.Ok? ==> r.value.text == ClauseText(m.property, m.operator, nameForParameter)
  {
    if m.operator !in SignsMap then Err(SignNotFound)
    else
      var namedParam := NamedArg(nameForParameter, m.value);
      if m.property !in FieldsMap then Err(FieldNotFound)
      else Ok(Clause(ClauseText(m.property, m.operator, nameForParameter), namedParam))
  }

  /** The placeholder name of the filter at position `idx`: `P1`, `P2`, ...
      It is `P` followed by the decimal digits of `idx + 1`, without leading zero. */
  function Placeholder(idx: nat): (name: string)
    ensures |name| >= 2 && name[0] == 'P' && name[1] != '0'
    ensures AllDigits(name[1..]) && DecimalToNat(name[1..]) == idx + 1
  {
    DecimalRoundTrip(idx + 1);
    assert ("P" + NatToDecimal(idx + 1))[1..] == NatToDecimal(idx + 1);
    "P" + NatToDecimal(idx + 1)
  }

  /** Position of the first filter with an unknown code, or `|batch|` if none. */
  function FirstInvalid(batch: seq<FilterModel>): (k: nat)
    ensures k <= |batch|
    ensures forall j :: 0 <= j < k ==> ValidFilter(batch[j])
    ensures k < |batch| ==> !ValidFilter(batch[k])
  {
    if batch == [] then 0
    else if !ValidFilter(batch[0]) then 0
    else 1 + FirstInvalid(batch[1..])
  }

  predicate AllValid(batch: seq<FilterModel>) {
    forall i :: 0 <= i < |batch| ==> ValidFilter(batch[i])
  }

  /** The comparisons of a batch of known filters, numbered by position. */
  function ClauseTexts(batch: seq<FilterModel>): (texts: seq<string>)
    requires AllValid(batch)
    ensures |texts| == |batch|
  {
    seq(|batch|, i requires 0 <= i < |batch| =>
      ClauseText(batch[i].property, batch[i].operator, Placeholder(i)))
  }

  /** The arguments of a batch, numbered by position. */
  function ClauseArgs(batch: seq<FilterModel>): (args: seq<NamedArg>)
    ensures |args| == |batch|
  {
    seq(|batch|, i requires 0 <= i < |batch| => NamedArg(Placeholder(i), batch[i].value))
  }

  /** Reference meaning of `FilterBatch.Build`: nothing for an empty batch; the
      error of the first bad filter, with no partial output; otherwise the
      comparisons joined by ` and `, a trailing ` and`, and the arguments in
      batch order. */
  function CompileFilters(batch: seq<FilterModel>): (r: Result<Compiled>)
    ensures batch == [] ==> r == Ok(Compiled("", []))
    ensures r.Err? <==> !AllValid(batch)
    ensures r.Ok? && |batch| > 0 ==>
      |r.value.fragment| >= 4 && r.value.fragment[|r.value.fragment| - 4..] == " and"
    ensures r.Ok? ==> |r.value.args| == |batch|
  {
    if |batch| == 0 then Ok(Compiled("", []))
    else
      var k := FirstInvalid(batch);
      if k < |batch| then Err(BuildClause(batch[k], Placeholder(k)).error)
      else Ok(Compiled(Join(ClauseTexts(batch), " and ") + " and", ClauseArgs(batch)))
  }

  /** `FilterBatch.Build`: one pass over the batch, accumulating comparisons and
      arguments and stopping at the first bad filter. */
  method BuildBatch(batch: seq<FilterModel>)
    returns (fragment: string, namedArgs: seq<NamedArg>, err: Option<FilterError>)
    ensures err.Some? ==> fragment == "" && namedArgs == []
    ensures CompileFilters(batch) ==
      (if err.Some? then Err(err.value) else Ok(Compiled(fragment, namedArgs)))
  {
    if |batch| == 0 {
      return "", [], None;
    }
    namedArgs := [];
    var params: seq<string> := [];
    var idx := 0;
    while idx < |batch|
      invariant 0 <= idx <= |batch|
      invariant AllValid(batch[..idx])
      invariant params == ClauseTexts(batch[..idx])
      invariant namedArgs == ClauseArgs(batch[..idx])
    {
      var el := batch[idx];
      var r := BuildClause(el, Placeholder(idx));
      if r.Err? {
        assert FirstInvalid(batch) == idx;
        return "", [], Some(r.error);
      }
      namedArgs := namedArgs + [r.value.arg];
      params := params + [r.value.text];
      idx := idx + 1;
    }
    assert batch[..idx] == batch;
    fragment := Join(params, " and ") + " and";
    err := None;
  }

  /** One `{index, value}` record of the filter settings. */
  datatype SettingEntry = SettingEntry(index: int, value: string)

  /** What `GetFilterSettings` returns: one list per table. */
  datatype FilterSettings = FilterSettings(fields: seq<SettingEntry>, signs: seq<SettingEntry>)

  /** The indices that a list of records holds. */
  function Indices(entries: seq<SettingEntry>): set<int> {
    set i | 0 <= i < |entries| :: entries[i].index
  }

  /** `entries` lists `table`: one record per map entry, no key twice, each
      record holding the table's image of its index. The order is free. */
  predicate ListsTable(entries: seq<SettingEntry>, table: map<int, string>) {
    |entries| == |table| &&
    (forall i :: 0 <= i < |entries| ==>
      entries[i].index in table && entries[i].value == table[entries[i].index]) &&
    Indices(entries) == table.Keys &&
    (forall i, j :: 0 <= i < j < |entries| ==> entries[i].index != entries[j].index)
  }

  /** `order` lists every key of `table` exactly once: one possible order in
      which Go's `range` visits the map. */
  predicate Enumerates(order: seq<int>, table: map<int, string>) {
    (forall i, j :: 0 <= i < j < |order| ==> order[i] != order[j]) &&
    (forall i :: 0 <= i < |order| ==> order[i] in table) &&
    (forall k :: k in table ==> k in order)
  }

  /** A sequence without repetitions has as many distinct elements as entries. */
  lemma {:induction false} DistinctCardinality(order: seq<int>)
    requires forall i, j :: 0 <= i < j < |order| ==> order[i] != order[j]
    ensures |set k | k in order| == |order|
    decreases |order|
  {
    if order != [] {
      var rest := order[1..];
      DistinctCardinality(rest);
      assert (set k | k in order) == {order[0]} + (set k | k in rest);
      assert order[0] !in (set k | k in rest);
    }
  }

  /** The loop `for counter, field := range table` of `GetFilterSettings`. Go
      visits map entries in an unspecified order; the model takes that order
      as the parameter `order`, so the contract holds whatever order Go uses. */
  method TableEntries(table: map<int, string>, order: seq<int>) returns (entries: seq<SettingEntry>)
    requires Enumerates(order, table)
    ensures ListsTable(entries, table)
  {
    entries := [];
    for i := 0 to |order|
      invariant |entries| == i
      invariant forall j :: 0 <= j < i ==> entries[j] == SettingEntry(order[j], table[order[j]])
    {
      var counter := order[i];
      var field := table[counter];
      entries := entries + [SettingEntry(counter, field)];
    }
    assert Indices(entries) == table.Keys by {
      forall k | k in table ensures k in Indices(entries) {
        var j :| 0 <= j < |order| && order[j] == k;
        assert entries[j].index == k;
      }
    }
    DistinctCardinality(order);
    assert table.Keys == set k | k in order;
  }

  /** `GetFilterSettings`: the field table and the sign table as lists of records. */
  method GetFilterSettings(fieldsOrder: seq<int>, signsOrder: seq<int>)
    returns (settings: FilterSettings)
    requires Enumerates(fieldsOrder, FieldsMap) && Enumerates(signsOrder, SignsMap)
    ensures ListsTable(settings.fields, FieldsMap) && |settings.fields| == 4
    ensures ListsTable(settings.signs, SignsMap) && |settings.signs| == 6
  {
    var fieldsData := TableEntries(FieldsMap, fieldsOrder);
    var signsData := TableEntries(SignsMap, signsOrder);
    assert FieldsMap.Keys == {0, 1, 2, 3};
    assert SignsMap.Keys == {0, 1, 2, 3, 4, 5};
    settings := FilterSettings(fieldsData, signsData);
  }
}
