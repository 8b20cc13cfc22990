/** The condition builder, `PlatformClient.GetDialogExpressionConditions`:
    a list of typed index fields becomes the AND-combined condition list of a
    dialog expression. The item's text, the instant `DateTime.Parse` reads
    from it and the keyword list the JSON reader reads from it are given
    already parsed; a parse that fails is an exception. */
module Conditions {
  import opened Wrappers
  import opened Failures
  import opened Text
  import opened Timestamps
  import opened Sequences

  /** The value of a `DlgField`: its `ToString()` text, and what parsing that
      text as an instant or as a keyword payload yields. */
  datatype Item = Item(text: string, asDateTime: Option<DateTime>, asKeywords: Result<seq<string>, string>)

  /** One typed field of the request; `None` stands for a null reference. */
  datatype DlgField = DlgField(fieldName: string, kind: Option<string>, item: Option<Item>)

  /** The request body the controller and `IsDuplicate` receive (the members
      the core reads). */
  datatype DlgInfos = DlgInfos(
    userName: string,
    organizationName: string,
    fileCabinetGuid: string,
    dialogGuid: string,
    userPassword: string,
    serverUrl: string,
    fieldName: string,
    fieldValue: string,
    values: seq<DlgField>)

  /** `DialogExpressionCondition.Create(fieldName, value)`. */
  datatype Condition = Condition(fieldName: string, value: string)

  datatype SortDirection = Asc | Desc

  datatype SortedField = SortedField(field: string, direction: SortDirection)

  datatype Operation = And | Or

  /** A `DialogExpression`: conditions, sort order and an optional cap. */
  datatype Query = Query(operation: Operation, conditions: seq<Condition>, sortOrder: seq<SortedField>, count: Option<nat>)

  /** The kinds whose item text is used as it is. */
  predicate IsTextKind(lk: string)
  {
    lk == "string" || lk == "decimal" || lk == "int" || lk == "memo"
  }

  /** Every kind the builder recognises. */
  predicate IsKnownKind(lk: string)
  {
    IsTextKind(lk) || lk == "date" || lk == "datetime" || lk == "keywords"
  }

  /** The conditions one field adds, or the exception it raises. Every
      condition is on the field's own name. */
  function Contribution(f: DlgField): (r: Result<seq<Condition>, Error>)
    ensures r.Ok? ==> forall k :: 0 <= k < |r.value| ==> r.value[k].fieldName == f.fieldName
  {
    match f.item
    case None => Ok([])
    case Some(item) =>
      match f.kind
      case None => Err(NullReference)
      case Some(k) =>
        var lk := Lower(k);
        if IsTextKind(lk) then Ok([Condition(f.fieldName, item.text)])
        else if lk == "date" then
          match item.asDateTime
          case None => Err(BadDateTime)
          case Some(d) => Ok([Condition(f.fieldName, Sortable(Midnight(d)))])
        else if lk == "datetime" then
          match item.asDateTime
          case None => Err(BadDateTime)
          case Some(d) => Ok([Condition(f.fieldName, Sortable(d))])
        else if lk == "keywords" then
          match item.asKeywords
          case Err(m) => Err(BadJson(m))
          case Ok(keys) => Ok(seq(|keys|, i requires 0 <= i < |keys| => Condition(f.fieldName, keys[i])))
        else Ok([])
  }

  /** The builder's loop fills the list item by item in input order and lets
      the first exception escape. */
  method GetDialogExpressionConditions(dlgInfos: DlgInfos) returns (r: Result<seq<Condition>, Error>)
    ensures r == ConcatMap(dlgInfos.values, Contribution)
  {
    var conditions: seq<Condition> := [];
    var values := dlgInfos.values;
    assert values[0..] == values;
    PrependNothing(ConcatMap(values, Contribution));
    for i := 0 to |values|
      invariant ConcatMap(values, Contribution) == Prepend(conditions, ConcatMap(values[i..], Contribution))
    {
      ConcatMapStep(values, Contribution, i);
      PrependThen(conditions, Contribution(values[i]), ConcatMap(values[i + 1..], Contribution));
      var step := AppendFieldConditions(conditions, values[i]);
      if step.Err? {
        assert ConcatMap(values, Contribution) == Then(step, ConcatMap(values[i + 1..], Contribution));
        return Err(step.error);
      }
      conditions := step.value;
    }
    assert values[|values|..] == [];
    assert ConcatMap(values[|values|..], Contribution) == Ok([]);
    assert conditions + [] == conditions;
    r := Ok(conditions);
  }

  /** The body of the builder's loop: the seven kind tests of one field, each
      appending to the list, or the exception the field raises. */
  method AppendFieldConditions(conditions: seq<Condition>, field: DlgField) returns (r: Result<seq<Condition>, Error>)
    ensures r == Prepend(conditions, Contribution(field))
  {
    var result := conditions;
    assert conditions + [] == conditions;
    if field.item.Some? {
      if field.kind.None? {
        return Err(NullReference);
      }
      var item := field.item.value;
      var lk := Lower(field.kind.value);
      KindNames(lk);
      if lk == "string" {
        result := result + [Condition(field.fieldName, item.text)];
      }
      if lk == "decimal" {
        result := result + [Condition(field.fieldName, item.text)];
      }
      if lk == "int" {
        result := result + [Condition(field.fieldName, item.text)];
      }
      if lk == "memo" {
        result := result + [Condition(field.fieldName, item.text)];
      }
      if lk == "date" {
        if item.asDateTime.None? {
          return Err(BadDateTime);
        }
        var dateTime := item.asDateTime.value;
        result := result + [Condition(field.fieldName, Sortable(Midnight(dateTime)))];
      }
      if lk == "datetime" {
        if item.asDateTime.None? {
          return Err(BadDateTime);
        }
        var dateTime := item.asDateTime.value;
        result := result + [Condition(field.fieldName, Sortable(dateTime))];
      }
      if lk == "keywords" {
        if item.asKeywords.Err? {
          return Err(BadJson(item.asKeywords.error));
        }
        var keys := item.asKeywords.value;
        for j := 0 to |keys|
          invariant result == conditions + seq(j, n requires 0 <= n < j => Condition(field.fieldName, keys[n]))
        {
          result := result + [Condition(field.fieldName, keys[j])];
        }
      }
    }
    r := Ok(result);
  }

  /** The seven kind names are distinct, so at most one branch of the
      builder fires for a field. */
  lemma KindNames(lk: string)
    ensures lk == "string" ==> lk != "decimal" && lk != "int" && lk != "memo" && lk != "date" && lk != "datetime" && lk != "keywords"
    ensures lk == "decimal" ==> lk != "int" && lk != "memo" && lk != "date" && lk != "datetime" && lk != "keywords"
    ensures lk == "int" ==> lk != "memo" && lk != "date" && lk != "datetime" && lk != "keywords"
    ensures lk == "memo" ==> lk != "date" && lk != "datetime" && lk != "keywords"
    ensures lk == "date" ==> lk != "datetime" && lk != "keywords"
    ensures lk == "datetime" ==> lk != "keywords"
  {
  }

  // ---------------------------------------------------------------------
  // What each kind contributes
  // ---------------------------------------------------------------------

  /** The kind is compared ignoring case: kinds that differ only in case
      contribute the same conditions. */
  lemma KindIgnoresCase(f: DlgField, k: string)
    requires f.kind.Some? && EqualsIgnoreCase(f.kind.value, k)
    ensures Contribution(f.(kind := Some(k))) == Contribution(f)
  {
  }

  /** A `string`, `decimal`, `int` or `memo` field with an item contributes
      exactly one condition, holding the item's text. */
  lemma TextKindContribution(f: DlgField)
    requires f.item.Some? && f.kind.Some? && IsTextKind(Lower(f.kind.value))
    ensures Contribution(f) == Ok([Condition(f.fieldName, f.item.value.text)])
  {
  }

  /** A field without an item, or with an item of an unknown kind,
      contributes nothing and raises nothing. */
  lemma SilentContribution(f: DlgField)
    requires f.item.None? || (f.kind.Some? && !IsKnownKind(Lower(f.kind.value)))
    ensures Contribution(f) == Ok([])
  {
  }

  /** A `date` field contributes one 19-character condition: the item's day,
      with the time of day written as midnight. */
  lemma DateContribution(f: DlgField)
    requires f.item.Some? && f.kind.Some? && Lower(f.kind.value) == "date"
    requires f.item.value.asDateTime.Some?
    ensures Contribution(f).Ok? && |Contribution(f).value| == 1
    ensures var v := Contribution(f).value[0].value;
            var d := f.item.value.asDateTime.value;
            && |v| == 19
            && v[10..] == "T00:00:00"
            && ParseSortable(v) == Some(Stamp(d.year, d.month, d.day, 0, 0, 0))
  {
    var d := f.item.value.asDateTime.value;
    SortableRoundTrip(Midnight(d));
    MidnightFormat(d);
  }

  /** A `datetime` field contributes one 19-character condition that denotes
      the item's instant, hour, minute and second included. */
  lemma DateTimeContribution(f: DlgField)
    requires f.item.Some? && f.kind.Some? && Lower(f.kind.value) == "datetime"
    requires f.item.value.asDateTime.Some?
    ensures Contribution(f).Ok? && |Contribution(f).value| == 1
    ensures |Contribution(f).value[0].value| == 19
    ensures ParseSortable(Contribution(f).value[0].value) == f.item.value.asDateTime
  {
    SortableRoundTrip(f.item.value.asDateTime.value);
  }

  /** A `keywords` field contributes one condition per keyword, in keyword
      order, all on the field's name; no keyword, no condition. */
  lemma KeywordsContribution(f: DlgField)
    requires f.item.Some? && f.kind.Some? && Lower(f.kind.value) == "keywords"
    requires f.item.value.asKeywords.Ok?
    ensures var keys := f.item.value.asKeywords.value;
            && Contribution(f).Ok?
            && |Contribution(f).value| == |keys|
            && forall n :: 0 <= n < |keys| ==> Contribution(f).value[n] == Condition(f.fieldName, keys[n])
  {
  }

  /** A field with an item and a null kind, an unreadable instant or an
      unreadable keyword payload raises; nothing else does. */
  lemma ContributionErrors(f: DlgField)
    ensures Contribution(f).Err? <==>
              && f.item.Some?
              && (|| f.kind.None?
                  || ((Lower(f.kind.value) == "date" || Lower(f.kind.value) == "datetime") && f.item.value.asDateTime.None?)
                  || (Lower(f.kind.value) == "keywords" && f.item.value.asKeywords.Err?))
  {
  }

  // ---------------------------------------------------------------------
  // The whole list
  // ---------------------------------------------------------------------

  /** The list holds the fields' contributions in field order: the
      conditions of a prefix of the fields come first, and an exception in
      the prefix stops the rest. Without an exception the list is exactly as
      long as the contributions together, and every condition is on the
      name of one of the fields. */
  lemma {:induction false} ConditionsInOrder(a: seq<DlgField>, b: seq<DlgField>)
    ensures ConcatMap(a + b, Contribution) == match ConcatMap(a, Contribution)
                                              case Err(e) => Err(e)
                                              case Ok(v) => Prepend(v, ConcatMap(b, Contribution))
    ensures ConcatMap(a, Contribution).Ok? ==> |ConcatMap(a, Contribution).value| == Total(a, Contribution)
  {
    ConcatMapAppend(a, b, Contribution);
    ConcatMapOk(a, Contribution);
  }

  /** Each condition of the list carries the field name of some input field. */
  lemma {:induction false} ConditionsOnInputFields(fields: seq<DlgField>)
    requires ConcatMap(fields, Contribution).Ok?
    ensures forall c: Condition :: c in ConcatMap(fields, Contribution).value ==>
              exists i :: 0 <= i < |fields| && fields[i].fieldName == c.fieldName
    decreases |fields|
  {
    if fields != [] {
      ConditionsOnInputFields(fields[1..]);
      var head := Contribution(fields[0]).value;
      var rest := ConcatMap(fields[1..], Contribution).value;
      assert ConcatMap(fields, Contribution).value == head + rest;
      forall c: Condition | c in head + rest
        ensures exists i :: 0 <= i < |fields| && fields[i].fieldName == c.fieldName
      {
        if c in head {
          var k :| 0 <= k < |head| && head[k] == c;
          assert fields[0].fieldName == c.fieldName;
        } else {
          var i :| 0 <= i < |fields[1..]| && fields[1..][i].fieldName == c.fieldName;
          assert fields[i + 1].fieldName == c.fieldName;
        }
      }
    }
  }

  /** The builder raises only the exceptions a field can raise: a null kind,
      an unreadable instant, an unreadable keyword payload. */
  lemma {:induction false} ConditionErrors(fields: seq<DlgField>)
    ensures ConcatMap(fields, Contribution).Err? ==>
              var e := ConcatMap(fields, Contribution).error;
              e == NullReference || e == BadDateTime || e.BadJson?
    decreases |fields|
  {
    if fields != [] {
      ConditionErrors(fields[1..]);
    }
  }
}
