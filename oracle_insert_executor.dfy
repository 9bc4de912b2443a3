/**
 * How the Oracle INSERT executor decides the primary-key values of the rows
 * it inserts: the values written in the statement, the keys the driver
 * generated, or the current value of a sequence.
 *
 * The executor's base-class hooks are inputs: whether the statement lists
 * the primary-key column, whether it lists columns at all, the table's
 * primary-key column names, the map parsed from the statement, the generated
 * keys, and the answer of the sequence query for a sequence expression. A
 * hook that throws is a Failure carrying the exception.
 *
 * A Java Map from column name to value list is a sequence of entries in
 * iteration order; the "first key" is the column of the first entry.
 */
module OracleInsertExecutor {
  import opened Wrappers

  /** A sequence expression such as SEQ_ORDER.nextval. */
  datatype SequenceExpr = SequenceExpr(sequence: string, accessor: string)

  /** A primary-key value as the statement or a hook gives it. */
  datatype PkValue =
    | Literal(text: string)
    | Placeholder(index: nat)
    | Null
    | Method(name: string)
    | Sequence(expr: SequenceExpr)

  datatype PkEntry = PkEntry(column: string, values: seq<PkValue>)

  /** A Map<String, List<Object>> in iteration order. */
  type PkMap = seq<PkEntry>

  datatype InsertError =
    | NotSupportYet(message: string)   // NotSupportYetException
    | NoSuchElement                    // iterator().next() on an empty map
    | IndexOutOfBounds                 // get(0) on an empty name list
    | HookFailed(reason: string)       // an SQLException raised by a hook

  const NullNotSupported: string := "oracle not support null"

  datatype InsertContext = InsertContext(
    containsPk: bool,
    containsColumns: bool,
    primaryKeyOnlyNames: seq<string>,
    parsed: Result<PkMap, InsertError>,
    generatedKeys: Result<seq<PkValue>, InsertError>,
    bySequence: SequenceExpr -> Result<seq<PkValue>, InsertError>)

  /** Every column appears in at most one entry, as in any Java Map. */
  predicate DistinctColumns(m: PkMap)
  {
    forall i, j :: 0 <= i < j < |m| ==> m[i].column != m[j].column
  }

  /** Map.put of a column the map already holds: its list is replaced in place. */
  function Put(m: PkMap, column: string, values: seq<PkValue>): (r: PkMap)
    requires exists i :: 0 <= i < |m| && m[i].column == column
    requires DistinctColumns(m)
    ensures |r| == |m| && DistinctColumns(r)
    ensures forall i :: 0 <= i < |m| ==>
      r[i] == if m[i].column == column then PkEntry(column, values) else m[i]
  {
    if m[0].column == column then [PkEntry(column, values)] + m[1..]
    else [m[0]] + Put(m[1..], column, values)
  }

  // ---------------------------------------------------------------------
  // getSequenceSql

  const SelectPrefix: string := "SELECT "
  const CurrvalSuffix: string := ".currval FROM DUAL"

  /** The query reading the current value of the expression's sequence. */
  function GetSequenceSql(expr: SequenceExpr): (sql: string)
    ensures |sql| == |SelectPrefix| + |expr.sequence| + |CurrvalSuffix|
    ensures sql[..|SelectPrefix|] == SelectPrefix
    ensures sql[|SelectPrefix|..|SelectPrefix| + |expr.sequence|] == expr.sequence
    ensures sql[|SelectPrefix| + |expr.sequence|..] == CurrvalSuffix
  {
    SelectPrefix + expr.sequence + CurrvalSuffix
  }

  /** The sequence a currval query reads, None for any other text. */
  function SequenceOfSql(sql: string): (sequence: Option<string>)
  {
    if |sql| >= |SelectPrefix| + |CurrvalSuffix|
       && sql[..|SelectPrefix|] == SelectPrefix
       && sql[|sql| - |CurrvalSuffix|..] == CurrvalSuffix
    then Some(sql[|SelectPrefix|..|sql| - |CurrvalSuffix|])
    else None
  }

  /** The sequence name is recovered from the query; the expression's accessor is not part of it. */
  lemma SequenceSqlRoundTrip(expr: SequenceExpr)
    ensures SequenceOfSql(GetSequenceSql(expr)) == Some(expr.sequence)
  {
    var sql := GetSequenceSql(expr);
    assert sql[|sql| - |CurrvalSuffix|..] == CurrvalSuffix;
  }

  /** Every text SequenceOfSql accepts is the query of the sequence it names. */
  lemma SequenceSqlOnlyFromTemplate(sql: string)
    requires SequenceOfSql(sql).Some?
    ensures GetSequenceSql(SequenceExpr(SequenceOfSql(sql).value, "")) == sql
  {
    var name := SequenceOfSql(sql).value;
    assert sql == sql[..|SelectPrefix|] + name + sql[|sql| - |CurrvalSuffix|..];
  }

  /** Two expressions give the same query exactly when they name the same sequence. */
  lemma SequenceSqlInjective(a: SequenceExpr, b: SequenceExpr)
    ensures GetSequenceSql(a) == GetSequenceSql(b) <==> a.sequence == b.sequence
  {
    if GetSequenceSql(a) == GetSequenceSql(b) {
      SequenceSqlRoundTrip(a);
      SequenceSqlRoundTrip(b);
    }
  }

  // ---------------------------------------------------------------------
  // getPkValuesByColumn

  /**
   * What happens to the first key's list: a leading sequence expression is
   * answered by the sequence query whatever the row count; a lone method
   * call by the generated keys; a lone NULL is refused; anything else stays.
   * None means the list stays as parsed.
   */
  function FirstListResolution(values: seq<PkValue>, ctx: InsertContext): (resolution: Option<Result<seq<PkValue>, InsertError>>)
  {
    if |values| > 0 && values[0].Sequence? then Some(ctx.bySequence(values[0].expr))
    else if |values| == 1 && values[0].Method? then Some(ctx.generatedKeys)
    else if |values| == 1 && values[0].Null? then Some(Failure(NotSupportYet(NullNotSupported)))
    else None
  }

  /** The result getPkValuesByColumn is specified to give. */
  function PkValuesByColumn(ctx: InsertContext): (r: Result<PkMap, InsertError>)
  {
    match ctx.parsed
    case Failure(e) => Failure(e)
    case Success(m) =>
      if |m| == 0 then Failure(NoSuchElement)
      else
        match FirstListResolution(m[0].values, ctx)
        case None => Success(m)
        case Some(Failure(e)) => Failure(e)
        case Some(Success(resolved)) => Success([PkEntry(m[0].column, resolved)] + m[1..])
  }

  /**
   * getPkValuesByColumn: takes the map parsed from the statement, looks at the
   * list of its first key, and overwrites that list with a put when it has to
   * be resolved.
   */
  method GetPkValuesByColumn(ctx: InsertContext) returns (r: Result<PkMap, InsertError>)
    requires ctx.parsed.Success? ==> DistinctColumns(ctx.parsed.value)
    ensures r == PkValuesByColumn(ctx)
    ensures r.Success? ==> DistinctColumns(r.value)
  {
    if ctx.parsed.Failure? {
      return Failure(ctx.parsed.error);
    }
    var pkValuesMap := ctx.parsed.value;
    if |pkValuesMap| == 0 {
      return Failure(NoSuchElement);
    }
    var pkKey := pkValuesMap[0].column;
    var pkValues := pkValuesMap[0].values;
    if |pkValues| > 0 && pkValues[0].Sequence? {
      var bySequence := ctx.bySequence(pkValues[0].expr);
      if bySequence.Failure? {
        return Failure(bySequence.error);
      }
      pkValuesMap := Put(pkValuesMap, pkKey, bySequence.value);
    } else if |pkValues| == 1 && pkValues[0].Method? {
      if ctx.generatedKeys.Failure? {
        return Failure(ctx.generatedKeys.error);
      }
      pkValuesMap := Put(pkValuesMap, pkKey, ctx.generatedKeys.value);
    } else if |pkValues| == 1 && pkValues[0].Null? {
      return Failure(NotSupportYet(NullNotSupported));
    }
    assert pkValuesMap[1..] == ctx.parsed.value[1..];
    return Success(pkValuesMap);
  }

  // ---------------------------------------------------------------------
  // getPkValues

  /** The single-entry map from the first primary-key column to the generated keys. */
  function GeneratedKeysMap(names: seq<string>, generatedKeys: Result<seq<PkValue>, InsertError>): (r: Result<PkMap, InsertError>)
  {
    if |names| == 0 then Failure(IndexOutOfBounds)
    else match generatedKeys
      case Failure(e) => Failure(e)
      case Success(keys) => Success([PkEntry(names[0], keys)])
  }

  /** The result getPkValues is specified to give. */
  function PkValues(ctx: InsertContext): (r: Result<PkMap, InsertError>)
  {
    if ctx.containsPk || !ctx.containsColumns then PkValuesByColumn(ctx)
    else GeneratedKeysMap(ctx.primaryKeyOnlyNames, ctx.generatedKeys)
  }

  /**
   * getPkValues: the values written in the statement when it lists the
   * primary-key column or no columns at all; otherwise the keys the driver
   * generated, under the first primary-key column.
   */
  method GetPkValues(ctx: InsertContext) returns (r: Result<PkMap, InsertError>)
    requires ctx.parsed.Success? ==> DistinctColumns(ctx.parsed.value)
    ensures r == PkValues(ctx)
    ensures r.Success? ==> DistinctColumns(r.value)
  {
    if ctx.containsPk {
      r := GetPkValuesByColumn(ctx);
    } else if ctx.containsColumns {
      if |ctx.primaryKeyOnlyNames| == 0 {
        return Failure(IndexOutOfBounds);
      }
      var columnName := ctx.primaryKeyOnlyNames[0];
      if ctx.generatedKeys.Failure? {
        return Failure(ctx.generatedKeys.error);
      }
      r := Success([PkEntry(columnName, ctx.generatedKeys.value)]);
    } else {
      r := GetPkValuesByColumn(ctx);
    }
  }

  // ---------------------------------------------------------------------
  // Properties of the resolution

  /** A listed primary key, or a statement without a column list, is resolved from the statement. */
  lemma ListedPkResolvedFromStatement(ctx: InsertContext)
    requires ctx.containsPk || !ctx.containsColumns
    ensures PkValues(ctx) == PkValuesByColumn(ctx)
  {
  }

  /**
   * An omitted primary key in a statement with a column list is resolved from
   * the generated keys alone: a one-entry map under the first primary-key
   * column, or the failure of getGeneratedKeys, whatever the statement or the
   * sequences say.
   */
  lemma OmittedPkUsesGeneratedKeys(ctx: InsertContext, parsed: Result<PkMap, InsertError>,
                                   bySequence: SequenceExpr -> Result<seq<PkValue>, InsertError>)
    requires !ctx.containsPk && ctx.containsColumns
    ensures ctx.generatedKeys.Success? && |ctx.primaryKeyOnlyNames| > 0 ==>
      PkValues(ctx) == Success([PkEntry(ctx.primaryKeyOnlyNames[0], ctx.generatedKeys.value)])
    ensures ctx.generatedKeys.Failure? && |ctx.primaryKeyOnlyNames| > 0 ==>
      PkValues(ctx) == Failure(ctx.generatedKeys.error)
    ensures |ctx.primaryKeyOnlyNames| == 0 ==> PkValues(ctx) == Failure(IndexOutOfBounds)
    ensures PkValues(ctx) == PkValues(ctx.(parsed := parsed, bySequence := bySequence))
  {
  }

  /** The first parsed list of the statement, when there is one. */
  predicate FirstListIs(ctx: InsertContext, values: seq<PkValue>)
  {
    ctx.parsed.Success? && |ctx.parsed.value| > 0 && ctx.parsed.value[0].values == values
  }

  /**
   * A leading sequence expression is answered by the sequence query, for any
   * number of rows and whatever follows it; the generated keys are not consulted.
   */
  lemma SequenceTakesPrecedence(ctx: InsertContext, expr: SequenceExpr, rest: seq<PkValue>,
                                generatedKeys: Result<seq<PkValue>, InsertError>)
    requires FirstListIs(ctx, [Sequence(expr)] + rest)
    ensures match ctx.bySequence(expr)
      case Success(values) =>
        PkValuesByColumn(ctx) == Success([PkEntry(ctx.parsed.value[0].column, values)] + ctx.parsed.value[1..])
      case Failure(e) => PkValuesByColumn(ctx) == Failure(e)
    ensures PkValuesByColumn(ctx) == PkValuesByColumn(ctx.(generatedKeys := generatedKeys))
  {
  }

  /** A lone method call is answered by the generated keys. */
  lemma SingleMethodUsesGeneratedKeys(ctx: InsertContext, name: string)
    requires FirstListIs(ctx, [Method(name)])
    ensures match ctx.generatedKeys
      case Success(keys) =>
        PkValuesByColumn(ctx) == Success([PkEntry(ctx.parsed.value[0].column, keys)] + ctx.parsed.value[1..])
      case Failure(e) => PkValuesByColumn(ctx) == Failure(e)
  {
  }

  /** Several values led by a method call are kept as parsed. */
  lemma SeveralMethodsKept(ctx: InsertContext, name: string, rest: seq<PkValue>)
    requires FirstListIs(ctx, [Method(name)] + rest) && |rest| > 0
    ensures PkValuesByColumn(ctx) == Success(ctx.parsed.value)
  {
  }

  /** A lone NULL for the primary key is refused. */
  lemma SingleNullRejected(ctx: InsertContext)
    requires FirstListIs(ctx, [Null])
    ensures PkValuesByColumn(ctx) == Failure(NotSupportYet("oracle not support null"))
  {
  }

  /** An empty list, or one led by a literal or a placeholder, is kept as parsed. */
  lemma PlainValuesKept(ctx: InsertContext)
    requires ctx.parsed.Success? && |ctx.parsed.value| > 0
    requires var values := ctx.parsed.value[0].values;
      values == [] || values[0].Literal? || values[0].Placeholder?
    ensures PkValuesByColumn(ctx) == ctx.parsed
  {
  }

  /** A statement that yields no primary-key entry fails on the first key. */
  lemma EmptyParseFails(ctx: InsertContext)
    requires ctx.parsed == Success([])
    ensures PkValuesByColumn(ctx) == Failure(NoSuchElement)
    ensures PkValues(ctx) == Failure(NoSuchElement) || (!ctx.containsPk && ctx.containsColumns)
  {
  }

  /**
   * Only the first key's list can change: the result has the same columns in
   * the same order, and every entry after the first is the parsed one.
   */
  lemma OnlyFirstListChanges(ctx: InsertContext)
    requires ctx.parsed.Success? && PkValuesByColumn(ctx).Success?
    ensures var m, r := ctx.parsed.value, PkValuesByColumn(ctx).value;
      && |r| == |m| > 0
      && (forall i :: 0 <= i < |m| ==> r[i].column == m[i].column)
      && r[1..] == m[1..]
      && (r[0] != m[0] ==> FirstListResolution(m[0].values, ctx).Some?)
  {
  }

  /** Every failure of getPkValuesByColumn comes from a hook or from one of its own two checks. */
  lemma ByColumnFailures(ctx: InsertContext)
    requires PkValuesByColumn(ctx).Failure?
    ensures var e := PkValuesByColumn(ctx).error;
      || ctx.parsed == Failure(e)
      || (ctx.parsed == Success([]) && e == NoSuchElement)
      || (FirstListIs(ctx, [Null]) && e == NotSupportYet(NullNotSupported))
      || (ctx.parsed.Success? && |ctx.parsed.value| > 0
          && var values := ctx.parsed.value[0].values;
          || (|values| == 1 && values[0].Method? && ctx.generatedKeys == Failure(e))
          || (values != [] && values[0].Sequence? && ctx.bySequence(values[0].expr) == Failure(e)))
  {
  }
}
