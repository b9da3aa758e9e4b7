/**
 * The query builders of the database layer: the `sql` template tag, the
 * `prepare` statement factory and the `insert` helper. Every call to the
 * driver (`pool.execute`, `statement.execute`) is opaque; the model states
 * exactly what each builder hands it, as an `Execution`.
 */
module Database {
  import opened Wrappers
  import opened Strings
  import opened JsValues

  /** The placeholder that marks a value slot in query text. */
  const Placeholder: char := '?'

  /** The inputs of one opaque driver execution: query text and bound parameters. */
  datatype Execution = Execution(query: string, params: seq<JsValue>)

  /*
   * sql`...`: the template fragments joined by "?" form the query text; the
   * interpolated values travel separately, as bound parameters.
   */
  function Sql(strings: seq<string>, values: seq<JsValue>): (e: Execution)
    ensures e.params == values
  {
    Execution(Join(strings, [Placeholder]), values)
  }

  /**
   * Injection safety of `sql`: the query text is the same whatever the values
   * are, and it can be cut back at its placeholders into exactly the
   * fragments the caller wrote, so no value ever became query text.
   */
  lemma SqlTextIsFragmentsOnly(strings: seq<string>, values: seq<JsValue>, others: seq<JsValue>)
    requires |strings| >= 1
    requires Avoids(strings, Placeholder)
    ensures Sql(strings, values).query == Sql(strings, others).query
    ensures Split(Sql(strings, values).query, Placeholder) == strings
  {
    SplitJoin(strings, Placeholder);
  }

  /**
   * When no fragment contains "?", the query holds one placeholder per slot:
   * `|strings| - 1`, which for a tagged template is the number of values bound.
   */
  lemma SqlPlaceholderCount(strings: seq<string>, values: seq<JsValue>)
    requires |strings| >= 1
    requires Avoids(strings, Placeholder)
    ensures Count(Sql(strings, values).query, Placeholder) == |strings| - 1
    ensures |strings| == |values| + 1 ==>
      Count(Sql(strings, values).query, Placeholder) == |Sql(strings, values).params|
  {
    SplitJoin(strings, Placeholder);
    SplitCount(Sql(strings, values).query, Placeholder);
  }

  /** A template with no slot runs its one fragment verbatim, with no parameters. */
  lemma SqlWithoutSlots(fragment: string)
    ensures Sql([fragment], []) == Execution(fragment, [])
  {
  }

  /**
   * The callable `prepare` returns, over the statement prepared from `query`:
   * `Keyed` reads its argument's properties in declared key order, `Unkeyed`
   * takes no argument.
   */
  datatype Callable = Keyed(query: string, keys: seq<string>) | Unkeyed(query: string)

  /** prepare`...`(keys): the statement text is built as `sql` builds it, once; the shape follows the keys. */
  function Prepare(strings: seq<string>, keys: seq<string>): (c: Callable)
    ensures forall values :: c.query == Sql(strings, values).query
    ensures c.Keyed? <==> |keys| >= 1
    ensures c.Keyed? ==> c.keys == keys
  {
    var query := Join(strings, [Placeholder]);
    if |keys| >= 1 then Keyed(query, keys) else Unkeyed(query)
  }

  /**
   * `keys.map(key => values[key])`: one read per key, in key order; it throws
   * as soon as a read throws.
   */
  function ReadKeys(values: JsValue, keys: seq<string>): (r: Result<seq<JsValue>, JsError>)
    ensures r.Failure? <==> |keys| >= 1 && Nullish(values)
    ensures r.Success? ==> |r.value| == |keys|
    ensures r.Success? ==> forall i :: 0 <= i < |keys| ==> Property(values, keys[i]) == Success(r.value[i])
    decreases |keys|
  {
    if |keys| == 0 then Success([])
    else
      match Property(values, keys[0])
      case Failure(e) => Failure(e)
      case Success(v) =>
        match ReadKeys(values, keys[1..])
        case Failure(e) => Failure(e)
        case Success(rest) => Success([v] + rest)
  }

  /** One invocation of a prepared callable with argument `values` (`Undefined` when called with none). */
  function Call(c: Callable, values: JsValue): (r: Result<Execution, JsError>)
    ensures r.Success? ==> r.value.query == c.query
    ensures c.Unkeyed? ==> r == Success(Execution(c.query, []))
    ensures r.Failure? <==> c.Keyed? && |c.keys| >= 1 && Nullish(values)
    ensures c.Keyed? && r.Success? ==>
      |r.value.params| == |c.keys| &&
      forall i :: 0 <= i < |c.keys| ==> Property(values, c.keys[i]) == Success(r.value.params[i])
  {
    match c
    case Unkeyed(query) => Success(Execution(query, []))
    case Keyed(query, keys) =>
      match ReadKeys(values, keys)
      case Failure(e) => Failure(e)
      case Success(params) => Success(Execution(query, params))
  }

  /**
   * A keyed callable given an object binds, at slot i, the object's property
   * named by the i-th declared key, and `undefined` where that property is
   * missing; a callable prepared without keys binds nothing.
   */
  lemma CallBindsInDeclaredOrder(strings: seq<string>, keys: seq<string>, props: seq<(string, JsValue)>)
    requires DistinctKeys(props)
    ensures Call(Prepare(strings, keys), Obj(props)).Success?
    ensures |Call(Prepare(strings, keys), Obj(props)).value.params| == |keys|
    ensures forall i, j :: 0 <= i < |keys| && 0 <= j < |props| && props[j].0 == keys[i] ==>
      Call(Prepare(strings, keys), Obj(props)).value.params[i] == props[j].1
    ensures forall i :: 0 <= i < |keys| && Absent(props, keys[i]) ==>
      Call(Prepare(strings, keys), Obj(props)).value.params[i] == Undefined
  {
    var c := Prepare(strings, keys);
    var r := Call(c, Obj(props));
    if c.Keyed? {
      forall i | 0 <= i < |keys|
        ensures r.value.params[i] == Get(props, keys[i])
      {
        assert Property(Obj(props), keys[i]) == Success(r.value.params[i]);
      }
    }
  }

  /** The bound parameters do not depend on the order in which the argument object lists its properties. */
  lemma CallIgnoresPropertyOrder(c: Callable, p: seq<(string, JsValue)>, q: seq<(string, JsValue)>)
    requires DistinctKeys(p) && DistinctKeys(q)
    requires forall e :: e in p <==> e in q
    ensures Call(c, Obj(p)) == Call(c, Obj(q))
  {
    if c.Keyed? {
      var a := Call(c, Obj(p)).value.params;
      var b := Call(c, Obj(q)).value.params;
      forall i | 0 <= i < |c.keys|
        ensures a[i] == b[i]
      {
        GetIgnoresOrder(p, q, c.keys[i]);
        assert Property(Obj(p), c.keys[i]) == Success(a[i]);
        assert Property(Obj(q), c.keys[i]) == Success(b[i]);
      }
      assert a == b;
    }
  }

  /** Keys `[a, b]` and the argument `{b: 2, a: 1}` bind slot 1 to 1 and slot 2 to 2. */
  lemma CallKeyOrderExample(strings: seq<string>)
    ensures Call(Prepare(strings, ["a", "b"]), Obj([("b", Num(2)), ("a", Num(1))])).value.params
      == [Num(1), Num(2)]
  {
    var props := [("b", Num(2)), ("a", Num(1))];
    CallBindsInDeclaredOrder(strings, ["a", "b"], props);
  }

  /** `Object.keys(data)`. */
  function Columns(data: seq<(string, JsValue)>): (cols: seq<string>)
  {
    seq(|data|, i requires 0 <= i < |data| => data[i].0)
  }

  /** `Object.values(data)`. */
  function Values(data: seq<(string, JsValue)>): (vals: seq<JsValue>)
  {
    seq(|data|, i requires 0 <= i < |data| => data[i].1)
  }

  /** Columns and values enumerate the same record, so they pair back up into it. */
  lemma ColumnsPairWithValues(data: seq<(string, JsValue)>)
    ensures |Columns(data)| == |Values(data)| == |data|
    ensures forall i :: 0 <= i < |data| ==> (Columns(data)[i], Values(data)[i]) == data[i]
  {
  }

  /** `Array(n).fill("?")`. */
  function Placeholders(n: nat): (marks: seq<string>)
    ensures |marks| == n
    ensures forall i :: 0 <= i < n ==> marks[i] == [Placeholder]
  {
    seq(n, _ => [Placeholder])
  }

  /** `Array(n).fill("?").join(", ")` holds exactly n placeholders. */
  lemma {:induction false} PlaceholderListCount(n: nat)
    ensures Count(Join(Placeholders(n), ", "), Placeholder) == n
  {
    if n > 1 {
      PlaceholderListCount(n - 1);
      assert Placeholders(n)[1..] == Placeholders(n - 1);
    }
  }

  /** The text of the INSERT statement: identifiers verbatim, one placeholder per value. */
  function InsertQuery(table: string, data: seq<(string, JsValue)>): string
  {
    "INSERT INTO " + table + "\n    (" + Join(Columns(data), ", ") + ") VALUES ("
      + Join(Placeholders(|Values(data)|), ", ") + ")"
  }

  /** insert(table, data) as written: the whole value list is bound as ONE parameter. */
  function Insert(table: string, data: seq<(string, JsValue)>): (e: Execution)
    ensures |e.params| == 1
    ensures e.params[0] == Arr(Values(data))
    ensures e.query == InsertQuery(table, data)
  {
    Execution(InsertQuery(table, data), [Arr(Values(data))])
  }

  /** The INSERT text depends on the table and the column names only, never on the values. */
  lemma InsertQueryIgnoresValues(table: string, data: seq<(string, JsValue)>, other: seq<(string, JsValue)>)
    requires Columns(other) == Columns(data)
    ensures InsertQuery(table, other) == InsertQuery(table, data)
  {
    assert |other| == |Columns(other)| == |Columns(data)| == |data|;
  }

  /** With identifiers free of "?", the INSERT text holds exactly one placeholder per field. */
  lemma InsertQueryPlaceholders(table: string, data: seq<(string, JsValue)>)
    requires Placeholder !in table
    requires Avoids(Columns(data), Placeholder)
    ensures Count(InsertQuery(table, data), Placeholder) == |data|
  {
    var cols := Join(Columns(data), ", ");
    var marks := Join(Placeholders(|data|), ", ");
    JoinAvoids(Columns(data), ", ", Placeholder);
    PlaceholderListCount(|data|);
    var head := "INSERT INTO " + table + "\n    (" + cols + ") VALUES (";
    assert Placeholder !in head;
    CountWithin(head, marks, ")", Placeholder);
    assert InsertQuery(table, data) == head + marks + ")";
  }

  /**
   * As written, `insert` binds one parameter for as many placeholders as the
   * record has fields: the two agree only for a single-field record.
   */
  lemma InsertArityMismatch(table: string, data: seq<(string, JsValue)>)
    requires Placeholder !in table
    requires Avoids(Columns(data), Placeholder)
    ensures Count(Insert(table, data).query, Placeholder) == |Insert(table, data).params|
      <==> |data| == 1
  {
    InsertQueryPlaceholders(table, data);
  }

  /** The record {nome: "Ana", idade: 20} gets two placeholders but one bound parameter. */
  lemma InsertTwoFieldExample(table: string)
    requires Placeholder !in table
    ensures Count(Insert(table, [("nome", Str("Ana")), ("idade", Num(20))]).query, Placeholder) == 2
    ensures |Insert(table, [("nome", Str("Ana")), ("idade", Num(20))]).params| == 1
  {
    var data := [("nome", Str("Ana")), ("idade", Num(20))];
    assert Columns(data) == ["nome", "idade"];
    assert Avoids(Columns(data), Placeholder);
    InsertQueryPlaceholders(table, data);
  }

  /** insert(table, data) as evidently intended: the values themselves are the bound parameters. */
  function InsertIntended(table: string, data: seq<(string, JsValue)>): (e: Execution)
    ensures e.query == InsertQuery(table, data)
    ensures |e.params| == |data|
    ensures forall i :: 0 <= i < |data| ==> e.params[i] == data[i].1
  {
    Execution(InsertQuery(table, data), Values(data))
  }

  /** The corrected INSERT binds exactly one parameter per placeholder, the i-th field's value to the i-th column. */
  lemma InsertIntendedBindsEachValue(table: string, data: seq<(string, JsValue)>)
    requires Placeholder !in table
    requires Avoids(Columns(data), Placeholder)
    ensures Count(InsertIntended(table, data).query, Placeholder) == |InsertIntended(table, data).params|
    ensures forall i :: 0 <= i < |data| ==> InsertIntended(table, data).params[i] == data[i].1
  {
    InsertQueryPlaceholders(table, data);
  }
}
