/**
 * The tariff document and the pure operations of the document engine:
 * schema inference, row extraction, value formatting, row reconstruction
 * from a cached template, metadata reading and writing, template defaults,
 * the document a definition seeds, and the two table adjustments.
 *
 * A document is the parsed XML tree, reduced to what the engine looks at:
 * the `resource_tariff` header block (element name to text), the first
 * `tariff_item` block (element name to text) with its optional
 * `parameter_tuples` container, and whether the root has any other child.
 */
module TariffDocument {
  import opened Wrappers
  import opened Text
  import opened Numbers
  import opened Table

  /** A `parameter` element: the texts of its `code` and `value` children, `None` if absent. */
  datatype Param = Param(code: Option<string>, value: Option<string>)

  /** A `parameter_tuple`: its `parameter` children in document order. */
  type Tuple = seq<Param>

  datatype Item = Item(fields: map<string, string>, tuples: Option<seq<Tuple>>)

  datatype Document = Document(header: Option<map<string, string>>, item: Option<Item>, otherContent: bool) {
    /** Python's truth value of the root element: it has at least one child. */
    predicate HasChildren() {
      header.Some? || item.Some? || otherContent
    }

    /** `root.find('.//tariff_item/parameter_tuples')` and its `parameter_tuple` children. */
    function Tuples(): Option<seq<Tuple>> {
      if item.Some? then item.value.tuples else None
    }
  }

  /** `if not self.root` is false: a document is loaded and its root has children. */
  predicate Loaded(doc: Option<Document>) {
    doc.Some? && doc.value.HasChildren()
  }

  /** Python's truth value of a cached template element: it has children. */
  predicate Usable(template: Option<Tuple>) {
    template.Some? && |template.value| > 0
  }

  /** The engine's state: the document and the cached template row. */
  datatype EngineState = EngineState(doc: Option<Document>, template: Option<Tuple>)

  /** The document with its tuple container replaced (the container must exist). */
  function WithTuples(d: Document, ts: seq<Tuple>): (r: Document)
    requires d.item.Some?
    ensures r.Tuples() == Some(ts) && r.header == d.header && r.HasChildren()
    ensures r.item.Some? && r.item.value.fields == d.item.value.fields && r.otherContent == d.otherContent
  {
    d.(item := Some(d.item.value.(tuples := Some(ts))))
  }

  // ---------------------------------------------------------------- schema

  /** The non-empty `code` texts of a tuple, in order. */
  function Codes(t: Tuple): (r: seq<string>)
    ensures |r| <= |t|
    ensures forall x :: x in r ==> x != ""
    ensures forall x :: x in r <==> (exists k :: 0 <= k < |t| && t[k].code == Some(x) && x != "")
  {
    if |t| == 0 then []
    else
      var p := t[|t| - 1];
      var front := Codes(t[..|t| - 1]);
      assert forall k :: 0 <= k < |t| - 1 ==> t[..|t| - 1][k] == t[k];
      if p.code.Some? && p.code.value != "" then front + [p.code.value] else front
  }

  /** Side by side, two tuples' codes keep their order and their repeats. */
  lemma {:induction false} CodesAppend(a: Tuple, b: Tuple)
    ensures Codes(a + b) == Codes(a) + Codes(b)
  {
    if |b| == 0 {
      assert a + b == a;
    } else {
      var front := b[..|b| - 1];
      CodesAppend(a, front);
      assert (a + b)[..|a + b| - 1] == a + front;
      assert (a + b)[|a + b| - 1] == b[|b| - 1];
    }
  }

  /** A single parameter contributes its code exactly when it has a non-empty one. */
  lemma CodesOne(p: Param)
    ensures Codes([p]) == if p.code.Some? && p.code.value != "" then [p.code.value] else []
  {
  }

  /**
   * The schema: the codes of the first tuple; with no tuple, the cached
   * template's codes; with no document, no root children, no container or
   * no template, none.
   */
  function Schema(doc: Option<Document>, template: Option<Tuple>): (r: seq<string>)
    ensures !Loaded(doc) || doc.value.Tuples().None? ==> r == []
    ensures Loaded(doc) && doc.value.Tuples() == Some([]) && template.None? ==> r == []
    ensures forall x :: x in r ==> x != ""
  {
    if !Loaded(doc) || doc.value.Tuples().None? then []
    else
      var ts := doc.value.Tuples().value;
      if |ts| > 0 then Codes(ts[0])
      else if template.Some? then Codes(template.value)
      else []
  }

  // ---------------------------------------------------------------- extraction

  /**
   * One extracted row: for each parameter whose code is in the schema, in
   * order, the value text parsed as a number when it parses, otherwise kept
   * as text; a later parameter with the same code overwrites an earlier one.
   * A parameter without a `value` element gives Python's `None`; the model
   * makes that a missing cell, which is pandas' NaN. That is what pandas
   * does in a numeric column; in a text column pandas keeps `None` instead,
   * a cell this model does not have.
   */
  function ExtractRow(t: Tuple, schema: seq<string>): (r: Row)
    ensures forall k :: k in r ==> k in schema
    ensures forall k :: k in r ==> exists j :: 0 <= j < |t| && t[j].code == Some(k) && t[j].value.Some? && r[k] == ParseValue(t[j].value.value)
    ensures forall j :: 0 <= j < |t| && t[j].code.Some? && t[j].code.value in schema && LastWith(t, j) ==>
      (t[j].code.value in r <==> t[j].value.Some?)
      && (t[j].value.Some? ==> r[t[j].code.value] == ParseValue(t[j].value.value))
  {
    if |t| == 0 then map[]
    else
      var m := ExtractRow(t[..|t| - 1], schema);
      ExtractRowStep(t, schema, m);
      ExtendRow(m, t[|t| - 1], schema)
  }

  /** The row after one more parameter: its parsed value under its code, or its code removed when it has no value. */
  function ExtendRow(m: Row, p: Param, schema: seq<string>): Row {
    if p.code.Some? && p.code.value in schema then
      if p.value.Some? then m[p.code.value := ParseValue(p.value.value)] else m - {p.code.value}
    else m
  }

  /** The three properties `ExtractRow` promises, of a row r extracted from t. */
  predicate RowOf(t: Tuple, schema: seq<string>, r: Row) {
    (forall k :: k in r ==> k in schema) && RowSources(t, r) && RowLast(t, schema, r)
  }

  /** Every cell of r is the parsed value of a parameter of t with its code. */
  predicate RowSources(t: Tuple, r: Row) {
    forall k :: k in r ==> exists j :: 0 <= j < |t| && t[j].code == Some(k) && t[j].value.Some? && r[k] == ParseValue(t[j].value.value)
  }

  /** The last parameter of t with a schema code decides that code's cell of r. */
  predicate RowLast(t: Tuple, schema: seq<string>, r: Row) {
    forall j :: 0 <= j < |t| && t[j].code.Some? && t[j].code.value in schema && LastWith(t, j) ==>
      (t[j].code.value in r <==> t[j].value.Some?)
      && (t[j].value.Some? ==> r[t[j].code.value] == ParseValue(t[j].value.value))
  }

  /** Extending the row of all but the last parameter by the last one gives the row of the whole tuple. */
  lemma ExtractRowStep(t: Tuple, schema: seq<string>, m: Row)
    requires |t| > 0 && RowOf(t[..|t| - 1], schema, m)
    ensures RowOf(t, schema, ExtendRow(m, t[|t| - 1], schema))
  {
    SourcesStep(t, schema, m);
    LastStep(t, schema, m);
  }

  lemma SourcesStep(t: Tuple, schema: seq<string>, m: Row)
    requires |t| > 0 && RowSources(t[..|t| - 1], m)
    ensures RowSources(t, ExtendRow(m, t[|t| - 1], schema))
  {
    var front := t[..|t| - 1];
    var p := t[|t| - 1];
    var r := ExtendRow(m, p, schema);
    forall k | k in r
      ensures exists j :: 0 <= j < |t| && t[j].code == Some(k) && t[j].value.Some? && r[k] == ParseValue(t[j].value.value)
    {
      if p.code == Some(k) && p.value.Some? && p.code.value in schema {
        assert t[|t| - 1] == p;
      } else {
        assert k in m && r[k] == m[k];
        var j :| 0 <= j < |front| && front[j].code == Some(k) && front[j].value.Some? && m[k] == ParseValue(front[j].value.value);
        assert t[j] == front[j];
      }
    }
  }

  lemma LastStep(t: Tuple, schema: seq<string>, m: Row)
    requires |t| > 0 && RowLast(t[..|t| - 1], schema, m)
    ensures RowLast(t, schema, ExtendRow(m, t[|t| - 1], schema))
  {
    var front := t[..|t| - 1];
    var p := t[|t| - 1];
    var r := ExtendRow(m, p, schema);
    forall j | 0 <= j < |t| && t[j].code.Some? && t[j].code.value in schema && LastWith(t, j)
      ensures (t[j].code.value in r <==> t[j].value.Some?)
        && (t[j].value.Some? ==> r[t[j].code.value] == ParseValue(t[j].value.value))
    {
      if j < |t| - 1 {
        assert front[j] == t[j];
        assert LastWith(front, j);
        assert p.code != t[j].code;
      }
    }
  }

  /** Parameter j is the last one in t with its code. */
  predicate LastWith(t: Tuple, j: int)
    requires 0 <= j < |t|
  {
    forall j' :: j < j' < |t| ==> t[j'].code != t[j].code
  }

  /** One row per tuple, in document order. */
  function ExtractRows(ts: seq<Tuple>, schema: seq<string>): (rows: seq<Row>)
    ensures |rows| == |ts|
    ensures forall i :: 0 <= i < |ts| ==> rows[i] == ExtractRow(ts[i], schema)
  {
    seq(|ts|, i requires 0 <= i < |ts| => ExtractRow(ts[i], schema))
  }

  datatype Extracted = Extracted(schema: seq<string>, data: seq<Row>)

  /** `extract_tuples_check_schema`: the schema, and one row of schema codes per tuple. */
  function Extract(doc: Option<Document>, template: Option<Tuple>): (r: Extracted)
    ensures r.schema == Schema(doc, template)
    ensures |r.data| == if Loaded(doc) && doc.value.Tuples().Some? then |doc.value.Tuples().value| else 0
    ensures forall i :: 0 <= i < |r.data| ==> forall k :: k in r.data[i] ==> k in r.schema
    ensures Loaded(doc) && doc.value.Tuples().Some? ==> r.data == ExtractRows(doc.value.Tuples().value, r.schema)
    ensures Loaded(doc) && doc.value.Tuples().Some? && |doc.value.Tuples().value| > 0 ==>
      r.schema == Codes(doc.value.Tuples().value[0])
    ensures Loaded(doc) && doc.value.Tuples() == Some([]) && template.Some? ==> r.schema == Codes(template.value)
  {
    var schema := Schema(doc, template);
    if !Loaded(doc) || doc.value.Tuples().None? then Extracted(schema, [])
    else Extracted(schema, ExtractRows(doc.value.Tuples().value, schema))
  }

  // ---------------------------------------------------------------- reconstruction

  /** The value a rendered cell reads back as. */
  function ReadBack(code: string, v: Value): Value {
    match v
    case Num(x) => Num(if StartsWith(code, "id_") then Trunc(x) as real else Round2(x))
    case Str(s) => ParseValue(s)
  }

  /**
   * The value-formatting policy: a number in an `id_` column is written as
   * its integer part, every other number with two decimals, a text as is.
   */
  function FormatValue(code: string, v: Value): (r: string)
    ensures ParseValue(r) == ReadBack(code, v)
    ensures v.Num? && StartsWith(code, "id_") ==> (r[0] == '-' <==> Trunc(v.x) < 0)
    ensures v.Num? && StartsWith(code, "id_") ==>
      && '.' !in r
      && var digits := if r[0] == '-' then r[1..] else r;
        |digits| > 0 && AllDigits(digits) && (|digits| > 1 ==> digits[0] != '0')
    ensures v.Num? && !StartsWith(code, "id_") ==> |r| >= 4 && r[|r| - 3] == '.'
    ensures v.Num? && !StartsWith(code, "id_") ==> Fixed2Shaped(r) && (r[0] == '-' <==> v.x < 0.0)
    ensures v.Num? && StartsWith(code, "id_") ==> IntShaped(r)
    ensures v.Str? ==> r == v.s
  {
    match v
    case Num(x) =>
      if StartsWith(code, "id_") then
        IntTextRoundTrip(Trunc(x));
        IntText(Trunc(x))
      else
        Fixed2RoundTrip(x);
        Fixed2(x)
    case Str(s) => s
  }

  /** Whether the copy of a template parameter is rewritten: its code is a table column and it has a `value` element. */
  predicate Overwritten(p: Param, columns: seq<string>) {
    p.code.Some? && p.code.value in columns && p.value.Some?
  }

  /**
   * A copy of one template parameter, with its value text taken from the row
   * where it applies. A missing (NaN) cell is written as "nan"; in an `id_`
   * column `int(nan)` raises, which the model does not follow (the copy keeps
   * the template's text).
   */
  function Patch(p: Param, columns: seq<string>, row: Row): (r: Param)
    ensures r.code == p.code
    ensures !Overwritten(p, columns) ==> r == p
    ensures Overwritten(p, columns) && p.code.value in row ==>
      r.value.Some? && ParseValue(r.value.value) == ReadBack(p.code.value, row[p.code.value])
    ensures Overwritten(p, columns) && p.code.value in row && row[p.code.value].Str? ==>
      r.value == Some(row[p.code.value].s)
    ensures Overwritten(p, columns) && p.code.value in row && row[p.code.value].Num? ==>
      r.value == Some(FormatValue(p.code.value, row[p.code.value]))
    ensures Overwritten(p, columns) && p.code.value !in row ==>
      r.value == if StartsWith(p.code.value, "id_") then p.value else Some("nan")
  {
    if !Overwritten(p, columns) then p
    else if p.code.value in row then Param(p.code, Some(FormatValue(p.code.value, row[p.code.value])))
    else if StartsWith(p.code.value, "id_") then p
    else Param(p.code, Some("nan"))
  }

  /** A fresh tuple for one table row: the template, parameter by parameter, with the row's values. */
  function Instantiate(template: Tuple, columns: seq<string>, row: Row): (t: Tuple)
    ensures |t| == |template|
    ensures forall k :: 0 <= k < |t| ==> t[k].code == template[k].code
    ensures forall k :: 0 <= k < |t| && !Overwritten(template[k], columns) ==> t[k] == template[k]
    ensures forall k :: 0 <= k < |t| && Overwritten(template[k], columns) && template[k].code.value in row ==>
      t[k].value == Some(FormatValue(template[k].code.value, row[template[k].code.value]))
    ensures forall k :: 0 <= k < |t| && Overwritten(template[k], columns) && template[k].code.value !in row ==>
      t[k].value == if StartsWith(template[k].code.value, "id_") then template[k].value else Some("nan")
    ensures forall k :: 0 <= k < |t| ==> t[k] == Patch(template[k], columns, row)
  {
    seq(|template|, k requires 0 <= k < |template| => Patch(template[k], columns, row))
  }

  /** The rebuilt container: one instantiated template per table row, in row order. */
  function Rebuild(template: Tuple, columns: seq<string>, rows: seq<Row>): seq<Tuple> {
    seq(|rows|, i requires 0 <= i < |rows| => Instantiate(template, columns, rows[i]))
  }

  /** Whether `update_tuples` rebuilds anything. */
  predicate Rebuilds(doc: Option<Document>, template: Option<Tuple>) {
    Loaded(doc) && doc.value.Tuples().Some?
    && (|doc.value.Tuples().value| > 0 || Usable(template))
  }

  /** The template `update_tuples` works from: the cached one if usable, else the first tuple. */
  function ActiveTemplate(doc: Option<Document>, template: Option<Tuple>): Tuple
    requires Rebuilds(doc, template)
  {
    if Usable(template) then template.value else doc.value.Tuples().value[0]
  }

  /** `update_tuples(df)` on the engine's state. */
  function Reconstruct(doc: Option<Document>, template: Option<Tuple>, columns: seq<string>, rows: seq<Row>): (s: EngineState)
    ensures !Rebuilds(doc, template) ==> s == EngineState(doc, template)
    ensures Rebuilds(doc, template) ==>
      s.template == Some(ActiveTemplate(doc, template))
      && (Usable(template) ==> s.template == template)
      && (!Usable(template) ==> s.template == Some(doc.value.Tuples().value[0]))
      && s.doc.Some? && s.doc.value.header == doc.value.header && s.doc.value.HasChildren()
      && s.doc.value.item.Some? && s.doc.value.otherContent == doc.value.otherContent
      && s.doc.value.item.value.fields == doc.value.item.value.fields
      && s.doc.value.Tuples().Some? && |s.doc.value.Tuples().value| == |rows|
      && forall i :: 0 <= i < |rows| ==> s.doc.value.Tuples().value[i] == Instantiate(ActiveTemplate(doc, template), columns, rows[i])
  {
    if !Rebuilds(doc, template) then EngineState(doc, template)
    else
      var t := ActiveTemplate(doc, template);
      EngineState(Some(WithTuples(doc.value, Rebuild(t, columns, rows))), Some(t))
  }

  // ---------------------------------------------------------------- metadata

  /** `element.findtext(name, '')`. */
  function FindText(block: map<string, string>, name: string): string {
    if name in block then block[name] else ""
  }

  /** `get_metadata`. */
  function Metadata(doc: Option<Document>): (r: map<string, string>)
    ensures !Loaded(doc) || doc.value.header.None? <==> r == map[]
    ensures r != map[] ==> r.Keys == {"id", "name", "valid_from", "valid_to", "spec"}
  {
    if !Loaded(doc) || doc.value.header.None? then map[]
    else
      var h := doc.value.header.value;
      var spec := if doc.value.item.Some? then FindText(doc.value.item.value.fields, "tariff_item_spec") else "";
      var r := map["id" := FindText(h, "id"), "name" := FindText(h, "name"),
          "valid_from" := FindText(h, "valid_from_date"), "valid_to" := FindText(h, "valid_till_date"),
          "spec" := spec];
      assert "id" in r;
      r
  }

  /** `elem.text = text` where `elem = block.find(name)` exists; nothing happens otherwise. */
  function SetIfPresent(block: map<string, string>, name: string, text: string): (r: map<string, string>)
    ensures r.Keys == block.Keys
    ensures name in block ==> r[name] == text
    ensures forall k :: k in block && k != name ==> r[k] == block[k]
  {
    if name in block then block[name := text] else block
  }

  /** Whether `update_metadata` writes the header element `name`. */
  predicate HeaderWritten(name: string, newData: map<string, string>) {
    (name == "name" && "name" in newData) || (name == "valid_from_date" && "valid_from" in newData)
    || (name == "valid_till_date" && "valid_to" in newData) || ((name == "id" || name == "code") && "id" in newData)
  }

  /** Whether `update_metadata` writes the `tariff_item` element `name`. */
  predicate ItemWritten(name: string, newData: map<string, string>) {
    (name == "name" && "name" in newData) || (name == "valid_from_date" && "valid_from" in newData)
    || (name == "valid_till_date" && "valid_to" in newData)
  }

  /** The header block after `update_metadata`, written in the source's order. */
  function WriteHeader(h: map<string, string>, newData: map<string, string>): (r: map<string, string>)
    ensures r.Keys == h.Keys
    ensures "name" in h && "name" in newData ==> r["name"] == newData["name"]
    ensures "valid_from_date" in h && "valid_from" in newData ==> r["valid_from_date"] == newData["valid_from"]
    ensures "valid_till_date" in h && "valid_to" in newData ==> r["valid_till_date"] == newData["valid_to"]
    ensures "id" in h && "id" in newData ==> r["id"] == newData["id"]
    ensures "code" in h && "id" in newData ==> r["code"] == newData["id"]
    ensures forall k :: k in h && !HeaderWritten(k, newData) ==> r[k] == h[k]
  {
    var h1 := if "name" in newData then SetIfPresent(h, "name", newData["name"]) else h;
    var h2 := if "valid_from" in newData then SetIfPresent(h1, "valid_from_date", newData["valid_from"]) else h1;
    var h3 := if "valid_to" in newData then SetIfPresent(h2, "valid_till_date", newData["valid_to"]) else h2;
    if "id" in newData then SetIfPresent(SetIfPresent(h3, "id", newData["id"]), "code", newData["id"]) else h3
  }

  /** The `tariff_item` block after `update_metadata`, written in the source's order. */
  function WriteItem(f: map<string, string>, newData: map<string, string>): (r: map<string, string>)
    ensures r.Keys == f.Keys
    ensures "name" in f && "name" in newData ==> r["name"] == newData["name"]
    ensures "valid_from_date" in f && "valid_from" in newData ==> r["valid_from_date"] == newData["valid_from"]
    ensures "valid_till_date" in f && "valid_to" in newData ==> r["valid_till_date"] == newData["valid_to"]
    ensures forall k :: k in f && !ItemWritten(k, newData) ==> r[k] == f[k]
  {
    var f1 := if "name" in newData then SetIfPresent(f, "name", newData["name"]) else f;
    var f2 := if "valid_from" in newData then SetIfPresent(f1, "valid_from_date", newData["valid_from"]) else f1;
    if "valid_to" in newData then SetIfPresent(f2, "valid_till_date", newData["valid_to"]) else f2
  }

  /** `update_metadata` on a document whose root has a header block. */
  function WithMetadata(d: Document, newData: map<string, string>): (r: Document)
    requires d.header.Some?
    ensures r.header.Some? && r.item.Some? == d.item.Some? && r.Tuples() == d.Tuples() && r.HasChildren()
  {
    d.(header := Some(WriteHeader(d.header.value, newData)),
       item := if d.item.Some? then Some(d.item.value.(fields := WriteItem(d.item.value.fields, newData))) else None)
  }

  // ---------------------------------------------------------------- template defaults

  /** The default a template parameter's value text gives: a number if it parses, else the text ("" if absent). */
  function DefaultOf(value: Option<string>): Value {
    match value
    case Some(t) => ParseValue(t)
    case None => Str("")
  }

  function DefaultsOf(t: Tuple): (r: map<string, Value>)
    ensures r.Keys == set x | x in Codes(t)
    ensures forall j :: 0 <= j < |t| && t[j].code.Some? && t[j].code.value != "" && LastWith(t, j) ==>
      r[t[j].code.value] == DefaultOf(t[j].value)
  {
    if |t| == 0 then map[]
    else
      var front := t[..|t| - 1];
      var m := DefaultsOf(front);
      var p := t[|t| - 1];
      assert forall j :: 0 <= j < |t| - 1 ==> front[j] == t[j];
      assert forall j :: 0 <= j < |t| - 1 && LastWith(t, j) ==> LastWith(front, j);
      if p.code.Some? && p.code.value != "" then m[p.code.value := DefaultOf(p.value)] else m
  }

  /** `get_parameter_defaults`: code to default, from a usable cached template. */
  function ParameterDefaults(template: Option<Tuple>): map<string, Value> {
    if Usable(template) then DefaultsOf(template.value) else map[]
  }

  // ---------------------------------------------------------------- definitions

  /**
   * A column default in a definition file: a JSON number, a boolean, `null`,
   * a string, or any other JSON value (a list or an object) given by the
   * text Python's `str` renders it as.
   */
  datatype Default = DefNum(x: real) | DefBool(b: bool) | DefNull | DefText(s: string) | DefOther(text: string)

  /** A definition file, after JSON parsing; absent keys are `None` / empty. */
  datatype Definition = Definition(
    specName: Option<string>,
    currencyCode: Option<string>,
    unitCode: Option<string>,
    columns: seq<string>,
    defaults: map<string, Default>)

  /** What a seeded column's default reads back as from the template. */
  function SeedDefault(def: Definition, column: string): Value {
    if column !in def.defaults then Num(0.0)
    else match def.defaults[column]
      case DefNum(x) => Num(Round2(x))
      case DefBool(b) => Num(if b then 1.0 else 0.0)
      case DefNull => Str("None")
      case DefText(s) => ParseValue(s)
      case DefOther(text) => ParseValue(text)
  }

  /**
   * The seed value text for one column: a number (a boolean is one in
   * Python) with two decimals, a missing default as 0.00, `null` as "None",
   * anything else as its text. It reads back as the default, numbers
   * rounded to hundredths.
   */
  function SeedText(def: Definition, column: string): (r: string)
    ensures ParseValue(r) == SeedDefault(def, column)
    ensures column !in def.defaults || def.defaults[column].DefNum? || def.defaults[column].DefBool? ==>
      |r| >= 4 && r[|r| - 3] == '.'
    ensures column !in def.defaults ==> r == "0.00"
    ensures column in def.defaults && def.defaults[column].DefNum? ==>
      Fixed2Shaped(r) && (r[0] == '-' <==> def.defaults[column].x < 0.0)
    ensures column in def.defaults && def.defaults[column].DefBool? ==>
      r == if def.defaults[column].b then "1.00" else "0.00"
    ensures column in def.defaults && def.defaults[column].DefNull? ==> r == "None"
    ensures column in def.defaults && def.defaults[column].DefText? ==> r == def.defaults[column].s
    ensures column in def.defaults && def.defaults[column].DefOther? ==> r == def.defaults[column].text
  {
    if column !in def.defaults then UnitSeed(false)
    else match def.defaults[column]
      case DefNum(x) => NumberSeed(x)
      case DefBool(b) => UnitSeed(b)
      case DefNull => "None"
      case DefText(s) => s
      case DefOther(text) => text
  }

  /** `f"{x:.2f}"` for a number default. */
  function NumberSeed(x: real): (r: string)
    ensures ParseValue(r) == Num(Round2(x))
    ensures Fixed2Shaped(r) && (r[0] == '-' <==> x < 0.0)
  {
    Fixed2RoundTrip(x);
    Fixed2(x)
  }

  /** `f"{b:.2f}"` for a boolean, which Python formats as the number 1 or 0 (also the missing default, 0.00). */
  function UnitSeed(b: bool): (r: string)
    ensures r == if b then "1.00" else "0.00"
    ensures ParseValue(r) == Num(if b then 1.0 else 0.0)
  {
    var n := if b then 1 else 0;
    Fixed2Units(n);
    assert Round2(n as real) == n as real;
    NumberSeed(n as real)
  }

  /** The seed tuple: one parameter per definition column, in column order. */
  function SeedTuple(def: Definition): (t: Tuple)
    ensures |t| == |def.columns|
  {
    seq(|def.columns|, i requires 0 <= i < |def.columns| => Param(Some(def.columns[i]), Some(SeedText(def, def.columns[i]))))
  }

  /**
   * The document `create_from_definition` builds, with the seed tuple in its
   * container; its metadata reads as a new tariff valid from today.
   */
  function NewDocument(def: Definition, today: string, future: string): (d: Document)
    ensures d.Tuples() == Some([SeedTuple(def)])
    ensures Metadata(Some(d)) == map["id" := "NEW_TARIFF", "name" := "New Tariff", "valid_from" := today,
      "valid_to" := future, "spec" := def.specName.GetOr("UnknownSpec")]
  {
    Document(
      Some(map["id" := "NEW_TARIFF", "code" := "NEW_TARIFF", "name" := "New Tariff",
               "valid_from_date" := today, "valid_till_date" := future, "price_kind_code" := "Erlös"]),
      Some(Item(
        map["name" := "New Tariff", "tariff_item_spec" := def.specName.GetOr("UnknownSpec"),
            "currency_code" := def.currencyCode.GetOr("EUR"), "valid_from_date" := today,
            "valid_till_date" := future, "unit_code" := def.unitCode.GetOr("XXX")],
        Some([SeedTuple(def)]))),
      false)
  }

  // ---------------------------------------------------------------- table adjustments

  /** Whether `apply_bulk_change` touches row i: every row when no list (or an empty one) is given. */
  predicate Selected(i: int, selection: Option<seq<int>>) {
    selection.None? || |selection.value| == 0 || i in selection.value
  }

  /** The factor a percentage change multiplies by. */
  function Multiplier(percentage: real): real {
    1.0 + percentage / 100.0
  }

  /** One row under `apply_bulk_change`: the column's cell multiplied, if the row is selected and the cell present. */
  function BulkRow(row: Row, selected: bool, column: string, percentage: real): (r: Row)
    requires column in row ==> row[column].Num?
    ensures r.Keys == row.Keys
    ensures forall k :: k in row && k != column ==> r[k] == row[k]
    ensures column in row ==>
      r[column] == if selected then Num(row[column].x * Multiplier(percentage)) else row[column]
  {
    if selected && column in row then row[column := Num(row[column].x * Multiplier(percentage))] else row
  }

  lemma BulkRowSelected(row: Row, column: string, percentage: real)
    requires column in row && row[column].Num?
    ensures BulkRow(row, true, column, percentage) == row[column := Num(row[column].x * Multiplier(percentage))]
  {
  }

  /** `apply_bulk_change`: the column's cells in the selected rows multiplied by 1 + percentage / 100. */
  function BulkChanged(columns: seq<string>, rows: seq<Row>, column: string, percentage: real, selection: Option<seq<int>>): (r: seq<Row>)
    ensures |r| == |rows|
    ensures column !in columns || !NumericColumn(rows, column) ==> r == rows
    ensures column in columns && NumericColumn(rows, column) ==>
      forall i :: 0 <= i < |rows| ==> r[i] == BulkRow(rows[i], Selected(i, selection), column, percentage)
  {
    if column !in columns || !NumericColumn(rows, column) then rows
    else seq(|rows|, i requires 0 <= i < |rows| => BulkRow(rows[i], Selected(i, selection), column, percentage))
  }

  /** `set_order_kind`: every row's `id_orderkind` cell set to the value, if the column exists. */
  function OrderKindSet(columns: seq<string>, rows: seq<Row>, kind: int): (r: seq<Row>)
    ensures |r| == |rows|
    ensures "id_orderkind" !in columns ==> r == rows
    ensures "id_orderkind" in columns ==> forall i :: 0 <= i < |rows| ==>
      r[i].Keys == rows[i].Keys + {"id_orderkind"} && r[i]["id_orderkind"] == Num(kind as real)
      && forall k :: k in rows[i] && k != "id_orderkind" ==> r[i][k] == rows[i][k]
  {
    if "id_orderkind" !in columns then rows
    else seq(|rows|, i requires 0 <= i < |rows| => rows[i]["id_orderkind" := Num(kind as real)])
  }

  // ---------------------------------------------------------------- properties

  /** Rebuilding twice from the same table gives the same document and template as rebuilding once. */
  lemma ReconstructIdempotent(doc: Option<Document>, template: Option<Tuple>, columns: seq<string>, rows: seq<Row>)
    ensures var s := Reconstruct(doc, template, columns, rows);
      Reconstruct(s.doc, s.template, columns, rows) == s
  {
    var s := Reconstruct(doc, template, columns, rows);
    if Rebuilds(doc, template) {
      var t := ActiveTemplate(doc, template);
      var d := s.doc.value;
      if |t| > 0 {
        assert ActiveTemplate(s.doc, s.template) == t;
        assert WithTuples(d, Rebuild(t, columns, rows)) == d;
      } else if |rows| > 0 {
        assert |t| == 0;
        assert Instantiate(t, columns, rows[0]) == t;
        assert ActiveTemplate(s.doc, s.template) == t;
        assert WithTuples(d, Rebuild(t, columns, rows)) == d;
      }
    }
  }

  /** Two tuples with the same codes, position by position, have the same schema. */
  lemma {:induction false} CodesOfSameCodes(a: Tuple, b: Tuple)
    requires |a| == |b| && forall k :: 0 <= k < |a| ==> a[k].code == b[k].code
    ensures Codes(a) == Codes(b)
  {
    if |a| > 0 {
      CodesOfSameCodes(a[..|a| - 1], b[..|b| - 1]);
    }
  }

  /**
   * Reading back a rebuilt document: the schema is the template's, there is
   * one row per table row, and every present cell whose code appears last at
   * some template parameter with a `value` element comes back as its
   * rendering reads: `id_` numbers truncated, other numbers rounded to
   * hundredths, texts parsed.
   */
  lemma UpdateThenExtract(doc: Option<Document>, template: Option<Tuple>, columns: seq<string>, rows: seq<Row>)
    requires Rebuilds(doc, template)
    ensures var s := Reconstruct(doc, template, columns, rows);
      var t := ActiveTemplate(doc, template);
      var e := Extract(s.doc, s.template);
      e.schema == Codes(t) && |e.data| == |rows|
      && forall i, j ::
           0 <= i < |rows| && 0 <= j < |t| && Overwritten(t[j], columns) && t[j].code.value != "" && LastWith(t, j) && t[j].code.value in rows[i]
           ==> t[j].code.value in e.data[i] && e.data[i][t[j].code.value] == ReadBack(t[j].code.value, rows[i][t[j].code.value])
  {
    var s := Reconstruct(doc, template, columns, rows);
    var t := ActiveTemplate(doc, template);
    var ts := s.doc.value.Tuples().value;
    if |rows| > 0 {
      CodesOfSameCodes(ts[0], t);
    }
    var e := Extract(s.doc, s.template);
    assert e.data == ExtractRows(ts, Codes(t));
    forall i, j | 0 <= i < |rows| && 0 <= j < |t| && Overwritten(t[j], columns) && t[j].code.value != ""
        && LastWith(t, j) && t[j].code.value in rows[i]
      ensures t[j].code.value in e.data[i] && e.data[i][t[j].code.value] == ReadBack(t[j].code.value, rows[i][t[j].code.value])
    {
      assert ts[i] == Instantiate(t, columns, rows[i]);
      InstantiateReadBack(t, columns, rows[i], j);
    }
  }

  /** One written cell of an instantiated template comes back as its rendering reads. */
  lemma InstantiateReadBack(t: Tuple, columns: seq<string>, row: Row, j: int)
    requires 0 <= j < |t| && Overwritten(t[j], columns) && t[j].code.value != "" && LastWith(t, j) && t[j].code.value in row
    ensures var r := ExtractRow(Instantiate(t, columns, row), Codes(t));
      t[j].code.value in r && r[t[j].code.value] == ReadBack(t[j].code.value, row[t[j].code.value])
  {
    var code := t[j].code.value;
    var nt := Instantiate(t, columns, row);
    assert code in Codes(t);
    assert LastWith(nt, j);
    assert nt[j].value == Some(FormatValue(code, row[code]));
  }

  /** A tuple whose codes are the given non-empty names, in order, has those names as its schema. */
  lemma {:induction false} CodesOfNamed(t: Tuple, names: seq<string>)
    requires |t| == |names|
    requires forall k :: 0 <= k < |t| ==> t[k].code == Some(names[k]) && names[k] != ""
    ensures Codes(t) == names
  {
    if |t| > 0 {
      var front, init := t[..|t| - 1], names[..|names| - 1];
      var last, name := t[|t| - 1], names[|names| - 1];
      assert last.code == Some(name) && name != "";
      NamedFront(t, names, front, init);
      CodesOfNamed(front, init);
      CodesSnoc(t);
      assert Codes(t) == init + [name];
      LastSplit(names);
    }
  }

  lemma NamedFront(t: Tuple, names: seq<string>, front: Tuple, init: seq<string>)
    requires |t| == |names| > 0 && front == t[..|t| - 1] && init == names[..|names| - 1]
    requires forall k :: 0 <= k < |t| ==> t[k].code == Some(names[k]) && names[k] != ""
    ensures forall k :: 0 <= k < |front| ==> front[k].code == Some(init[k]) && init[k] != ""
  {
  }

  lemma LastSplit<T>(s: seq<T>)
    requires |s| > 0
    ensures s == s[..|s| - 1] + [s[|s| - 1]]
  {
  }

  /** The codes of a tuple are those of all but its last parameter, then the last one's. */
  lemma CodesSnoc(t: Tuple)
    requires |t| > 0
    ensures var p := t[|t| - 1];
      Codes(t) == Codes(t[..|t| - 1]) + if p.code.Some? && p.code.value != "" then [p.code.value] else []
  {
  }


  /**
   * Creating from a definition: the container ends up empty, the seed tuple
   * is the template, and the schema read back is the seed's codes, which are
   * the definition's columns when none of them is empty.
   */
  lemma CreateShape(def: Definition, today: string, future: string)
    ensures var s := Reconstruct(Some(NewDocument(def, today, future)), Some(SeedTuple(def)), def.columns, []);
      s.doc == Some(WithTuples(NewDocument(def, today, future), []))
      && s.template == Some(SeedTuple(def))
      && Extract(s.doc, s.template) == Extracted(Codes(SeedTuple(def)), [])
    ensures (forall k :: 0 <= k < |def.columns| ==> def.columns[k] != "") ==> Codes(SeedTuple(def)) == def.columns
  {
    var d := NewDocument(def, today, future);
    assert d.HasChildren() && d.Tuples() == Some([SeedTuple(def)]);
    RebuildNoRows(d, SeedTuple(def), def.columns);
    if forall k :: 0 <= k < |def.columns| ==> def.columns[k] != "" {
      CodesOfNamed(SeedTuple(def), def.columns);
    }
  }

  /**
   * Rebuilding a document whose only tuple is the template, from a table
   * without rows, empties the container and reads back as the template's
   * codes and no rows.
   */
  lemma RebuildNoRows(d: Document, t: Tuple, columns: seq<string>)
    requires d.HasChildren() && d.Tuples() == Some([t])
    ensures var s := Reconstruct(Some(d), Some(t), columns, []);
      s == EngineState(Some(WithTuples(d, [])), Some(t)) && Extract(s.doc, s.template) == Extracted(Codes(t), [])
  {
    assert Rebuilds(Some(d), Some(t));
    assert Rebuild(t, columns, []) == [];
    ExtractEmpty(WithTuples(d, []), t);
  }

  /** With an empty container, the extraction is the template's codes and no rows. */
  lemma ExtractEmpty(d: Document, t: Tuple)
    requires d.HasChildren() && d.Tuples() == Some([])
    ensures Extract(Some(d), Some(t)) == Extracted(Codes(t), [])
  {
  }

  /** The template a definition seeds gives back the definition's defaults, numbers rounded to hundredths. */
  lemma SeedDefaultsReadBack(def: Definition)
    ensures var r := ParameterDefaults(Some(SeedTuple(def)));
      forall j :: 0 <= j < |def.columns| && def.columns[j] != "" && (forall j' :: j < j' < |def.columns| ==> def.columns[j'] != def.columns[j]) ==>
        def.columns[j] in r && r[def.columns[j]] == SeedDefault(def, def.columns[j])
  {
    var t := SeedTuple(def);
    forall j | 0 <= j < |def.columns| && def.columns[j] != "" && (forall j' :: j < j' < |def.columns| ==> def.columns[j'] != def.columns[j])
      ensures def.columns[j] in DefaultsOf(t) && DefaultsOf(t)[def.columns[j]] == SeedDefault(def, def.columns[j])
    {
      assert LastWith(t, j);
      assert def.columns[j] in Codes(t);
    }
  }

  /** Metadata written by `update_metadata` is what `get_metadata` reads, where the element exists; the spec is untouched. */
  lemma MetadataRoundTrip(d: Document, newData: map<string, string>)
    requires d.header.Some?
    ensures var before := Metadata(Some(d));
      var after := Metadata(Some(WithMetadata(d, newData)));
      var h := d.header.value;
      after.Keys == before.Keys
      && ("id" in newData && "id" in h ==> after["id"] == newData["id"])
      && ("name" in newData && "name" in h ==> after["name"] == newData["name"])
      && ("valid_from" in newData && "valid_from_date" in h ==> after["valid_from"] == newData["valid_from"])
      && ("valid_to" in newData && "valid_till_date" in h ==> after["valid_to"] == newData["valid_to"])
      && ("id" !in newData ==> after["id"] == before["id"])
      && ("name" !in newData ==> after["name"] == before["name"])
      && ("valid_from" !in newData ==> after["valid_from"] == before["valid_from"])
      && ("valid_to" !in newData ==> after["valid_to"] == before["valid_to"])
      && after["spec"] == before["spec"]
  {
    var h := d.header.value;
    var d' := WithMetadata(d, newData);
    var h' := d'.header.value;
    HeaderFindText(h, newData);
    MetadataLookup(d);
    MetadataLookup(d');
    if d.item.Some? {
      SpecUntouched(d, newData);
    }
  }

  lemma MetadataLookup(d: Document)
    requires d.header.Some?
    ensures var m := Metadata(Some(d));
      m.Keys == {"id", "name", "valid_from", "valid_to", "spec"}
      && m["id"] == FindText(d.header.value, "id")
      && m["name"] == FindText(d.header.value, "name")
      && m["valid_from"] == FindText(d.header.value, "valid_from_date")
      && m["valid_to"] == FindText(d.header.value, "valid_till_date")
      && m["spec"] == if d.item.Some? then FindText(d.item.value.fields, "tariff_item_spec") else ""
  {
  }

  /** `update_tuples` only replaces the container's children, so `get_metadata` reads the same afterwards. */
  lemma RebuildKeepsMetadata(doc: Option<Document>, template: Option<Tuple>, columns: seq<string>, rows: seq<Row>)
    ensures Metadata(Reconstruct(doc, template, columns, rows).doc) == Metadata(doc)
  {
    var s := Reconstruct(doc, template, columns, rows);
    if Rebuilds(doc, template) && doc.value.header.Some? {
      MetadataLookup(doc.value);
      MetadataLookup(s.doc.value);
    }
  }

  lemma HeaderFindText(h: map<string, string>, newData: map<string, string>)
    ensures var h' := WriteHeader(h, newData);
      ("id" in newData && "id" in h ==> FindText(h', "id") == newData["id"])
      && ("name" in newData && "name" in h ==> FindText(h', "name") == newData["name"])
      && ("valid_from" in newData && "valid_from_date" in h ==> FindText(h', "valid_from_date") == newData["valid_from"])
      && ("valid_to" in newData && "valid_till_date" in h ==> FindText(h', "valid_till_date") == newData["valid_to"])
      && ("id" !in newData ==> FindText(h', "id") == FindText(h, "id"))
      && ("name" !in newData ==> FindText(h', "name") == FindText(h, "name"))
      && ("valid_from" !in newData ==> FindText(h', "valid_from_date") == FindText(h, "valid_from_date"))
      && ("valid_to" !in newData ==> FindText(h', "valid_till_date") == FindText(h, "valid_till_date"))
  {
    var h' := WriteHeader(h, newData);
    assert !HeaderWritten("id", newData) ==> "id" !in newData;
  }

  lemma SpecUntouched(d: Document, newData: map<string, string>)
    requires d.header.Some? && d.item.Some?
    ensures FindText(WithMetadata(d, newData).item.value.fields, "tariff_item_spec") == FindText(d.item.value.fields, "tariff_item_spec")
  {
    assert !ItemWritten("tariff_item_spec", newData);
  }
}
