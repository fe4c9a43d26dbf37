/**
 * The tariff engine: it owns the current document and the cached template
 * row, and moves data between the document and a table. Its methods change
 * that state step by step, and each is proved against the pure operation of
 * the same name in `TariffDocument`.
 */
module Engine {
  import opened Wrappers
  import opened Text
  import opened Table
  import opened TariffDocument

  /** A deep copy of the template with the row's values written in, parameter by parameter. */
  method PatchTuple(template: Tuple, columns: seq<string>, row: Row) returns (t: Tuple)
    ensures t == Instantiate(template, columns, row)
  {
    t := [];
    var k := 0;
    while k < |template|
      invariant 0 <= k <= |template|
      invariant |t| == k
      invariant forall m :: 0 <= m < k ==> t[m] == Patch(template[m], columns, row)
    {
      var p := template[k];
      if p.code.Some? && p.code.value in columns && p.value.Some? {
        var code := p.code.value;
        if code in row {
          p := Param(p.code, Some(FormatValue(code, row[code])));
        } else if !StartsWith(code, "id_") {
          p := Param(p.code, Some("nan"));
        }
      }
      t := t + [p];
      k := k + 1;
    }
    assert forall m :: 0 <= m < |t| ==> t[m] == Instantiate(template, columns, row)[m];
  }

  class TariffEngine {
    /** The parsed tree; `None` before anything is loaded or created. */
    var doc: Option<Document>
    /** `parameter_template`: the row new tuples are copied from. */
    var template: Option<Tuple>

    constructor ()
      ensures doc == None && template == None
    {
      doc := None;
      template := None;
    }

    /**
     * `create_from_definition`, after the definition file has been read and
     * with today's date and the date five years on passed in: a fresh
     * document with a seed tuple, the seed cached as template, and an empty
     * table whose rebuild empties the container.
     */
    method CreateFromDefinition(def: Definition, today: string, future: string) returns (schema: seq<string>, data: DataFrame)
      modifies this
      ensures fresh(data) && data.columns == def.columns && data.rows == []
      ensures schema == def.columns
      ensures doc == Some(WithTuples(NewDocument(def, today, future), []))
      ensures template == Some(SeedTuple(def))
    {
      var seed := BuildSeed(def);
      doc := Some(NewDocument(def, today, future));
      template := Some(seed);
      data := new DataFrame(def.columns, []);
      UpdateTuples(data);
      CreateShape(def, today, future);
      schema := def.columns;
    }

    /** The loop of `create_from_definition` that appends one seeded parameter per column. */
    static method BuildSeed(def: Definition) returns (seed: Tuple)
      ensures seed == SeedTuple(def)
    {
      seed := [];
      var i := 0;
      while i < |def.columns|
        invariant 0 <= i <= |def.columns|
        invariant seed == SeedTuple(def)[..i]
      {
        var col := def.columns[i];
        seed := seed + [Param(Some(col), Some(SeedText(def, col)))];
        i := i + 1;
      }
      assert seed == SeedTuple(def)[..|def.columns|];
    }

    /**
     * `load_template`, with `ET.parse` already run: on a parse failure the
     * state is kept and the error reported; otherwise the new tree is the
     * document, and the template is replaced only if the new tree has a
     * first tuple.
     */
    method LoadTemplate(parsed: Result<Document, string>) returns (ok: bool, message: string)
      modifies this
      ensures parsed.Failure? ==>
        !ok && message == "Error loading template: " + parsed.error && doc == old(doc) && template == old(template)
      ensures parsed.Success? ==> ok && message == "Template loaded successfully." && doc == Some(parsed.value)
      ensures parsed.Success? && parsed.value.Tuples().Some? && |parsed.value.Tuples().value| > 0 ==>
        template == Some(parsed.value.Tuples().value[0])
      ensures parsed.Success? && (parsed.value.Tuples().None? || |parsed.value.Tuples().value| == 0) ==>
        template == old(template)
    {
      if parsed.Failure? {
        return false, "Error loading template: " + parsed.error;
      }
      doc := Some(parsed.value);
      var container := parsed.value.Tuples();
      if container.Some? {
        if |container.value| > 0 {
          template := Some(container.value[0]);
        }
      }
      return true, "Template loaded successfully.";
    }

    /** `get_metadata`. */
    function GetMetadata(): (r: map<string, string>)
      reads this
      ensures r == map[] <==> !Loaded(doc) || doc.value.header.None?
      ensures r == Metadata(doc)
      ensures Loaded(doc) && doc.value.header.Some? ==>
        && r.Keys == {"id", "name", "valid_from", "valid_to", "spec"}
        && r["id"] == FindText(doc.value.header.value, "id")
        && r["name"] == FindText(doc.value.header.value, "name")
        && r["valid_from"] == FindText(doc.value.header.value, "valid_from_date")
        && r["valid_to"] == FindText(doc.value.header.value, "valid_till_date")
        && r["spec"] == if doc.value.item.Some? then FindText(doc.value.item.value.fields, "tariff_item_spec") else ""
    {
      if Loaded(doc) && doc.value.header.Some? then
        MetadataLookup(doc.value);
        Metadata(doc)
      else Metadata(doc)
    }

    /** `extract_tuples_check_schema`. */
    function ExtractTuplesCheckSchema(): (r: Extracted)
      reads this
      ensures r == Extract(doc, template)
      ensures r.schema == Schema(doc, template)
      ensures |r.data| == if Loaded(doc) && doc.value.Tuples().Some? then |doc.value.Tuples().value| else 0
      ensures Loaded(doc) && doc.value.Tuples().Some? && |doc.value.Tuples().value| > 0 ==>
        r.schema == Codes(doc.value.Tuples().value[0])
      ensures Loaded(doc) && doc.value.Tuples() == Some([]) && template.Some? ==> r.schema == Codes(template.value)
      ensures Loaded(doc) && doc.value.Tuples().Some? ==>
        forall i :: 0 <= i < |r.data| ==> r.data[i] == ExtractRow(doc.value.Tuples().value[i], r.schema)
    {
      Extract(doc, template)
    }

    /** `get_current_schema`: the schema part of an extraction. */
    function GetCurrentSchema(): (r: seq<string>)
      reads this
      ensures r == ExtractTuplesCheckSchema().schema
    {
      Schema(doc, template)
    }

    /** `get_parameter_defaults`. */
    function GetParameterDefaults(): (r: map<string, Value>)
      reads this
      ensures Usable(template) ==> r.Keys == set x | x in Codes(template.value)
      ensures !Usable(template) ==> r == map[]
      ensures r == ParameterDefaults(template)
      ensures Usable(template) ==>
        forall j :: (0 <= j < |template.value| && template.value[j].code.Some? && template.value[j].code.value != ""
          && LastWith(template.value, j)) ==> r[template.value[j].code.value] == DefaultOf(template.value[j].value)
    {
      ParameterDefaults(template)
    }

    /** `update_metadata`: each given key written to the elements that exist, header and item alike. */
    method UpdateMetadata(newData: map<string, string>)
      modifies this
      ensures Loaded(old(doc)) && old(doc).value.header.Some? ==> doc == Some(WithMetadata(old(doc).value, newData))
      ensures !(Loaded(old(doc)) && old(doc).value.header.Some?) ==> doc == old(doc)
      ensures template == old(template)
    {
      if !Loaded(doc) || doc.value.header.None? {
        return;
      }
      var d := doc.value;
      var h := d.header.value;
      var item := d.item;
      if "name" in newData {
        h := SetIfPresent(h, "name", newData["name"]);
        if item.Some? {
          item := Some(item.value.(fields := SetIfPresent(item.value.fields, "name", newData["name"])));
        }
      }
      if "valid_from" in newData {
        h := SetIfPresent(h, "valid_from_date", newData["valid_from"]);
        if item.Some? {
          item := Some(item.value.(fields := SetIfPresent(item.value.fields, "valid_from_date", newData["valid_from"])));
        }
      }
      if "valid_to" in newData {
        h := SetIfPresent(h, "valid_till_date", newData["valid_to"]);
        if item.Some? {
          item := Some(item.value.(fields := SetIfPresent(item.value.fields, "valid_till_date", newData["valid_to"])));
        }
      }
      if "id" in newData {
        h := SetIfPresent(h, "id", newData["id"]);
        h := SetIfPresent(h, "code", newData["id"]);
      }
      doc := Some(d.(header := Some(h), item := item));
    }

    /**
     * `update_tuples(df)`: unless there is nothing to work from, the
     * container is emptied and refilled with one patched copy of the
     * template per table row; a missing template is taken from the first
     * tuple and cached.
     */
    method UpdateTuples(df: DataFrame)
      modifies this
      ensures doc == Reconstruct(old(doc), old(template), df.columns, df.rows).doc
      ensures template == Reconstruct(old(doc), old(template), df.columns, df.rows).template
    {
      if !Loaded(doc) || doc.value.Tuples().None? {
        return;
      }
      var d := doc.value;
      var all := d.Tuples().value;
      if |all| == 0 && !Usable(template) {
        return;
      }
      var t: Tuple;
      if Usable(template) {
        t := template.value;
      } else {
        t := all[0];
        template := Some(t);
      }
      var columns, rows := df.columns, df.rows;
      var container: seq<Tuple> := [];
      var i := 0;
      while i < |rows|
        invariant 0 <= i <= |rows|
        invariant |container| == i && template == Some(t)
        invariant forall k :: 0 <= k < i ==> container[k] == Instantiate(t, columns, rows[k])
      {
        var nt := PatchTuple(t, columns, rows[i]);
        container := container + [nt];
        i := i + 1;
      }
      assert container == Rebuild(t, columns, rows);
      doc := Some(WithTuples(d, container));
    }

    /** `apply_bulk_change`: the table is changed in place and returned. */
    method ApplyBulkChange(df: DataFrame, column: string, percentage: real, selection: Option<seq<int>>) returns (result: DataFrame)
      modifies df
      ensures result == df && df.columns == old(df.columns)
      ensures df.rows == BulkChanged(old(df.columns), old(df.rows), column, percentage, selection)
    {
      result := df;
      if column !in df.columns || !NumericColumn(df.rows, column) {
        return;
      }
      var columns, orig := df.columns, df.rows;
      var rows := orig;
      var i := 0;
      while i < |rows|
        invariant 0 <= i <= |rows| == |orig|
        invariant df.columns == columns && df.rows == orig
        invariant forall k :: 0 <= k < i ==> rows[k] == BulkChanged(columns, orig, column, percentage, selection)[k]
        invariant forall k :: i <= k < |rows| ==> rows[k] == orig[k]
      {
        var row: Row := orig[i];
        var selected := Selected(i, selection);
        if selected && column in row {
          BulkRowSelected(row, column, percentage);
          row := row[column := Num(row[column].x * Multiplier(percentage))];
        } else {
          assert row == BulkRow(orig[i], selected, column, percentage);
        }
        rows := rows[i := row];
        i := i + 1;
      }
      df.rows := rows;
    }

    /** `set_order_kind`: every row's `id_orderkind` set, in place, when the column exists. */
    method SetOrderKind(df: DataFrame, kind: int) returns (result: DataFrame)
      modifies df
      ensures result == df && df.columns == old(df.columns)
      ensures df.rows == OrderKindSet(old(df.columns), old(df.rows), kind)
    {
      result := df;
      if "id_orderkind" !in df.columns {
        return;
      }
      var columns, orig := df.columns, df.rows;
      var rows := orig;
      var i := 0;
      while i < |rows|
        invariant 0 <= i <= |rows| == |orig|
        invariant df.columns == columns && df.rows == orig
        invariant forall k :: 0 <= k < i ==> rows[k] == OrderKindSet(columns, orig, kind)[k]
        invariant forall k :: i <= k < |rows| ==> rows[k] == orig[k]
      {
        rows := rows[i := rows[i]["id_orderkind" := Num(kind as real)]];
        i := i + 1;
      }
      df.rows := rows;
    }
  }
}
