/**
 * `filter_json_by_csv` of the benchmark-selection script: keep, in order, the
 * entries of a JSON list whose parameter is present with a value among the
 * values of one CSV column, check that as many entries are kept as there are
 * distinct CSV values, and rewrite the JSON file with the kept entries.
 * JSON and CSV files are given already decoded; a file that is missing or
 * does not decode is an outcome of its own, as in the script.
 */
module BenchmarkFilter {
  import opened Wrappers
  import opened Sequences

  /** A decoded JSON value (numbers are integers here). */
  datatype JsonValue =
    | JNull
    | JBool(b: bool)
    | JNumber(n: int)
    | JString(s: string)
    | JArray(items: seq<JsonValue>)
    | JObject(fields: map<string, JsonValue>)

  /** One benchmark entry: a JSON object. */
  type Entry = map<string, JsonValue>

  /** The JSON file as `json.load` sees it: not decodable, or a list of objects. */
  datatype JsonDocument = Malformed | Entries(entries: seq<Entry>)

  /** The rows of a CSV file as the CSV reader splits them; the first row is the header. */
  datatype CsvTable = CsvTable(lines: seq<seq<string>>)

  /** A field of a `DictReader` row: the text, or `None` where the row is shorter than the header. */
  type CsvValue = Option<string>

  /** What `filter_json_by_csv` ends with. */
  datatype Outcome =
    | MissingJson                              // FileNotFoundError on the JSON file, logged
    | InvalidJson                              // JSONDecodeError, logged
    | MissingCsv                               // FileNotFoundError on the CSV file, logged
    | MissingColumn                            // KeyError on the column, logged
    | UnhashableValue                          // TypeError: a list or object value tested against the set
    | CountMismatch(kept: nat, distinct: nat)  // the count assertion fails
    | WriteFailed                              // opening the JSON file for writing fails, logged
    | Rewritten(entries: seq<Entry>)           // the file now holds the kept entries

  /** The last position of `name` in the header: a later column of the same name overrides an earlier one. */
  function LastIndexOf(header: seq<string>, name: string): (k: nat)
    requires name in header
    ensures k < |header| && header[k] == name
    ensures forall j :: k < j < |header| ==> header[j] != name
  {
    if header[|header| - 1] == name then |header| - 1
    else LastIndexOf(header[..|header| - 1], name)
  }

  /** `row[column]` of a `DictReader` row whose header holds the column. */
  function Field(header: seq<string>, row: seq<string>, column: string): CsvValue
    requires column in header
  {
    var k := LastIndexOf(header, column);
    if k < |row| then Some(row[k]) else None
  }

  /** The rows a `DictReader` yields: the lines after the header, empty rows (`[]`) skipped. */
  function DataRows(lines: seq<seq<string>>): (r: seq<seq<string>>)
    ensures forall row :: row in r <==> row in lines && row != []
  {
    if |lines| == 0 then []
    else
      var rest := DataRows(lines[1..]);
      assert forall row :: row in lines <==> row == lines[0] || row in lines[1..];
      if lines[0] == [] then rest else [lines[0]] + rest
  }

  /**
   * `{row[column] for row in csv.DictReader(f)}`: no values when there are no
   * rows, a `KeyError` (here `None`) when there are rows and the header lacks
   * the column.
   */
  function CsvValues(table: CsvTable, column: string): (r: Option<set<CsvValue>>)
    ensures |table.lines| == 0 ==> r == Some({})
    ensures |table.lines| > 0 ==> (r.None? <==> |DataRows(table.lines[1..])| > 0 && column !in table.lines[0])
  {
    if |table.lines| == 0 then Some({})
    else
      var header := table.lines[0];
      var rows := DataRows(table.lines[1..]);
      if |rows| == 0 then Some({})
      else if column !in header then None
      else Some(set row | row in rows :: Field(header, row, column))
  }

  /** `value in csv_values` for a hashable value: only strings and `null` can equal a CSV field. */
  predicate Admits(values: set<CsvValue>, v: JsonValue) {
    match v
    case JString(s) => Some(s) in values
    case JNull => None in values
    case _ => false
  }

  /** Lists and objects cannot be looked up in a set. */
  predicate Unhashable(v: JsonValue) {
    v.JArray? || v.JObject?
  }

  /** Testing `entry` raises: the parameter is present and its value cannot be hashed. */
  predicate Raises(entry: Entry, parameter: string) {
    parameter in entry && Unhashable(entry[parameter])
  }

  /** `json_parameter_name in entry and entry[json_parameter_name] in csv_values`. */
  predicate Selected(entry: Entry, parameter: string, values: set<CsvValue>) {
    parameter in entry && Admits(values, entry[parameter])
  }

  /** The entries the loop keeps, in order. */
  function Kept(entries: seq<Entry>, parameter: string, values: set<CsvValue>): (r: seq<Entry>)
    ensures |r| <= |entries|
    ensures forall e :: e in r ==> e in entries && Selected(e, parameter, values)
    ensures forall e :: e in entries && Selected(e, parameter, values) ==> e in r
  {
    if |entries| == 0 then []
    else
      var n := |entries| - 1;
      var rest := Kept(entries[..n], parameter, values);
      FrontLast(entries);
      if Selected(entries[n], parameter, values) then rest + [entries[n]] else rest
  }

  /** The entries the loop logs as removed, in order. */
  function Removed(entries: seq<Entry>, parameter: string, values: set<CsvValue>): (r: seq<Entry>)
    ensures forall e :: e in r ==> e in entries && (parameter !in e || !Admits(values, e[parameter]))
  {
    if |entries| == 0 then []
    else
      var n := |entries| - 1;
      var rest := Removed(entries[..n], parameter, values);
      FrontLast(entries);
      if Selected(entries[n], parameter, values) then rest else rest + [entries[n]]
  }

  /**
   * What the script does with the files: the first failing step decides the
   * outcome, and only a run that passes every check rewrites the JSON file.
   */
  function FilterOutcome(jsonFiles: map<string, JsonDocument>, csvFiles: map<string, CsvTable>,
                         jsonPath: string, csvPath: string, column: string, parameter: string,
                         writable: bool): Outcome
  {
    if jsonPath !in jsonFiles then MissingJson
    else match jsonFiles[jsonPath]
      case Malformed => InvalidJson
      case Entries(data) =>
        if csvPath !in csvFiles then MissingCsv
        else match CsvValues(csvFiles[csvPath], column)
          case None => MissingColumn
          case Some(values) =>
            if exists k :: 0 <= k < |data| && Raises(data[k], parameter) then UnhashableValue
            else
              var kept := Kept(data, parameter, values);
              if |kept| != |values| then CountMismatch(|kept|, |values|)
              else if !writable then WriteFailed
              else Rewritten(kept)
  }

  /**
   * The `for entry in data` loop: the entries selected, in order, unless
   * testing some entry raises (`raised`), which ends the loop.
   */
  method KeepSelected(data: seq<Entry>, parameter: string, values: set<CsvValue>)
    returns (raised: bool, filteredData: seq<Entry>)
    ensures raised <==> exists k :: 0 <= k < |data| && Raises(data[k], parameter)
    ensures !raised ==> filteredData == Kept(data, parameter, values)
  {
    filteredData := [];
    var i := 0;
    while i < |data|
      invariant i <= |data|
      invariant filteredData == Kept(data[..i], parameter, values)
      invariant forall k :: 0 <= k < i ==> !Raises(data[k], parameter)
    {
      var entry := data[i];
      assert data[..i + 1][..i] == data[..i] && data[..i + 1][i] == entry;
      if parameter in entry {
        if Unhashable(entry[parameter]) {
          assert Raises(data[i], parameter);
          return true, filteredData;
        }
        if Admits(values, entry[parameter]) {
          filteredData := filteredData + [entry];
        }
      }
      i := i + 1;
    }
    assert data[..i] == data;
    raised := false;
  }

  /** The kept entries are the input with the others left out, in their order. */
  lemma {:induction false} KeptIsSubsequence(entries: seq<Entry>, parameter: string, values: set<CsvValue>)
    ensures Subsequence(Kept(entries, parameter, values), entries)
  {
    if |entries| > 0 {
      var n := |entries| - 1;
      KeptIsSubsequence(entries[..n], parameter, values);
      var kept := Kept(entries, parameter, values);
      if Selected(entries[n], parameter, values) {
        assert kept[..|kept| - 1] == Kept(entries[..n], parameter, values);
      }
    }
  }

  /** Every entry is either kept or removed: the counts add up and nothing is lost or duplicated. */
  lemma {:induction false} KeptAndRemovedPartition(entries: seq<Entry>, parameter: string, values: set<CsvValue>)
    ensures |Kept(entries, parameter, values)| + |Removed(entries, parameter, values)| == |entries|
    ensures multiset(Kept(entries, parameter, values)) + multiset(Removed(entries, parameter, values)) == multiset(entries)
  {
    if |entries| > 0 {
      var n := |entries| - 1;
      var front, last := entries[..n], entries[n];
      KeptAndRemovedPartition(front, parameter, values);
      assert entries == front + [last];
    }
  }

  /** Filtering what was kept keeps all of it. */
  lemma {:induction false} KeptIdempotent(entries: seq<Entry>, parameter: string, values: set<CsvValue>)
    ensures Kept(Kept(entries, parameter, values), parameter, values) == Kept(entries, parameter, values)
  {
    if |entries| > 0 {
      var n := |entries| - 1;
      var rest := Kept(entries[..n], parameter, values);
      KeptIdempotent(entries[..n], parameter, values);
      if Selected(entries[n], parameter, values) {
        var kept := rest + [entries[n]];
        assert kept[..|kept| - 1] == rest;
      }
    }
  }

  /** A data row that appears twice in the CSV file adds no value: the values form a set. */
  lemma {:induction false} DuplicateRowChangesNothing(table: CsvTable, column: string, k: nat)
    requires 1 <= k < |table.lines|
    ensures CsvValues(CsvTable(table.lines + [table.lines[k]]), column) == CsvValues(table, column)
  {
    var lines := table.lines;
    var longer := lines + [lines[k]];
    assert longer[0] == lines[0];
    assert longer[1..] == lines[1..] + [lines[k]];
    var rows := DataRows(lines[1..]);
    var moreRows := DataRows(longer[1..]);
    assert lines[k] in lines[1..] by {
      assert lines[1..][k - 1] == lines[k];
    }
    assert forall row :: row in moreRows <==> row in rows;
    if |rows| > 0 {
      assert rows[0] in moreRows;
    }
    if |moreRows| > 0 {
      assert moreRows[0] in rows;
    }
    if |rows| > 0 && column in lines[0] {
      var header := lines[0];
      assert (set row | row in moreRows :: Field(header, row, column)) == (set row | row in rows :: Field(header, row, column));
    }
  }

  /**
   * A rewritten file passes the filter again unchanged: the kept entries are
   * all selected, none of them raises, and their count still matches.
   */
  lemma {:induction false} RewriteIsFixedPoint(jsonFiles: map<string, JsonDocument>, csvFiles: map<string, CsvTable>,
                                              jsonPath: string, csvPath: string, column: string, parameter: string)
    requires FilterOutcome(jsonFiles, csvFiles, jsonPath, csvPath, column, parameter, true).Rewritten?
    ensures var kept := FilterOutcome(jsonFiles, csvFiles, jsonPath, csvPath, column, parameter, true).entries;
      FilterOutcome(jsonFiles[jsonPath := Entries(kept)], csvFiles, jsonPath, csvPath, column, parameter, true) == Rewritten(kept)
  {
    var data := jsonFiles[jsonPath].entries;
    var values := CsvValues(csvFiles[csvPath], column).value;
    var kept := Kept(data, parameter, values);
    KeptIdempotent(data, parameter, values);
    assert forall k :: 0 <= k < |kept| ==> !Raises(kept[k], parameter) by {
      forall k | 0 <= k < |kept|
        ensures !Raises(kept[k], parameter)
      {
        assert kept[k] in kept;
      }
    }
  }

  /** The benchmark list and the CSV files the script reads, by path. */
  class BenchmarkFiles {
    var jsonFiles: map<string, JsonDocument>
    var csvFiles: map<string, CsvTable>

    constructor (jsonFiles: map<string, JsonDocument>, csvFiles: map<string, CsvTable>)
      ensures this.jsonFiles == jsonFiles && this.csvFiles == csvFiles
    {
      this.jsonFiles := jsonFiles;
      this.csvFiles := csvFiles;
    }

    /**
     * `filter_json_by_csv(json_file_path, csv_file_path, csv_parameter_column,
     * json_parameter_name)`; `writable` says whether the JSON file can be
     * opened for writing. Only a `Rewritten` outcome changes a file.
     */
    method FilterJsonByCsv(jsonFilePath: string, csvFilePath: string, csvParameterColumn: string,
                           jsonParameterName: string, writable: bool) returns (outcome: Outcome)
      modifies this
      ensures outcome == FilterOutcome(old(jsonFiles), old(csvFiles), jsonFilePath, csvFilePath,
                                       csvParameterColumn, jsonParameterName, writable)
      ensures csvFiles == old(csvFiles)
      ensures outcome.Rewritten? ==> jsonFiles == old(jsonFiles)[jsonFilePath := Entries(outcome.entries)]
      ensures !outcome.Rewritten? ==> jsonFiles == old(jsonFiles)
    {
      if jsonFilePath !in jsonFiles {
        return MissingJson;
      }
      var document := jsonFiles[jsonFilePath];
      if document.Malformed? {
        return InvalidJson;
      }
      var data := document.entries;
      if csvFilePath !in csvFiles {
        return MissingCsv;
      }
      var read := CsvValues(csvFiles[csvFilePath], csvParameterColumn);
      if read.None? {
        return MissingColumn;
      }
      var csvValues := read.value;
      var raised, filteredData := KeepSelected(data, jsonParameterName, csvValues);
      if raised {
        return UnhashableValue;
      }
      if |filteredData| != |csvValues| {
        return CountMismatch(|filteredData|, |csvValues|);
      }
      if !writable {
        return WriteFailed;
      }
      jsonFiles := jsonFiles[jsonFilePath := Entries(filteredData)];
      outcome := Rewritten(filteredData);
    }
  }
}
