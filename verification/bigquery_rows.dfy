/**
 * Turning contracts into the JSON rows sent to the warehouse: `None` values
 * are left out, scalars become strings, and the two list fields stay lists
 * with their empty items dropped. An empty batch is never sent.
 */
module BigQueryRows {
  import opened Wrappers
  import opened Seqs
  import opened ContractSchema

  /** A value of a dumped contract: None, a string, a float, or a list of strings. */
  datatype Value = Null | Text(text: string) | Number(number: Numeric) | Strings(items: seq<string>)

  /** A value of a warehouse row: a string, or a repeated string field. */
  datatype Cell = Scalar(text: string) | Repeated(items: seq<string>)

  function Keys<K, V>(pairs: seq<(K, V)>): (r: seq<K>)
    ensures |r| == |pairs|
    ensures forall i :: 0 <= i < |pairs| ==> r[i] == pairs[i].0
  {
    if |pairs| == 0 then [] else [pairs[0].0] + Keys(pairs[1..])
  }

  /** The value stored under `key`, if any (the first one, should a key repeat). */
  function Find<K(==), V>(pairs: seq<(K, V)>, key: K): (r: Option<V>)
    ensures r.None? <==> key !in Keys(pairs)
    ensures r.Some? ==> (key, r.value) in pairs
  {
    if |pairs| == 0 then None
    else if pairs[0].0 == key then Some(pairs[0].1)
    else Find(pairs[1..], key)
  }

  predicate DistinctKeys<K(==), V>(pairs: seq<(K, V)>) {
    forall i, j :: 0 <= i < j < |pairs| ==> pairs[i].0 != pairs[j].0
  }

  function TextValue(v: Option<string>): Value {
    match v
    case None => Null
    case Some(s) => Text(s)
  }

  function NumberValue(v: Option<Numeric>): Value {
    match v
    case None => Null
    case Some(n) => Number(n)
  }

  /** The value `model_dump()` gives a contract under one key. */
  function ValueOf(c: Contract, f: Field): (v: Value)
    ensures v.Strings? ==> f.IsList()
  {
    match f
    case CompanyName => TextValue(c.fields.companyName)
    case FormType => TextValue(c.fields.formType)
    case FilingDate => TextValue(c.fields.filingDate)
    case StateOfIncorp => TextValue(c.fields.stateOfIncorp)
    case ContractCategory => TextValue(c.fields.contractCategory)
    case ContractType => TextValue(c.fields.contractType)
    case GoverningLawState => TextValue(c.fields.governingLawState)
    case ContractSummary => TextValue(c.fields.contractSummary)
    case NumericValue => NumberValue(c.fields.numericValue)
    case Parties => Strings(c.fields.parties)
    case Clauses => Strings(c.fields.clauses)
    case ContractId => Text(c.contractId)
    case FilePath => Text(c.filePath)
  }

  /** The dictionary `model_dump()` produces for a contract, as key/value pairs in field order. */
  function Dump(c: Contract): (r: seq<(Field, Value)>)
    ensures |r| == |Fields|
    ensures forall i :: 0 <= i < |r| ==> r[i] == (Fields[i], ValueOf(c, Fields[i]))
  {
    [ (CompanyName, ValueOf(c, CompanyName)),
      (FormType, ValueOf(c, FormType)),
      (FilingDate, ValueOf(c, FilingDate)),
      (StateOfIncorp, ValueOf(c, StateOfIncorp)),
      (ContractCategory, ValueOf(c, ContractCategory)),
      (ContractType, ValueOf(c, ContractType)),
      (GoverningLawState, ValueOf(c, GoverningLawState)),
      (ContractSummary, ValueOf(c, ContractSummary)),
      (NumericValue, ValueOf(c, NumericValue)),
      (Parties, ValueOf(c, Parties)),
      (Clauses, ValueOf(c, Clauses)),
      (ContractId, ValueOf(c, ContractId)),
      (FilePath, ValueOf(c, FilePath)) ]
  }

  predicate IsNonEmpty(item: string) {
    item != ""
  }

  /** The list items that are truthy in Python, which for strings means non-empty, in order. */
  function NonEmptyItems(items: seq<string>): (r: seq<string>)
    ensures forall x :: x in r <==> x in items && x != ""
    ensures forall x :: multiset(r)[x] == if x == "" then 0 else multiset(items)[x]
    ensures IsSubsequence(r, items)
  {
    FilterIsSubsequence(IsNonEmpty, items);
    Filter(IsNonEmpty, items)
  }

  /**
   * The cell written for one key, or None when the key is left out. Lists
   * only ever appear under the two list fields of a dumped contract.
   */
  function FormatField(key: Field, value: Value): (r: Option<Cell>)
    requires value.Strings? ==> key.IsList()
  {
    if key.IsList() && value.Strings? then Some(Repeated(NonEmptyItems(value.items)))
    else
      match value
      case Null => None
      case Text(t) => Some(Scalar(t))
      case Number(n) => Some(Scalar(n.text))
  }

  /** The row sent to the warehouse for one dumped contract: every key whose value is not None, in order. */
  function FormatFields(row: seq<(Field, Value)>): (r: seq<(Field, Cell)>)
    requires forall i :: 0 <= i < |row| && row[i].1.Strings? ==> row[i].0.IsList()
    ensures |r| <= |row|
    ensures IsSubsequence(Keys(r), Keys(row))
  {
    if |row| == 0 then []
    else
      var rest := FormatFields(row[1..]);
      assert Keys(row)[1..] == Keys(row[1..]);
      match FormatField(row[0].0, row[0].1)
      case None =>
        SubsequenceDropsHead(Keys(rest), Keys(row));
        rest
      case Some(cell) =>
        assert Keys([(row[0].0, cell)] + rest)[1..] == Keys(rest);
        [(row[0].0, cell)] + rest
  }

  /** Looking a key up in the formatted row finds the formatted value of that key, or nothing. */
  lemma {:induction false} FindFormatFields(row: seq<(Field, Value)>, key: Field)
    requires forall i :: 0 <= i < |row| && row[i].1.Strings? ==> row[i].0.IsList()
    requires DistinctKeys(row)
    ensures Find(FormatFields(row), key) ==
      match Find(row, key)
      case None => None
      case Some(v) => FormatField(key, v)
    decreases |row|
  {
    if |row| > 0 {
      var rest := FormatFields(row[1..]);
      if row[0].0 == key {
        if FormatField(key, row[0].1).None? {
          assert key !in Keys(row[1..]);
          if key in Keys(rest) {
            SubsequenceMember(Keys(rest), Keys(row[1..]), key);
          }
        }
      } else {
        FindFormatFields(row[1..], key);
      }
    }
  }

  /** The dump's keys are the schema's fields, in order. */
  lemma DumpKeys(c: Contract)
    ensures Keys(Dump(c)) == Fields
  {
  }

  /** The position of a key in the dump order, as a ranking function. */
  function FieldPosition(f: Field): int {
    f.Position()
  }

  /** Looking a key up in the dump finds its value. */
  lemma FindInDump(c: Contract, f: Field)
    ensures Find(Dump(c), f) == Some(ValueOf(c, f))
  {
    assert Fields[f.Position()] == f;
    DumpKeys(c);
  }

  /** No key occurs twice in the dump. */
  lemma DumpKeysDistinct(c: Contract)
    ensures DistinctKeys(Dump(c))
  {
    var r := Dump(c);
    assert forall i :: 0 <= i < |r| ==> r[i].0 == Fields[i];
  }

  /** A key found at index `i` and nowhere before it is looked up to the value at `i`. */
  lemma {:induction false} FindFirst<K, V>(pairs: seq<(K, V)>, key: K, i: nat)
    requires i < |pairs| && pairs[i].0 == key
    requires forall j :: 0 <= j < i ==> pairs[j].0 != key
    ensures Find(pairs, key) == Some(pairs[i].1)
    decreases i
  {
    if i > 0 {
      FindFirst(pairs[1..], key, i - 1);
    }
  }

  /** The cell of an optional string field: absent for None. */
  function TextCell(v: Option<string>): Option<Cell> {
    match v
    case None => None
    case Some(s) => Some(Scalar(s))
  }

  /** The column-by-column content of a contract's warehouse row: None where the column is left out. */
  function CellOf(c: Contract, f: Field): Option<Cell> {
    match f
    case CompanyName => TextCell(c.fields.companyName)
    case FormType => TextCell(c.fields.formType)
    case FilingDate => TextCell(c.fields.filingDate)
    case StateOfIncorp => TextCell(c.fields.stateOfIncorp)
    case ContractCategory => TextCell(c.fields.contractCategory)
    case ContractType => TextCell(c.fields.contractType)
    case GoverningLawState => TextCell(c.fields.governingLawState)
    case ContractSummary => TextCell(c.fields.contractSummary)
    case NumericValue =>
      (match c.fields.numericValue
       case None => None
       case Some(n) => Some(Scalar(n.text)))
    case Parties => Some(Repeated(NonEmptyItems(c.fields.parties)))
    case Clauses => Some(Repeated(NonEmptyItems(c.fields.clauses)))
    case ContractId => Some(Scalar(c.contractId))
    case FilePath => Some(Scalar(c.filePath))
  }

  /** Formatting the dumped value of a key gives that key's cell. */
  lemma FormatValueOf(c: Contract, f: Field)
    ensures FormatField(f, ValueOf(c, f)) == CellOf(c, f)
  {
  }

  /**
   * The warehouse row for one contract (the loop body of `insert_batch`).
   * Only keys of the dump appear, in dump order, and each column holds what
   * `CellOf` says: absent for None, the string of a scalar, the non-empty
   * items of a list.
   */
  function FormatRow(c: Contract): (r: seq<(Field, Cell)>)
    ensures forall i, j :: 0 <= i < j < |r| ==> r[i].0.Position() < r[j].0.Position()
    ensures forall f :: Find(r, f) == CellOf(c, f)
  {
    var row := Dump(c);
    DumpKeys(c);
    DumpKeysDistinct(c);
    PositionOfField();
    assert IncreasingBy(FieldPosition, Keys(FormatFields(row))) by {
      SubsequenceIncreasing(FieldPosition, Keys(FormatFields(row)), Fields);
    }
    forall f
      ensures Find(FormatFields(row), f) == CellOf(c, f)
    {
      FindInDump(c, f);
      FindFormatFields(row, f);
      FormatValueOf(c, f);
    }
    FormatFields(row)
  }

  /** Formats a batch: one row per contract, in the same order. */
  function FormatRows(batch: seq<Contract>): (r: seq<seq<(Field, Cell)>>)
    ensures |r| == |batch|
    ensures forall i :: 0 <= i < |batch| ==> r[i] == FormatRow(batch[i])
  {
    if |batch| == 0 then [] else [FormatRow(batch[0])] + FormatRows(batch[1..])
  }

  /** What one `insert_batch` call does: nothing for an empty batch, otherwise one insert request. */
  datatype InsertResult =
    | NotSent
    | Sent(rows: seq<seq<(Field, Cell)>>, accepted: bool)

  /**
   * Inserts a batch. `warehouse` stands for `insert_rows_json`: false when it
   * reports errors or raises. Either way the outcome is only logged.
   */
  function InsertBatch(batch: seq<Contract>, warehouse: seq<seq<(Field, Cell)>> -> bool): (r: InsertResult)
    ensures r.NotSent? <==> batch == []
    ensures r.Sent? ==> |r.rows| == |batch| && forall i :: 0 <= i < |batch| ==> r.rows[i] == FormatRow(batch[i])
    ensures r.Sent? ==> r.accepted == warehouse(r.rows)
  {
    if batch == [] then NotSent
    else
      var rows := FormatRows(batch);
      Sent(rows, warehouse(rows))
  }
}
