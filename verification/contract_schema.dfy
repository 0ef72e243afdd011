/**
 * The record the extraction produces: the fields of `ContractExtraction`
 * (all optional scalars plus two string lists) and the `Contract` that adds
 * the generated identifier and the file's URI.
 */
module ContractSchema {
  import opened Wrappers

  /** A float value, kept abstract as the text Python's `str()` renders it as. */
  datatype Numeric = Numeric(text: string)

  /** The fields the model is asked to extract, in declaration order. */
  datatype ContractExtraction = ContractExtraction(
    companyName: Option<string>,
    formType: Option<string>,
    filingDate: Option<string>,
    stateOfIncorp: Option<string>,
    contractCategory: Option<string>,
    contractType: Option<string>,
    governingLawState: Option<string>,
    contractSummary: Option<string>,
    numericValue: Option<Numeric>,
    parties: seq<string>,
    clauses: seq<string>)

  /** An extraction together with its generated identifier and the URI of the file it came from. */
  datatype Contract = Contract(fields: ContractExtraction, contractId: string, filePath: string)

  /** The keys of a dumped `Contract`; `Name` is the dictionary key and column name. */
  datatype Field =
    | CompanyName | FormType | FilingDate | StateOfIncorp | ContractCategory
    | ContractType | GoverningLawState | ContractSummary | NumericValue
    | Parties | Clauses | ContractId | FilePath
  {
    function Name(): string {
      match this
      case CompanyName => "company_name"
      case FormType => "form_type"
      case FilingDate => "filing_date"
      case StateOfIncorp => "state_of_incorp"
      case ContractCategory => "contract_category"
      case ContractType => "contract_type"
      case GoverningLawState => "governing_law_state"
      case ContractSummary => "contract_summary"
      case NumericValue => "numeric_value"
      case Parties => "parties"
      case Clauses => "clauses"
      case ContractId => "contract_id"
      case FilePath => "file_path"
    }

    /** Where the key stands in the dump order. */
    function Position(): (r: nat)
      ensures r < |Fields| && Fields[r] == this
    {
      match this
      case CompanyName => 0
      case FormType => 1
      case FilingDate => 2
      case StateOfIncorp => 3
      case ContractCategory => 4
      case ContractType => 5
      case GoverningLawState => 6
      case ContractSummary => 7
      case NumericValue => 8
      case Parties => 9
      case Clauses => 10
      case ContractId => 11
      case FilePath => 12
    }

    /** The two keys whose values are lists of strings. */
    predicate IsList() {
      this == Parties || this == Clauses
    }
  }

  /** The keys in the order the dump lists them: the extracted fields, then the two added ones. */
  const Fields: seq<Field> := [
    CompanyName, FormType, FilingDate, StateOfIncorp, ContractCategory,
    ContractType, GoverningLawState, ContractSummary, NumericValue,
    Parties, Clauses, ContractId, FilePath]

  /** Each key of the dump order stands at its own position. */
  lemma PositionOfField()
    ensures forall i :: 0 <= i < |Fields| ==> Fields[i].Position() == i
  {
    forall i | 0 <= i < |Fields|
      ensures Fields[i].Position() == i
    {
    }
  }
}
