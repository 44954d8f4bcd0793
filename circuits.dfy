/**
 * The circuit record and the shapes of a circuit comparison: the circuits row of the
 * backing store and the CircuitDifference / CircuitComparison types of the application.
 */
module Circuits {
  import opened Wrappers

  /** One row of the circuits table. Money is held in whole currency units. */
  datatype Circuit = Circuit(
    id: string,
    carrier: string,
    circuitType: string,
    purpose: string,
    status: string,
    bandwidth: string,
    monthlyCost: int,
    staticIps: int,
    uploadBandwidth: Option<string>,
    contractStartDate: Option<string>,
    contractTerm: Option<int>,
    contractEndDate: Option<string>,
    billing: string,
    usageCharges: bool,
    installationCost: int,
    notes: Option<string>,
    locationId: string,
    createdAt: string,
    updatedAt: string)

  /** The columns of a circuit (`keyof Circuit`). */
  datatype Field =
    | Id | Carrier | Type | Purpose | Status | Bandwidth | MonthlyCost | StaticIps
    | UploadBandwidth | ContractStartDate | ContractTerm | ContractEndDate | Billing
    | UsageCharges | InstallationCost | Notes | LocationId | CreatedAt | UpdatedAt

  /** The column's name as the source spells the key. */
  function FieldName(f: Field): (r: string) {
    match f
    case Id => "id"
    case Carrier => "carrier"
    case Type => "type"
    case Purpose => "purpose"
    case Status => "status"
    case Bandwidth => "bandwidth"
    case MonthlyCost => "monthlycost"
    case StaticIps => "static_ips"
    case UploadBandwidth => "upload_bandwidth"
    case ContractStartDate => "contract_start_date"
    case ContractTerm => "contract_term"
    case ContractEndDate => "contract_end_date"
    case Billing => "billing"
    case UsageCharges => "usage_charges"
    case InstallationCost => "installation_cost"
    case Notes => "notes"
    case LocationId => "location_id"
    case CreatedAt => "created_at"
    case UpdatedAt => "updated_at"
  }

  /** A JavaScript value held in a circuit column; `Null` is `null`. */
  datatype Value = Str(s: string) | Num(n: int) | Bool(b: bool) | Null

  function OptionalText(o: Option<string>): (r: Value) {
    match o
    case Some(s) => Str(s)
    case None => Null
  }

  /** `circuit[field]`. */
  function GetField(c: Circuit, f: Field): (r: Value) {
    match f
    case Id => Str(c.id)
    case Carrier => Str(c.carrier)
    case Type => Str(c.circuitType)
    case Purpose => Str(c.purpose)
    case Status => Str(c.status)
    case Bandwidth => Str(c.bandwidth)
    case MonthlyCost => Num(c.monthlyCost)
    case StaticIps => Num(c.staticIps)
    case UploadBandwidth => OptionalText(c.uploadBandwidth)
    case ContractStartDate => OptionalText(c.contractStartDate)
    case ContractTerm => if c.contractTerm.Some? then Num(c.contractTerm.value) else Null
    case ContractEndDate => OptionalText(c.contractEndDate)
    case Billing => Str(c.billing)
    case UsageCharges => Bool(c.usageCharges)
    case InstallationCost => Num(c.installationCost)
    case Notes => OptionalText(c.notes)
    case LocationId => Str(c.locationId)
    case CreatedAt => Str(c.createdAt)
    case UpdatedAt => Str(c.updatedAt)
  }

  /** `COMPARISON_FIELDS`: the fields that decide whether a circuit was modified, in order. */
  const ComparisonFields: seq<Field> := [
    Carrier, Type, Purpose, Bandwidth, MonthlyCost, StaticIps,
    UploadBandwidth, ContractTerm, Billing, UsageCharges, InstallationCost
  ]

  /** The position of a field in `ComparisonFields`, or -1 for a field that is not tracked. */
  function Rank(f: Field): (r: int)
    ensures -1 <= r < |ComparisonFields|
    ensures r >= 0 ==> ComparisonFields[r] == f
    ensures r < 0 ==> f !in ComparisonFields
  {
    match f
    case Carrier => 0
    case Type => 1
    case Purpose => 2
    case Bandwidth => 3
    case MonthlyCost => 4
    case StaticIps => 5
    case UploadBandwidth => 6
    case ContractTerm => 7
    case Billing => 8
    case UsageCharges => 9
    case InstallationCost => 10
    case _ => -1
  }

  /** One changed field of a circuit: the active value and the proposed value. */
  datatype Difference = Difference(field: Field, oldValue: Value, newValue: Value)

  /** A circuit in both lists: the proposed version and what changed. */
  datatype ModifiedEntry = ModifiedEntry(circuit: Circuit, differences: seq<Difference>)

  /** The three buckets of a comparison. */
  datatype Comparison = Comparison(added: seq<Circuit>, removed: seq<Circuit>, modified: seq<ModifiedEntry>)

  /** The ids of a list of circuits. */
  function Ids(cs: seq<Circuit>): (r: set<string>) {
    set c | c in cs :: c.id
  }

  /** No two circuits of the list share an id. */
  predicate UniqueIds(cs: seq<Circuit>) {
    forall i, j :: 0 <= i < j < |cs| ==> cs[i].id != cs[j].id
  }

  /** A `proposal_circuits` row as the proposal query returns it, with its circuit joined in. */
  datatype ProposalCircuit = ProposalCircuit(
    id: string,
    proposalId: string,
    circuitId: string,
    locationId: string,
    circuit: Circuit)
}
