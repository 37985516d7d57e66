/** What is configurable and within which bounds (packages/admin/src/registry.ts). */
module Registry {
  import opened Common

  /** The declared keys by name; any other text is a mistyped key. */
  datatype Key =
    | MaximumReviewCadenceDays
    | DefaultReviewCadenceDays
    | InactivityDays
    | RenewalWindowDays
    | ReadinessDeltaThreshold
    | RecertificationCadenceDays
    | ComplaintFlagThreshold
    | HealthyShareTarget
    | CorrectionWindowHoursCritical
    | DefaultLeaseSeconds
    | GuarantorConcentrationThreshold
    | ClientMfaRequired
    | QuietHours
    | ProhibitedActions
    | AuthorityLevels
    | AllPartyConsentStates
    | ComplianceStates
    | MinimumDenominator
    | ControllingOwnershipPercent
    | MinimumCohort
    | MoneyUnit
    | Mistyped(text: Text)

  datatype Kind = Days | Hours | Count | Ratio | Flag

  datatype Parameter = Parameter(
    key: Key,
    kind: Kind,
    compiledDefault: real,
    minimum: real,
    maximum: real,
    highRisk: bool)

  const PARAMETERS: seq<Parameter> := [
    Parameter(MaximumReviewCadenceDays, Days, 90.0, 30.0, 90.0, true),
    Parameter(DefaultReviewCadenceDays, Days, 90.0, 30.0, 365.0, false),
    Parameter(InactivityDays, Days, 45.0, 7.0, 120.0, false),
    Parameter(RenewalWindowDays, Days, 60.0, 14.0, 180.0, false),
    Parameter(ReadinessDeltaThreshold, Count, 10.0, 5.0, 40.0, false),
    Parameter(RecertificationCadenceDays, Days, 365.0, 90.0, 365.0, true),
    Parameter(ComplaintFlagThreshold, Count, 5.0, 1.0, 20.0, false),
    Parameter(HealthyShareTarget, Ratio, 0.9, 0.9, 1.0, true),
    Parameter(CorrectionWindowHoursCritical, Hours, 24.0, 4.0, 72.0, true),
    Parameter(DefaultLeaseSeconds, Count, 300.0, 30.0, 3600.0, false),
    Parameter(GuarantorConcentrationThreshold, Count, 3.0, 2.0, 10.0, false),
    Parameter(ClientMfaRequired, Flag, 0.0, 0.0, 1.0, true)
  ]

  /** Fixed by law or by design: shown, never written. */
  const INVARIANTS: seq<Key> := [
    QuietHours, ProhibitedActions, AuthorityLevels, AllPartyConsentStates, ComplianceStates,
    MinimumDenominator, ControllingOwnershipPercent, MinimumCohort, MoneyUnit
  ]

  /** `checkBounds`; every real is finite. */
  predicate WithinBounds(p: Parameter, value: real) {
    (p.kind != Ratio ==> value == value.Floor as real) && p.minimum <= value <= p.maximum
  }

  /** `parameterFor` in a table: the first entry with the key. */
  function ParameterFor(parameters: seq<Parameter>, key: Key): (r: Option<Parameter>)
    ensures r.Some? ==> r.value in parameters && r.value.key == key
    ensures r.None? ==> forall p :: p in parameters ==> p.key != key
  {
    if parameters == [] then None
    else if parameters[0].key == key then Some(parameters[0])
    else ParameterFor(parameters[1..], key)
  }

  /** The parameters whose changes wait for a second person. */
  lemma HighRiskExactly()
    ensures forall p :: p in PARAMETERS ==> (p.highRisk <==>
      p.key in {MaximumReviewCadenceDays, RecertificationCadenceDays, HealthyShareTarget,
                CorrectionWindowHoursCritical, ClientMfaRequired})
  {
  }

  /** Every default is a value its parameter would accept. */
  ghost predicate WellDeclared(parameters: seq<Parameter>) {
    forall p :: p in parameters ==> WithinBounds(p, p.compiledDefault)
  }

  lemma RegistryIsWellDeclared()
    ensures WellDeclared(PARAMETERS)
  {
  }

  /** Where a key is declared, counting on from the parameters to the invariants. */
  function Position(key: Key): nat {
    match key
    case MaximumReviewCadenceDays => 0
    case DefaultReviewCadenceDays => 1
    case InactivityDays => 2
    case RenewalWindowDays => 3
    case ReadinessDeltaThreshold => 4
    case RecertificationCadenceDays => 5
    case ComplaintFlagThreshold => 6
    case HealthyShareTarget => 7
    case CorrectionWindowHoursCritical => 8
    case DefaultLeaseSeconds => 9
    case GuarantorConcentrationThreshold => 10
    case ClientMfaRequired => 11
    case QuietHours => 12
    case ProhibitedActions => 13
    case AuthorityLevels => 14
    case AllPartyConsentStates => 15
    case ComplianceStates => 16
    case MinimumDenominator => 17
    case ControllingOwnershipPercent => 18
    case MinimumCohort => 19
    case MoneyUnit => 20
    case Mistyped(_) => 21
  }

  lemma ParametersInPosition()
    ensures |PARAMETERS| == 12
    ensures forall i :: 0 <= i < |PARAMETERS| ==> Position(PARAMETERS[i].key) == i
  {
  }

  lemma InvariantsInPosition()
    ensures forall i :: 0 <= i < |INVARIANTS| ==> Position(INVARIANTS[i]) == 12 + i
  {
  }

  /** No key is declared twice, and nothing fixed is configurable. */
  lemma RegistryKeysAreDistinct()
    ensures forall i, j :: 0 <= i < j < |PARAMETERS| ==> PARAMETERS[i].key != PARAMETERS[j].key
    ensures forall key :: key in INVARIANTS ==> ParameterFor(PARAMETERS, key).None?
  {
    ParametersInPosition();
    InvariantsInPosition();
  }
}
