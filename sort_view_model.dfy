// SortState and SortViewModel: the sort orders a list page can be in, their
// cookie text, and the column toggles a list page offers.

module SortViewModels {
  import opened Optional
  import opened Text

  datatype SortState =
    | No
    | RentalCostPerDayAsc | RentalCostPerDayDesc
    | TotalAmountAsc | TotalAmountDesc
    | CostAsc | CostDesc
    | PhoneNumberAsc | PhoneNumberDesc

  /** `SortState.ToString()`: the member's name. */
  function Name(s: SortState): string {
    match s
    case No => "No"
    case RentalCostPerDayAsc => "RentalCostPerDayAsc"
    case RentalCostPerDayDesc => "RentalCostPerDayDesc"
    case TotalAmountAsc => "TotalAmountAsc"
    case TotalAmountDesc => "TotalAmountDesc"
    case CostAsc => "CostAsc"
    case CostDesc => "CostDesc"
    case PhoneNumberAsc => "PhoneNumberAsc"
    case PhoneNumberDesc => "PhoneNumberDesc"
  }

  /** The members in declaration order. */
  const States: seq<SortState> := [No, RentalCostPerDayAsc, RentalCostPerDayDesc, TotalAmountAsc,
    TotalAmountDesc, CostAsc, CostDesc, PhoneNumberAsc, PhoneNumberDesc]

  lemma StatesComplete(s: SortState)
    ensures s in States
  {
  }

  /** The first of `candidates` whose name equals `text` ignoring case. */
  function FindByName(text: string, candidates: seq<SortState>): (r: Option<SortState>)
    ensures r.Some? ==> r.value in candidates && EqualsIgnoreCase(text, Name(r.value))
    ensures r.None? ==> forall s :: s in candidates ==> !EqualsIgnoreCase(text, Name(s))
  {
    if candidates == [] then None
    else if EqualsIgnoreCase(text, Name(candidates[0])) then Some(candidates[0])
    else FindByName(text, candidates[1..])
  }

  /** `Enum.TryParse<SortState>(value, ignoreCase: true, out _)` on member names. */
  function TryParse(value: string): Option<SortState> {
    FindByName(Trim(value), States)
  }

  /** The length of a member's name and its first letter in lower case. */
  function Signature(s: SortState): (int, char) {
    match s
    case No => (2, 'n')
    case RentalCostPerDayAsc => (19, 'r')
    case RentalCostPerDayDesc => (20, 'r')
    case TotalAmountAsc => (14, 't')
    case TotalAmountDesc => (15, 't')
    case CostAsc => (7, 'c')
    case CostDesc => (8, 'c')
    case PhoneNumberAsc => (14, 'p')
    case PhoneNumberDesc => (15, 'p')
  }

  lemma SignatureOfName(s: SortState)
    ensures Signature(s) == (|Name(s)|, LowerAscii(Name(s)[0]))
  {
  }

  /** No two member names are equal ignoring case. */
  lemma NamesDistinct(s: SortState, t: SortState)
    requires EqualsIgnoreCase(Name(s), Name(t))
    ensures s == t
  {
    EqualsIgnoreCaseAt(Name(s), Name(t));
    SignatureOfName(s);
    SignatureOfName(t);
    assert Signature(s) == Signature(t);
  }

  /** TryParse accepts exactly the texts that are, after trimming, some member's name in any letter case. */
  lemma TryParseIff(value: string, s: SortState)
    ensures TryParse(value) == Some(s) <==> EqualsIgnoreCase(Trim(value), Name(s))
  {
    StatesComplete(s);
    var r := TryParse(value);
    if EqualsIgnoreCase(Trim(value), Name(s)) {
      assert r.Some?;
      EqualsIgnoreCaseSymmetric(Trim(value), Name(r.value));
      EqualsIgnoreCaseTransitive(Name(r.value), Trim(value), Name(s));
      NamesDistinct(r.value, s);
    }
  }

  /** The cookie text written by `ToString()` parses back to the same state. */
  lemma NameRoundTrip(s: SortState)
    ensures TryParse(Name(s)) == Some(s)
  {
    assert !IsWhite(Name(s)[0]) && !IsWhite(Name(s)[|Name(s)| - 1]);
    TrimUnchanged(Name(s));
    EqualsIgnoreCaseReflexive(Name(s));
    TryParseIff(Name(s), s);
  }

  /** The four sortable columns, each with an ascending and a descending state. */
  datatype SortField = RentalCostPerDay | TotalAmount | Cost | PhoneNumber

  function Asc(f: SortField): SortState {
    match f
    case RentalCostPerDay => RentalCostPerDayAsc
    case TotalAmount => TotalAmountAsc
    case Cost => CostAsc
    case PhoneNumber => PhoneNumberAsc
  }

  function Desc(f: SortField): SortState {
    match f
    case RentalCostPerDay => RentalCostPerDayDesc
    case TotalAmount => TotalAmountDesc
    case Cost => CostDesc
    case PhoneNumber => PhoneNumberDesc
  }

  datatype SortViewModel = SortViewModel(
    rentalCostPerDaySort: SortState,
    totalAmountSort: SortState,
    costSort: SortState,
    phoneNumberSort: SortState,
    currentState: SortState)
  {
    function SortOrder(): SortState {
      currentState
    }

    /** The state the column header of `f` links to. */
    function Toggle(f: SortField): SortState {
      match f
      case RentalCostPerDay => rentalCostPerDaySort
      case TotalAmount => totalAmountSort
      case Cost => costSort
      case PhoneNumber => phoneNumberSort
    }
  }

  /** The `SortViewModel(sortOrder)` constructor. */
  function NewSortViewModel(sortOrder: SortState): SortViewModel {
    SortViewModel(
      if sortOrder == RentalCostPerDayAsc then RentalCostPerDayDesc else RentalCostPerDayAsc,
      if sortOrder == TotalAmountAsc then TotalAmountDesc else TotalAmountAsc,
      if sortOrder == CostAsc then CostDesc else CostAsc,
      if sortOrder == PhoneNumberAsc then PhoneNumberDesc else PhoneNumberAsc,
      sortOrder)
  }

  /** Each column links to its descending state exactly when the page is sorted ascending by it, otherwise to its ascending state. */
  lemma ToggleSpec(sortOrder: SortState, f: SortField)
    ensures NewSortViewModel(sortOrder).Toggle(f) == Desc(f) <==> sortOrder == Asc(f)
    ensures NewSortViewModel(sortOrder).Toggle(f) == Asc(f) <==> sortOrder != Asc(f)
    ensures NewSortViewModel(sortOrder).Toggle(f) in {Asc(f), Desc(f)}
    ensures NewSortViewModel(sortOrder).Toggle(f) != No
  {
  }

  /** Restricted to the ascending and descending states of one column, the toggle is an involution. */
  lemma ToggleInvolution(sortOrder: SortState, f: SortField)
    requires sortOrder == Asc(f) || sortOrder == Desc(f)
    ensures NewSortViewModel(NewSortViewModel(sortOrder).Toggle(f)).Toggle(f) == sortOrder
  {
  }

  lemma CurrentStateKept(sortOrder: SortState)
    ensures NewSortViewModel(sortOrder).currentState == sortOrder
    ensures NewSortViewModel(sortOrder).SortOrder() == sortOrder
  {
  }
}
