/** The three RGB121 type catalogs (field types, owned-right types and
    state-transition types) and their conversion to the numeric type codes
    of the RGB schema library.

    The numeric values of the library's `FIELD_TYPE_*`, `STATE_TYPE_*` and
    `TRANSITION_TYPE_*` constants are defined outside this repository, so
    they enter the model as a parameter record `TypeConstants`. */
module Rgb121Types {
  import opened StrictTypes
  import opened Wrappers

  datatype FieldType =
    | Name
    | RicardianContract
    | Description
    | Data
    | DataFormat
    | Precision
    | IssuedSupply
    | Timestamp
    | ParentId

  datatype OwnedRightType = Assets | Engraving

  datatype TransitionType = Issue | Transfer | EngravingTransition

  /** The external constants the enum discriminants are taken from. */
  datatype TypeConstants = TypeConstants(
    fieldName: u16,
    fieldContractText: u16,
    fieldCommentary: u16,
    fieldData: u16,
    fieldDataFormat: u16,
    fieldPrecision: u16,
    fieldIssuedSupply: u16,
    fieldTimestamp: u16,
    fieldParentId: u16,
    stateOwnershipRight: u16,
    transitionIssueNft: u16,
    transitionValueTransfer: u16,
    transitionEngraving: u16)

  /** `FieldType as u16`: the discriminant of each variant. */
  function FieldCode(c: TypeConstants, t: FieldType): u16 {
    match t
    case Name => c.fieldName
    case RicardianContract => c.fieldContractText
    case Description => c.fieldCommentary
    case Data => c.fieldData
    case DataFormat => c.fieldDataFormat
    case Precision => c.fieldPrecision
    case IssuedSupply => c.fieldIssuedSupply
    case Timestamp => c.fieldTimestamp
    case ParentId => c.fieldParentId
  }

  /** `OwnedRightType as u16`; `Engraving` is declared as the ownership
      constant plus one, which must itself fit the `u16` representation. */
  function RightCode(c: TypeConstants, t: OwnedRightType): u16
    requires c.stateOwnershipRight < U16_MAX
  {
    match t
    case Assets => c.stateOwnershipRight
    case Engraving => c.stateOwnershipRight + 1
  }

  /** `TransitionType as u16`. */
  function TransitionCode(c: TypeConstants, t: TransitionType): u16 {
    match t
    case Issue => c.transitionIssueNft
    case Transfer => c.transitionValueTransfer
    case EngravingTransition => c.transitionEngraving
  }

  /** What the Rust compiler guarantees of the constants for the enums to
      compile at all: discriminants within one enum are pairwise distinct,
      and `STATE_TYPE_OWNERSHIP_RIGHT + 1` does not overflow `u16`. */
  predicate Compiles(c: TypeConstants) {
    && c.stateOwnershipRight < U16_MAX
    && (forall a: FieldType, b: FieldType :: FieldCode(c, a) == FieldCode(c, b) ==> a == b)
    && (forall a: TransitionType, b: TransitionType ::
          TransitionCode(c, a) == TransitionCode(c, b) ==> a == b)
  }

  /** Reverse lookup from a numeric field code to the RGB121 field type, if any. */
  function FieldTypeOfCode(c: TypeConstants, code: u16): Option<FieldType> {
    if code == c.fieldName then Some(Name)
    else if code == c.fieldContractText then Some(RicardianContract)
    else if code == c.fieldCommentary then Some(Description)
    else if code == c.fieldData then Some(Data)
    else if code == c.fieldDataFormat then Some(DataFormat)
    else if code == c.fieldPrecision then Some(Precision)
    else if code == c.fieldIssuedSupply then Some(IssuedSupply)
    else if code == c.fieldTimestamp then Some(Timestamp)
    else if code == c.fieldParentId then Some(ParentId)
    else None
  }

  /** Reverse lookup from a numeric owned-right code. */
  function RightTypeOfCode(c: TypeConstants, code: u16): Option<OwnedRightType> {
    if code == c.stateOwnershipRight then Some(Assets)
    else if code == c.stateOwnershipRight + 1 then Some(Engraving)
    else None
  }

  /** Reverse lookup from a numeric transition code. */
  function TransitionTypeOfCode(c: TypeConstants, code: u16): Option<TransitionType> {
    if code == c.transitionIssueNft then Some(Issue)
    else if code == c.transitionValueTransfer then Some(Transfer)
    else if code == c.transitionEngraving then Some(EngravingTransition)
    else None
  }

  /** The two owned-right codes are distinct and adjacent. */
  lemma RightCodesAdjacent(c: TypeConstants)
    requires Compiles(c)
    ensures RightCode(c, Engraving) == RightCode(c, Assets) + 1
    ensures forall a: OwnedRightType, b: OwnedRightType :: RightCode(c, a) == RightCode(c, b) <==> a == b
  {
  }

  /** Field codes: the conversion and the reverse lookup are inverse. */
  lemma FieldCodeRoundTrip(c: TypeConstants, t: FieldType, code: u16)
    requires Compiles(c)
    ensures FieldTypeOfCode(c, FieldCode(c, t)) == Some(t)
    ensures FieldTypeOfCode(c, code) == Some(t) <==> FieldCode(c, t) == code
  {
    match t
    case Name =>
    case RicardianContract =>
      assert FieldCode(c, Name) != FieldCode(c, t);
    case Description =>
      assert FieldCode(c, Name) != FieldCode(c, t);
      assert FieldCode(c, RicardianContract) != FieldCode(c, t);
    case Data =>
      assert FieldCode(c, Name) != FieldCode(c, t);
      assert FieldCode(c, RicardianContract) != FieldCode(c, t);
      assert FieldCode(c, Description) != FieldCode(c, t);
    case DataFormat =>
      assert FieldCode(c, Name) != FieldCode(c, t);
      assert FieldCode(c, RicardianContract) != FieldCode(c, t);
      assert FieldCode(c, Description) != FieldCode(c, t);
      assert FieldCode(c, Data) != FieldCode(c, t);
    case Precision =>
      assert FieldCode(c, Name) != FieldCode(c, t);
      assert FieldCode(c, RicardianContract) != FieldCode(c, t);
      assert FieldCode(c, Description) != FieldCode(c, t);
      assert FieldCode(c, Data) != FieldCode(c, t);
      assert FieldCode(c, DataFormat) != FieldCode(c, t);
    case IssuedSupply =>
      assert FieldCode(c, Name) != FieldCode(c, t);
      assert FieldCode(c, RicardianContract) != FieldCode(c, t);
      assert FieldCode(c, Description) != FieldCode(c, t);
      assert FieldCode(c, Data) != FieldCode(c, t);
      assert FieldCode(c, DataFormat) != FieldCode(c, t);
      assert FieldCode(c, Precision) != FieldCode(c, t);
    case Timestamp =>
      assert FieldCode(c, Name) != FieldCode(c, t);
      assert FieldCode(c, RicardianContract) != FieldCode(c, t);
      assert FieldCode(c, Description) != FieldCode(c, t);
      assert FieldCode(c, Data) != FieldCode(c, t);
      assert FieldCode(c, DataFormat) != FieldCode(c, t);
      assert FieldCode(c, Precision) != FieldCode(c, t);
      assert FieldCode(c, IssuedSupply) != FieldCode(c, t);
    case ParentId =>
      assert FieldCode(c, Name) != FieldCode(c, t);
      assert FieldCode(c, RicardianContract) != FieldCode(c, t);
      assert FieldCode(c, Description) != FieldCode(c, t);
      assert FieldCode(c, Data) != FieldCode(c, t);
      assert FieldCode(c, DataFormat) != FieldCode(c, t);
      assert FieldCode(c, Precision) != FieldCode(c, t);
      assert FieldCode(c, IssuedSupply) != FieldCode(c, t);
      assert FieldCode(c, Timestamp) != FieldCode(c, t);
  }

  /** Owned-right codes: the conversion and the reverse lookup are inverse. */
  lemma RightCodeRoundTrip(c: TypeConstants, t: OwnedRightType, code: u16)
    requires Compiles(c)
    ensures RightTypeOfCode(c, RightCode(c, t)) == Some(t)
    ensures RightTypeOfCode(c, code) == Some(t) <==> RightCode(c, t) == code
  {
  }

  /** Transition codes: the conversion and the reverse lookup are inverse. */
  lemma TransitionCodeRoundTrip(c: TypeConstants, t: TransitionType, code: u16)
    requires Compiles(c)
    ensures TransitionTypeOfCode(c, TransitionCode(c, t)) == Some(t)
    ensures TransitionTypeOfCode(c, code) == Some(t) <==> TransitionCode(c, t) == code
  {
    assert TransitionCode(c, Issue) != TransitionCode(c, Transfer);
    assert TransitionCode(c, Issue) != TransitionCode(c, EngravingTransition);
    assert TransitionCode(c, Transfer) != TransitionCode(c, EngravingTransition);
  }
}
