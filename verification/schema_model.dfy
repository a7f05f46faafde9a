/** The schema data structures of the RGB library as RGB121 uses them:
    occurrence tables keyed by the RGB121 type tags, the genesis and
    transition schemata built from them, and the schema itself. */
module RgbSchema {
  import opened Wrappers
  import opened Occurrences
  import opened Rgb121Types

  /** Schema identifier. Its computation (a hash of the strict encoding,
      rendered in bech32) is external; identifiers are compared only. */
  datatype SchemaId = SchemaId(bech32: string)

  /** The data types a metadata field may be declared with. */
  datatype TypeRef = AsciiStringType | BytesType | U8Type | U16Type | U64Type | I64Type

  datatype DiscreteFiniteFieldFormat = Unsigned64bit

  /** The state format of an owned-right type. */
  datatype StateSchema = DiscreteFiniteField(format: DiscreteFiniteFieldFormat) | DataContainer

  /** Public rights have no RGB121 catalog; they are bare numeric codes. */
  type PublicRightType = nat

  datatype GenesisSchema = GenesisSchema(
    metadata: map<FieldType, Occurrence>,
    ownedRights: map<OwnedRightType, Occurrence>,
    publicRights: set<PublicRightType>)

  datatype TransitionSchema = TransitionSchema(
    metadata: map<FieldType, Occurrence>,
    closes: map<OwnedRightType, Occurrence>,
    ownedRights: map<OwnedRightType, Occurrence>,
    publicRights: set<PublicRightType>)

  datatype Schema = Schema(
    rootId: Option<SchemaId>,
    genesis: GenesisSchema,
    transitions: map<TransitionType, TransitionSchema>,
    fieldTypes: map<FieldType, TypeRef>,
    ownedRightTypes: map<OwnedRightType, StateSchema>,
    publicRightTypes: set<PublicRightType>)

  /** Every range in a table is well-formed. */
  predicate TableValid<K>(table: map<K, Occurrence>) {
    forall k :: k in table ==> table[k].Valid()
  }

  /** Every occurrence range anywhere in the schema is well-formed; a range
      with `max < min` would be a construction error, not a user error. */
  predicate RangesValid(s: Schema) {
    && TableValid(s.genesis.metadata)
    && TableValid(s.genesis.ownedRights)
    && forall t :: t in s.transitions ==>
         && TableValid(s.transitions[t].metadata)
         && TableValid(s.transitions[t].closes)
         && TableValid(s.transitions[t].ownedRights)
  }

  /** The type codes a transition schema mentions are all declared by `s`. */
  predicate TransitionDeclared(ts: TransitionSchema, s: Schema) {
    && ts.metadata.Keys <= s.fieldTypes.Keys
    && ts.closes.Keys <= s.ownedRightTypes.Keys
    && ts.ownedRights.Keys <= s.ownedRightTypes.Keys
    && ts.publicRights <= s.publicRightTypes
  }

  /** Referential integrity: every field, owned-right and public-right type
      used by the genesis or by any transition has a declared data type or
      state format. */
  predicate ReferentiallyClosed(s: Schema) {
    && s.genesis.metadata.Keys <= s.fieldTypes.Keys
    && s.genesis.ownedRights.Keys <= s.ownedRightTypes.Keys
    && s.genesis.publicRights <= s.publicRightTypes
    && forall t :: t in s.transitions ==> TransitionDeclared(s.transitions[t], s)
  }
}
