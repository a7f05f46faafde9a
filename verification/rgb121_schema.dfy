/** The RGB121 schemata: the root schema of the fungible asset and the
    subschema that prohibits the engraving operation, as constant tables,
    with the properties issuance and the subschema check rely on. */
module Rgb121Schema {
  import opened Wrappers
  import opened Occurrences
  import opened Rgb121Types
  import opened RgbSchema
  import opened RgbContract
  import opened Validation

  /** Identifier of the full RGB121 schema. */
  const SCHEMA_ID_BECH32: string := "rgbsh1ykclt9qxkskqt88dwgccsp4w624k7adjwj06sknjkh04ygtc7rqsnykld7"

  /** Identifier of the subschema prohibiting engraving. */
  const SUBSCHEMA_ID_BECH32: string := "rgbsh1ep4k4qvghntwptcn0gqmfpdvr8vz3amslvy4pc7s32u7h500l5hqxlzjsk"

  /** The identifier of the root schema. Hashing is external: this is the
      value the library's tests pin `schema().schema_id()` to. */
  function RootSchemaId(): SchemaId {
    SchemaId(SCHEMA_ID_BECH32)
  }

  /** The value the tests pin `subschema().schema_id()` to. */
  function SubschemaId(): SchemaId {
    SchemaId(SUBSCHEMA_ID_BECH32)
  }

  /** Genesis occurrence table (`genesis()`). */
  function GenesisTable(): GenesisSchema {
    GenesisSchema(
      map[
        Name := Once,
        RicardianContract := NoneOrOnce,
        Description := NoneOrOnce,
        Data := NoneOrMore,
        DataFormat := NoneOrOnce,
        Precision := Once,
        Timestamp := Once,
        IssuedSupply := Once,
        ParentId := NoneOrOnce],
      map[Assets := NoneOrMore, Engraving := NoneOrMore],
      {})
  }

  /** Secondary issuance transition (`issue()`). */
  function IssueTable(): TransitionSchema {
    TransitionSchema(
      map[IssuedSupply := Once, Data := NoneOrMore, DataFormat := NoneOrOnce],
      map[],
      map[Assets := NoneOrMore, Engraving := NoneOrMore],
      {})
  }

  /** Asset transfer transition. */
  function TransferTable(): TransitionSchema {
    TransitionSchema(
      map[],
      map[Assets := OnceOrMore],
      map[Assets := NoneOrMore],
      {})
  }

  /** Asset engraving transition (root schema only). */
  function EngravingTable(): TransitionSchema {
    TransitionSchema(
      map[Data := NoneOrMore, DataFormat := NoneOrOnce],
      map[Assets := OnceOrMore, Engraving := NoneOrMore],
      map[Assets := NoneOrMore, Engraving := NoneOrMore],
      {})
  }

  /** Data types of the metadata fields; shared by both schemata. */
  function FieldTypes(): map<FieldType, TypeRef> {
    map[
      Name := AsciiStringType,
      RicardianContract := AsciiStringType,
      Description := AsciiStringType,
      Data := BytesType,
      DataFormat := U16Type,
      Precision := U8Type,
      IssuedSupply := U64Type,
      Timestamp := I64Type,
      ParentId := AsciiStringType]
  }

  /** State formats of the owned rights; shared by both schemata. */
  function OwnedRightTypes(): map<OwnedRightType, StateSchema> {
    map[Assets := DiscreteFiniteField(Unsigned64bit), Engraving := DataContainer]
  }

  /** The root schema (`schema()`). */
  function RootSchema(): Schema {
    Schema(
      None,
      GenesisTable(),
      map[Issue := IssueTable(), Transfer := TransferTable(), EngravingTransition := EngravingTable()],
      FieldTypes(),
      OwnedRightTypes(),
      {})
  }

  /** The subschema allowing issue and transfer but no engraving (`subschema()`). */
  function SubSchema(): Schema {
    Schema(
      Some(RootSchemaId()),
      GenesisTable(),
      map[Issue := IssueTable(), Transfer := TransferTable()],
      FieldTypes(),
      OwnedRightTypes(),
      {})
  }

  // ---------------------------------------------------------------------
  // Properties of the tables

  /** The genesis metadata table, on item counts: it knows every field type. */
  lemma GenesisFieldsShape(n: map<FieldType, nat>)
    ensures Conforms(n, GenesisTable().metadata) <==>
      && CountOf(n, Name) == 1 && CountOf(n, Precision) == 1
      && CountOf(n, Timestamp) == 1 && CountOf(n, IssuedSupply) == 1
      && CountOf(n, RicardianContract) <= 1 && CountOf(n, Description) <= 1
      && CountOf(n, DataFormat) <= 1 && CountOf(n, ParentId) <= 1
  {
    var m := GenesisTable().metadata;
    assert m[Name] == Once && m[Precision] == Once && m[Timestamp] == Once && m[IssuedSupply] == Once;
    assert m[RicardianContract] == NoneOrOnce && m[Description] == NoneOrOnce;
    assert m[DataFormat] == NoneOrOnce && m[ParentId] == NoneOrOnce && m[Data] == NoneOrMore;
    forall k: FieldType ensures k in m {
      match k
      case Name => case RicardianContract => case Description => case Data =>
      case DataFormat => case Precision => case IssuedSupply => case Timestamp => case ParentId =>
    }
  }

  /** A table giving both owned rights `NoneOrMore` admits every instance. */
  lemma AnyAssignmentsShape(a: map<OwnedRightType, nat>)
    ensures Conforms(a, map[Assets := NoneOrMore, Engraving := NoneOrMore])
  {
    var r := map[Assets := NoneOrMore, Engraving := NoneOrMore];
    forall k: OwnedRightType ensures k in r {
      match k
      case Assets => case Engraving =>
    }
  }

  /** The issue metadata table, on item counts. */
  lemma IssueFieldsShape(n: map<FieldType, nat>)
    ensures Conforms(n, IssueTable().metadata) <==>
      n.Keys <= {IssuedSupply, Data, DataFormat} && CountOf(n, IssuedSupply) == 1 && CountOf(n, DataFormat) <= 1
  {
    var m := IssueTable().metadata;
    assert m.Keys == {IssuedSupply, Data, DataFormat};
    assert m[IssuedSupply] == Once && m[DataFormat] == NoneOrOnce && m[Data] == NoneOrMore;
  }

  /** The transfer closes table, on item counts. */
  lemma TransferClosesShape(c: map<OwnedRightType, nat>)
    ensures Conforms(c, TransferTable().closes) <==> c.Keys <= {Assets} && CountOf(c, Assets) >= 1
  {
    assert TransferTable().closes[Assets] == OnceOrMore;
  }

  /** The transfer owned-rights table, on assignment counts. */
  lemma TransferRightsShape(a: map<OwnedRightType, nat>)
    ensures Conforms(a, TransferTable().ownedRights) <==> a.Keys <= {Assets}
  {
    assert TransferTable().ownedRights[Assets] == NoneOrMore;
  }

  /** The engraving metadata table, on item counts. */
  lemma EngravingFieldsShape(n: map<FieldType, nat>)
    ensures Conforms(n, EngravingTable().metadata) <==> n.Keys <= {Data, DataFormat} && CountOf(n, DataFormat) <= 1
  {
    var m := EngravingTable().metadata;
    assert m.Keys == {Data, DataFormat};
    assert m[DataFormat] == NoneOrOnce && m[Data] == NoneOrMore;
  }

  /** The engraving closes table, on item counts: it knows both rights. */
  lemma EngravingClosesShape(c: map<OwnedRightType, nat>)
    ensures Conforms(c, EngravingTable().closes) <==> CountOf(c, Assets) >= 1
  {
    var m := EngravingTable().closes;
    assert m[Assets] == OnceOrMore && m[Engraving] == NoneOrMore;
    forall k: OwnedRightType ensures k in m {
      match k
      case Assets => case Engraving =>
    }
  }

  /** Genesis: exactly one name, precision, timestamp and issued supply; at
      most one Ricardian contract, description, data format and parent id;
      any amount of data; any number of assets and engraving assignments;
      no public rights. */
  lemma GenesisTableShape(g: Genesis)
    ensures ConformsGenesis(g, GenesisTable()) <==>
      var n := ListCounts(g.metadata);
      && CountOf(n, Name) == 1 && CountOf(n, Precision) == 1
      && CountOf(n, Timestamp) == 1 && CountOf(n, IssuedSupply) == 1
      && CountOf(n, RicardianContract) <= 1 && CountOf(n, Description) <= 1
      && CountOf(n, DataFormat) <= 1 && CountOf(n, ParentId) <= 1
      && g.publicRights == {}
  {
    GenesisFieldsShape(ListCounts(g.metadata));
    assert GenesisTable().ownedRights == map[Assets := NoneOrMore, Engraving := NoneOrMore];
    AnyAssignmentsShape(AssignmentCounts(g.ownedRights));
  }

  /** Secondary issuance: closes nothing, carries exactly one issued supply,
      at most one data format and any data, and creates any number of assets
      and engraving assignments. */
  lemma IssueTableShape(t: Transition)
    requires t.transitionType == Issue
    ensures ConformsTransition(t, RootSchema()) <==>
      var n := ListCounts(t.metadata);
      && t.metadata.Keys <= {IssuedSupply, Data, DataFormat}
      && CountOf(n, IssuedSupply) == 1 && CountOf(n, DataFormat) <= 1
      && t.closes == map[]
      && t.publicRights == {}
  {
    assert RootSchema().transitions[Issue] == IssueTable();
    IssueFieldsShape(ListCounts(t.metadata));
    EmptyTableShape(ListCounts(t.closes));
    assert t.closes.Keys == {} <==> t.closes == map[];
    assert IssueTable().ownedRights == map[Assets := NoneOrMore, Engraving := NoneOrMore];
    AnyAssignmentsShape(AssignmentCounts(t.ownedRights));
  }

  /** Transfer: no metadata, closes at least one assets assignment and
      nothing else, and creates only assets assignments. */
  lemma TransferTableShape(t: Transition)
    requires t.transitionType == Transfer
    ensures ConformsTransition(t, RootSchema()) <==>
      && t.metadata == map[]
      && t.closes.Keys == {Assets} && |t.closes[Assets]| >= 1
      && t.ownedRights.Keys <= {Assets}
      && t.publicRights == {}
  {
    assert RootSchema().transitions[Transfer] == TransferTable();
    EmptyTableShape(ListCounts(t.metadata));
    assert t.metadata.Keys == {} <==> t.metadata == map[];
    var c := ListCounts(t.closes);
    TransferClosesShape(c);
    assert CountOf(c, Assets) >= 1 ==> Assets in t.closes && c[Assets] == |t.closes[Assets]|;
    TransferRightsShape(AssignmentCounts(t.ownedRights));
  }

  /** The subschema judges every transition (issue and transfer alike)
      exactly as the root does, except that it rejects engraving. */
  lemma SubschemaSameAsRootWithoutEngraving(t: Transition)
    ensures ConformsTransition(t, SubSchema()) <==>
              ConformsTransition(t, RootSchema()) && t.transitionType != EngravingTransition
  {
  }

  /** No transfer can close or create an engraving assignment. */
  lemma TransferNeverTouchesEngraving(t: Transition, s: Schema)
    requires s == RootSchema() || s == SubSchema()
    requires t.transitionType == Transfer && ConformsTransition(t, s)
    ensures Engraving !in t.closes && Engraving !in t.ownedRights
  {
    assert Engraving !in ListCounts(t.closes);
    assert Engraving !in AssignmentCounts(t.ownedRights);
  }

  /** Every occurrence range of the root schema is well-formed, and every
      type it uses is declared. */
  lemma RootSchemaWellFormed()
    ensures RangesValid(RootSchema()) && ReferentiallyClosed(RootSchema())
  {
    var root := RootSchema();
    forall t | t in root.transitions
      ensures TableValid(root.transitions[t].metadata)
      ensures TableValid(root.transitions[t].closes)
      ensures TableValid(root.transitions[t].ownedRights)
      ensures TransitionDeclared(root.transitions[t], root)
    {
      match t
      case Issue => assert root.transitions[t] == IssueTable();
      case Transfer => assert root.transitions[t] == TransferTable();
      case EngravingTransition => assert root.transitions[t] == EngravingTable();
    }
    assert TableValid(GenesisTable().metadata);
  }

  /** The subschema's transitions are the root's, so it is well-formed too. */
  lemma SubschemaWellFormed()
    ensures RangesValid(SubSchema()) && ReferentiallyClosed(SubSchema())
  {
    RootSchemaWellFormed();
    var root := RootSchema();
    var sub := SubSchema();
    forall t | t in sub.transitions
      ensures TableValid(sub.transitions[t].metadata)
      ensures TableValid(sub.transitions[t].closes)
      ensures TableValid(sub.transitions[t].ownedRights)
      ensures TransitionDeclared(sub.transitions[t], sub)
    {
      assert sub.transitions[t] == root.transitions[t];
    }
  }

  /** The subschema is the root schema with the engraving transition
      removed and the root declared as its lineage; everything else
      (genesis, issue and transfer tables, type declarations) is identical. */
  lemma SubschemaIsRootWithoutEngraving()
    ensures SubSchema() == RootSchema().(rootId := Some(RootSchemaId()),
                                          transitions := RootSchema().transitions - {EngravingTransition})
  {
    var kept := RootSchema().transitions - {EngravingTransition};
    assert kept == map[Issue := IssueTable(), Transfer := TransferTable()];
  }

  /** The subschema verifies against the root schema: it is a restriction
      that keeps every slot the root requires. */
  lemma SubschemaVerifies()
    ensures IsRestriction(SubSchema(), RootSchema())
    ensures KeepsRequiredSlots(SubSchema(), RootSchema())
  {
    SubschemaIsRootWithoutEngraving();
    DroppingTransitionsRestricts(RootSchema(), {EngravingTransition}, Some(RootSchemaId()));
  }

  /** The subschema accepts no genesis or transition the root schema rejects. */
  lemma SubschemaAcceptsLess(g: Genesis, t: Transition)
    ensures ConformsGenesis(g, SubSchema().genesis) ==> ConformsGenesis(g, RootSchema().genesis)
    ensures ConformsTransition(t, SubSchema()) ==> ConformsTransition(t, RootSchema())
  {
    SubschemaVerifies();
    RestrictionAcceptsLess(SubSchema(), RootSchema(), g, t);
  }

  /** Engraving (root schema only): any data and at most one data format,
      closes at least one assets assignment and any engraving assignments,
      and creates any number of either. */
  lemma EngravingTableShape(t: Transition)
    requires t.transitionType == EngravingTransition
    ensures ConformsTransition(t, RootSchema()) <==>
              && t.metadata.Keys <= {Data, DataFormat}
              && CountOf(ListCounts(t.metadata), DataFormat) <= 1
              && Assets in t.closes && |t.closes[Assets]| >= 1
              && t.publicRights == {}
  {
    assert RootSchema().transitions[EngravingTransition] == EngravingTable();
    EngravingFieldsShape(ListCounts(t.metadata));
    var c := ListCounts(t.closes);
    EngravingClosesShape(c);
    assert CountOf(c, Assets) >= 1 <==> Assets in t.closes && |t.closes[Assets]| >= 1;
    assert EngravingTable().ownedRights == map[Assets := NoneOrMore, Engraving := NoneOrMore];
    AnyAssignmentsShape(AssignmentCounts(t.ownedRights));
  }

  /** The subschema rejects every engraving transition. */
  lemma SubschemaProhibitsEngraving(t: Transition)
    requires t.transitionType == EngravingTransition
    ensures !ConformsTransition(t, SubSchema())
  {
  }

  /** The subschema forbids the engraving transition only: its genesis table
      is the root's, so any valid genesis stays valid under it with engraving
      assignments added. */
  lemma SubschemaGenesisAllowsEngraving(g: Genesis, seals: seq<Seal>)
    requires ConformsGenesis(g, GenesisTable())
    ensures ConformsGenesis(g.(ownedRights := g.ownedRights[Engraving := Attachment(seals)]), SubSchema().genesis)
  {
    var owned := g.ownedRights[Engraving := Attachment(seals)];
    var table := SubSchema().genesis.ownedRights;
    forall k | k in table ensures table[k].Admits(CountOf(AssignmentCounts(owned), k)) {
      match k
      case Assets => case Engraving =>
    }
    assert AssignmentCounts(owned).Keys <= table.Keys by {
      forall k | k in AssignmentCounts(owned) ensures k in table {
        match k
        case Assets => case Engraving =>
      }
    }
  }

  /** The subschema is a schema of its own: the identifier the tests pin it
      to differs from the root identifier it declares as its lineage. */
  lemma SubschemaIdDiffersFromLineage()
    ensures SubschemaId() != RootSchemaId()
    ensures SubSchema().rootId != Some(SubschemaId())
  {
    assert SCHEMA_ID_BECH32[63] == '7' && SUBSCHEMA_ID_BECH32[63] == 'k';
  }

  /** Lineage: the root schema has no root, the subschema names the root. */
  lemma Lineage()
    ensures RootSchema().rootId == None
    ensures SubSchema().rootId == Some(RootSchemaId())
  {
  }
}
