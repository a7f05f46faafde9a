/** Primary issuance of an RGB121 asset (`Rgb21::create_rgb21`): the
    genesis metadata, the issued supply, the zero-balanced assets
    assignment, and the contract built around them. */
module Rgb121Create {
  import opened Wrappers
  import opened Occurrences
  import opened StrictTypes
  import opened Rgb121Types
  import opened RgbSchema
  import opened RgbContract
  import opened Validation
  import opened Rgb121Schema

  /** The issued supply recorded in a genesis, if it records exactly one. */
  function RecordedSupply(g: Genesis): Option<nat> {
    if IssuedSupply in g.metadata && |g.metadata[IssuedSupply]| == 1
       && g.metadata[IssuedSupply][0].U64Value?
    then Some(g.metadata[IssuedSupply][0].u64Value)
    else None
  }

  /** A genesis whose issued-supply field holds the single value `v` records `v`. */
  lemma RecordedSupplyOf(g: Genesis, v: u64)
    requires IssuedSupply in g.metadata && g.metadata[IssuedSupply] == [U64Value(v)]
    ensures RecordedSupply(g) == Some(v)
  {
  }

  /** The genesis metadata of an issue: name, description, precision and
      timestamp, then the issued supply, each as its single value. */
  function IssueMetadata(name: AsciiString, description: AsciiString, precision: u8, now: i64, supply: u64)
    : (m: map<FieldType, seq<FieldValue>>)
    ensures m.Keys == {Name, Description, Precision, Timestamp, IssuedSupply}
    ensures forall k :: k in m ==> |m[k]| == 1
    ensures m[Name] == [AsciiValue(name)] && m[Description] == [AsciiValue(description)]
    ensures m[Precision] == [U8Value(precision)] && m[Timestamp] == [I64Value(now)]
    ensures m[IssuedSupply] == [U64Value(supply)]
    ensures Conforms(ListCounts(m), GenesisTable().metadata)
    ensures MetadataWellTyped(m, RootSchema())
  {
    var m := map[
      Name := [AsciiValue(name)],
      Description := [AsciiValue(description)],
      Precision := [U8Value(precision)],
      Timestamp := [I64Value(now)],
      IssuedSupply := [U64Value(supply)]];
    IssueFieldsConform(m);
    IssueFieldsWellTyped(name, description, precision, now, supply, m);
    m
  }

  /** Metadata holding exactly one name, description, precision, timestamp
      and issued supply satisfies the genesis metadata table. */
  lemma IssueFieldsConform(m: map<FieldType, seq<FieldValue>>)
    requires m.Keys == {Name, Description, Precision, Timestamp, IssuedSupply}
    requires forall k :: k in m ==> |m[k]| == 1
    ensures Conforms(ListCounts(m), GenesisTable().metadata)
  {
    var n := ListCounts(m);
    assert n[Name] == 1 && n[Description] == 1 && n[Precision] == 1;
    assert n[Timestamp] == 1 && n[IssuedSupply] == 1;
    assert RicardianContract !in n && DataFormat !in n && ParentId !in n;
    GenesisFieldsShape(n);
  }

  /** Each issuance field holds a value of the data type the root schema
      declares for it. */
  lemma IssueFieldsWellTyped(
    name: AsciiString, description: AsciiString, precision: u8, now: i64, supply: u64,
    m: map<FieldType, seq<FieldValue>>)
    requires m == map[
      Name := [AsciiValue(name)],
      Description := [AsciiValue(description)],
      Precision := [U8Value(precision)],
      Timestamp := [I64Value(now)],
      IssuedSupply := [U64Value(supply)]]
    ensures MetadataWellTyped(m, RootSchema())
  {
    IssueFieldsTyped(name, description, precision, now, supply, m);
    assert RootSchema().fieldTypes == FieldTypes();
  }

  /** The typing of the issuance fields against the declared field types. */
  lemma IssueFieldsTyped(
    name: AsciiString, description: AsciiString, precision: u8, now: i64, supply: u64,
    m: map<FieldType, seq<FieldValue>>)
    requires m == map[
      Name := [AsciiValue(name)],
      Description := [AsciiValue(description)],
      Precision := [U8Value(precision)],
      Timestamp := [I64Value(now)],
      IssuedSupply := [U64Value(supply)]]
    ensures forall k :: k in m ==> k in FieldTypes() && forall v :: v in m[k] ==> HasType(v, FieldTypes()[k])
  {
    var decl := FieldTypes();
    forall k | k in m ensures k in decl && forall v :: v in m[k] ==> HasType(v, decl[k]) {
      if k == Name {
        assert m[k] == [AsciiValue(name)] && decl[k] == AsciiStringType;
      } else if k == Description {
        assert m[k] == [AsciiValue(description)] && decl[k] == AsciiStringType;
      } else if k == Precision {
        assert m[k] == [U8Value(precision)] && decl[k] == U8Type;
      } else if k == Timestamp {
        assert m[k] == [I64Value(now)] && decl[k] == I64Type;
      } else {
        assert m[k] == [U64Value(supply)] && decl[k] == U64Type;
      }
    }
  }

  /** Issues a new asset. `now` is the issuance timestamp, which
      `create_rgb21` reads from `Utc::now()`. The `engraving` outpoint is
      accepted and ignored: engraving at issuance is commented out in
      `create_rgb21`. The allocations' total must fit the 64-bit
      issued-supply field. */
  function CreateRgb21(
    chain: Chain,
    name: AsciiString,
    description: AsciiString,
    precision: u8,
    allocations: seq<OutpointValue>,
    engraving: Option<OutPoint>,
    now: i64): (c: Contract)
    requires Supply(allocations) <= U64_MAX
    // metadata: exactly name, description, precision, timestamp and supply, one value each
    ensures c.genesis.metadata.Keys == {Name, Description, Precision, Timestamp, IssuedSupply}
    ensures forall k :: k in c.genesis.metadata ==> |c.genesis.metadata[k]| == 1
    ensures c.genesis.metadata[Name] == [AsciiValue(name)]
    ensures c.genesis.metadata[Description] == [AsciiValue(description)]
    ensures c.genesis.metadata[Precision] == [U8Value(precision)]
    ensures c.genesis.metadata[Timestamp] == [I64Value(now)]
    // the recorded supply is the total of the allocations
    ensures RecordedSupply(c.genesis) == Some(Supply(allocations))
    // only assets are assigned, one assignment per allocation, in order
    ensures c.genesis.ownedRights.Keys == {Assets}
    ensures c.genesis.ownedRights[Assets].Value?
    ensures |c.genesis.ownedRights[Assets].assignments| == |allocations|
    ensures forall i :: 0 <= i < |allocations| ==>
              c.genesis.ownedRights[Assets].assignments[i]
                == ValueAssignment(Revealed(allocations[i].outpoint), allocations[i].value)
    // value is conserved: the assignments balance the single revealed supply
    ensures Balances([RevealedValue(Supply(allocations))], c.genesis.ownedRights[Assets])
    ensures AssignedTotal(c.genesis.ownedRights[Assets]) == Supply(allocations)
    // the genesis is valid under the root schema, and is issued under it
    ensures ConformsGenesis(c.genesis, RootSchema().genesis)
    ensures MetadataWellTyped(c.genesis.metadata, RootSchema())
    ensures RightsWellTyped(c.genesis.ownedRights, RootSchema())
    ensures c.genesis.schemaId == RootSchemaId() && c.genesis.chain == chain
    ensures c.genesis.publicRights == {}
    ensures c.schema == RootSchema() && c.rootSchema == None
    ensures c.endpoints == {} && c.anchoredTransitions == [] && c.extensions == []
  {
    var issuedSupply: u64 := Supply(allocations);
    var metadata := IssueMetadata(name, description, precision, now, issuedSupply);
    var genesis := Genesis(RootSchemaId(), chain, metadata, map[Assets := IssuedAssets(allocations)], {});
    RecordedSupplyOf(genesis, issuedSupply);
    AssetsOnlyFits(genesis.ownedRights);
    Contract(RootSchema(), None, genesis, {}, [], [])
  }

  /** Owned rights holding only an assets value assignment satisfy the root
      schema's genesis owned-rights table and state kinds. */
  lemma AssetsOnlyFits(rights: map<OwnedRightType, TypedAssignments>)
    requires rights.Keys == {Assets} && rights[Assets].Value?
    ensures Conforms(AssignmentCounts(rights), RootSchema().genesis.ownedRights)
    ensures RightsWellTyped(rights, RootSchema())
  {
    assert GenesisTable().ownedRights == map[Assets := NoneOrMore, Engraving := NoneOrMore];
    AnyAssignmentsShape(AssignmentCounts(rights));
    assert RootSchema().ownedRightTypes == OwnedRightTypes();
  }

  /** The assets assignment of an issue (`zero_balanced` against the single
      revealed issued supply, with no concealed allocations): one revealed
      assignment per allocation, balancing the supply. */
  function IssuedAssets(allocations: seq<OutpointValue>): (a: TypedAssignments)
    requires Supply(allocations) <= U64_MAX
    ensures a.Value? && |a.assignments| == |allocations|
    ensures forall i :: 0 <= i < |allocations| ==>
              a.assignments[i] == ValueAssignment(Revealed(allocations[i].outpoint), allocations[i].value)
    ensures Balances([RevealedValue(Supply(allocations))], a)
    ensures AssignedTotal(a) == Supply(allocations)
    ensures StateMatches(a, RootSchema().ownedRightTypes[Assets])
  {
    var inputs := [RevealedValue(Supply(allocations))];
    assert SumOf(inputs, RevealedValueOf) == Supply(allocations) by {
      assert inputs[1..] == [];
    }
    assert RootSchema().ownedRightTypes[Assets] == DiscreteFiniteField(Unsigned64bit);
    ZeroBalanced(inputs, allocations, [])
  }

  /** The `engraving` argument has no effect on the contract. */
  lemma EngravingIgnored(
    chain: Chain, name: AsciiString, description: AsciiString, precision: u8,
    allocations: seq<OutpointValue>, e1: Option<OutPoint>, e2: Option<OutPoint>, now: i64)
    requires Supply(allocations) <= U64_MAX
    ensures CreateRgb21(chain, name, description, precision, allocations, e1, now)
         == CreateRgb21(chain, name, description, precision, allocations, e2, now)
  {
  }

  /** Reordering the allocations changes neither the recorded supply nor the
      total assigned; the assignments are reordered with them. */
  lemma SupplyIndependentOfOrder(
    chain: Chain, name: AsciiString, description: AsciiString, precision: u8,
    a1: seq<OutpointValue>, a2: seq<OutpointValue>, engraving: Option<OutPoint>, now: i64)
    requires multiset(a1) == multiset(a2)
    requires Supply(a1) <= U64_MAX
    ensures Supply(a2) == Supply(a1)
    ensures var c1 := CreateRgb21(chain, name, description, precision, a1, engraving, now);
            var c2 := CreateRgb21(chain, name, description, precision, a2, engraving, now);
            && RecordedSupply(c1.genesis) == RecordedSupply(c2.genesis)
            && c1.genesis.metadata == c2.genesis.metadata
            && AssignedTotal(c1.genesis.ownedRights[Assets]) == AssignedTotal(c2.genesis.ownedRights[Assets])
  {
    SumOfPermutation(a1, a2, ValueOf);
  }

  /** An issued genesis is valid under the subschema too, and its schema id
      is the root the subschema declares as its lineage. */
  lemma IssuedGenesisFitsSubschema(
    chain: Chain, name: AsciiString, description: AsciiString, precision: u8,
    allocations: seq<OutpointValue>, engraving: Option<OutPoint>, now: i64)
    requires Supply(allocations) <= U64_MAX
    ensures var c := CreateRgb21(chain, name, description, precision, allocations, engraving, now);
            && ConformsGenesis(c.genesis, SubSchema().genesis)
            && SubSchema().rootId == Some(c.genesis.schemaId)
  {
  }

  /** Issuance with a single allocation of 1 000 000 at precision 8 records
      a supply of 1 000 000 and assigns it whole to that output. */
  lemma SingleAllocationIssue(chain: Chain, seal: OutPoint, now: i64)
    ensures Supply([OutpointValue(seal, 1_000_000)]) == 1_000_000
    ensures var c := CreateRgb21(chain, "TKN", "token", 8, [OutpointValue(seal, 1_000_000)], None, now);
            && RecordedSupply(c.genesis) == Some(1_000_000)
            && c.genesis.ownedRights[Assets] == Value([ValueAssignment(Revealed(seal), 1_000_000)])
  {
    var allocations := [OutpointValue(seal, 1_000_000)];
    assert allocations[1..] == [];
    assert SumOf(allocations[1..], ValueOf) == 0;
    assert ValueOf(allocations[0]) == 1_000_000;
    assert Supply(allocations) == 1_000_000;
    var c := CreateRgb21(chain, "TKN", "token", 8, allocations, None, now);
    var a := c.genesis.ownedRights[Assets].assignments;
    assert |a| == 1 && a[0] == ValueAssignment(Revealed(seal), 1_000_000);
    assert a == [ValueAssignment(Revealed(seal), 1_000_000)];
  }
}
