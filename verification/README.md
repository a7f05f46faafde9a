# RGB121 fungible-asset schemata and issuance, in Dafny

This project models the core of `rust-rgb121`. That core has two parts:

- the RGB121 schemata (`src/schema.rs`), treated as plain data. There are three type catalogs: field types, owned-right types and transition types. From them two schemata are built: the root schema and a subschema that prohibits the engraving operation.
- primary issuance (`src/create.rs`). `create_rgb21` builds a genesis from a name, a description, a precision and a list of allocations, and wraps that genesis in a contract.

The RGB library that checks instances against a schema is not part of this repository, so the model defines those semantics itself:

- `Validation.Conforms` says when an instance conforms to an occurrence table. Every type the instance carries must be known to the table. Every type in the table must occur a number of times its range admits. A type the instance does not carry counts zero, so its range must have minimum 0.
- `Validation.IsRestriction` says when one schema is a structural restriction of another. Every type, declaration and transition of the subschema must also be in the root, with identical data types and state formats. No occurrence range may be wider than the root's.

The schemata themselves are constants, and lemmas prove the properties that issuance and the library's subschema test rely on.

Modules by file:

| file | module | models |
|---|---|---|
| `primitives.dfy` | `Wrappers`, `StrictTypes` | `Option`; `u8`/`u16`/`u64`/`i64` and ASCII strings as subset types |
| `occurrences.dfy` | `Occurrences` | occurrence ranges, the four presets, range narrowing |
| `types.dfy` | `Rgb121Types` | the three enums and their numeric codes |
| `schema_model.dfy` | `RgbSchema` | genesis, transition and full schema records |
| `contract.dfy` | `RgbContract` | seals, allocations, metadata values, assignments, genesis/transition/contract records, sums, `zero_balanced` |
| `validation.dfy` | `Validation` | conformance, well-typedness, the checkers, restriction and its laws |
| `rgb121_schema.dfy` | `Rgb121Schema` | `genesis()`, `issue()`, `schema()`, `subschema()` and their properties |
| `rgb121_create.dfy` | `Rgb121Create` | `create_rgb21` |

Tables are maps keyed by the Dafny enum tags. The numeric codes behind the tags are set by constants in the external library, so they enter the model as a parameter record, `TypeConstants`. That record must satisfy `Compiles`: within one enum the discriminants are pairwise distinct, and `STATE_TYPE_OWNERSHIP_RIGHT + 1` fits in `u16`. The Rust compiler enforces both.

Modelling choices about issuance and the subschema:

- `Rgb121Create.CreateRgb21` takes the six parameters of `create_rgb21` plus the timestamp `now`, which stands in for `Utc::now()` (`src/create.rs:40`). Like `create_rgb21`, it sets no parent id, data or attachments, and it ignores the `engraving` argument.
- `create_rgb21` adds up the allocations with the external `sum()` and does not check the total against the 64-bit issued-supply field. The model makes "the total fits in 64 bits" a precondition.
- The subschema keeps the root's genesis and issue tables. It therefore still allows Engraving rights to be issued, and only drops the Engraving transition (`Rgb121Schema.SubschemaGenesisAllowsEngraving`).

## Model

| member | source | states |
|---|---|---|
| `Occurrences.PresetsValid` | src/schema.rs:127-144 | for every count: `Once` admits it exactly when it is 1, `NoneOrOnce` exactly when it is at most 1, `NoneOrMore` always, `OnceOrMore` exactly when it is at least 1; all four are well-formed ranges |
| `Occurrences.WithinIffAdmitsFewer` | src/schema.rs:352-354 | range narrowing (min not lowered, max not raised) holds exactly when every count the narrower range admits is admitted by the wider one |
| `Occurrences.WithinPreorder` | src/schema.rs:352-354 | narrowing is reflexive and transitive |
| `Rgb121Types.FieldCodeRoundTrip` | src/schema.rs:29-69 | with distinct discriminants, each field type's code maps back to exactly that field type and to no other |
| `Rgb121Types.RightCodesAdjacent` | src/schema.rs:77-90 | Engraving's code is Assets' code plus one, and the two owned-right codes are distinct |
| `Rgb121Types.RightCodeRoundTrip` | src/schema.rs:77-90 | each owned-right code maps back to exactly its owned-right type |
| `Rgb121Types.TransitionCodeRoundTrip` | src/schema.rs:98-114 | each transition code maps back to exactly its transition type |
| `RgbContract.SumOfAppend` | src/create.rs:48 | the total of two concatenated lists is the sum of their totals |
| `RgbContract.SumOfRemove` | src/create.rs:48 | taking the summand at any position out of a list lowers its total by exactly that summand |
| `RgbContract.SumOfPermutation` | src/create.rs:48 | a total does not depend on the order of the summands: two lists with the same multiset have the same total |
| `RgbContract.SumOfPointwise` | src/create.rs:52-59 | two lists that agree position by position have the same total |
| `RgbContract.ZeroBalanced` | src/create.rs:52-59 | one assignment per revealed allocation in order, then one per concealed allocation; the assigned total is the sum of both; the assignments balance the inputs exactly when the inputs' total equals that sum |
| `Validation.CheckTable` | src/schema.rs:130-144 | every reported failure is a real violation; every unknown type and every out-of-range count is reported; the report is empty exactly when the instance conforms |
| `Validation.UndeclaredRights` | src/schema.rs:145 | exactly the public rights the instance carries but the schema does not allow are reported |
| `Validation.ValidateGenesis` | src/schema.rs:126-147 | the reported failures are exactly the genuine violations: each unknown field or right, each out-of-range count, each undeclared public right. So a genesis draws no failure exactly when its metadata, owned rights and public rights conform to the genesis schema |
| `Validation.ValidateTransition` | src/schema.rs:179-205 | an undeclared type is reported alone. Otherwise the reported failures are exactly the genuine violations of that type's metadata, closes, owned-rights and public-rights tables. So a transition draws no failure exactly when its type is declared and it conforms |
| `Validation.TableRestrictionAcceptsLess` | src/schema.rs:352-354 | a narrower table that omits no required slot accepts nothing the wider table rejects |
| `Validation.RestrictionAcceptsLess` | src/schema.rs:246-298 | when `sub` restricts `root` and omits no required slot, every genesis and transition that `sub` accepts is accepted by `root` |
| `Validation.RestrictionReflexive` | src/schema.rs:352-354 | every schema is a restriction of itself |
| `Validation.DroppingTransitionsRestricts` | src/schema.rs:257-269 | removing whole transition types and re-declaring the lineage yields a restriction that omits no required slot |
| `Validation.TableLaw` | src/schema.rs:352-354 | after one range of a table that fits within the root's is replaced, the table still fits exactly when the new range is a slot the root knows and lies within it. Narrowing keeps the fit; widening past the root, or adding an unknown slot, breaks it; removing a slot keeps it |
| `Validation.GenesisFieldLaw` | src/schema.rs:352-354 | the table law for the genesis metadata table: the changed schema is still a restriction exactly when the new range fits the root's slot; removing a slot keeps the restriction |
| `Validation.GenesisRightLaw` | src/schema.rs:352-354 | the same law for the genesis owned-rights table |
| `Validation.TransitionLaw` | src/schema.rs:352-354 | replacing one transition schema keeps the restriction exactly when the root has that transition type and the new schema fits the root's |
| `Validation.TransitionFieldLaw` | src/schema.rs:352-354 | the table law for one transition type's metadata table |
| `Validation.TransitionClosesLaw` | src/schema.rs:352-354 | the table law for one transition type's closes table |
| `Validation.TransitionRightLaw` | src/schema.rs:352-354 | the table law for one transition type's owned-rights table |
| `Validation.FieldDeclarationLaw` | src/schema.rs:352-354 | (re)declaring a field type keeps the restriction exactly when the root declares that field with the same data type; an undeclared field type or a changed `TypeRef` breaks it |
| `Validation.RightDeclarationLaw` | src/schema.rs:352-354 | (re)declaring an owned-right type keeps the restriction exactly when the root declares that right with the same state format |
| `Rgb121Schema.GenesisFieldsShape` | src/schema.rs:130-139 | counts conform to the genesis metadata table exactly when name, precision, timestamp and issued supply occur once, Ricardian contract, description, data format and parent id at most once; data is unrestricted and no field is unknown |
| `Rgb121Schema.AnyAssignmentsShape` | src/schema.rs:141-144 | the owned-rights table giving both assets and engraving `NoneOrMore` admits every assignment count |
| `Rgb121Schema.IssueFieldsShape` | src/schema.rs:152-158 | counts conform to the issue metadata table exactly when only issued supply, data and data format occur, issued supply once and data format at most once |
| `Rgb121Schema.TransferClosesShape` | src/schema.rs:183-185 | counts conform to the transfer closes table exactly when only assets are closed, at least once |
| `Rgb121Schema.TransferRightsShape` | src/schema.rs:186-188 | counts conform to the transfer owned-rights table exactly when only assets are assigned |
| `Rgb121Schema.EngravingFieldsShape` | src/schema.rs:191-194 | counts conform to the engraving metadata table exactly when only data and data format occur, data format at most once |
| `Rgb121Schema.EngravingClosesShape` | src/schema.rs:195-198 | counts conform to the engraving closes table exactly when at least one assets assignment is closed |
| `Rgb121Schema.GenesisTableShape` | src/schema.rs:126-147 | a genesis conforms exactly when it has one name, precision, timestamp and issued supply; at most one Ricardian contract, description, data format and parent id; and no public rights. Data and both owned rights are unrestricted |
| `Rgb121Schema.IssueTableShape` | src/schema.rs:149-167 | an issue transition conforms exactly when it closes nothing, carries only issued supply (once), data and data format (at most once), and no public rights |
| `Rgb121Schema.TransferTableShape` | src/schema.rs:181-190 | a transfer conforms exactly when it has no metadata, closes only assets (at least one), creates only assets, and has no public rights |
| `Rgb121Schema.EngravingTableShape` | src/schema.rs:191-205 | an engraving transition conforms to the root exactly when its metadata is only data and at most one data format, it closes at least one assets assignment, and it has no public rights |
| `Rgb121Schema.TransferNeverTouchesEngraving` | src/schema.rs:181-190 | a transfer valid under either schema neither closes nor creates an engraving assignment |
| `Rgb121Schema.SubschemaSameAsRootWithoutEngraving` | src/schema.rs:257-269 | for every transition type, issue and transfer included, the subschema accepts a transition exactly when the root accepts it and it is not an engraving |
| `Rgb121Schema.RootSchemaWellFormed` | src/schema.rs:169-244 | every range in the root schema has min no greater than max, and every field and owned-right type its genesis and transitions use is declared in its field types and owned-right types |
| `Rgb121Schema.SubschemaWellFormed` | src/schema.rs:246-298 | the same for the subschema: its ranges are well-formed and every type it uses is declared |
| `Rgb121Schema.SubschemaIsRootWithoutEngraving` | src/schema.rs:247-298 | the subschema equals the root schema with the engraving transition removed and the root's id as its lineage; genesis, issue, transfer and type declarations are identical |
| `Rgb121Schema.SubschemaVerifies` | src/schema.rs:352-354 | the subschema is a restriction of the root: its types, declarations and ranges are all in the root and no wider, and it omits no slot the root requires |
| `Rgb121Schema.SubschemaAcceptsLess` | src/schema.rs:246-298 | any genesis or transition the subschema accepts, the root schema accepts too |
| `Rgb121Schema.SubschemaProhibitsEngraving` | src/schema.rs:246-269 | the subschema rejects every engraving transition |
| `Rgb121Schema.SubschemaGenesisAllowsEngraving` | src/schema.rs:255 | the subschema shares the root's genesis table, so a valid genesis stays valid under it with any engraving assignments added |
| `Rgb121Schema.SubschemaIdDiffersFromLineage` | src/schema.rs:15-21 | the identifier the subschema is pinned to differs from the root identifier, which it names as its lineage |
| `Rgb121Schema.Lineage` | src/schema.rs:250-253 | the root schema has no root id (line 175); the subschema's root id is the root schema's identifier |
| `Rgb121Create.IssueMetadata` | src/create.rs:41-61 | issuance metadata has exactly the keys name, description, precision, timestamp and issued supply, each holding its one given value; it conforms to the genesis metadata table and every value has its declared data type |
| `Rgb121Create.IssueFieldsConform` | src/create.rs:41-61 | any metadata with exactly those five fields, one value each, satisfies the genesis metadata table |
| `Rgb121Create.IssueFieldsWellTyped` | src/create.rs:41-46 | name and description are ASCII strings, precision a `u8`, timestamp an `i64` and issued supply a `u64`, as the root schema declares |
| `Rgb121Create.RecordedSupplyOf` | src/create.rs:61 | a genesis whose issued-supply field holds the single value `v` records `v` as its supply |
| `Rgb121Create.AssetsOnlyFits` | src/create.rs:49-60 | owned rights holding only an Assets value assignment, with any number of assignments, satisfy the root genesis owned-rights table and the state kind each right declares |
| `Rgb121Create.IssuedAssets` | src/create.rs:48-59 | one revealed assignment per allocation, in order, of the same amount. Together they balance the single revealed issued-supply input, so the assigned total is the issued supply, and the state kind is the one the assets right declares |
| `Rgb121Create.CreateRgb21` | src/create.rs:31-87 | the recorded issued supply is the sum of the allocations. Owned rights hold only Assets, with one revealed assignment per allocation, and that assignment balances the single revealed supply input, so value is conserved. The genesis conforms to, and is well typed for, the root schema; it carries the root schema id and no public rights. The contract's schema is the root schema, it names no separate root schema, and it has no endpoints, transitions or extensions |
| `Rgb121Create.EngravingIgnored` | src/create.rs:63-74 | the contract does not depend on the `engraving` argument |
| `Rgb121Create.SupplyIndependentOfOrder` | src/create.rs:48-57 | reordering the allocations changes neither the recorded supply, nor the metadata, nor the assigned total |
| `Rgb121Create.IssuedGenesisFitsSubschema` | src/create.rs:76-84 | an issued genesis also conforms to the subschema, and its schema id is the lineage the subschema declares |
| `Rgb121Create.SingleAllocationIssue` | src/create.rs:48-61 | issuing one allocation of 1 000 000 records a supply of 1 000 000 and assigns that whole amount to the given output |

## Left out

- Transfer building is not part of this model. The `asset` and `transitions` modules named in `src/lib.rs` are not included, so transfer-side value conservation is not modelled. The Transfer transition's table is modelled (`Rgb121Schema.TransferTableShape`).
- The command-line tool (`src/bin/rgb121.rs`) is not modelled: argument parsing, file load and save, and YAML/JSON output. Its call to `create_rgb121` takes eight arguments and does not match the six-argument `create_rgb21`.
- Schema identifiers are opaque. Hashing, bech32 rendering and strict encoding live in external crates. The root schema id is the constant that the tests at `src/schema.rs:309-327` pin it to.
- Determinism of `schema()`/`subschema()` is not stated as a lemma. Dafny functions are deterministic by construction. The encode/decode round trip (`src/schema.rs:329-349`) belongs to the external codec.
- `type_system()`, `rgb_features`, `script`, `override_rules` and the empty `extensions` of the schema are not modelled. They are identical in the two schemata, and the restriction relation does not depend on them.
- Pedersen commitments and blinding factors (`ONE_KEY`, the blinding chosen by `zero_balanced`) are not modelled. Values are plain amounts, and "balanced" means the amounts sum to the same total.
- The clock (`Utc::now()`) is not read: the timestamp is a parameter.
- The numeric values of the `FIELD_TYPE_*`, `STATE_TYPE_*` and `TRANSITION_TYPE_*` constants are not modelled. They are external and appear only as the `TypeConstants` parameter.
- Rgb121Create.CreateRgb21: requires the allocation total to fit in `u64` rather than modelling the overflow behaviour of the external `sum()`.
- Rgb121Create.IssuedAssets: carries the same requirement that the allocation total fit in `u64`, for the same reason.
- Rgb121Create.EngravingIgnored: carries the same `u64` total requirement, because it is a statement about `CreateRgb21`.
- Rgb121Create.SupplyIndependentOfOrder: carries the same `u64` total requirement (on the first ordering; the lemma proves the second has the same total).
- Rgb121Create.IssuedGenesisFitsSubschema: carries the same `u64` total requirement, because it is a statement about `CreateRgb21`.
- `into_seal_value_map` is external. It keys allocations by blinded seals, whose order depends on random blinding. The model keeps the caller's order and one assignment per allocation; `Rgb121Create.SupplyIndependentOfOrder` shows that the totals do not depend on that order.
- Occurrence counts are unbounded naturals. The library's count width is not modelled.
- Validation.IsRestriction: is a yes/no predicate; it does not list each violation as the library's status report does.
- Instances are keyed by the RGB121 type tags (`FieldType`, `OwnedRightType`, `TransitionType`). A genesis or transition carrying a type code outside that catalog cannot be expressed, so rejection of an unknown type is modelled only for the tags a table omits. Because the genesis tables list every tag, "no unknown field" in `Rgb121Schema.GenesisFieldsShape` and `Rgb121Schema.GenesisTableShape` holds by the key type.
- `Chain` and transaction ids are opaque values; network selection is not modelled.
