/** Schema semantics: when a genesis or transition conforms to a schema's
    occurrence tables, when one schema is a structural restriction of
    another, and executable checkers that report every violation. */
module Validation {
  import opened Occurrences
  import opened Rgb121Types
  import opened RgbSchema
  import opened RgbContract

  // ---------------------------------------------------------------------
  // Instance conformance

  /** How many items of type `k` an instance carries; an absent key carries none. */
  function CountOf<K>(counts: map<K, nat>, k: K): nat {
    if k in counts then counts[k] else 0
  }

  /** Every type present in the instance is known to the table, and every
      type of the table occurs a number of times its range admits (an absent
      type counts zero, so it must have minimum 0). */
  predicate Conforms<K>(counts: map<K, nat>, table: map<K, Occurrence>) {
    && counts.Keys <= table.Keys
    && forall k :: k in table ==> table[k].Admits(CountOf(counts, k))
  }

  /** Item counts of a map from type to a list of items. */
  function ListCounts<K, V>(m: map<K, seq<V>>): (c: map<K, nat>)
    ensures c.Keys == m.Keys
  {
    map k | k in m :: |m[k]|
  }

  /** Assignment counts of a map from owned-right type to its assignments. */
  function AssignmentCounts(m: map<OwnedRightType, TypedAssignments>): (c: map<OwnedRightType, nat>)
    ensures c.Keys == m.Keys
  {
    map k | k in m :: m[k].Count()
  }

  /** An empty table admits only the instance that carries nothing. */
  lemma EmptyTableShape<K>(counts: map<K, nat>)
    ensures Conforms(counts, map[]) <==> counts.Keys == {}
  {
    if counts.Keys != {} {
      var k :| k in counts.Keys;
      var empty: map<K, Occurrence> := map[];
      assert k !in empty;
    }
  }

  predicate ConformsGenesis(g: Genesis, s: GenesisSchema) {
    && Conforms(ListCounts(g.metadata), s.metadata)
    && Conforms(AssignmentCounts(g.ownedRights), s.ownedRights)
    && g.publicRights <= s.publicRights
  }

  /** The transition's type is declared by `s` and the transition conforms to
      that type's metadata, closes, owned-rights and public-rights tables. */
  predicate ConformsTransition(t: Transition, s: Schema) {
    && t.transitionType in s.transitions
    && var ts := s.transitions[t.transitionType];
       && Conforms(ListCounts(t.metadata), ts.metadata)
       && Conforms(ListCounts(t.closes), ts.closes)
       && Conforms(AssignmentCounts(t.ownedRights), ts.ownedRights)
       && t.publicRights <= ts.publicRights
  }

  /** Every metadata value has the data type `s` declares for its field. */
  predicate MetadataWellTyped(m: map<FieldType, seq<FieldValue>>, s: Schema) {
    forall k :: k in m ==> k in s.fieldTypes && forall v :: v in m[k] ==> HasType(v, s.fieldTypes[k])
  }

  /** Every owned-right entry has the state kind `s` declares for its type. */
  predicate RightsWellTyped(m: map<OwnedRightType, TypedAssignments>, s: Schema) {
    forall k :: k in m ==> k in s.ownedRightTypes && StateMatches(m[k], s.ownedRightTypes[k])
  }

  // ---------------------------------------------------------------------
  // Checkers

  datatype TableFailure<K> =
    | UnknownType(key: K)
    | OccurrenceOutOfBounds(key: K, actual: nat, expected: Occurrence)

  /** `f` reports a real violation of `table` by `counts`. */
  predicate Genuine<K>(f: TableFailure<K>, counts: map<K, nat>, table: map<K, Occurrence>) {
    match f
    case UnknownType(k) => k in counts && k !in table
    case OccurrenceOutOfBounds(k, n, o) =>
      k in table && o == table[k] && n == CountOf(counts, k) && !o.Admits(n)
  }

  /** Checks one table, reporting every unknown type and every out-of-range count. */
  method CheckTable<K>(counts: map<K, nat>, table: map<K, Occurrence>) returns (failures: seq<TableFailure<K>>)
    ensures forall f :: f in failures ==> Genuine(f, counts, table)
    ensures forall k :: k in counts && k !in table ==> UnknownType(k) in failures
    ensures forall k :: k in table && !table[k].Admits(CountOf(counts, k)) ==>
              OccurrenceOutOfBounds(k, CountOf(counts, k), table[k]) in failures
    ensures failures == [] <==> Conforms(counts, table)
    ensures forall f :: f in failures <==> Genuine(f, counts, table)
  {
    failures := [];
    var unchecked := counts.Keys;
    while unchecked != {}
      invariant unchecked <= counts.Keys
      invariant forall f :: f in failures ==> Genuine(f, counts, table)
      invariant forall k :: k in counts && k !in unchecked && k !in table ==> UnknownType(k) in failures
      decreases unchecked
    {
      var k :| k in unchecked;
      if k !in table {
        failures := failures + [UnknownType(k)];
      }
      unchecked := unchecked - {k};
    }
    var pending := table.Keys;
    while pending != {}
      invariant pending <= table.Keys
      invariant forall f :: f in failures ==> Genuine(f, counts, table)
      invariant forall k :: k in counts && k !in table ==> UnknownType(k) in failures
      invariant forall k :: k in table && k !in pending && !table[k].Admits(CountOf(counts, k)) ==>
                  OccurrenceOutOfBounds(k, CountOf(counts, k), table[k]) in failures
      decreases pending
    {
      var k :| k in pending;
      var n := CountOf(counts, k);
      if !table[k].Admits(n) {
        failures := failures + [OccurrenceOutOfBounds(k, n, table[k])];
      }
      pending := pending - {k};
    }
    if failures != [] {
      assert Genuine(failures[0], counts, table);
    }
    forall f | Genuine(f, counts, table) ensures f in failures {
      match f
      case UnknownType(k) =>
      case OccurrenceOutOfBounds(k, n, o) =>
    }
  }

  /** Lists the public rights an instance carries that the schema does not allow. */
  method UndeclaredRights(present: set<PublicRightType>, allowed: set<PublicRightType>)
    returns (undeclared: seq<PublicRightType>)
    ensures forall r :: r in undeclared <==> r in present && r !in allowed
  {
    undeclared := [];
    var unchecked := present;
    while unchecked != {}
      invariant unchecked <= present
      invariant forall r :: r in undeclared <==> r in present - unchecked && r !in allowed
      decreases unchecked
    {
      var r :| r in unchecked;
      if r !in allowed {
        undeclared := undeclared + [r];
      }
      unchecked := unchecked - {r};
    }
  }

  /** A validation failure of a genesis or a transition. */
  datatype Failure =
    | UnknownTransitionType(transitionType: TransitionType)
    | FieldFailure(field: TableFailure<FieldType>)
    | ClosedRightFailure(closed: TableFailure<OwnedRightType>)
    | OwnedRightFailure(owned: TableFailure<OwnedRightType>)
    | UndeclaredPublicRight(publicRight: PublicRightType)

  /** `f` is a real violation of genesis schema `s` by `g`. */
  predicate GenuineGenesisFailure(f: Failure, g: Genesis, s: GenesisSchema) {
    match f
    case FieldFailure(ff) => Genuine(ff, ListCounts(g.metadata), s.metadata)
    case OwnedRightFailure(ff) => Genuine(ff, AssignmentCounts(g.ownedRights), s.ownedRights)
    case UndeclaredPublicRight(r) => r in g.publicRights && r !in s.publicRights
    case _ => false
  }

  /** `f` is a real violation of schema `s` by `t`: its type is undeclared,
      or, the type being declared, `t` violates one of that type's tables. */
  predicate GenuineTransitionFailure(f: Failure, t: Transition, s: Schema) {
    if t.transitionType !in s.transitions then f == UnknownTransitionType(t.transitionType)
    else
      var ts := s.transitions[t.transitionType];
      match f
      case UnknownTransitionType(_) => false
      case FieldFailure(ff) => Genuine(ff, ListCounts(t.metadata), ts.metadata)
      case ClosedRightFailure(ff) => Genuine(ff, ListCounts(t.closes), ts.closes)
      case OwnedRightFailure(ff) => Genuine(ff, AssignmentCounts(t.ownedRights), ts.ownedRights)
      case UndeclaredPublicRight(r) => r in t.publicRights && r !in ts.publicRights
  }

  /** Metadata table failures, tagged as such. */
  function FieldFailures(fs: seq<TableFailure<FieldType>>): (r: seq<Failure>)
    ensures forall f :: f in r <==> f.FieldFailure? && f.field in fs
    ensures |r| == |fs|
  {
    if |fs| == 0 then [] else [FieldFailure(fs[0])] + FieldFailures(fs[1..])
  }

  /** Closes table failures, tagged as such. */
  function ClosedRightFailures(fs: seq<TableFailure<OwnedRightType>>): (r: seq<Failure>)
    ensures forall f :: f in r <==> f.ClosedRightFailure? && f.closed in fs
    ensures |r| == |fs|
  {
    if |fs| == 0 then [] else [ClosedRightFailure(fs[0])] + ClosedRightFailures(fs[1..])
  }

  /** Owned-rights table failures, tagged as such. */
  function OwnedRightFailures(fs: seq<TableFailure<OwnedRightType>>): (r: seq<Failure>)
    ensures forall f :: f in r <==> f.OwnedRightFailure? && f.owned in fs
    ensures |r| == |fs|
  {
    if |fs| == 0 then [] else [OwnedRightFailure(fs[0])] + OwnedRightFailures(fs[1..])
  }

  /** Undeclared public rights, tagged as such. */
  function PublicRightFailures(rs: seq<PublicRightType>): (r: seq<Failure>)
    ensures forall f :: f in r <==> f.UndeclaredPublicRight? && f.publicRight in rs
    ensures |r| == |rs|
  {
    if |rs| == 0 then [] else [UndeclaredPublicRight(rs[0])] + PublicRightFailures(rs[1..])
  }

  /** Validates a genesis against a genesis schema: exactly the genuine
      violations are reported, so none is reported exactly when the genesis
      conforms. */
  method ValidateGenesis(g: Genesis, s: GenesisSchema) returns (failures: seq<Failure>)
    ensures forall f :: f in failures <==> GenuineGenesisFailure(f, g, s)
    ensures failures == [] <==> ConformsGenesis(g, s)
  {
    var fields := CheckTable(ListCounts(g.metadata), s.metadata);
    var owned := CheckTable(AssignmentCounts(g.ownedRights), s.ownedRights);
    var public := UndeclaredRights(g.publicRights, s.publicRights);
    if public != [] {
      assert public[0] in public;
    }
    failures := FieldFailures(fields) + OwnedRightFailures(owned) + PublicRightFailures(public);
    forall f ensures f in failures <==> GenuineGenesisFailure(f, g, s) {
      match f
      case FieldFailure(ff) => assert f in failures <==> ff in fields;
      case OwnedRightFailure(ff) => assert f in failures <==> ff in owned;
      case UndeclaredPublicRight(r) => assert f in failures <==> r in public;
      case UnknownTransitionType(_) => assert f !in failures;
      case ClosedRightFailure(_) => assert f !in failures;
    }
    if fields != [] {
      assert FieldFailure(fields[0]) in failures;
    }
    if owned != [] {
      assert OwnedRightFailure(owned[0]) in failures;
    }
    if public != [] {
      assert UndeclaredPublicRight(public[0]) in failures;
    }
  }

  /** The tagged reports of a declared transition's four tables are
      exactly its genuine violations. */
  lemma TransitionReport(
    t: Transition, s: Schema,
    fields: seq<TableFailure<FieldType>>, closed: seq<TableFailure<OwnedRightType>>,
    owned: seq<TableFailure<OwnedRightType>>, public: seq<PublicRightType>)
    requires t.transitionType in s.transitions
    requires var ts := s.transitions[t.transitionType];
             && (forall f :: f in fields <==> Genuine(f, ListCounts(t.metadata), ts.metadata))
             && (forall f :: f in closed <==> Genuine(f, ListCounts(t.closes), ts.closes))
             && (forall f :: f in owned <==> Genuine(f, AssignmentCounts(t.ownedRights), ts.ownedRights))
             && (forall r :: r in public <==> r in t.publicRights && r !in ts.publicRights)
    ensures var failures := FieldFailures(fields) + ClosedRightFailures(closed)
                          + OwnedRightFailures(owned) + PublicRightFailures(public);
            forall f :: f in failures <==> GenuineTransitionFailure(f, t, s)
  {
    var failures := FieldFailures(fields) + ClosedRightFailures(closed)
                  + OwnedRightFailures(owned) + PublicRightFailures(public);
    forall f ensures f in failures <==> GenuineTransitionFailure(f, t, s) {
      match f
      case FieldFailure(ff) => assert f in failures <==> ff in fields;
      case ClosedRightFailure(ff) => assert f in failures <==> ff in closed;
      case OwnedRightFailure(ff) => assert f in failures <==> ff in owned;
      case UndeclaredPublicRight(r) => assert f in failures <==> r in public;
      case UnknownTransitionType(_) => assert f !in failures;
    }
  }

  /** Validates a transition against the schema: an undeclared transition
      type is reported alone; otherwise exactly the genuine table violations
      are reported. */
  method ValidateTransition(t: Transition, s: Schema) returns (failures: seq<Failure>)
    ensures forall f :: f in failures <==> GenuineTransitionFailure(f, t, s)
    ensures failures == [] <==> ConformsTransition(t, s)
    ensures t.transitionType !in s.transitions ==> failures == [UnknownTransitionType(t.transitionType)]
  {
    if t.transitionType !in s.transitions {
      return [UnknownTransitionType(t.transitionType)];
    }
    var ts := s.transitions[t.transitionType];
    var fields := CheckTable(ListCounts(t.metadata), ts.metadata);
    var closed := CheckTable(ListCounts(t.closes), ts.closes);
    var owned := CheckTable(AssignmentCounts(t.ownedRights), ts.ownedRights);
    var public := UndeclaredRights(t.publicRights, ts.publicRights);
    TransitionReport(t, s, fields, closed, owned, public);
    failures := FieldFailures(fields) + ClosedRightFailures(closed)
              + OwnedRightFailures(owned) + PublicRightFailures(public);
    if public != [] {
      assert public[0] in public;
    }
  }

  // ---------------------------------------------------------------------
  // Restriction of one schema by another

  /** Every slot of `sub` is a slot of `root`, with a range no wider. */
  predicate TableWithin<K>(sub: map<K, Occurrence>, root: map<K, Occurrence>) {
    && sub.Keys <= root.Keys
    && forall k :: k in sub ==> Within(sub[k], root[k])
  }

  /** Every declaration of `sub` is present, and identical, in `root`. */
  predicate SameDeclarations<K, V(==)>(sub: map<K, V>, root: map<K, V>) {
    forall k :: k in sub ==> k in root && sub[k] == root[k]
  }

  predicate GenesisWithin(sub: GenesisSchema, root: GenesisSchema) {
    && TableWithin(sub.metadata, root.metadata)
    && TableWithin(sub.ownedRights, root.ownedRights)
    && sub.publicRights <= root.publicRights
  }

  predicate TransitionWithin(sub: TransitionSchema, root: TransitionSchema) {
    && TableWithin(sub.metadata, root.metadata)
    && TableWithin(sub.closes, root.closes)
    && TableWithin(sub.ownedRights, root.ownedRights)
    && sub.publicRights <= root.publicRights
  }

  /** `sub` is a structural restriction of `root`: it introduces no type
      code, declaration or transition type absent from `root`, declares
      every shared type identically, and widens no occurrence range. */
  predicate IsRestriction(sub: Schema, root: Schema) {
    && SameDeclarations(sub.fieldTypes, root.fieldTypes)
    && SameDeclarations(sub.ownedRightTypes, root.ownedRightTypes)
    && sub.publicRightTypes <= root.publicRightTypes
    && GenesisWithin(sub.genesis, root.genesis)
    && sub.transitions.Keys <= root.transitions.Keys
    && forall t :: t in sub.transitions ==> TransitionWithin(sub.transitions[t], root.transitions[t])
  }

  /** Slots `sub` omits are optional in `root`. A restriction may omit a
      slot `root` requires; it then accepts instances `root` rejects. */
  predicate KeepsRequired<K>(sub: map<K, Occurrence>, root: map<K, Occurrence>) {
    forall k :: k in root && k !in sub ==> root[k].min == 0
  }

  predicate KeepsRequiredSlots(sub: Schema, root: Schema) {
    && KeepsRequired(sub.genesis.metadata, root.genesis.metadata)
    && KeepsRequired(sub.genesis.ownedRights, root.genesis.ownedRights)
    && forall t :: t in sub.transitions && t in root.transitions ==>
         && KeepsRequired(sub.transitions[t].metadata, root.transitions[t].metadata)
         && KeepsRequired(sub.transitions[t].closes, root.transitions[t].closes)
         && KeepsRequired(sub.transitions[t].ownedRights, root.transitions[t].ownedRights)
  }

  /** A narrower table accepts no instance the wider one rejects. */
  lemma TableRestrictionAcceptsLess<K>(counts: map<K, nat>, sub: map<K, Occurrence>, root: map<K, Occurrence>)
    requires TableWithin(sub, root) && KeepsRequired(sub, root)
    requires Conforms(counts, sub)
    ensures Conforms(counts, root)
  {
    forall k | k in root
      ensures root[k].Admits(CountOf(counts, k))
    {
      if k in sub {
        assert sub[k].Admits(CountOf(counts, k));
      } else {
        assert k !in counts;
      }
    }
  }

  /** What a restriction buys its users: every genesis and every transition
      the restricted schema accepts, the root schema accepts too. */
  lemma RestrictionAcceptsLess(sub: Schema, root: Schema, g: Genesis, t: Transition)
    requires IsRestriction(sub, root) && KeepsRequiredSlots(sub, root)
    ensures ConformsGenesis(g, sub.genesis) ==> ConformsGenesis(g, root.genesis)
    ensures ConformsTransition(t, sub) ==> ConformsTransition(t, root)
  {
    if ConformsGenesis(g, sub.genesis) {
      TableRestrictionAcceptsLess(ListCounts(g.metadata), sub.genesis.metadata, root.genesis.metadata);
      TableRestrictionAcceptsLess(AssignmentCounts(g.ownedRights), sub.genesis.ownedRights, root.genesis.ownedRights);
    }
    if ConformsTransition(t, sub) {
      var s := sub.transitions[t.transitionType];
      var r := root.transitions[t.transitionType];
      TableRestrictionAcceptsLess(ListCounts(t.metadata), s.metadata, r.metadata);
      TableRestrictionAcceptsLess(ListCounts(t.closes), s.closes, r.closes);
      TableRestrictionAcceptsLess(AssignmentCounts(t.ownedRights), s.ownedRights, r.ownedRights);
    }
  }

  /** Every schema is a restriction of itself. */
  lemma RestrictionReflexive(s: Schema)
    ensures IsRestriction(s, s) && KeepsRequiredSlots(s, s)
  {
    forall t | t in s.transitions
      ensures TransitionWithin(s.transitions[t], s.transitions[t])
    {
      var ts := s.transitions[t];
      assert forall k :: k in ts.metadata ==> Within(ts.metadata[k], ts.metadata[k]);
      assert forall k :: k in ts.closes ==> Within(ts.closes[k], ts.closes[k]);
      assert forall k :: k in ts.ownedRights ==> Within(ts.ownedRights[k], ts.ownedRights[k]);
    }
  }

  /** Dropping whole transition types (and re-declaring the lineage) keeps a
      schema a restriction of the original, with no required slot lost. */
  lemma DroppingTransitionsRestricts(root: Schema, dropped: set<TransitionType>, rootId: Wrappers.Option<SchemaId>)
    ensures IsRestriction(root.(rootId := rootId, transitions := root.transitions - dropped), root)
    ensures KeepsRequiredSlots(root.(rootId := rootId, transitions := root.transitions - dropped), root)
  {
    RestrictionReflexive(root);
  }

  /** Changing one range of a table that fits within `root`: the result
      still fits iff the new range is a known slot of `root` and lies within
      it. So narrowing a range never breaks the fit, while widening it past
      `root`, or adding a slot `root` does not know, always does. Removing a
      slot keeps the fit. */
  lemma TableLaw<K>(sub: map<K, Occurrence>, root: map<K, Occurrence>, k: K, o: Occurrence)
    requires TableWithin(sub, root)
    ensures TableWithin(sub[k := o], root) <==> k in root && Within(o, root[k])
    ensures TableWithin(sub - {k}, root)
  {
    var changed := sub[k := o];
    if k in root && Within(o, root[k]) {
      forall j | j in changed ensures Within(changed[j], root[j]) {
        if j != k {
          assert changed[j] == sub[j];
        }
      }
    }
    var removed := sub - {k};
    forall j | j in removed ensures Within(removed[j], root[j]) {
      assert removed[j] == sub[j];
    }
  }

  /** The table law for the genesis metadata table of a restriction. */
  lemma GenesisFieldLaw(sub: Schema, root: Schema, k: FieldType, o: Occurrence)
    requires IsRestriction(sub, root)
    ensures IsRestriction(sub.(genesis := sub.genesis.(metadata := sub.genesis.metadata[k := o])), root)
            <==> k in root.genesis.metadata && Within(o, root.genesis.metadata[k])
    ensures IsRestriction(sub.(genesis := sub.genesis.(metadata := sub.genesis.metadata - {k})), root)
  {
    TableLaw(sub.genesis.metadata, root.genesis.metadata, k, o);
  }

  /** The table law for the genesis owned-rights table of a restriction. */
  lemma GenesisRightLaw(sub: Schema, root: Schema, k: OwnedRightType, o: Occurrence)
    requires IsRestriction(sub, root)
    ensures IsRestriction(sub.(genesis := sub.genesis.(ownedRights := sub.genesis.ownedRights[k := o])), root)
            <==> k in root.genesis.ownedRights && Within(o, root.genesis.ownedRights[k])
    ensures IsRestriction(sub.(genesis := sub.genesis.(ownedRights := sub.genesis.ownedRights - {k})), root)
  {
    TableLaw(sub.genesis.ownedRights, root.genesis.ownedRights, k, o);
  }

  /** `s` with the schema of transition type `t` replaced by `ts`. */
  function WithTransition(s: Schema, t: TransitionType, ts: TransitionSchema): Schema {
    s.(transitions := s.transitions[t := ts])
  }

  /** Replacing one transition schema of a restriction: the result is still
      a restriction iff the new transition schema fits the root's. */
  lemma TransitionLaw(sub: Schema, root: Schema, t: TransitionType, ts: TransitionSchema)
    requires IsRestriction(sub, root)
    ensures IsRestriction(WithTransition(sub, t, ts), root)
            <==> t in root.transitions && TransitionWithin(ts, root.transitions[t])
  {
    var s' := WithTransition(sub, t, ts);
    if t in root.transitions && TransitionWithin(ts, root.transitions[t]) {
      forall u | u in s'.transitions ensures TransitionWithin(s'.transitions[u], root.transitions[u]) {
        if u != t {
          assert s'.transitions[u] == sub.transitions[u];
        }
      }
    }
  }

  /** The table law for the metadata table of transition type `t`. */
  lemma TransitionFieldLaw(sub: Schema, root: Schema, t: TransitionType, k: FieldType, o: Occurrence)
    requires IsRestriction(sub, root) && t in sub.transitions
    ensures var ts := sub.transitions[t];
            IsRestriction(WithTransition(sub, t, ts.(metadata := ts.metadata[k := o])), root)
            <==> k in root.transitions[t].metadata && Within(o, root.transitions[t].metadata[k])
    ensures var ts := sub.transitions[t];
            IsRestriction(WithTransition(sub, t, ts.(metadata := ts.metadata - {k})), root)
  {
    var ts := sub.transitions[t];
    TableLaw(ts.metadata, root.transitions[t].metadata, k, o);
    TransitionLaw(sub, root, t, ts.(metadata := ts.metadata[k := o]));
    TransitionLaw(sub, root, t, ts.(metadata := ts.metadata - {k}));
  }

  /** The table law for the closes table of transition type `t`. */
  lemma TransitionClosesLaw(sub: Schema, root: Schema, t: TransitionType, k: OwnedRightType, o: Occurrence)
    requires IsRestriction(sub, root) && t in sub.transitions
    ensures var ts := sub.transitions[t];
            IsRestriction(WithTransition(sub, t, ts.(closes := ts.closes[k := o])), root)
            <==> k in root.transitions[t].closes && Within(o, root.transitions[t].closes[k])
    ensures var ts := sub.transitions[t];
            IsRestriction(WithTransition(sub, t, ts.(closes := ts.closes - {k})), root)
  {
    var ts := sub.transitions[t];
    TableLaw(ts.closes, root.transitions[t].closes, k, o);
    TransitionLaw(sub, root, t, ts.(closes := ts.closes[k := o]));
    TransitionLaw(sub, root, t, ts.(closes := ts.closes - {k}));
  }

  /** The table law for the owned-rights table of transition type `t`. */
  lemma TransitionRightLaw(sub: Schema, root: Schema, t: TransitionType, k: OwnedRightType, o: Occurrence)
    requires IsRestriction(sub, root) && t in sub.transitions
    ensures var ts := sub.transitions[t];
            IsRestriction(WithTransition(sub, t, ts.(ownedRights := ts.ownedRights[k := o])), root)
            <==> k in root.transitions[t].ownedRights && Within(o, root.transitions[t].ownedRights[k])
    ensures var ts := sub.transitions[t];
            IsRestriction(WithTransition(sub, t, ts.(ownedRights := ts.ownedRights - {k})), root)
  {
    var ts := sub.transitions[t];
    TableLaw(ts.ownedRights, root.transitions[t].ownedRights, k, o);
    TransitionLaw(sub, root, t, ts.(ownedRights := ts.ownedRights[k := o]));
    TransitionLaw(sub, root, t, ts.(ownedRights := ts.ownedRights - {k}));
  }

  /** Declaring a field type in a restriction: the result is still a
      restriction iff the root declares that field with the same data type.
      Adding an undeclared field type, or changing a field's `TypeRef`,
      breaks the restriction. */
  lemma FieldDeclarationLaw(sub: Schema, root: Schema, k: FieldType, ty: TypeRef)
    requires IsRestriction(sub, root)
    ensures IsRestriction(sub.(fieldTypes := sub.fieldTypes[k := ty]), root)
            <==> k in root.fieldTypes && root.fieldTypes[k] == ty
  {
    var decl := sub.fieldTypes[k := ty];
    if k in root.fieldTypes && root.fieldTypes[k] == ty {
      forall j | j in decl ensures j in root.fieldTypes && decl[j] == root.fieldTypes[j] {
        if j != k {
          assert decl[j] == sub.fieldTypes[j];
        }
      }
    }
  }

  /** Declaring an owned-right type in a restriction: the result is still a
      restriction iff the root declares that right with the same state
      format. */
  lemma RightDeclarationLaw(sub: Schema, root: Schema, k: OwnedRightType, st: StateSchema)
    requires IsRestriction(sub, root)
    ensures IsRestriction(sub.(ownedRightTypes := sub.ownedRightTypes[k := st]), root)
            <==> k in root.ownedRightTypes && root.ownedRightTypes[k] == st
  {
    var decl := sub.ownedRightTypes[k := st];
    if k in root.ownedRightTypes && root.ownedRightTypes[k] == st {
      forall j | j in decl ensures j in root.ownedRightTypes && decl[j] == root.ownedRightTypes[j] {
        if j != k {
          assert decl[j] == sub.ownedRightTypes[j];
        }
      }
    }
  }
}
