/** Contract data: seals, allocations, metadata values, owned-right
    assignments, and the genesis, transition and contract records. Value
    commitments are modelled by their opened amounts; the blinding factors
    and Pedersen arithmetic behind them are external. */
module RgbContract {
  import opened Wrappers
  import opened StrictTypes
  import opened Rgb121Types
  import opened RgbSchema

  /** The network a contract is issued on; opaque. */
  datatype Chain = Chain(id: nat)

  /** A bitcoin transaction output; the transaction id is an opaque hash. */
  datatype OutPoint = OutPoint(txid: nat, vout: nat)

  /** A single-use seal: a revealed output, or a concealed commitment to one. */
  datatype Seal = Revealed(outpoint: OutPoint) | Concealed(commitment: nat)

  /** An amount to be allocated to a revealed output (`OutpointValue`). */
  datatype OutpointValue = OutpointValue(outpoint: OutPoint, value: u64)

  /** An amount to be allocated to a concealed seal. */
  datatype ConcealedValue = ConcealedValue(commitment: nat, value: u64)

  /** A revealed value commitment; its blinding factor is not modelled. */
  datatype RevealedValue = RevealedValue(value: u64)

  /** A metadata value (`data::Revealed`). */
  datatype FieldValue =
    | AsciiValue(text: AsciiString)
    | BytesValue(bytes: seq<u8>)
    | U8Value(u8Value: u8)
    | U16Value(u16Value: u16)
    | U64Value(u64Value: u64)
    | I64Value(i64Value: i64)

  /** `v` is a value of the declared data type `t`. */
  predicate HasType(v: FieldValue, t: TypeRef) {
    match v
    case AsciiValue(_) => t == AsciiStringType
    case BytesValue(_) => t == BytesType
    case U8Value(_) => t == U8Type
    case U16Value(_) => t == U16Type
    case U64Value(_) => t == U64Type
    case I64Value(_) => t == I64Type
  }

  /** One value assignment: an amount bound to a seal. */
  datatype ValueAssignment = ValueAssignment(seal: Seal, amount: u64)

  /** The assignments of one owned-right type, grouped by state kind. */
  datatype TypedAssignments =
    | Value(assignments: seq<ValueAssignment>)
    | Attachment(seals: seq<Seal>)
  {
    /** Number of assignments, the quantity an occurrence range bounds. */
    function Count(): nat {
      match this
      case Value(a) => |a|
      case Attachment(s) => |s|
    }
  }

  /** The assignments' kind is the one the state format declares. */
  predicate StateMatches(a: TypedAssignments, s: StateSchema) {
    match s
    case DiscreteFiniteField(_) => a.Value?
    case DataContainer => a.Attachment?
  }

  datatype Genesis = Genesis(
    schemaId: SchemaId,
    chain: Chain,
    metadata: map<FieldType, seq<FieldValue>>,
    ownedRights: map<OwnedRightType, TypedAssignments>,
    publicRights: set<PublicRightType>)

  /** A reference to an assignment of an earlier node that a transition closes. */
  datatype PrevOut = PrevOut(node: nat, index: u16)

  datatype Transition = Transition(
    transitionType: TransitionType,
    metadata: map<FieldType, seq<FieldValue>>,
    closes: map<OwnedRightType, seq<PrevOut>>,
    ownedRights: map<OwnedRightType, TypedAssignments>,
    publicRights: set<PublicRightType>)

  /** A contract consignment: the schema, its optional root schema, the
      genesis, and the endpoints, anchored transitions and state extensions
      (extensions by opaque id) that follow it. */
  datatype Contract = Contract(
    schema: Schema,
    rootSchema: Option<Schema>,
    genesis: Genesis,
    endpoints: set<Seal>,
    anchoredTransitions: seq<Transition>,
    extensions: seq<nat>)

  // ---------------------------------------------------------------------
  // Sums of amounts

  function SumOf<T>(xs: seq<T>, f: T -> nat): nat {
    if |xs| == 0 then 0 else f(xs[0]) + SumOf(xs[1..], f)
  }

  lemma {:induction false} SumOfAppend<T>(xs: seq<T>, ys: seq<T>, f: T -> nat)
    ensures SumOf(xs + ys, f) == SumOf(xs, f) + SumOf(ys, f)
    decreases |xs|
  {
    if |xs| == 0 {
      assert xs + ys == ys;
    } else {
      assert (xs + ys)[1..] == xs[1..] + ys;
      SumOfAppend(xs[1..], ys, f);
    }
  }

  /** Taking one summand out of a sequence lowers its total by that summand. */
  lemma {:induction false} SumOfRemove<T>(ys: seq<T>, i: nat, f: T -> nat)
    requires i < |ys|
    ensures SumOf(ys, f) == f(ys[i]) + SumOf(ys[..i] + ys[i + 1..], f)
    decreases i
  {
    if i == 0 {
      assert ys[..0] + ys[1..] == ys[1..];
    } else {
      var rest := ys[1..][..i - 1] + ys[1..][i..];
      SumOfRemove(ys[1..], i - 1, f);
      var r := ys[..i] + ys[i + 1..];
      assert ys[1..][..i - 1] == ys[1..i] && ys[1..][i..] == ys[i + 1..];
      assert r == [ys[0]] + rest;
      assert r[1..] == rest;
    }
  }

  /** Removing position `i` takes one copy of `ys[i]` out of the multiset. */
  lemma MultisetRemove<T>(ys: seq<T>, i: nat)
    requires i < |ys|
    ensures multiset(ys) == multiset{ys[i]} + multiset(ys[..i] + ys[i + 1..])
  {
    assert ys == ys[..i] + [ys[i]] + ys[i + 1..];
  }

  /** A position holding `x`, for an `x` the sequence contains. */
  lemma IndexOf<T>(ys: seq<T>, x: T) returns (i: nat)
    requires x in multiset(ys)
    ensures i < |ys| && ys[i] == x
  {
    assert x in ys;
    i :| i < |ys| && ys[i] == x;
  }

  /** Sums do not depend on the order of the summands. */
  lemma {:induction false} SumOfPermutation<T>(xs: seq<T>, ys: seq<T>, f: T -> nat)
    requires multiset(xs) == multiset(ys)
    ensures SumOf(xs, f) == SumOf(ys, f)
    decreases |xs|
  {
    if |xs| == 0 {
      assert |multiset(ys)| == 0;
    } else {
      var x := xs[0];
      var i := IndexOf(ys, x);
      var rest := ys[..i] + ys[i + 1..];
      MultisetRemove(ys, i);
      assert xs == [x] + xs[1..];
      assert multiset(xs) == multiset{x} + multiset(xs[1..]);
      assert multiset(xs[1..]) == multiset(xs) - multiset{x};
      assert multiset(rest) == multiset(ys) - multiset{x};
      SumOfPermutation(xs[1..], rest, f);
      SumOfRemove(ys, i, f);
    }
  }

  /** Sums of two sequences that agree position by position are equal. */
  lemma {:induction false} SumOfPointwise<S, T>(xs: seq<S>, f: S -> nat, ys: seq<T>, g: T -> nat)
    requires |xs| == |ys|
    requires forall i :: 0 <= i < |xs| ==> f(xs[i]) == g(ys[i])
    ensures SumOf(xs, f) == SumOf(ys, g)
    decreases |xs|
  {
    if |xs| > 0 {
      SumOfPointwise(xs[1..], f, ys[1..], g);
    }
  }

  function ValueOf(a: OutpointValue): nat { a.value }

  function ConcealedValueOf(a: ConcealedValue): nat { a.value }

  function RevealedValueOf(v: RevealedValue): nat { v.value }

  function AmountOf(a: ValueAssignment): nat { a.amount }

  /** Total of a list of allocations (`OutpointValueVec::sum`). */
  function Supply(allocations: seq<OutpointValue>): nat {
    SumOf(allocations, ValueOf)
  }

  /** Total amount assigned by a set of value assignments. */
  function AssignedTotal(a: TypedAssignments): nat {
    match a
    case Value(items) => SumOf(items, AmountOf)
    case Attachment(_) => 0
  }

  /** The value commitments of `a` balance the revealed inputs: the openings
      of the outputs add up to the inputs' total. */
  predicate Balances(inputs: seq<RevealedValue>, a: TypedAssignments) {
    a.Value? && SumOf(inputs, RevealedValueOf) == AssignedTotal(a)
  }

  /** `TypedAssignments::zero_balanced`: value assignments for our revealed
      allocations followed by their concealed ones, with blinding factors
      chosen so the output commitments sum to the inputs. The blinding is
      not modelled; the construction balances exactly when the amounts do. */
  function ZeroBalanced(inputs: seq<RevealedValue>, ours: seq<OutpointValue>, theirs: seq<ConcealedValue>)
    : (r: TypedAssignments)
    ensures r.Value? && |r.assignments| == |ours| + |theirs|
    ensures forall i :: 0 <= i < |ours| ==>
              r.assignments[i] == ValueAssignment(Revealed(ours[i].outpoint), ours[i].value)
    ensures forall j :: 0 <= j < |theirs| ==>
              r.assignments[|ours| + j] == ValueAssignment(Concealed(theirs[j].commitment), theirs[j].value)
    ensures AssignedTotal(r) == Supply(ours) + SumOf(theirs, ConcealedValueOf)
    ensures Balances(inputs, r) <==> SumOf(inputs, RevealedValueOf) == Supply(ours) + SumOf(theirs, ConcealedValueOf)
  {
    var mine := seq(|ours|, i requires 0 <= i < |ours| =>
                  ValueAssignment(Revealed(ours[i].outpoint), ours[i].value));
    var others := seq(|theirs|, j requires 0 <= j < |theirs| =>
                    ValueAssignment(Concealed(theirs[j].commitment), theirs[j].value));
    SumOfPointwise(mine, AmountOf, ours, ValueOf);
    SumOfPointwise(others, AmountOf, theirs, ConcealedValueOf);
    SumOfAppend(mine, others, AmountOf);
    Value(mine + others)
  }
}
