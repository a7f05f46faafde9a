/** Multiplicity constraints attached to the typed slots of a schema
    (how many values of one field type, or how many assignments of one
    owned-right type, a genesis or a transition may carry). */
module Occurrences {

  /** Upper end of an occurrence range. */
  datatype Bound = Finite(n: nat) | Unbounded

  /** The inclusive range `min ..= max` of admitted counts. */
  datatype Occurrence = Occurrence(min: nat, max: Bound) {

    /** A well-formed range is non-empty. */
    predicate Valid() {
      max.Finite? ==> min <= max.n
    }

    /** `count` items in the slot satisfy this constraint. */
    predicate Admits(count: nat) {
      min <= count && (max.Finite? ==> count <= max.n)
    }
  }

  /** The four presets the RGB121 tables use. */
  const Once: Occurrence := Occurrence(1, Finite(1))
  const NoneOrOnce: Occurrence := Occurrence(0, Finite(1))
  const NoneOrMore: Occurrence := Occurrence(0, Unbounded)
  const OnceOrMore: Occurrence := Occurrence(1, Unbounded)

  /** `a` is no larger an upper bound than `b`. */
  predicate BoundAtMost(a: Bound, b: Bound) {
    match b
    case Unbounded => true
    case Finite(m) => a.Finite? && a.n <= m
  }

  /** `sub` is a narrowing of `root`: it neither lowers the minimum nor
      raises the maximum. */
  predicate Within(sub: Occurrence, root: Occurrence) {
    root.min <= sub.min && BoundAtMost(sub.max, root.max)
  }

  /** The four presets are well-formed ranges, each admitting exactly the
      counts its name says. */
  lemma PresetsValid()
    ensures Once.Valid() && NoneOrOnce.Valid() && NoneOrMore.Valid() && OnceOrMore.Valid()
    ensures forall n: nat :: Once.Admits(n) <==> n == 1
    ensures forall n: nat :: NoneOrOnce.Admits(n) <==> n <= 1
    ensures forall n: nat :: NoneOrMore.Admits(n)
    ensures forall n: nat :: OnceOrMore.Admits(n) <==> n >= 1
  {
  }

  /** Range containment is exactly containment of the admitted counts:
      a well-formed `sub` is within `root` iff every count `sub` admits is
      admitted by `root` too. */
  lemma WithinIffAdmitsFewer(sub: Occurrence, root: Occurrence)
    requires sub.Valid()
    ensures Within(sub, root) <==> forall n: nat :: sub.Admits(n) ==> root.Admits(n)
  {
    if !Within(sub, root) {
      if root.min > sub.min {
        assert sub.Admits(sub.min) && !root.Admits(sub.min);
      } else if sub.max.Unbounded? {
        var n: nat := if sub.min > root.max.n then sub.min else root.max.n + 1;
        assert sub.Admits(n) && !root.Admits(n);
      } else {
        assert sub.Admits(sub.max.n) && !root.Admits(sub.max.n);
      }
    }
  }

  /** Narrowing is reflexive and transitive. */
  lemma WithinPreorder(a: Occurrence, b: Occurrence, c: Occurrence)
    ensures Within(a, a)
    ensures Within(a, b) && Within(b, c) ==> Within(a, c)
  {
  }
}
