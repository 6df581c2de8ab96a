/** The range check of the style-package loader, from parsed versions and clauses
    on: caret and tilde shorthands expand to comparators, and a range admits what
    all of its comparators admit. */
module SemverRanges {

  datatype Version = Version(major: nat, minor: nat, patch: nat)

  /** Negative, zero or positive, as a sort comparator. */
  function Compare(a: Version, b: Version): (d: int) {
    if a.major != b.major then a.major - b.major
    else if a.minor != b.minor then a.minor - b.minor
    else a.patch - b.patch
  }

  datatype Operator = AtLeast | AtMost | Above | Below | Exactly

  datatype Comparator = Comparator(op: Operator, bound: Version)

  predicate Admits(c: Comparator, target: Version) {
    match c.op
    case AtLeast => Compare(target, c.bound) >= 0
    case AtMost => Compare(target, c.bound) <= 0
    case Above => Compare(target, c.bound) > 0
    case Below => Compare(target, c.bound) < 0
    case Exactly => Compare(target, c.bound) == 0
  }

  datatype Clause = Any | Caret(v: Version) | Tilde(v: Version) | Plain(c: Comparator)

  function CaretUpper(v: Version): (upper: Version) {
    if v.major > 0 then Version(v.major + 1, 0, 0)
    else if v.minor > 0 then Version(0, v.minor + 1, 0)
    else Version(0, 0, v.patch + 1)
  }

  function Expand(clause: Clause): (cs: seq<Comparator>) {
    match clause
    case Any => []
    case Caret(v) => [Comparator(AtLeast, v), Comparator(Below, CaretUpper(v))]
    case Tilde(v) => [Comparator(AtLeast, v), Comparator(Below, Version(v.major, v.minor + 1, 0))]
    case Plain(c) => [c]
  }

  /** flatMap over the clauses. */
  function Comparators(range: seq<Clause>): (cs: seq<Comparator>) {
    if range == [] then [] else Expand(range[0]) + Comparators(range[1..])
  }

  predicate Satisfies(target: Version, range: seq<Clause>) {
    forall c | c in Comparators(range) :: Admits(c, target)
  }

  // ------------------------------------------------------------------ the order

  /** Compare is the total order of precedence on release versions (section 11 of
      Semantic Versioning 2.0.0): major, then minor, then patch. */
  lemma CompareOrders(a: Version, b: Version, c: Version)
    ensures Compare(a, b) == 0 <==> a == b
    ensures Compare(a, b) < 0 <==> Compare(b, a) > 0
    ensures Compare(a, b) <= 0 && Compare(b, c) <= 0 ==> Compare(a, c) <= 0
    ensures Compare(a, b) < 0 <==>
              || a.major < b.major
              || (a.major == b.major && a.minor < b.minor)
              || (a.major == b.major && a.minor == b.minor && a.patch < b.patch)
  {
  }

  /** a precedes b. */
  predicate Precedes(a: Version, b: Version) {
    || a.major < b.major
    || (a.major == b.major && a.minor < b.minor)
    || (a.major == b.major && a.minor == b.minor && a.patch < b.patch)
  }

  /** What each operator admits, in that order. */
  lemma OperatorsMean(c: Comparator, target: Version)
    ensures c.op.AtLeast? ==> (Admits(c, target) <==> !Precedes(target, c.bound))
    ensures c.op.AtMost? ==> (Admits(c, target) <==> !Precedes(c.bound, target))
    ensures c.op.Above? ==> (Admits(c, target) <==> Precedes(c.bound, target))
    ensures c.op.Below? ==> (Admits(c, target) <==> Precedes(target, c.bound))
    ensures c.op.Exactly? ==> (Admits(c, target) <==> target == c.bound)
  {
  }

  // ------------------------------------------------------------------ ranges clause by clause

  predicate ClauseAdmits(clause: Clause, target: Version) {
    forall c | c in Expand(clause) :: Admits(c, target)
  }

  lemma {:induction false} SatisfiesEachClause(target: Version, range: seq<Clause>)
    ensures Satisfies(target, range) <==> forall clause | clause in range :: ClauseAdmits(clause, target)
  {
    hide Admits, Expand;
    if range != [] {
      SatisfiesEachClause(target, range[1..]);
      assert Satisfies(target, range) <==> ClauseAdmits(range[0], target) && Satisfies(target, range[1..]) by {
        assert forall c :: c in Comparators(range) <==> c in Expand(range[0]) || c in Comparators(range[1..]);
      }
      assert forall clause :: clause in range <==> clause == range[0] || clause in range[1..];
    }
  }

  /** A plain clause admits what its operator does, and the wildcard everything. */
  lemma PlainClausesMean(target: Version, c: Comparator)
    ensures Satisfies(target, [Plain(c)]) <==> Admits(c, target)
    ensures Satisfies(target, [Any]) && Satisfies(target, [])
  {
    SatisfiesEachClause(target, [Plain(c)]);
    assert Plain(c) in [Plain(c)] && c in Expand(Plain(c));
  }

  /** Neither the order of the clauses nor how often one is repeated matters. */
  lemma ClauseOrderIsIrrelevant(target: Version, range: seq<Clause>, other: seq<Clause>)
    requires forall clause :: clause in range <==> clause in other
    ensures Satisfies(target, range) <==> Satisfies(target, other)
  {
    hide Satisfies, ClauseAdmits;
    SatisfiesEachClause(target, range);
    SatisfiesEachClause(target, other);
  }

  /** Concatenating two ranges intersects what they admit. */
  lemma ConcatenationIntersects(target: Version, range: seq<Clause>, other: seq<Clause>)
    ensures Satisfies(target, range + other) <==> Satisfies(target, range) && Satisfies(target, other)
  {
    hide Satisfies, ClauseAdmits;
    SatisfiesEachClause(target, range);
    SatisfiesEachClause(target, other);
    SatisfiesEachClause(target, range + other);
    assert forall clause :: clause in range + other <==> clause in range || clause in other;
  }

  /** What a range admits has no gaps. */
  lemma RangesAreConvex(low: Version, mid: Version, high: Version, range: seq<Clause>)
    requires Compare(low, mid) <= 0 && Compare(mid, high) <= 0
    requires Satisfies(low, range) && Satisfies(high, range)
    ensures Satisfies(mid, range)
  {
    forall c | c in Comparators(range) ensures Admits(c, mid) {
      assert Admits(c, low) && Admits(c, high);
      CompareOrders(mid, high, c.bound);
      CompareOrders(c.bound, low, mid);
    }
  }

  // ------------------------------------------------------------------ the shorthands

  /** At or above the bound, and the same up to the bound's leftmost nonzero part;
      the same in all three when major and minor are both zero. */
  predicate CaretMeans(bound: Version, target: Version) {
    && Compare(target, bound) >= 0
    && target.major == bound.major
    && (bound.major == 0 ==> target.minor == bound.minor)
    && (bound.major == 0 && bound.minor == 0 ==> target.patch == bound.patch)
  }

  lemma CaretExactlyWhen(bound: Version, target: Version)
    ensures Satisfies(target, [Caret(bound)]) <==> CaretMeans(bound, target)
  {
    SatisfiesEachClause(target, [Caret(bound)]);
    var cs := Expand(Caret(bound));
    assert Caret(bound) in [Caret(bound)];
    assert cs[0] in cs && cs[1] in cs;
  }

  /** The same major and minor, and at least the bound's patch. */
  lemma TildeExactlyWhen(bound: Version, target: Version)
    ensures Satisfies(target, [Tilde(bound)]) <==>
              target.major == bound.major && target.minor == bound.minor && target.patch >= bound.patch
  {
    SatisfiesEachClause(target, [Tilde(bound)]);
    var cs := Expand(Tilde(bound));
    assert Tilde(bound) in [Tilde(bound)];
    assert cs[0] in cs && cs[1] in cs;
  }

  /** A tilde is the narrower of the two shorthands unless major and minor are both
      zero, where the caret pins the patch as well. */
  lemma TildeNarrowsCaretExactlyWhen(bound: Version)
    ensures (forall target :: Satisfies(target, [Tilde(bound)]) ==> Satisfies(target, [Caret(bound)]))
            <==> bound.major != 0 || bound.minor != 0
  {
    hide Satisfies;
    forall target ensures Satisfies(target, [Caret(bound)]) <==> CaretMeans(bound, target) {
      CaretExactlyWhen(bound, target);
    }
    forall target
      ensures Satisfies(target, [Tilde(bound)]) <==>
                target.major == bound.major && target.minor == bound.minor && target.patch >= bound.patch
    {
      TildeExactlyWhen(bound, target);
    }
    var next := Version(bound.major, bound.minor, bound.patch + 1);
    assert Satisfies(next, [Tilde(bound)]);
    assert bound.major == 0 && bound.minor == 0 ==> !Satisfies(next, [Caret(bound)]);
  }
}
