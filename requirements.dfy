/**
 * Requirements: the algebra of test requirements. compose is AND (one
 * branch holding every argument) and allOf is OR (one branch per
 * argument). A composite requirement expands into a set of requirement
 * sets: each branch gives the cartesian unions of its components' sets, and
 * the branches' results are united.
 *
 * The older copy of the class (test-framework-core) has the same algebra
 * line for line; this module models both.
 */
module Requirements {
  /** A requirement that is not composite; only its identity matters to the algebra. */
  datatype Requirement = Requirement(id: string)

  /**
   * SingletonCompositeRequirement wraps one plain requirement;
   * MultiCompositeRequirement holds branches of composite requirements. A
   * Java Set of branches (and of components) is a sequence here: the lemma
   * StepCommutes shows the order of the components does not matter. The
   * Java set of components also drops a composite instance passed twice
   * (composites compare by identity); a sequence keeps both copies, and the
   * expansion of such a branch can then differ (see ComposeRepeated).
   */
  datatype CompositeRequirement =
    | SingletonCompositeRequirement(requirement: Requirement)
    | MultiCompositeRequirement(branches: seq<Branch>)

  /** One branch of a MultiCompositeRequirement: components that must all hold. */
  datatype Branch = Branch(components: seq<CompositeRequirement>)

  /** An argument of compose or allOf: a plain requirement or a composite one. */
  datatype RequirementArg = Plain(requirement: Requirement) | Composite(composite: CompositeRequirement)

  /** wrapAsCompositeRequirements, one argument: composites are kept, plain requirements wrapped. */
  function Wrap(arg: RequirementArg): (c: CompositeRequirement)
    ensures arg.Composite? ==> c == arg.composite
    ensures arg.Plain? ==> c == SingletonCompositeRequirement(arg.requirement)
  {
    match arg
    case Plain(r) => SingletonCompositeRequirement(r)
    case Composite(c) => c
  }

  function WrapAll(args: seq<RequirementArg>): (cs: seq<CompositeRequirement>)
    ensures |cs| == |args| && forall k :: 0 <= k < |args| ==> cs[k] == Wrap(args[k])
  {
    seq(|args|, k requires 0 <= k < |args| => Wrap(args[k]))
  }

  /** compose: a single branch holding every (wrapped) argument. */
  function Compose(args: seq<RequirementArg>): (c: CompositeRequirement)
    ensures c.MultiCompositeRequirement? && |c.branches| == 1 && c.branches[0].components == WrapAll(args)
  {
    MultiCompositeRequirement([Branch(WrapAll(args))])
  }

  /** allOf: one branch per (wrapped) argument. */
  function AllOf(args: seq<RequirementArg>): (c: CompositeRequirement)
    ensures c.MultiCompositeRequirement? && |c.branches| == |args|
    ensures forall k :: 0 <= k < |args| ==> c.branches[k].components == [Wrap(args[k])]
  {
    MultiCompositeRequirement(seq(|args|, k requires 0 <= k < |args| => Branch([Wrap(args[k])])))
  }

  /** One expansion step: the union of every accumulated set with every set of the next component. */
  function Step(acc: set<set<Requirement>>, next: set<set<Requirement>>): set<set<Requirement>>
  {
    set a, b | a in acc && b in next :: a + b
  }

  /** getRequirementsSets, as a function of the composite. */
  function RequirementsSets(c: CompositeRequirement): set<set<Requirement>>
    decreases c, 1
  {
    match c
    case SingletonCompositeRequirement(r) => {{r}}
    case MultiCompositeRequirement(branches) => BranchesSets(branches, |branches|)
  }

  /** The union of the expansions of the first n branches. */
  function BranchesSets(branches: seq<Branch>, n: nat): set<set<Requirement>>
    requires n <= |branches|
    decreases branches, n
  {
    if n == 0 then {} else BranchesSets(branches, n - 1) + Expand(branches[n - 1], |branches[n - 1].components|)
  }

  /** expandRequirements over a branch: {{}} folded with Step over its first n components. */
  function Expand(branch: Branch, n: nat): set<set<Requirement>>
    requires n <= |branch.components|
    decreases branch, n
  {
    if n == 0 then {{}} else Step(Expand(branch, n - 1), RequirementsSets(branch.components[n - 1]))
  }

  /** The sets one accumulated set gives when united with each set of the next component. */
  function Unions(a: set<Requirement>, next: set<set<Requirement>>): set<set<Requirement>>
  {
    set b | b in next :: a + b
  }

  /** getRequirementsSets: a singleton's one set, or the union over branches of each branch's expansion. */
  method GetRequirementsSets(c: CompositeRequirement) returns (expandedRequirementsSets: set<set<Requirement>>)
    ensures expandedRequirementsSets == RequirementsSets(c)
    decreases c, 1
  {
    match c
    case SingletonCompositeRequirement(r) =>
      expandedRequirementsSets := {{r}};
    case MultiCompositeRequirement(branches) =>
      expandedRequirementsSets := {};
      for i := 0 to |branches|
        invariant expandedRequirementsSets == BranchesSets(branches, i)
      {
        var expanded := ExpandBranch(branches[i]);
        expandedRequirementsSets := expandedRequirementsSets + expanded;
      }
  }

  /** expandRequirements(branch): start from {{}} and take one Step per component, in turn. */
  method ExpandBranch(branch: Branch) returns (expandedRequirementsSets: set<set<Requirement>>)
    ensures expandedRequirementsSets == Expand(branch, |branch.components|)
    decreases branch, 0
  {
    expandedRequirementsSets := {{}};
    for i := 0 to |branch.components|
      invariant expandedRequirementsSets == Expand(branch, i)
    {
      expandedRequirementsSets := ExpandStep(expandedRequirementsSets, branch.components[i]);
    }
  }

  /** expandRequirements(accumulated, next): two nested loops adding every union to a new set. */
  method ExpandStep(expandedRequirementsSets: set<set<Requirement>>, requirementsSets: CompositeRequirement)
    returns (newExpandedRequirementsSets: set<set<Requirement>>)
    ensures newExpandedRequirementsSets == Step(expandedRequirementsSets, RequirementsSets(requirementsSets))
    decreases requirementsSets, 2
  {
    var nextSets := GetRequirementsSets(requirementsSets);
    newExpandedRequirementsSets := {};
    var outer := expandedRequirementsSets;
    while outer != {}
      invariant outer <= expandedRequirementsSets
      invariant newExpandedRequirementsSets == Step(expandedRequirementsSets - outer, nextSets)
      decreases |outer|
    {
      var expandedRequirementSet :| expandedRequirementSet in outer;
      newExpandedRequirementsSets := AddUnions(newExpandedRequirementsSets, expandedRequirementSet, nextSets);
      StepAddOne(expandedRequirementsSets - outer, expandedRequirementSet, nextSets);
      assert expandedRequirementsSets - (outer - {expandedRequirementSet}) ==
        (expandedRequirementsSets - outer) + {expandedRequirementSet};
      outer := outer - {expandedRequirementSet};
    }
  }

  /** The inner loop of the step: add the union of one accumulated set with each set of the next component. */
  method AddUnions(sets: set<set<Requirement>>, expandedRequirementSet: set<Requirement>, nextSets: set<set<Requirement>>)
    returns (newSets: set<set<Requirement>>)
    ensures newSets == sets + Unions(expandedRequirementSet, nextSets)
  {
    newSets := sets;
    var inner := nextSets;
    while inner != {}
      invariant inner <= nextSets
      invariant newSets == sets + Unions(expandedRequirementSet, nextSets - inner)
      decreases |inner|
    {
      var requirementSet :| requirementSet in inner;
      UnionsAddOne(expandedRequirementSet, nextSets - inner, requirementSet);
      assert nextSets - (inner - {requirementSet}) == (nextSets - inner) + {requirementSet};
      newSets := newSets + {expandedRequirementSet + requirementSet};
      inner := inner - {requirementSet};
    }
    assert nextSets - inner == nextSets;
  }

  // ---------------------------------------------------------------------
  // Lemmas

  lemma UnionsAddOne(a: set<Requirement>, done: set<set<Requirement>>, b: set<Requirement>)
    ensures Unions(a, done + {b}) == Unions(a, done) + {a + b}
  {
  }

  lemma StepAddOne(done: set<set<Requirement>>, a: set<Requirement>, next: set<set<Requirement>>)
    ensures Step(done + {a}, next) == Step(done, next) + Unions(a, next)
  {
  }

  /** The plain arguments of a list of requirements. */
  function Plains(rs: seq<Requirement>): (args: seq<RequirementArg>)
    ensures |args| == |rs| && forall k :: 0 <= k < |rs| ==> args[k] == Plain(rs[k])
  {
    seq(|rs|, k requires 0 <= k < |rs| => Plain(rs[k]))
  }

  function Elements(rs: seq<Requirement>): set<Requirement>
  {
    set k | 0 <= k < |rs| :: rs[k]
  }

  /** A singleton composite has exactly the one set holding its requirement. */
  lemma SingletonSets(r: Requirement)
    ensures RequirementsSets(SingletonCompositeRequirement(r)) == {{r}}
  {
  }

  /** Step with {{}} on the left gives the next component's sets unchanged. */
  lemma StepFromEmpty(next: set<set<Requirement>>)
    ensures Step({{}}, next) == next
  {
    forall b | b in next ensures b in Step({{}}, next) {
      assert {} + b == b;
    }
  }

  /** The order in which two components are taken does not change the expansion. */
  lemma StepCommutes(acc: set<set<Requirement>>, x: set<set<Requirement>>, y: set<set<Requirement>>)
    ensures Step(Step(acc, x), y) == Step(Step(acc, y), x)
  {
    forall s | s in Step(Step(acc, x), y) ensures s in Step(Step(acc, y), x) {
      var ax, b :| ax in Step(acc, x) && b in y && s == ax + b;
      var a, c :| a in acc && c in x && ax == a + c;
      assert a + b in Step(acc, y);
      assert s == (a + b) + c;
    }
    forall s | s in Step(Step(acc, y), x) ensures s in Step(Step(acc, x), y) {
      var ay, c :| ay in Step(acc, y) && c in x && s == ay + c;
      var a, b :| a in acc && b in y && ay == a + b;
      assert a + c in Step(acc, x);
      assert s == (a + c) + b;
    }
  }

  /** One accumulated set gives at most as many unions as the next component has sets. */
  lemma {:induction false} UnionsSize(a: set<Requirement>, next: set<set<Requirement>>)
    ensures |Unions(a, next)| <= |next|
    decreases |next|
  {
    if next != {} {
      var b :| b in next;
      var rest := next - {b};
      assert next == rest + {b};
      UnionsAddOne(a, rest, b);
      UnionsSize(a, rest);
    } else {
      assert Unions(a, next) == {};
    }
  }

  /** A step yields at most (accumulated sets) x (next sets) sets. */
  lemma {:induction false} StepSize(acc: set<set<Requirement>>, next: set<set<Requirement>>)
    ensures |Step(acc, next)| <= |acc| * |next|
    decreases |acc|
  {
    if acc != {} {
      var a :| a in acc;
      var rest := acc - {a};
      assert acc == rest + {a};
      assert |Step(acc, next)| <= |Step(rest, next)| + |Unions(a, next)| by {
        StepAddOne(rest, a, next);
      }
      StepSize(rest, next);
      UnionsSize(a, next);
      assert |acc| == |rest| + 1;
      ProductStep(|acc|, |rest|, |next|);
    } else {
      assert Step(acc, next) == {};
    }
  }

  lemma ProductStep(k: nat, m: nat, n: nat)
    requires k == m + 1
    ensures k * n == m * n + n
  {
  }

  /** A set is in the expansion of a composite exactly when some branch's expansion has it. */
  lemma {:induction false} BranchesUnion(branches: seq<Branch>, n: nat, s: set<Requirement>)
    requires n <= |branches|
    ensures s in BranchesSets(branches, n) <==> exists k :: 0 <= k < n && s in Expand(branches[k], |branches[k].components|)
  {
    if n > 0 {
      BranchesUnion(branches, n - 1, s);
    }
  }

  /** Composing plain requirements: the first n components expand to the one set of the first n requirements. */
  lemma {:induction false} ExpandPlains(rs: seq<Requirement>, n: nat)
    requires n <= |rs|
    ensures Expand(Branch(WrapAll(Plains(rs))), n) == {Elements(rs[..n])}
  {
    if n == 0 {
      assert Elements(rs[..0]) == {};
    } else {
      ExpandPlains(rs, n - 1);
      var branch := Branch(WrapAll(Plains(rs)));
      assert branch.components[n - 1] == SingletonCompositeRequirement(rs[n - 1]);
      assert Elements(rs[..n]) == Elements(rs[..n - 1]) + {rs[n - 1]} by {
        assert forall k :: 0 <= k < n - 1 ==> rs[..n][k] == rs[..n - 1][k];
      }
      assert Step({Elements(rs[..n - 1])}, {{rs[n - 1]}}) == {Elements(rs[..n - 1]) + {rs[n - 1]}};
    }
  }

  /** compose of plain requirements has exactly one set: all of them. compose() has {{}}. */
  lemma ComposePlains(rs: seq<Requirement>)
    ensures RequirementsSets(Compose(Plains(rs))) == {Elements(rs)}
  {
    var branches := Compose(Plains(rs)).branches;
    ExpandPlains(rs, |rs|);
    assert rs[..|rs|] == rs;
    assert BranchesSets(branches, 1) == BranchesSets(branches, 0) + Expand(branches[0], |branches[0].components|);
  }

  /** compose with no argument has a single, empty requirement set. */
  lemma ComposeNothing()
    ensures RequirementsSets(Compose([])) == {{}}
  {
  }

  /** allOf of plain requirements over its first n branches: one single-requirement set per requirement. */
  lemma {:induction false} AllOfBranches(rs: seq<Requirement>, n: nat)
    requires n <= |rs|
    ensures BranchesSets(AllOf(Plains(rs)).branches, n) == set k | 0 <= k < n :: {rs[k]}
  {
    if n > 0 {
      AllOfBranches(rs, n - 1);
      var branch := AllOf(Plains(rs)).branches[n - 1];
      assert branch.components == [SingletonCompositeRequirement(rs[n - 1])];
      StepFromEmpty({{rs[n - 1]}});
      assert Expand(branch, 1) == {{rs[n - 1]}};
      assert (set k | 0 <= k < n :: {rs[k]}) == (set k | 0 <= k < n - 1 :: {rs[k]}) + {{rs[n - 1]}};
    }
  }

  /** allOf of plain requirements has one set per requirement, each holding only it; allOf() has none. */
  lemma AllOfPlains(rs: seq<Requirement>)
    ensures RequirementsSets(AllOf(Plains(rs))) == set k | 0 <= k < |rs| :: {rs[k]}
    ensures rs == [] ==> RequirementsSets(AllOf(Plains(rs))) == {}
  {
    AllOfBranches(rs, |rs|);
  }

  /** A composite argument is used as it is: compose and allOf of it alone expand as it does. */
  lemma CompositeAsIs(c: CompositeRequirement)
    ensures RequirementsSets(Compose([Composite(c)])) == RequirementsSets(c)
    ensures RequirementsSets(AllOf([Composite(c)])) == RequirementsSets(c)
  {
    StepFromEmpty(RequirementsSets(c));
    assert WrapAll([Composite(c)]) == [c];
    OneComponent(Compose([Composite(c)]).branches, c);
    OneComponent(AllOf([Composite(c)]).branches, c);
  }

  /** A composite of one branch holding one component expands as that component. */
  lemma OneComponent(branches: seq<Branch>, c: CompositeRequirement)
    requires branches == [Branch([c])]
    ensures RequirementsSets(MultiCompositeRequirement(branches)) == RequirementsSets(c)
  {
    StepFromEmpty(RequirementsSets(c));
    assert Expand(branches[0], 1) == Step(Expand(branches[0], 0), RequirementsSets(c));
    assert BranchesSets(branches, 1) == BranchesSets(branches, 0) + Expand(branches[0], 1);
  }

  /** compose is AND: two composites give every union of a set of one with a set of the other. */
  lemma ComposeTwo(c1: CompositeRequirement, c2: CompositeRequirement)
    ensures RequirementsSets(Compose([Composite(c1), Composite(c2)])) == Step(RequirementsSets(c1), RequirementsSets(c2))
  {
    var branches := Compose([Composite(c1), Composite(c2)]).branches;
    var branch := branches[0];
    assert branch.components == [c1, c2];
    StepFromEmpty(RequirementsSets(c1));
    assert Expand(branch, 1) == Step(Expand(branch, 0), RequirementsSets(c1));
    assert Expand(branch, 2) == Step(Expand(branch, 1), RequirementsSets(c2));
    assert BranchesSets(branches, 1) == BranchesSets(branches, 0) + Expand(branch, 2);
  }

  /** allOf is OR: two composites give the sets of either. */
  lemma AllOfTwo(c1: CompositeRequirement, c2: CompositeRequirement)
    ensures RequirementsSets(AllOf([Composite(c1), Composite(c2)])) == RequirementsSets(c1) + RequirementsSets(c2)
  {
    var branches := AllOf([Composite(c1), Composite(c2)]).branches;
    assert branches[0].components == [c1] && branches[1].components == [c2];
    StepFromEmpty(RequirementsSets(c1));
    StepFromEmpty(RequirementsSets(c2));
    assert Expand(branches[0], 1) == Step(Expand(branches[0], 0), RequirementsSets(c1));
    assert Expand(branches[1], 1) == Step(Expand(branches[1], 0), RequirementsSets(c2));
    assert BranchesSets(branches, 1) == BranchesSets(branches, 0) + Expand(branches[0], 1);
    assert BranchesSets(branches, 2) == BranchesSets(branches, 1) + Expand(branches[1], 1);
  }

  /**
   * A composite passed twice to compose. In Java the set of components keeps
   * one copy, so compose(x, x) expands as x does; the sequence keeps both, and
   * with x = allOf(a, b) the expansion gains the set {a, b}.
   */
  lemma ComposeRepeated(a: Requirement, b: Requirement)
    requires a != b
    ensures var x := AllOf([Plain(a), Plain(b)]);
      RequirementsSets(x) == {{a}, {b}} &&
      RequirementsSets(Compose([Composite(x)])) == {{a}, {b}} &&
      {a, b} in RequirementsSets(Compose([Composite(x), Composite(x)])) &&
      {a, b} !in RequirementsSets(x)
  {
    var x := AllOf([Plain(a), Plain(b)]);
    assert Plains([a, b]) == [Plain(a), Plain(b)];
    AllOfPlains([a, b]);
    assert (set k | 0 <= k < 2 :: {[a, b][k]}) == {{a}, {b}} by {
      assert {[a, b][0]} == {a} && {[a, b][1]} == {b};
    }
    CompositeAsIs(x);
    ComposeTwo(x, x);
    assert {a} + {b} in Step(RequirementsSets(x), RequirementsSets(x));
    assert {a} + {b} == {a, b};
  }
}
