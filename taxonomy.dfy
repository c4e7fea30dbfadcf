/** The four-level classification tree the loader builds:
    Section -> Division -> Group -> Class. Each level holds its code, its
    description and, except for the leaf level, its ordered children. */
module Taxonomy {

  datatype Class = Class(code: string, description: string)

  datatype Group = Group(code: string, description: string, classes: seq<Class>)

  datatype Division = Division(code: string, description: string, groups: seq<Group>)

  datatype Section = Section(code: string, description: string, divisions: seq<Division>)

  /** The sum of `f` over the elements of `xs`, in order. */
  function Sum<T>(xs: seq<T>, f: T -> nat): nat
  {
    if xs == [] then 0 else f(xs[0]) + Sum(xs[1..], f)
  }

  /** Two sums agree when their terms agree position by position. */
  lemma {:induction false} SumPointwise<A, B>(xs: seq<A>, f: A -> nat, ys: seq<B>, g: B -> nat)
    requires |xs| == |ys|
    requires forall k :: 0 <= k < |xs| ==> f(xs[k]) == g(ys[k])
    ensures Sum(xs, f) == Sum(ys, g)
  {
    if xs != [] {
      assert f(xs[0]) == g(ys[0]);
      SumPointwise(xs[1..], f, ys[1..], g);
    }
  }

  /** Number of leaves (classes) below each level. */
  function GroupClassCount(g: Group): nat { |g.classes| }

  function DivisionClassCount(d: Division): nat { Sum(d.groups, GroupClassCount) }

  function SectionClassCount(s: Section): nat { Sum(s.divisions, DivisionClassCount) }

  function ClassCount(sections: seq<Section>): nat { Sum(sections, SectionClassCount) }
}
