/** `normalize_annotation`: the tuple of types an annotation stands for
    when values and resolvers are matched by type. */
module Annotations {
  import opened Model

  /** The members of a union with `NoneType` left out, in order. */
  function WithoutNone(members: seq<Ann>): (r: seq<Ann>)
    ensures |r| <= |members|
    ensures forall t :: t in r <==> t in members && t != NoneType
    ensures NoneType !in members ==> r == members
  {
    if members == [] then []
    else (if members[0] == NoneType then [] else [members[0]]) + WithoutNone(members[1..])
  }

  /** One layer of `Annotated` is stripped; a union becomes its members
      without `NoneType`; any other annotation with an origin becomes that
      origin; an annotation without an origin stands for itself. */
  function Normalize(a: Ann): (r: seq<Ann>)
    ensures (a.UnionOf? || (a.Annotated? && a.base.UnionOf?)) ==> NoneType !in r
    ensures !(a.UnionOf? || (a.Annotated? && a.base.UnionOf?)) ==> |r| == 1
  {
    var inner := if a.Annotated? then a.base else a;
    match inner
    case Atom(_) => [inner]
    case UnionOf(members) => WithoutNone(members)
    case Annotated(_, _) => [Atom(AnnotatedOrigin)]
    case Generic(origin, _) => [Atom(origin)]
  }

  /** Dropping `NoneType` keeps the order of the members: it distributes over concatenation. */
  lemma {:induction false} WithoutNoneKeepsOrder(xs: seq<Ann>, ys: seq<Ann>)
    ensures WithoutNone(xs + ys) == WithoutNone(xs) + WithoutNone(ys)
  {
    if xs != [] {
      assert (xs + ys)[1..] == xs[1..] + ys;
      WithoutNoneKeepsOrder(xs[1..], ys);
    } else {
      assert xs + ys == ys;
    }
  }

  /**
   * The cases of normalization, stated on the annotation's shape. The last
   * case, an `Annotated` directly inside another, has no runtime counterpart:
   * Python flattens nested `Annotated` forms into one. It records what the
   * function would do with such a value.
   */
  lemma NormalizeCases(a: Ann)
    ensures a.Atom? ==> Normalize(a) == [a]
    ensures a.UnionOf? ==> Normalize(a) == WithoutNone(a.members) && NoneType !in Normalize(a)
    ensures a.Generic? ==> Normalize(a) == [Atom(a.origin)]
    ensures a.Annotated? && !a.base.Annotated? ==> Normalize(a) == Normalize(a.base)
    ensures a.Annotated? && a.base.Annotated? ==> Normalize(a) == [Atom(AnnotatedOrigin)]
  {
  }

  /** A union member is accepted exactly when it is a member other than `NoneType`. */
  lemma NormalizeUnionMembers(members: seq<Ann>, t: Ann)
    ensures t in Normalize(UnionOf(members)) <==> t in members && t != NoneType
  {
  }
}
