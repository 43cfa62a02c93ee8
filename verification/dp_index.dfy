/** `DPIndex`: a persistable index into another data product, made of the
    product's id and an unsigned 32-bit position.  The product id type is a
    type parameter; its `<` is passed in where ordering is needed. */
module DataProductIndex {

  const TwoTo32: int := 0x1_0000_0000

  newtype uint32 = x: int | 0 <= x < 0x1_0000_0000
  newtype int32 = x: int | -0x8000_0000 <= x < 0x8000_0000

  datatype DPIndex<P> = DPIndex(id: P, index: uint32)

  /** The two-argument constructor: the signed index is stored as
      `unsigned`, so a negative value becomes itself plus 2^32. */
  function Make<P>(id: P, i: int32): (d: DPIndex<P>)
    ensures d.id == id
    ensures i >= 0 ==> d.index as int == i as int
    ensures i < 0 ==> d.index as int == i as int + TwoTo32
  {
    DPIndex(id, (i as int % TwoTo32) as uint32)
  }

  /** The default constructor: a default product id and index 0. */
  function Default<P>(defaultId: P): DPIndex<P>
  {
    DPIndex(defaultId, 0)
  }

  /** The conversion loses nothing: distinct signed indices stay distinct,
      and the default constructor is the two-argument one with index 0. */
  lemma MakeInjective<P>(id: P, i: int32, j: int32)
    ensures Make(id, i) == Make(id, j) ==> i == j
    ensures Default(id) == Make(id, 0)
  {
  }

  /** `operator==`: field by field. */
  predicate Eq<P(==)>(a: DPIndex<P>, b: DPIndex<P>)
  {
    a.id == b.id && a.index == b.index
  }

  /** `operator!=`. */
  predicate Ne<P(==)>(a: DPIndex<P>, b: DPIndex<P>)
  {
    !Eq(a, b)
  }

  /** `operator<`: first on the product id, then on the index. */
  predicate Lt<P(==)>(less: (P, P) -> bool, a: DPIndex<P>, b: DPIndex<P>)
  {
    less(a.id, b.id) || (a.id == b.id && a.index < b.index)
  }

  /** `==` is value equality and `!=` its negation. */
  lemma EqualityLaws<P>(a: DPIndex<P>, b: DPIndex<P>)
    ensures Eq(a, b) <==> a == b
    ensures Ne(a, b) <==> a != b
  {
  }

  /** A strict total order. */
  ghost predicate StrictTotalOrder<T(!new)>(less: (T, T) -> bool)
  {
    && (forall x :: !less(x, x))
    && (forall x, y, z :: less(x, y) && less(y, z) ==> less(x, z))
    && (forall x, y :: x != y ==> less(x, y) || less(y, x))
  }

  /** When the product id's `<` is a strict total order, so is `DPIndex`'s:
      irreflexive, transitive, and exactly one of `a < b`, `a == b`,
      `b < a` holds. */
  lemma {:induction false} LtStrictTotal<P(!new)>(less: (P, P) -> bool, a: DPIndex<P>, b: DPIndex<P>, c: DPIndex<P>)
    requires StrictTotalOrder(less)
    ensures !Lt(less, a, a)
    ensures Lt(less, a, b) && Lt(less, b, c) ==> Lt(less, a, c)
    ensures Lt(less, a, b) || Eq(a, b) || Lt(less, b, a)
    ensures !(Lt(less, a, b) && Eq(a, b))
    ensures !(Lt(less, a, b) && Lt(less, b, a))
  {
  }
}
