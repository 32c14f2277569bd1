/** Strided N-dimensional storage: the address formula and validity rule of external headers, and the
    views that fix some dimensions of a source. Strides count elements, the first dimension is the
    outermost. */
module Layout {

  datatype Layout = Scalar | Dim(size: nat, stride: nat, inner: Layout)

  datatype Index = Here | At(i: nat, inner: Index)

  /** Elements that must be there for one run of the outermost dimension: sizes[0] * strides[0]. */
  function Span(l: Layout): nat {
    match l
    case Scalar => 1
    case Dim(size, stride, _) => size * stride
  }

  /** The rule of create_external_nd_strided: positive extents and strides, a last stride of 1, and
      every stride at least the next stride times the next extent. */
  predicate Nested(l: Layout) {
    match l
    case Scalar => true
    case Dim(size, stride, inner) =>
      size > 0 && stride > 0 && Nested(inner) && if inner.Scalar? then stride == 1 else stride >= Span(inner)
  }

  predicate Fits(l: Layout, x: Index) {
    match (l, x)
    case (Scalar, Here) => true
    case (Dim(size, _, inner), At(i, rest)) => i < size && Fits(inner, rest)
    case _ => false
  }

  /** sum(ik * element_strides[k]) */
  function Offset(l: Layout, x: Index): nat
    requires Fits(l, x)
  {
    match l
    case Scalar => 0
    case Dim(_, stride, inner) => x.i * stride + Offset(inner, x.inner)
  }

  /** Lexicographic order, the last dimension varying fastest. */
  predicate Less(x: Index, y: Index) {
    match (x, y)
    case (At(i, rest), At(j, rest')) => i < j || (i == j && Less(rest, rest'))
    case _ => false
  }

  lemma TimesMonotone(a: nat, b: nat, c: nat)
    requires a <= b
    ensures a * c <= b * c
  {
  }

  /** Step i of the outer dimension stays below step j for i < j. */
  lemma StepBelow(i: nat, j: nat, stride: nat)
    requires i < j
    ensures i * stride + stride <= j * stride
  {
    TimesMonotone(i + 1, j, stride);
    assert (i + 1) * stride == i * stride + stride;
  }

  /** Every element lies within sizes[0] * strides[0] elements. */
  lemma {:induction false} OffsetInSpan(l: Layout, x: Index)
    requires Nested(l) && Fits(l, x)
    ensures Offset(l, x) < Span(l)
  {
    match l
    case Scalar =>
    case Dim(size, stride, inner) =>
      OffsetInSpan(inner, x.inner);
      StepBelow(x.i, size, stride);
  }

  /** Lexicographic order of indices is the order of addresses. */
  lemma {:induction false} OffsetIncreases(l: Layout, x: Index, y: Index)
    requires Nested(l) && Fits(l, x) && Fits(l, y)
    ensures Less(x, y) <==> Offset(l, x) < Offset(l, y)
    ensures x == y <==> Offset(l, x) == Offset(l, y)
  {
    match l
    case Scalar =>
    case Dim(size, stride, inner) =>
      OffsetInSpan(inner, x.inner);
      OffsetInSpan(inner, y.inner);
      if x.i < y.i {
        StepBelow(x.i, y.i, stride);
      } else if y.i < x.i {
        StepBelow(y.i, x.i, stride);
      } else {
        OffsetIncreases(inner, x.inner, y.inner);
      }
  }

  /** In bytes: with the required byte count every element is inside the buffer, and no two elements
      share a byte. */
  lemma BytesApart(l: Layout, x: Index, y: Index, elementSize: nat, byteCount: nat)
    requires Nested(l) && Fits(l, x) && Fits(l, y) && byteCount >= Span(l) * elementSize
    ensures Offset(l, x) * elementSize + elementSize <= byteCount
    ensures x != y ==> Offset(l, x) * elementSize + elementSize <= Offset(l, y) * elementSize ||
                       Offset(l, y) * elementSize + elementSize <= Offset(l, x) * elementSize
  {
    OffsetInSpan(l, x);
    StepBelow(Offset(l, x), Span(l), elementSize);
    OffsetIncreases(l, x, y);
    if Offset(l, x) < Offset(l, y) {
      StepBelow(Offset(l, x), Offset(l, y), elementSize);
    } else if Offset(l, y) < Offset(l, x) {
      StepBelow(Offset(l, y), Offset(l, x), elementSize);
    }
  }

  // ----- packed layouts

  /** The continuous steps OpenCV computes itself. */
  predicate Packed(l: Layout) {
    match l
    case Scalar => true
    case Dim(size, stride, inner) => size > 0 && stride == Span(inner) && Packed(inner)
  }

  function Product(l: Layout): nat {
    match l
    case Scalar => 1
    case Dim(size, _, inner) => size * Product(inner)
  }

  /** The index of the n-th element. */
  function IndexOf(l: Layout, n: nat): Index
    requires Nested(l)
  {
    match l
    case Scalar => Here
    case Dim(_, stride, inner) => At(n / stride, IndexOf(inner, n % stride))
  }

  lemma Positive(a: nat, b: nat)
    requires a > 0 && b > 0
    ensures a * b > 0
  {
  }

  lemma {:induction false} PackedNested(l: Layout)
    requires Packed(l)
    ensures Nested(l) && Span(l) == Product(l) && Span(l) > 0
  {
    match l
    case Scalar =>
    case Dim(size, stride, inner) =>
      PackedNested(inner);
      Positive(size, stride);
  }

  lemma Quotient(n: nat, size: nat, stride: nat)
    requires stride > 0 && n < size * stride
    ensures n / stride < size
    ensures (n / stride) * stride + n % stride == n
  {
    if n / stride >= size {
      TimesMonotone(size, n / stride, stride);
    }
  }

  lemma QuotientOf(i: nat, stride: nat, r: nat)
    requires r < stride
    ensures (i * stride + r) / stride == i && (i * stride + r) % stride == r
  {
    var n := i * stride + r;
    var q := n / stride;
    assert n == q * stride + n % stride;
    if q < i {
      StepBelow(q, i, stride);
    } else if i < q {
      StepBelow(i, q, stride);
    }
  }

  /** Packed strides reach every element of the buffer, each once. */
  lemma {:induction false} PackedReachesAll(l: Layout, n: nat)
    requires Packed(l) && Nested(l) && n < Span(l)
    ensures Fits(l, IndexOf(l, n)) && Offset(l, IndexOf(l, n)) == n
  {
    match l
    case Scalar =>
    case Dim(size, stride, inner) =>
      PackedNested(inner);
      Quotient(n, size, stride);
      PackedReachesAll(inner, n % stride);
  }

  lemma {:induction false} IndexOfOffset(l: Layout, x: Index)
    requires Nested(l) && Fits(l, x)
    ensures IndexOf(l, Offset(l, x)) == x
  {
    match l
    case Scalar =>
    case Dim(size, stride, inner) =>
      OffsetInSpan(inner, x.inner);
      QuotientOf(x.i, stride, Offset(inner, x.inner));
      IndexOfOffset(inner, x.inner);
  }

  ghost predicate Reached(l: Layout, n: nat) {
    exists x :: Fits(l, x) && Offset(l, x) == n
  }

  /** A valid layout leaves no gap exactly if it is packed. */
  lemma {:induction false} GaplessIffPacked(l: Layout)
    requires Nested(l)
    ensures Packed(l) <==> forall n :: 0 <= n < Span(l) ==> Reached(l, n)
  {
    if Packed(l) {
      forall n | 0 <= n < Span(l)
        ensures Reached(l, n)
      {
        PackedReachesAll(l, n);
      }
    } else {
      var n := GapOf(l);
      NoIndexThere(l, n);
    }
  }

  /** Some offset no index reaches. */
  lemma {:induction false} GapOf(l: Layout) returns (n: nat)
    requires Nested(l) && !Packed(l)
    ensures n < Span(l) && !(Fits(l, IndexOf(l, n)) && Offset(l, IndexOf(l, n)) == n)
  {
    match l
    case Dim(size, stride, inner) =>
      TimesMonotone(1, size, stride);
      if Packed(inner) {
        PackedNested(inner);
        n := Span(inner);
        QuotientOf(0, stride, n);
        if Fits(inner, IndexOf(inner, n)) {
          OffsetInSpan(inner, IndexOf(inner, n));
        }
      } else {
        n := GapOf(inner);
        QuotientOf(0, stride, n);
      }
  }

  lemma NoIndexThere(l: Layout, n: nat)
    requires Nested(l) && !(Fits(l, IndexOf(l, n)) && Offset(l, IndexOf(l, n)) == n)
    ensures !Reached(l, n)
  {
    if x :| Fits(l, x) && Offset(l, x) == n {
      IndexOfOffset(l, x);
    }
  }

  // ----- dropping dimensions

  /** What select_nd_view is told per source dimension. */
  datatype Selection = Done | Keep(start: nat, stop: nat, inner: Selection) | Drop(start: nat, inner: Selection)

  predicate Selects(l: Layout, sel: Selection) {
    match (l, sel)
    case (Scalar, Done) => true
    case (Dim(size, _, inner), Keep(start, stop, rest)) => start < stop <= size && Selects(inner, rest)
    case (Dim(size, _, inner), Drop(start, rest)) => start < size && Selects(inner, rest)
    case _ => false
  }

  /** The final source dimension is retained. */
  predicate KeepsLast(sel: Selection) {
    match sel
    case Done => true
    case Keep(_, _, rest) => rest.Done? || KeepsLast(rest)
    case Drop(_, rest) => !rest.Done? && KeepsLast(rest)
  }

  function View(l: Layout, sel: Selection): Layout
    requires Selects(l, sel)
  {
    match sel
    case Done => Scalar
    case Keep(start, stop, rest) => Dim(stop - start, l.stride, View(l.inner, rest))
    case Drop(_, rest) => View(l.inner, rest)
  }

  /** sum(starts[i] * step[i]) */
  function Base(l: Layout, sel: Selection): nat
    requires Selects(l, sel)
  {
    match sel
    case Done => 0
    case Keep(start, _, rest) => start * l.stride + Base(l.inner, rest)
    case Drop(start, rest) => start * l.stride + Base(l.inner, rest)
  }

  /** The source index behind an index of the view. */
  function Source(sel: Selection, x: Index): Index {
    match sel
    case Done => Here
    case Keep(start, _, rest) => if x.At? then At(start + x.i, Source(rest, x.inner)) else Here
    case Drop(start, rest) => At(start, Source(rest, x))
  }

  lemma Distribute(a: nat, b: nat, c: nat)
    ensures (a + b) * c == a * c + b * c
  {
  }

  /** Every address of the view is the source address of the corresponding full index. */
  lemma {:induction false} ViewAddresses(l: Layout, sel: Selection, x: Index)
    requires Selects(l, sel) && Fits(View(l, sel), x)
    ensures Fits(l, Source(sel, x))
    ensures Base(l, sel) + Offset(View(l, sel), x) == Offset(l, Source(sel, x))
  {
    match sel
    case Done =>
    case Keep(start, _, rest) =>
      ViewAddresses(l.inner, rest, x.inner);
      Distribute(start, x.i, l.stride);
    case Drop(start, rest) =>
      ViewAddresses(l.inner, rest, x);
  }

  lemma {:induction false} ViewSpan(l: Layout, sel: Selection)
    requires Nested(l) && Selects(l, sel) && KeepsLast(sel)
    ensures Nested(View(l, sel)) && Span(View(l, sel)) <= Span(l) && (View(l, sel).Scalar? ==> l.Scalar?)
  {
    match sel
    case Done =>
    case Keep(start, stop, rest) =>
      TimesMonotone(stop - start, l.size, l.stride);
      if !rest.Done? {
        ViewSpan(l.inner, rest);
      }
    case Drop(start, rest) =>
      ViewSpan(l.inner, rest);
      TimesMonotone(1, l.size, l.stride);
  }

  /** A view is laid out by the same rule as its source. */
  lemma ViewNested(l: Layout, sel: Selection)
    requires Nested(l) && Selects(l, sel) && KeepsLast(sel)
    ensures Nested(View(l, sel))
  {
    ViewSpan(l, sel);
  }

  /** So different indices of a view never meet in one element of the source. */
  lemma ViewNeverAliases(l: Layout, sel: Selection, x: Index, y: Index)
    requires Nested(l) && Selects(l, sel) && KeepsLast(sel) && Fits(View(l, sel), x) && Fits(View(l, sel), y) && x != y
    ensures Source(sel, x) != Source(sel, y)
    ensures Base(l, sel) + Offset(View(l, sel), x) != Base(l, sel) + Offset(View(l, sel), y)
    ensures Less(x, y) <==> Less(Source(sel, x), Source(sel, y))
  {
    ViewNested(l, sel);
    ViewAddresses(l, sel, x);
    ViewAddresses(l, sel, y);
    OffsetIncreases(View(l, sel), x, y);
    OffsetIncreases(l, Source(sel, x), Source(sel, y));
  }

  /** The source index is inside the selected ranges. */
  predicate Chosen(sel: Selection, x: Index) {
    match sel
    case Done => x.Here?
    case Keep(start, stop, rest) => x.At? && start <= x.i < stop && Chosen(rest, x.inner)
    case Drop(start, rest) => x.At? && x.i == start && Chosen(rest, x.inner)
  }

  function Within(sel: Selection, x: Index): Index {
    match sel
    case Done => Here
    case Keep(start, _, rest) => if x.At? && start <= x.i then At(x.i - start, Within(rest, x.inner)) else Here
    case Drop(_, rest) => if x.At? then Within(rest, x.inner) else Here
  }

  /** The view shows all of the selected ranges and nothing else. */
  lemma {:induction false} ViewShowsChosen(l: Layout, sel: Selection, x: Index)
    requires Selects(l, sel)
    ensures Fits(View(l, sel), x) ==> Chosen(sel, Source(sel, x)) && Within(sel, Source(sel, x)) == x
    ensures Chosen(sel, x) ==> Fits(View(l, sel), Within(sel, x)) && Source(sel, Within(sel, x)) == x
  {
    match sel
    case Done =>
    case Keep(_, _, rest) =>
      if x.At? {
        ViewShowsChosen(l.inner, rest, x.inner);
      }
    case Drop(_, rest) =>
      ViewShowsChosen(l.inner, rest, x);
      if x.At? {
        ViewShowsChosen(l.inner, rest, x.inner);
      }
  }

  /** Why the final dimension must stay: without it the last stride is no longer that of one element,
      unless the stride it leaves is 1 by chance. */
  lemma {:induction false} LastDroppedBreaks(l: Layout, sel: Selection)
    requires Nested(l) && Selects(l, sel) && !View(l, sel).Scalar?
    ensures Nested(View(l, sel)) <==> LastStride(View(l, sel)) == 1
  {
    match sel
    case Keep(start, stop, rest) =>
      if !View(l.inner, rest).Scalar? {
        LastDroppedBreaks(l.inner, rest);
        AnySpan(l.inner, rest);
      }
    case Drop(_, rest) =>
      LastDroppedBreaks(l.inner, rest);
  }

  function LastStride(l: Layout): nat
    requires !l.Scalar?
  {
    if l.inner.Scalar? then l.stride else LastStride(l.inner)
  }

  lemma {:induction false} AnySpan(l: Layout, sel: Selection)
    requires Nested(l) && Selects(l, sel) && !View(l, sel).Scalar?
    ensures Span(View(l, sel)) <= Span(l)
  {
    match sel
    case Keep(start, stop, rest) =>
      TimesMonotone(stop - start, l.size, l.stride);
    case Drop(_, rest) =>
      AnySpan(l.inner, rest);
      TimesMonotone(1, l.size, l.stride);
  }
}
