/** Cutting a range into parts as equal as whole numbers allow, the way both samplers do. */
module Parts {

  /** Position `offset` of a range of `span` lies in part `b` of `count`. */
  predicate InPart(offset: nat, span: nat, count: nat, b: nat) {
    b * span <= offset * count < (b + 1) * span
  }

  /** The scaled position, kept below the number of parts. */
  function PartOf(offset: nat, span: nat, count: nat): (b: nat)
    requires span > 0 && count > 0
    ensures b < count
  {
    QuotientIsNat(offset * count, span);
    var index := offset * count / span;
    if index < count then index else count - 1
  }

  lemma QuotientIsNat(a: nat, d: nat)
    requires d > 0
    ensures a / d >= 0 && (a / d) * d <= a < (a / d + 1) * d
  {
    assert a == (a / d) * d + a % d;
  }

  lemma Scale(a: nat, b: nat, c: nat)
    requires a <= b
    ensures a * c <= b * c
  {
  }

  /** A position within the range lies in the part computed for it. */
  lemma PartIsFound(offset: nat, span: nat, count: nat)
    requires offset < span && count > 0
    ensures InPart(offset, span, count, PartOf(offset, span, count))
  {
    var index := offset * count / span;
    QuotientIsNat(offset * count, span);
    Scale(offset + 1, span, count);
    if index >= count { Scale(count, index, span); }
  }

  /** The parts are in order, so that no position lies in two of them. */
  lemma PartsAreOrdered(a: nat, b: nat, span: nat, count: nat, i: nat, j: nat)
    requires a <= b && InPart(a, span, count, i) && InPart(b, span, count, j)
    ensures i <= j
  {
    Scale(a, b, count);
    if i > j { Scale(j + 1, i, span); }
  }

  lemma OnlyPart(offset: nat, span: nat, count: nat)
    requires offset < span && count > 0
    ensures forall b: nat :: InPart(offset, span, count, b) <==> b == PartOf(offset, span, count)
  {
    hide InPart, PartOf;
    PartIsFound(offset, span, count);
    forall b: nat | InPart(offset, span, count, b)
      ensures b == PartOf(offset, span, count)
    {
      PartsAreOrdered(offset, offset, span, count, b, PartOf(offset, span, count));
      PartsAreOrdered(offset, offset, span, count, PartOf(offset, span, count), b);
    }
  }
}
