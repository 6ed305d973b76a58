/**
 * The sign of a budget section: an income section adds to the monthly
 * savings, an expense or debt section subtracts from it.
 */
module SectionTypes {

  /** An IntEnum with exactly two members. */
  datatype SectionType = Negative | Positive {

    /** int(state): the enum's integer value. */
    function Value(): (v: int)
      ensures v == -1 <==> this == Negative
      ensures v == 1 <==> this == Positive
    {
      match this
      case Negative => -1
      case Positive => 1
    }

    /** A raw section sum multiplied by the integer value of the sign. */
    function Apply(sum: real): (r: real)
      ensures this == Negative ==> r == -sum
      ensures this == Positive ==> r == sum
    {
      sum * Value() as real
    }
  }

  /** Every value of the type is one of the two members. */
  lemma ExactlyTwoMembers(t: SectionType)
    ensures t == Negative || t == Positive
    ensures Negative != Positive
  {
  }

  /** Signing distributes over the sum of two parts. */
  lemma ApplyAdds(t: SectionType, a: real, b: real)
    ensures t.Apply(a + b) == t.Apply(a) + t.Apply(b)
  {
  }
}
