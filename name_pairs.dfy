/**
 * SubmissionNamePair: the key stored in the filter's HashSet. It is an ORDERED
 * pair of names: `equals` compares the components position by position and
 * `hashCode` is Objects.hash(first, second), which depends on the order too.
 * Nothing about the pair type itself makes (a, b) and (b, a) the same key.
 */
module NamePairs {
  import opened JavaStrings

  datatype NamePair = NamePair(first: string, second: string) {

    /** hashCode(): Objects.hash(s1, s2), in Java `int` arithmetic. */
    function HashCode(): (h: int)
      ensures IsInt(h)
    {
      ObjectsHash2(StringHashCode(first), StringHashCode(second))
    }

    /** equals(Object): true for the same object, false for null or an object
        of another class, and otherwise a componentwise comparison. Names are
        never null here, so Objects.equals is plain string equality. */
    predicate Equals(obj: JavaObject)
      ensures Equals(obj) <==> obj == PairObject(this)
    {
      match obj
      case PairObject(other) => first == other.first && second == other.second
      case NullObject => false
      case OtherObject => false
    }
  }

  /** What `equals` may be handed: null, another SubmissionNamePair, or an
      object of some other class. */
  datatype JavaObject = NullObject | PairObject(pair: NamePair) | OtherObject

  /** Two pairs are equal exactly when both components agree in order, so
      `equals` coincides with value equality of the datatype; a Dafny `set`
      of NamePair therefore has the membership test of the Java HashSet. */
  lemma EqualsIsComponentwise(p: NamePair, q: NamePair)
    ensures p.Equals(PairObject(q)) <==> p.first == q.first && p.second == q.second
    ensures p.Equals(PairObject(q)) <==> p == q
  {
  }

  /** `equals` is an equivalence relation on pairs. */
  lemma EqualsIsEquivalence(p: NamePair, q: NamePair, r: NamePair)
    ensures p.Equals(PairObject(p))
    ensures p.Equals(PairObject(q)) ==> q.Equals(PairObject(p))
    ensures p.Equals(PairObject(q)) && q.Equals(PairObject(r)) ==> p.Equals(PairObject(r))
  {
  }

  /** `equals` never holds for null or for an object of another class. */
  lemma EqualsRejectsOtherObjects(p: NamePair)
    ensures !p.Equals(NullObject) && !p.Equals(OtherObject)
  {
  }

  /** `hashCode` is consistent with `equals`. */
  lemma HashCodeConsistent(p: NamePair, q: NamePair)
    requires p.Equals(PairObject(q))
    ensures p.HashCode() == q.HashCode()
  {
  }

  /** The pair type is not symmetric: (a, b) and (b, a) are different keys
      whenever a and b differ. */
  lemma EqualsIsOrdered(a: string, b: string)
    requires a != b
    ensures !NamePair(a, b).Equals(PairObject(NamePair(b, a)))
  {
  }

  /** Nor does the hash hide the order: "a" hashes to 97 and "b" to 98, so
      the pair ("a", "b") hashes to 31 * (31 + 97) + 98 and ("b", "a") to
      31 * (31 + 98) + 97. */
  lemma HashCodeIsOrdered()
    ensures NamePair("a", "b").HashCode() == 4066
    ensures NamePair("b", "a").HashCode() == 4096
  {
    assert StringHashCode("a") == 97 by {
      assert "a"[..0] == [];
    }
    assert StringHashCode("b") == 98 by {
      assert "b"[..0] == [];
    }
  }

  /** Equal hashes do not make equal pairs: "Aa" and "BB" both hash to 2112,
      so ("Aa", "BB") and ("BB", "Aa") share a hash code but are different
      keys. Only `equals` decides membership. */
  lemma HashCodeCollision()
    ensures NamePair("Aa", "BB").HashCode() == NamePair("BB", "Aa").HashCode()
    ensures !NamePair("Aa", "BB").Equals(PairObject(NamePair("BB", "Aa")))
  {
    assert StringHashCode("Aa") == 2112 by {
      assert "Aa"[..1] == "A" && "A"[..0] == [];
    }
    assert StringHashCode("BB") == 2112 by {
      assert "BB"[..1] == "B" && "B"[..0] == [];
    }
  }
}
