// Where one text stands in another.
module Texts {

  /** The characters with the Unicode property White_Space. */
  predicate IsWhiteSpace(c: char) {
    var code := c as int;
    9 <= code <= 13 || code in {0x20, 0x85, 0xA0, 0x1680} || 0x2000 <= code <= 0x200A
    || code in {0x2028, 0x2029, 0x202F, 0x205F, 0x3000}
  }

  predicate StandsAt(part: string, text: string, at: nat) {
    at + |part| <= |text| && text[at..at + |part|] == part
  }

  lemma StandingIsSlice(part: string, text: string, at: nat)
    requires StandsAt(part, text, at)
    ensures at + |part| <= |text| && text[at..at + |part|] == part
  {
  }

  lemma Regroup(a: string, b: string, c: string)
    ensures a + b + c == a + (b + c)
  {
  }

  lemma StandsBetween(front: string, part: string, back: string)
    ensures StandsAt(part, front + part + back, |front|)
  {
  }

  lemma StandsDeeper(part: string, middle: string, text: string, inner: nat, outer: nat)
    requires StandsAt(part, middle, inner) && StandsAt(middle, text, outer)
    ensures StandsAt(part, text, outer + inner)
  {
    forall i | 0 <= i < |part| ensures text[outer + inner + i] == part[i] {
      assert middle[inner + i] == middle[inner..inner + |part|][i];
      assert text[outer + (inner + i)] == text[outer..outer + |middle|][inner + i];
    }
  }

  lemma StandsInMiddle(part: string, front: string, middle: string, back: string, inner: nat)
    requires StandsAt(part, middle, inner)
    ensures StandsAt(part, front + (middle + back), |front| + inner)
  {
    assert front + (middle + back) == front + middle + back;
    StandsDeeper(part, middle, front + (middle + back), inner, |front|);
  }

  /** What stands in a prefix, and what stands at its beginning, stand in the whole. */
  lemma StandsInPrefix(first: string, part: string, front: string, back: string, at: nat)
    requires StandsAt(part, front, at) && StandsAt(first, part, 0)
    ensures StandsAt(part, front + back, at) && StandsAt(first, front + back, at)
  {
    StandsInMiddle(part, "", front, back, at);
    assert "" + (front + back) == front + back;
    StandsDeeper(first, part, front + back, 0, at);
  }

  /** What stands within a stretch of the text stands in that stretch taken alone. */
  lemma StandsInSlice(part: string, text: string, at: nat, low: nat, high: nat)
    requires StandsAt(part, text, at) && low <= at && at + |part| <= high <= |text|
    ensures StandsAt(part, text[low..high], at - low)
  {
    var slice := text[low..high];
    forall i | 0 <= i < |part| ensures slice[at - low + i] == part[i] {
      assert text[at + i] == text[at..at + |part|][i];
    }
  }
}
