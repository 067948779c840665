/** What the functions of both digests are, bit by bit. */
module BitLogic {

  /** Every bit is that of `yes` where the choosing word has a one, and that of `no` where it has a zero. */
  predicate ChosenBy(f: bv32, choice: bv32, yes: bv32, no: bv32) {
    f & choice == yes & choice && f & !choice == no & !choice
  }

  /** With the bits of the three words, every bit has an even number of ones. */
  predicate EvenBits(f: bv32, b: bv32, c: bv32, d: bv32) {
    f ^ b ^ c ^ d == 0
  }

  lemma ChoiceChooses(b: bv32, c: bv32, d: bv32)
    ensures ChosenBy((b & c) | (!b & d), b, c, d)
  {
  }

  lemma SumIsParity(b: bv32, c: bv32, d: bv32)
    ensures EvenBits(b ^ c ^ d, b, c, d)
  {
  }
}
