/** Identity of integers, which some of the topology scripts compare where equality is
    meant. */
module Identity {
  // CPython has one object for each number up to 256, and makes a new one for every
  // larger number that a range or len gives.
  const SHARED := 256

  // `is not`, on two numbers that were made separately.
  predicate IsNot(a: nat, b: nat) {
    a != b || a > SHARED
  }
}
