/** Numbered points of a run at which something may happen. */
module Occurrences {
  /** It happens at none of these points. */
  ghost predicate Quiet(happens: nat -> bool, from: nat, to: nat) {
    forall n :: from <= n < to ==> !happens(n)
  }

  /** It happens at one of these points at most. */
  ghost predicate AtMostOnce(happens: nat -> bool, from: nat, to: nat) {
    forall m, n :: from <= m < n < to ==> !happens(m) || !happens(n)
  }

  lemma NeverYet(happens: nat -> bool, from: nat)
    ensures Quiet(happens, from, from)
  {
  }

  lemma QuietOneMore(happens: nat -> bool, from: nat, to: nat)
    requires from <= to
    ensures Quiet(happens, from, to + 1) <==> Quiet(happens, from, to) && !happens(to)
  {
  }

  lemma QuietTwice(happens: nat -> bool, from: nat, middle: nat, to: nat)
    requires from <= middle <= to
    ensures Quiet(happens, from, to) <==> Quiet(happens, from, middle) && Quiet(happens, middle, to)
  {
  }

  /** What happens at most once happens before a point or after it. */
  lemma OnceInTwo(happens: nat -> bool, from: nat, middle: nat, to: nat)
    requires from <= middle <= to && AtMostOnce(happens, from, to)
    ensures Quiet(happens, from, middle) || Quiet(happens, middle, to)
    ensures AtMostOnce(happens, from, middle) && AtMostOnce(happens, middle, to)
  {
  }
}
