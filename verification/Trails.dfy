/** Several steps of one thread in a row, with no other thread between them. */
module Trails {
  ghost predicate StepAt<S(!new)>(goes: (S, S) -> bool, trail: seq<S>, i: int)
    requires 0 < i < |trail|
  {
    goes(trail[i - 1], trail[i])
  }

  ghost predicate Trail<S(!new)>(goes: (S, S) -> bool, trail: seq<S>) {
    forall i :: 0 < i < |trail| ==> StepAt(goes, trail, i)
  }

  /** `n` steps lead from `s` to `s'`. */
  ghost predicate Leads<S(!new)>(goes: (S, S) -> bool, s: S, n: nat, s': S) {
    exists trail: seq<S> :: Trail(goes, trail) && |trail| == n + 1 && trail[0] == s && trail[n] == s'
  }

  lemma Once<S(!new)>(goes: (S, S) -> bool, s: S, s': S)
    requires goes(s, s')
    ensures Leads(goes, s, 1, s')
  {
    var trail := [s, s'];
    assert Trail(goes, trail);
  }

  lemma Then<S(!new)>(goes: (S, S) -> bool, s: S, n: nat, m: S, k: nat, s': S)
    requires Leads(goes, s, n, m) && Leads(goes, m, k, s')
    ensures Leads(goes, s, n + k, s')
  {
    var a: seq<S> :| Trail(goes, a) && |a| == n + 1 && a[0] == s && a[n] == m;
    var b: seq<S> :| Trail(goes, b) && |b| == k + 1 && b[0] == m && b[k] == s';
    var c := a + b[1..];
    forall i | 0 < i < |c| ensures StepAt(goes, c, i) {
      if i < |a| { assert StepAt(goes, a, i); } else { assert StepAt(goes, b, i - n); }
    }
    assert c[n + k] == s';
  }
}
