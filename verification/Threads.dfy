/** Any number of threads, and counting those at given places in their code. */
module Threads {
  type Tid = nat

  datatype Lock = Free | HeldBy(owner: Tid)

  /** The threads that are at a place `p` picks out. */
  function Those<P>(pcs: map<Tid, P>, p: P -> bool): set<Tid> {
    set t | t in pcs && p(pcs[t])
  }

  function Count<P>(pcs: map<Tid, P>, p: P -> bool): nat {
    |Those(pcs, p)|
  }

  function One(b: bool): nat {
    if b then 1 else 0
  }

  /** A count after one thread has moved. */
  lemma CountMoved<P>(pcs: map<Tid, P>, t: Tid, pc: P, p: P -> bool)
    ensures Count(pcs[t := pc], p) == Count(pcs, p) - One(t in pcs && p(pcs[t])) + One(p(pc))
  {
    var others := Those(pcs, p) - {t};
    assert Those(pcs[t := pc], p) == if p(pc) then others + {t} else others;
    if t in pcs && p(pcs[t]) {
      assert Those(pcs, p) == others + {t};
    } else {
      assert Those(pcs, p) == others;
    }
  }

  lemma CountedIsPositive<P>(pcs: map<Tid, P>, t: Tid, p: P -> bool)
    requires t in pcs && p(pcs[t])
    ensures Count(pcs, p) >= 1
  {
    assert t in Those(pcs, p);
  }

  lemma NoneCounted<P>(pcs: map<Tid, P>, p: P -> bool)
    requires forall t :: t in pcs ==> !p(pcs[t])
    ensures Count(pcs, p) == 0
  {
    assert Those(pcs, p) == {};
  }

  lemma SubsetCount(a: set<Tid>, b: set<Tid>)
    requires a <= b
    ensures |a| <= |b|
  {
    assert b == a + (b - a);
  }
}
