/** Arithmetic and finite sets of naturals. */
module Numbers {

  lemma Distributes(m: int, a: int, b: int)
    ensures m * (a + b) == m * a + m * b && m * (a - b) == m * a - m * b
  {
  }

  function Pow16(n: nat): (p: nat)
    ensures p > 0
  {
    if n == 0 then 1 else 16 * Pow16(n - 1)
  }

  function NatsBelow(n: nat): (all: set<nat>)
    ensures |all| == n && forall c: nat :: c in all <==> c < n
  {
    if n == 0 then {} else NatsBelow(n - 1) + {n - 1}
  }

  lemma {:induction false} SubsetSize(a: set<nat>, b: set<nat>)
    requires a <= b
    ensures |a| <= |b| && (|a| == |b| ==> a == b)
  {
    if a != {} {
      var x :| x in a;
      SubsetSize(a - {x}, b - {x});
      assert a == (a - {x}) + {x} && b == (b - {x}) + {x};
    } else if b != {} {
      var x :| x in b;
    }
  }
}
