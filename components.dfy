/** The value types of `include/orbifold/OrbifoldSymbol.h`: the kind of a
    component and the component record with its `order` (0 unless numeric). */
module Components {

  datatype ComponentType = ConePoint | CornerReflector | Crosscap | Handle | MirrorBoundary

  /** A component as the header declares it: its kind and an order that defaults to 0. */
  datatype Component = Component(kind: ComponentType, order: int)

  /** The kinds that carry a numeric order read from a run of digits. */
  predicate IsNumeric(k: ComponentType) {
    k == ConePoint || k == CornerReflector
  }

  /** A component as the parser stores it: a non-numeric kind keeps the default order 0. */
  predicate WellFormed(c: Component) {
    !IsNumeric(c.kind) ==> c.order == 0
  }

  /** Number of components of kind `k`. */
  function CountKind(cs: seq<Component>, k: ComponentType): nat {
    if |cs| == 0 then 0
    else (if cs[0].kind == k then 1 else 0) + CountKind(cs[1..], k)
  }

  /** Whether some component has kind `k`. */
  predicate HasKind(cs: seq<Component>, k: ComponentType) {
    exists i :: 0 <= i < |cs| && cs[i].kind == k
  }

  lemma {:induction false} CountKindAppend(a: seq<Component>, b: seq<Component>, k: ComponentType)
    ensures CountKind(a + b, k) == CountKind(a, k) + CountKind(b, k)
  {
    if |a| > 0 {
      assert (a + b)[1..] == a[1..] + b;
      CountKindAppend(a[1..], b, k);
    } else {
      assert a + b == b;
    }
  }

  /** Containing a kind is the same as counting it at least once. */
  lemma {:induction false} HasKindIffCounted(cs: seq<Component>, k: ComponentType)
    ensures HasKind(cs, k) <==> CountKind(cs, k) > 0
  {
    if |cs| > 0 {
      HasKindIffCounted(cs[1..], k);
      if HasKind(cs[1..], k) {
        var i :| 0 <= i < |cs[1..]| && cs[1..][i].kind == k;
        assert cs[i + 1].kind == k;
      }
      if HasKind(cs, k) && cs[0].kind != k {
        var i :| 0 <= i < |cs| && cs[i].kind == k;
        assert cs[1..][i - 1].kind == k;
      }
    }
  }

  /** Appending one component adds one to the count of its own kind only. */
  lemma AppendComponent(cs: seq<Component>, c: Component)
    ensures forall k :: CountKind(cs + [c], k) == CountKind(cs, k) + (if c.kind == k then 1 else 0)
    ensures forall k :: HasKind(cs + [c], k) <==> HasKind(cs, k) || c.kind == k
  {
    forall k ensures CountKind(cs + [c], k) == CountKind(cs, k) + (if c.kind == k then 1 else 0) {
      CountKindAppend(cs, [c], k);
    }
    forall k ensures HasKind(cs + [c], k) <==> HasKind(cs, k) || c.kind == k {
      if HasKind(cs + [c], k) && c.kind != k {
        var i :| 0 <= i < |cs + [c]| && (cs + [c])[i].kind == k;
        assert cs[i].kind == k;
      }
      if HasKind(cs, k) {
        var i :| 0 <= i < |cs| && cs[i].kind == k;
        assert (cs + [c])[i].kind == k;
      }
      if c.kind == k {
        assert (cs + [c])[|cs|].kind == k;
      }
    }
  }
}
