/** The value `OrbifoldSymbol::eulerCharacteristic` computes, stated over exact
    reals, and what it is for a parsed symbol. */
module Characteristic {
  import opened Components
  import Scanning
  import Wallpaper

  /** A result of `eulerCharacteristic`: a finite value, or the +infinity that an
      order-0 component produces (`1.0 / 0.0` is +infinity, so that component
      subtracts -infinity, and +infinity minus anything finite or -infinity stays
      +infinity). Rounding of finite values is not modelled. */
  datatype Chi = Finite(value: real) | PositiveInfinity

  /** Subtract a finite amount. */
  function Minus(chi: Chi, d: real): Chi {
    match chi
    case Finite(v) => Finite(v - d)
    case PositiveInfinity => PositiveInfinity
  }

  /** Some cone point or corner reflector has order 0. */
  predicate HasZeroOrder(cs: seq<Component>) {
    exists i :: 0 <= i < |cs| && IsNumeric(cs[i].kind) && cs[i].order == 0
  }

  /** What one component subtracts inside the loop: `1 - 1/n` for a cone point,
      `1 - 1/(2n)` for a corner reflector, nothing for the other kinds. */
  function ComponentDeficit(c: Component): real
    requires !(IsNumeric(c.kind) && c.order == 0)
  {
    match c.kind
    case ConePoint => 1.0 - 1.0 / (c.order as real)
    case CornerReflector => 1.0 - 1.0 / (2.0 * (c.order as real))
    case _ => 0.0
  }

  /** The sum of the component deficits, taken left to right. */
  function Deficit(cs: seq<Component>): real
    requires !HasZeroOrder(cs)
  {
    if |cs| == 0 then 0.0
    else Deficit(cs[..|cs| - 1]) + ComponentDeficit(cs[|cs| - 1])
  }

  /** The general formula of `eulerCharacteristic`, defensive last step included:
      one more is subtracted when the mirror flag is set but no `MirrorBoundary`
      component exists. */
  function GeneralFormula(hasMirrorBoundary: bool, crosscaps: nat, handles: nat, cs: seq<Component>): Chi {
    if HasZeroOrder(cs) then PositiveInfinity
    else
      var base := 2.0 - 2.0 * (handles as real) - (crosscaps as real) - (if hasMirrorBoundary then 1.0 else 0.0);
      var defensive := if hasMirrorBoundary && !HasKind(cs, MirrorBoundary) then 1.0 else 0.0;
      Finite(base - Deficit(cs) - defensive)
  }

  /** `eulerCharacteristic` of an object with the given fields: 0 for a wallpaper-table
      key (matched on the raw text), the general formula otherwise. */
  function EulerSpec(symbol: string, hasMirrorBoundary: bool, crosscaps: nat, handles: nat,
                     cs: seq<Component>): Chi
  {
    if symbol in Wallpaper.Table then Finite(0.0)
    else GeneralFormula(hasMirrorBoundary, crosscaps, handles, cs)
  }

  /** The characteristic of the symbol `s` parses to, with the counters `parse` sets. */
  function ParsedEuler(s: string): Chi
    requires Scanning.ParseSpec(s).Success?
  {
    var cs := Scanning.ParseSpec(s).value;
    EulerSpec(s, HasKind(cs, MirrorBoundary), CountKind(cs, Crosscap), CountKind(cs, Handle), cs)
  }

  /** With orders that are not negative, every deficit is at least 0. */
  lemma {:induction false} DeficitNonNegative(cs: seq<Component>)
    requires !HasZeroOrder(cs)
    requires forall n :: 0 <= n < |cs| ==> cs[n].order >= 0
    ensures Deficit(cs) >= 0.0
  {
    if |cs| > 0 {
      var c := cs[|cs| - 1];
      DeficitNonNegative(cs[..|cs| - 1]);
      if IsNumeric(c.kind) {
        var n := c.order as real;
        assert n >= 1.0;
        assert 1.0 / n <= 1.0;
        assert 1.0 / (2.0 * n) <= 1.0;
      }
    }
  }

  /** For a parsed symbol that is not a table key and has no order-0 component, the
      defensive step never fires and the characteristic is the closed form
      2 - 2 * #o - #x - [a `*` occurs] - the deficits. */
  lemma ParsedClosedForm(s: string)
    requires Scanning.ParseSpec(s).Success?
    requires s !in Wallpaper.Table
    requires !HasZeroOrder(Scanning.ParseSpec(s).value)
    ensures ParsedEuler(s) == Finite(2.0 - 2.0 * (multiset(s)['o'] as real) - (multiset(s)['x'] as real)
                                     - (if '*' in s then 1.0 else 0.0) - Deficit(Scanning.ParseSpec(s).value))
  {
    Scanning.ParseCounts(s);
  }

  /** A parsed symbol whose orders are positive has characteristic at most 2, and at
      most 0 once it has a handle, at most 1 once it has a crosscap or a mirror. */
  lemma ParsedAtMostTwo(s: string)
    requires Scanning.ParseSpec(s).Success?
    requires !HasZeroOrder(Scanning.ParseSpec(s).value)
    ensures ParsedEuler(s).Finite?
    ensures ParsedEuler(s).value <= 2.0
    ensures 'o' in s ==> ParsedEuler(s).value <= 0.0
    ensures 'x' in s || '*' in s ==> ParsedEuler(s).value <= 1.0
  {
    Scanning.ParseCounts(s);
    DeficitNonNegative(Scanning.ParseSpec(s).value);
  }

  /** Every wallpaper-table key parses and has characteristic exactly 0. */
  lemma KeysHaveZero(s: string)
    requires s in Wallpaper.Table
    ensures Scanning.ParseSpec(s).Success?
    ensures ParsedEuler(s) == Finite(0.0)
  {
    Wallpaper.KeysAreAccepted();
  }
}
