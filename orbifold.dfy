/** The class `orbifold::OrbifoldSymbol`: the symbol text and the fields that the
    private `parse` fills once, during construction. */
module Orbifold {
  import opened Results
  import opened Components
  import opened Scanning
  import opened Characteristic
  import Wallpaper

  class OrbifoldSymbol {
    var symbol_: string
    var hasMirrorBoundary_: bool
    var crosscaps_: nat
    var handles_: nat
    var components_: seq<Component>

    /** The state of every object that construction returns: the fields hold what
        parsing the text yields. */
    ghost predicate Valid()
      reads this
    {
      && ParseSpec(symbol_) == Success(components_)
      && hasMirrorBoundary_ == HasKind(components_, MirrorBoundary)
      && crosscaps_ == CountKind(components_, Crosscap)
      && handles_ == CountKind(components_, Handle)
    }

    /** The member initialisers: the text is stored, the flag is false, both counters
        are 0 and there are no components yet. */
    constructor (symbol: string)
      ensures symbol_ == symbol
      ensures !hasMirrorBoundary_ && crosscaps_ == 0 && handles_ == 0 && components_ == []
    {
      symbol_ := symbol;
      hasMirrorBoundary_ := false;
      crosscaps_ := 0;
      handles_ := 0;
      components_ := [];
    }

    /** `OrbifoldSymbol(std::string)`: initialise, then parse; a parse error means no
        object is produced. */
    static method Create(symbol: string) returns (r: Result<OrbifoldSymbol>)
      ensures r.Success? <==> Accepted(symbol)
      ensures r.Success? ==> fresh(r.value) && r.value.Valid() && r.value.symbol_ == symbol
      ensures r.Failure? ==> ParseSpec(symbol) == Failure(r.error)
    {
      var o := new OrbifoldSymbol(symbol);
      var outcome := o.Parse();
      if outcome.Some? {
        return Failure(outcome.value);
      }
      return Success(o);
    }

    /** `parse`: reset the fields, then scan the text once from left to right with the
        mode flag `parsingMirrorCorners`. Returns the error it throws, if any. */
    method Parse() returns (error: Option<Error>)
      modifies this
      ensures symbol_ == old(symbol_)
      ensures error.None? <==> Accepted(symbol_)
      ensures error.None? ==> Valid()
      ensures error.Some? ==> ParseSpec(symbol_) == Failure(error.value)
    {
      components_ := [];
      hasMirrorBoundary_ := false;
      crosscaps_ := 0;
      handles_ := 0;

      var parsingMirrorCorners := false;
      var i: nat := 0;
      AppendNothing([], ParseSpec(symbol_));
      while i < |symbol_|
        invariant i <= |symbol_| && symbol_ == old(symbol_)
        invariant ParseSpec(symbol_) == PrependAll(components_, ScanFrom(symbol_, i, parsingMirrorCorners))
        invariant hasMirrorBoundary_ == HasKind(components_, MirrorBoundary)
        invariant crosscaps_ == CountKind(components_, Crosscap)
        invariant handles_ == CountKind(components_, Handle)
        decreases |symbol_| - i
      {
        var ch := symbol_[i];
        if IsDigit(ch) {
          var value, next := ParseNumber(symbol_, i);
          if value.None? {
            ParseSucceedsIffAccepted(symbol_);
            return Some(UnexpectedDigitState);
          }
          i := next;
          var c := if parsingMirrorCorners then Component(CornerReflector, value.value)
                   else Component(ConePoint, value.value);
          AppendOne(components_, c, ScanFrom(symbol_, i + 1, parsingMirrorCorners));
          AppendComponent(components_, c);
          components_ := components_ + [c];
        } else if ch == '*' {
          hasMirrorBoundary_ := true;
          parsingMirrorCorners := true;
          AppendOne(components_, Component(MirrorBoundary, 0), ScanFrom(symbol_, i + 1, true));
          AppendComponent(components_, Component(MirrorBoundary, 0));
          components_ := components_ + [Component(MirrorBoundary, 0)];
        } else if ch == 'x' {
          crosscaps_ := crosscaps_ + 1;
          parsingMirrorCorners := false;
          AppendOne(components_, Component(Crosscap, 0), ScanFrom(symbol_, i + 1, false));
          AppendComponent(components_, Component(Crosscap, 0));
          components_ := components_ + [Component(Crosscap, 0)];
        } else if ch == 'o' {
          handles_ := handles_ + 1;
          parsingMirrorCorners := false;
          AppendOne(components_, Component(Handle, 0), ScanFrom(symbol_, i + 1, false));
          AppendComponent(components_, Component(Handle, 0));
          components_ := components_ + [Component(Handle, 0)];
        } else if ch == ' ' || ch == '\t' {
        } else {
          ParseSucceedsIffAccepted(symbol_);
          return Some(UnsupportedCharacter(ch));
        }
        i := i + 1;
      }
      AppendNothing(components_, ScanFrom(symbol_, i, parsingMirrorCorners));
      ParseSucceedsIffAccepted(symbol_);
      return None;
    }

    /** `parseNumber`: read the maximal digit run at `index`; the index comes back on
        the run's last digit, so that the caller's `++i` lands on the first non-digit.
        Without a digit at `index` there is no value and the index is unchanged. */
    static method ParseNumber(text: string, index: nat) returns (value: Option<int>, newIndex: nat)
      ensures index < |text| && IsDigit(text[index]) ==>
        value == Some(DigitsValue(text[index..RunEnd(text, index)])) && newIndex == RunEnd(text, index) - 1
      ensures !(index < |text| && IsDigit(text[index])) ==> value == None && newIndex == index
    {
      var v := 0;
      var count: nat := 0;
      newIndex := index;
      while newIndex < |text| && IsDigit(text[newIndex])
        invariant newIndex == index + count
        invariant count > 0 ==> newIndex <= |text|
        invariant count > 0 ==> forall k :: index <= k < newIndex ==> IsDigit(text[k])
        invariant count > 0 ==> v == DigitsValue(text[index..newIndex])
        invariant count == 0 ==> v == 0
        decreases |text| - newIndex
      {
        assert text[index..newIndex + 1][..newIndex - index] == text[index..newIndex];
        v := v * 10 + DigitValue(text[newIndex]);
        newIndex := newIndex + 1;
        count := count + 1;
      }
      if count == 0 {
        return None, newIndex;
      }
      if newIndex != 0 {
        newIndex := newIndex - 1;
      }
      return Some(v), newIndex;
    }

    /** `symbol()`: the text, which a constructed object holds only if it is accepted. */
    function Symbol(): (s: string)
      reads this
      requires Valid()
      ensures s == symbol_ && Accepted(s)
    {
      ParseSucceedsIffAccepted(symbol_);
      symbol_
    }

    /** `components()`: the parsed components, in input order, non-numeric kinds with order 0. */
    function Components(): (cs: seq<Component>)
      reads this
      requires Valid()
      ensures ParseSpec(symbol_) == Success(cs)
      ensures forall n :: 0 <= n < |cs| ==> WellFormed(cs[n]) && cs[n].order >= 0
    {
      ParseCounts(symbol_);
      components_
    }

    /** `hasMirrorBoundary()`: whether the text has a `*`. */
    function HasMirrorBoundary(): (b: bool)
      reads this
      requires Valid()
      ensures b <==> '*' in symbol_
      ensures b <==> HasKind(components_, MirrorBoundary)
    {
      ParseCounts(symbol_);
      hasMirrorBoundary_
    }

    /** `crosscaps()`: the number of `x` in the text and of `Crosscap` components. */
    function Crosscaps(): (n: nat)
      reads this
      requires Valid()
      ensures n == multiset(symbol_)['x'] == CountKind(components_, Crosscap)
    {
      ParseCounts(symbol_);
      crosscaps_
    }

    /** `handles()`: the number of `o` in the text and of `Handle` components. */
    function Handles(): (n: nat)
      reads this
      requires Valid()
      ensures n == multiset(symbol_)['o'] == CountKind(components_, Handle)
    {
      ParseCounts(symbol_);
      handles_
    }

    /** `wallpaperGroup()`: the group named by the exact text, or the "not recognized" error. */
    function WallpaperGroup(): (r: Result<string>)
      reads this
      ensures r.Success? <==> symbol_ in Wallpaper.Table
      ensures r.Success? ==> r.value == Wallpaper.Table[symbol_] && EulerSpec(symbol_, hasMirrorBoundary_, crosscaps_, handles_, components_) == Finite(0.0)
      ensures r.Failure? ==> r.error == UnrecognizedSymbol
    {
      Wallpaper.Classify(symbol_)
    }

    /** `eulerCharacteristic()`: 0 for a table key; otherwise start from 2, take off the
        handles, crosscaps and mirror flag, then walk the components. A `const` query. */
    method EulerCharacteristic() returns (chi: Chi)
      ensures chi == EulerSpec(symbol_, hasMirrorBoundary_, crosscaps_, handles_, components_)
    {
      var table := Wallpaper.Table;
      if symbol_ in table {
        return Finite(0.0);
      }

      var base := 2.0;
      base := base - 2.0 * (handles_ as real);
      base := base - (crosscaps_ as real);
      if hasMirrorBoundary_ {
        base := base - 1.0;
      }
      chi := Finite(base);

      var seenMirrorBoundary := false;
      var k := 0;
      while k < |components_|
        invariant k <= |components_|
        invariant chi == if HasZeroOrder(components_[..k]) then PositiveInfinity
                         else Finite(base - Deficit(components_[..k]))
        invariant seenMirrorBoundary == HasKind(components_[..k], MirrorBoundary)
      {
        var c := components_[k];
        assert components_[..k + 1] == components_[..k] + [c];
        match c.kind {
          case ConePoint =>
            chi := if c.order == 0 then PositiveInfinity else Minus(chi, 1.0 - 1.0 / (c.order as real));
          case CornerReflector =>
            chi := if c.order == 0 then PositiveInfinity else Minus(chi, 1.0 - 1.0 / (2.0 * (c.order as real)));
          case Crosscap =>
          case Handle =>
          case MirrorBoundary =>
            seenMirrorBoundary := true;
        }
        k := k + 1;
      }
      assert components_[..k] == components_;

      if hasMirrorBoundary_ && !seenMirrorBoundary {
        chi := Minus(chi, 1.0);
      }
    }
  }

  /** One scan step: appending `c` to the components already stored keeps the
      stored-plus-remaining view of the parse. */
  lemma AppendOne(done: seq<Component>, c: Component, rest: Result<seq<Component>>)
    ensures PrependAll(done, Prepend(c, rest)) == PrependAll(done + [c], rest)
  {
    if rest.Success? {
      assert done + ([c] + rest.value) == (done + [c]) + rest.value;
    }
  }

  /** Appending nothing leaves a scan result as it is. */
  lemma AppendNothing(done: seq<Component>, rest: Result<seq<Component>>)
    ensures done == [] ==> PrependAll(done, rest) == rest
    ensures rest == Success([]) ==> PrependAll(done, rest) == Success(done)
  {
    if rest.Success? {
      assert [] + rest.value == rest.value;
      assert done + [] == done;
    }
  }
}
