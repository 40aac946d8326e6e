/** The meaning of `OrbifoldSymbol::parse` and `parseNumber` as pure
    functions over the symbol text, and what the scan is proved to do. */
module Scanning {
  import opened Results
  import opened Components

  /** `std::isdigit` in the "C" locale. */
  predicate IsDigit(c: char) {
    '0' <= c <= '9'
  }

  /** The characters `parse` does not throw on. */
  predicate IsAccepted(c: char) {
    IsDigit(c) || c == '*' || c == 'x' || c == 'o' || c == ' ' || c == '\t'
  }

  predicate Accepted(s: string) {
    forall k :: 0 <= k < |s| ==> IsAccepted(s[k])
  }

  function DigitValue(c: char): nat
    requires IsDigit(c)
  {
    (c as int) - ('0' as int)
  }

  /** The decimal value of a digit string, accumulated left to right as
      `value = value * 10 + digit` does (with unbounded integers). */
  function DigitsValue(ds: string): nat
    requires forall k :: 0 <= k < |ds| ==> IsDigit(ds[k])
  {
    if |ds| == 0 then 0 else DigitsValue(ds[..|ds| - 1]) * 10 + DigitValue(ds[|ds| - 1])
  }

  /** The end of the maximal digit run that starts at `i` (or `i` itself when there is none). */
  function RunEnd(s: string, i: nat): (j: nat)
    requires i <= |s|
    ensures i <= j <= |s|
    ensures forall k :: i <= k < j ==> IsDigit(s[k])
    ensures j == |s| || !IsDigit(s[j])
    decreases |s| - i
  {
    if i < |s| && IsDigit(s[i]) then RunEnd(s, i + 1) else i
  }

  /** Put `c` in front of the components of a successful scan; a failure passes through. */
  function Prepend(c: Component, r: Result<seq<Component>>): Result<seq<Component>> {
    match r
    case Success(cs) => Success([c] + cs)
    case Failure(e) => Failure(e)
  }

  /** Put `done` in front of the components of a successful scan; a failure passes through. */
  function PrependAll(done: seq<Component>, r: Result<seq<Component>>): Result<seq<Component>> {
    match r
    case Success(cs) => Success(done + cs)
    case Failure(e) => Failure(e)
  }

  /** The scan of `s` from index `i` in mode `mirror` (the flag `parsingMirrorCorners`):
      the components it appends, or the error it throws. */
  function ScanFrom(s: string, i: nat, mirror: bool): Result<seq<Component>>
    requires i <= |s|
    decreases |s| - i
  {
    if i == |s| then Success([])
    else if IsDigit(s[i]) then
      var j := RunEnd(s, i);
      var order := DigitsValue(s[i..j]);
      Prepend(Component(if mirror then CornerReflector else ConePoint, order), ScanFrom(s, j, mirror))
    else if s[i] == '*' then Prepend(Component(MirrorBoundary, 0), ScanFrom(s, i + 1, true))
    else if s[i] == 'x' then Prepend(Component(Crosscap, 0), ScanFrom(s, i + 1, false))
    else if s[i] == 'o' then Prepend(Component(Handle, 0), ScanFrom(s, i + 1, false))
    else if s[i] == ' ' || s[i] == '\t' then ScanFrom(s, i + 1, mirror)
    else Failure(UnsupportedCharacter(s[i]))
  }

  /** The components `parse` leaves in `components_`, or the error it throws. */
  function ParseSpec(s: string): Result<seq<Component>> {
    ScanFrom(s, 0, false)
  }

  // ---------------------------------------------------------------------------
  // An independent, position-by-position description of the parse

  /** Mirror mode at index `i`: some `*` precedes `i` with no `x` or `o` after it. */
  predicate MirrorBefore(s: string, i: nat)
    requires i <= |s|
  {
    exists k :: 0 <= k < i && s[k] == '*' && forall m :: k < m < i ==> s[m] != 'x' && s[m] != 'o'
  }

  /** Index `i` starts a maximal run of digits. */
  predicate RunStart(s: string, i: nat)
    requires i < |s|
  {
    IsDigit(s[i]) && (i == 0 || !IsDigit(s[i - 1]))
  }

  /** What the character at index `i` contributes: one component per marker,
      one per maximal digit run (at its first digit), nothing for whitespace. */
  function At(s: string, i: nat): seq<Component>
    requires i < |s|
  {
    if RunStart(s, i) then
      [Component(if MirrorBefore(s, i) then CornerReflector else ConePoint, DigitsValue(s[i..RunEnd(s, i)]))]
    else if s[i] == '*' then [Component(MirrorBoundary, 0)]
    else if s[i] == 'x' then [Component(Crosscap, 0)]
    else if s[i] == 'o' then [Component(Handle, 0)]
    else []
  }

  /** The contributions of indices `i`, `i + 1`, ... in left-to-right order. */
  function Contributions(s: string, i: nat): seq<Component>
    requires i <= |s|
    decreases |s| - i
  {
    if i == |s| then [] else At(s, i) + Contributions(s, i + 1)
  }

  // ---------------------------------------------------------------------------
  // Properties of the scan

  /** A maximal digit run holds no marker, so counting from its end or its start agrees. */
  lemma RunHasNoMarkers(s: string, i: nat, c: char)
    requires i <= |s| && !IsDigit(c)
    ensures multiset(s[i..])[c] == multiset(s[RunEnd(s, i)..])[c]
  {
    var j := RunEnd(s, i);
    assert s[i..] == s[i..j] + s[j..];
    assert c !in s[i..j];
  }

  /** The scan from `i` succeeds exactly when every character from `i` on is accepted. */
  lemma {:induction false} ScanSucceedsIffAccepted(s: string, i: nat, mirror: bool)
    requires i <= |s|
    ensures ScanFrom(s, i, mirror).Success? <==> forall k :: i <= k < |s| ==> IsAccepted(s[k])
    decreases |s| - i
  {
    if i < |s| {
      if IsDigit(s[i]) {
        ScanSucceedsIffAccepted(s, RunEnd(s, i), mirror);
      } else if s[i] == '*' {
        ScanSucceedsIffAccepted(s, i + 1, true);
      } else if s[i] == 'x' || s[i] == 'o' {
        ScanSucceedsIffAccepted(s, i + 1, false);
      } else if s[i] == ' ' || s[i] == '\t' {
        ScanSucceedsIffAccepted(s, i + 1, mirror);
      }
    }
  }

  /** Parsing succeeds iff every character is a digit, `*`, `x`, `o`, space or tab. */
  lemma ParseSucceedsIffAccepted(s: string)
    ensures ParseSpec(s).Success? <==> Accepted(s)
  {
    ScanSucceedsIffAccepted(s, 0, false);
  }

  /** The error names the first unsupported character at or after `i`. */
  lemma {:induction false} ScanReportsFirstUnsupported(s: string, i: nat, mirror: bool, k: nat)
    requires i <= k < |s| && !IsAccepted(s[k])
    requires forall m :: i <= m < k ==> IsAccepted(s[m])
    ensures ScanFrom(s, i, mirror) == Failure(UnsupportedCharacter(s[k]))
    decreases |s| - i
  {
    if i < k {
      if IsDigit(s[i]) {
        ScanReportsFirstUnsupported(s, RunEnd(s, i), mirror, k);
      } else if s[i] == '*' {
        ScanReportsFirstUnsupported(s, i + 1, true, k);
      } else if s[i] == 'x' || s[i] == 'o' {
        ScanReportsFirstUnsupported(s, i + 1, false, k);
      } else {
        ScanReportsFirstUnsupported(s, i + 1, mirror, k);
      }
    }
  }

  /** A failing parse reports the first character outside the alphabet. */
  lemma ParseReportsFirstUnsupported(s: string, k: nat)
    requires k < |s| && !IsAccepted(s[k])
    requires forall m :: 0 <= m < k ==> IsAccepted(s[m])
    ensures ParseSpec(s) == Failure(UnsupportedCharacter(s[k]))
  {
    ScanReportsFirstUnsupported(s, 0, false, k);
  }

  /** Each `x`, `o` and `*` from `i` on yields exactly one `Crosscap`, `Handle` and
      `MirrorBoundary`, and every stored component keeps order 0 unless numeric. */
  lemma {:induction false} ScanCounts(s: string, i: nat, mirror: bool)
    requires i <= |s| && ScanFrom(s, i, mirror).Success?
    ensures var cs := ScanFrom(s, i, mirror).value;
      && CountKind(cs, Crosscap) == multiset(s[i..])['x']
      && CountKind(cs, Handle) == multiset(s[i..])['o']
      && CountKind(cs, MirrorBoundary) == multiset(s[i..])['*']
      && forall n :: 0 <= n < |cs| ==> WellFormed(cs[n]) && cs[n].order >= 0
    decreases |s| - i
  {
    if i < |s| {
      var j := if IsDigit(s[i]) then RunEnd(s, i) else i + 1;
      var m := if s[i] == '*' then true else if s[i] == 'x' || s[i] == 'o' then false else mirror;
      ScanCounts(s, j, m);
      var rest := ScanFrom(s, j, m).value;
      if IsDigit(s[i]) {
        RunHasNoMarkers(s, i, 'x');
        RunHasNoMarkers(s, i, 'o');
        RunHasNoMarkers(s, i, '*');
      } else {
        assert s[i..] == [s[i]] + s[i + 1..];
      }
      var cs := ScanFrom(s, i, mirror).value;
      if cs != rest {
        assert cs == [cs[0]] + rest;
        CountKindAppend([cs[0]], rest, Crosscap);
        CountKindAppend([cs[0]], rest, Handle);
        CountKindAppend([cs[0]], rest, MirrorBoundary);
      }
    }
  }

  /** The counters of a parsed symbol agree with the input text. */
  lemma ParseCounts(s: string)
    requires ParseSpec(s).Success?
    ensures var cs := ParseSpec(s).value;
      && CountKind(cs, Crosscap) == multiset(s)['x']
      && CountKind(cs, Handle) == multiset(s)['o']
      && CountKind(cs, MirrorBoundary) == multiset(s)['*']
      && (HasKind(cs, MirrorBoundary) <==> '*' in s)
      && forall n :: 0 <= n < |cs| ==> WellFormed(cs[n]) && cs[n].order >= 0
  {
    ScanCounts(s, 0, false);
    assert s[0..] == s;
    HasKindIffCounted(ParseSpec(s).value, MirrorBoundary);
  }

  // ---------------------------------------------------------------------------
  // The scan agrees with the position-by-position description

  /** How one character moves the mirror mode: `*` sets it, `x` and `o` clear it,
      anything else leaves it as it was. */
  lemma MirrorStep(s: string, i: nat)
    requires i < |s|
    ensures s[i] == '*' ==> MirrorBefore(s, i + 1)
    ensures s[i] == 'x' || s[i] == 'o' ==> !MirrorBefore(s, i + 1)
    ensures s[i] != '*' && s[i] != 'x' && s[i] != 'o' ==> (MirrorBefore(s, i + 1) <==> MirrorBefore(s, i))
  {
  }

  /** A digit run leaves the mirror mode as it found it. */
  lemma MirrorAcrossRun(s: string, i: nat)
    requires i <= |s|
    ensures MirrorBefore(s, RunEnd(s, i)) <==> MirrorBefore(s, i)
  {
  }

  /** Digits that continue a run contribute nothing of their own. */
  lemma {:induction false} RunTailContributesNothing(s: string, k: nat)
    requires 0 < k <= |s| && IsDigit(s[k - 1])
    ensures Contributions(s, k) == Contributions(s, RunEnd(s, k))
    decreases |s| - k
  {
    if k < |s| && IsDigit(s[k]) {
      assert At(s, k) == [];
      RunTailContributesNothing(s, k + 1);
    }
  }

  /** From any index that is not inside a digit run, scanning in the mirror mode
      that the text before it determines yields exactly the contributions. */
  lemma {:induction false} ScanMatchesContributions(s: string, i: nat)
    requires i <= |s|
    requires forall k :: i <= k < |s| ==> IsAccepted(s[k])
    requires i == 0 || i == |s| || !IsDigit(s[i - 1]) || !IsDigit(s[i])
    ensures ScanFrom(s, i, MirrorBefore(s, i)) == Success(Contributions(s, i))
    decreases |s| - i
  {
    if i < |s| {
      MirrorStep(s, i);
      if IsDigit(s[i]) {
        var j := RunEnd(s, i);
        MirrorAcrossRun(s, i);
        ScanMatchesContributions(s, j);
        RunTailContributesNothing(s, i + 1);
        assert RunEnd(s, i + 1) == j;
      } else {
        ScanMatchesContributions(s, i + 1);
        var next := ScanFrom(s, i + 1, MirrorBefore(s, i + 1));
        if s[i] == ' ' || s[i] == '\t' {
          assert At(s, i) == [];
          assert Contributions(s, i) == [] + Contributions(s, i + 1) == Contributions(s, i + 1);
          assert ScanFrom(s, i, MirrorBefore(s, i)) == next;
        } else {
          assert ScanFrom(s, i, MirrorBefore(s, i)) == Prepend(At(s, i)[0], next);
        }
      }
    }
  }

  /** An accepted symbol parses to its contributions in left-to-right order: each
      marker gives its component, each maximal digit run one component whose order
      is the run's decimal value and which is a `CornerReflector` exactly when the
      last of `*`, `x`, `o` before the run is `*`, and whitespace gives nothing. */
  lemma ParseMatchesContributions(s: string)
    requires Accepted(s)
    ensures ParseSpec(s) == Success(Contributions(s, 0))
  {
    ScanMatchesContributions(s, 0);
  }
}
