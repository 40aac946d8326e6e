/** Concrete symbols: what parsing, classification and the characteristic give for
    the symbols the repository's tests and demo use, and for the edge cases. */
module Examples {
  import opened Results
  import opened Components
  import opened Scanning
  import opened Characteristic
  import Wallpaper

  /** `"*632"` classifies as `p6m` with characteristic 0, although its digits form one
      run and so one corner reflector of order 632. */
  lemma StarSixThreeTwo()
    ensures ParseSpec("*632") == Success([Component(MirrorBoundary, 0), Component(CornerReflector, 632)])
    ensures Wallpaper.Classify("*632") == Success("p6m")
    ensures ParsedEuler("*632") == Finite(0.0)
  {
    var s := "*632";
    assert RunEnd(s, 1) == 4;
    assert s[1..4] == "632";
    assert DigitsValue("632") == 632 by {
      assert "632"[..2] == "63" && "63"[..1] == "6" && "6"[..0] == "";
    }
    assert ScanFrom(s, 4, true) == Success([]);
    assert ScanFrom(s, 1, true) == Prepend(Component(CornerReflector, 632), ScanFrom(s, 4, true));
    assert [Component(CornerReflector, 632)] + [] == [Component(CornerReflector, 632)];
    assert ScanFrom(s, 0, false) == Prepend(Component(MirrorBoundary, 0), ScanFrom(s, 1, true));
    assert [Component(MirrorBoundary, 0)] + [Component(CornerReflector, 632)]
        == [Component(MirrorBoundary, 0), Component(CornerReflector, 632)];
  }

  /** Whitespace is dropped by the parser but not by the table: `"* 632"` has the same
      components as `"*632"`, is not recognised, and takes the general formula
      2 - 1 - (1 - 1/1264). */
  lemma WhitespaceMattersOnlyToTheTable()
    ensures ParseSpec("* 632") == ParseSpec("*632")
    ensures Wallpaper.Classify("* 632") == Failure(UnrecognizedSymbol)
    ensures ParsedEuler("* 632") == Finite(1.0 / 1264.0)
  {
    StarSixThreeTwo();
    var s := "* 632";
    assert RunEnd(s, 2) == 5;
    assert s[2..5] == "632";
    assert DigitsValue("632") == 632 by {
      assert "632"[..2] == "63" && "63"[..1] == "6" && "6"[..0] == "";
    }
    assert ScanFrom(s, 5, true) == Success([]);
    assert ScanFrom(s, 2, true) == Prepend(Component(CornerReflector, 632), ScanFrom(s, 5, true));
    assert [Component(CornerReflector, 632)] + [] == [Component(CornerReflector, 632)];
    assert ScanFrom(s, 1, true) == ScanFrom(s, 2, true);
    assert ScanFrom(s, 0, false) == Prepend(Component(MirrorBoundary, 0), ScanFrom(s, 1, true));
    assert ParseSpec(s) == Success([Component(MirrorBoundary, 0), Component(CornerReflector, 632)]);
    var cs := ParseSpec(s).value;
    assert HasKind(cs, MirrorBoundary) by { assert cs[0].kind == MirrorBoundary; }
    assert !HasZeroOrder(cs);
    assert CountKind(cs, Crosscap) == 0 && CountKind(cs, Handle) == 0;
    assert cs[..1] == [cs[0]] && cs[..1][..0] == [];
    assert Deficit(cs) == 0.0 + 0.0 + (1.0 - 1.0 / (2.0 * 632.0));
    assert s !in Wallpaper.Table;
  }

  /** `"*x"` is `cm` and `"333"` is `p3`; `"333"` is one cone point of order 333. */
  lemma OtherClassifications()
    ensures Wallpaper.Classify("*x") == Success("cm")
    ensures Wallpaper.Classify("333") == Success("p3")
    ensures ParseSpec("333") == Success([Component(ConePoint, 333)])
  {
    var s := "333";
    assert RunEnd(s, 0) == 3;
    assert s[0..3] == s;
    assert DigitsValue("333") == 333 by {
      assert "333"[..2] == "33" && "33"[..1] == "3" && "3"[..0] == "";
    }
    assert ScanFrom(s, 3, false) == Success([]);
    assert ScanFrom(s, 0, false) == Prepend(Component(ConePoint, 333), ScanFrom(s, 3, false));
    assert [Component(ConePoint, 333)] + [] == [Component(ConePoint, 333)];
  }

  /** A single handle is the torus: `p1`, characteristic 0, below 2. */
  lemma Torus()
    ensures ParseSpec("o") == Success([Component(Handle, 0)])
    ensures Wallpaper.Classify("o") == Success("p1")
    ensures ParsedEuler("o") == Finite(0.0) && ParsedEuler("o").value < 2.0
  {
    assert ScanFrom("o", 1, false) == Success([]);
    assert ScanFrom("o", 0, false) == Prepend(Component(Handle, 0), ScanFrom("o", 1, false));
    assert [Component(Handle, 0)] + [] == [Component(Handle, 0)];
  }

  /** The empty symbol: no components, no mirror, no crosscaps or handles, characteristic 2. */
  lemma EmptySymbol()
    ensures ParseSpec("") == Success([])
    ensures Wallpaper.Classify("") == Failure(UnrecognizedSymbol)
    ensures ParsedEuler("") == Finite(2.0)
  {
  }

  /** Characters outside the alphabet are errors, the upper-case `X` and newline included. */
  lemma Rejections()
    ensures ParseSpec("?") == Failure(UnsupportedCharacter('?'))
    ensures ParseSpec("*X") == Failure(UnsupportedCharacter('X'))
    ensures ParseSpec("o\n") == Failure(UnsupportedCharacter('\n'))
  {
  }

  /** Whitespace splits digit runs; order 0 is accepted and makes the characteristic +infinity. */
  lemma SplitRunsAndZeroOrder()
    ensures ParseSpec("6 3") == Success([Component(ConePoint, 6), Component(ConePoint, 3)])
    ensures ParseSpec("0") == Success([Component(ConePoint, 0)])
    ensures ParsedEuler("0") == PositiveInfinity
  {
    var s := "6 3";
    assert RunEnd(s, 0) == 1 && s[0..1] == "6";
    assert RunEnd(s, 2) == 3 && s[2..3] == "3";
    assert DigitsValue("6") == 6 by { assert "6"[..0] == ""; }
    assert DigitsValue("3") == 3 by { assert "3"[..0] == ""; }
    assert ScanFrom(s, 3, false) == Success([]);
    assert ScanFrom(s, 2, false) == Prepend(Component(ConePoint, 3), ScanFrom(s, 3, false));
    assert [Component(ConePoint, 3)] + [] == [Component(ConePoint, 3)];
    assert ScanFrom(s, 1, false) == ScanFrom(s, 2, false);
    assert ScanFrom(s, 0, false) == Prepend(Component(ConePoint, 6), ScanFrom(s, 1, false));
    assert [Component(ConePoint, 6)] + [Component(ConePoint, 3)] == [Component(ConePoint, 6), Component(ConePoint, 3)];
    var z := "0";
    assert RunEnd(z, 0) == 1 && z[0..1] == "0";
    assert DigitsValue("0") == 0 by { assert "0"[..0] == ""; }
    assert ScanFrom(z, 1, false) == Success([]);
    assert ScanFrom(z, 0, false) == Prepend(Component(ConePoint, 0), ScanFrom(z, 1, false));
    assert [Component(ConePoint, 0)] + [] == [Component(ConePoint, 0)];
    assert ParseSpec(z).value[0].order == 0;
  }

  /** Digits after `*` are corners until `x` or `o` clears the mode: in `"3*2x5"` the 3 and
      the 5 are cone points and the 2 a corner reflector. */
  lemma ModeResetByCrosscap()
    ensures ParseSpec("3*2x5") == Success([Component(ConePoint, 3), Component(MirrorBoundary, 0),
                                           Component(CornerReflector, 2), Component(Crosscap, 0),
                                           Component(ConePoint, 5)])
  {
    var s := "3*2x5";
    var c3, m, c2, x, c5 := Component(ConePoint, 3), Component(MirrorBoundary, 0),
                            Component(CornerReflector, 2), Component(Crosscap, 0), Component(ConePoint, 5);
    assert RunEnd(s, 0) == 1 && s[0..1] == "3";
    assert RunEnd(s, 2) == 3 && s[2..3] == "2";
    assert RunEnd(s, 4) == 5 && s[4..5] == "5";
    assert DigitsValue("3") == 3 by { assert "3"[..0] == ""; }
    assert DigitsValue("2") == 2 by { assert "2"[..0] == ""; }
    assert DigitsValue("5") == 5 by { assert "5"[..0] == ""; }
    assert ScanFrom(s, 5, false) == Success([]);
    assert ScanFrom(s, 4, false) == Prepend(c5, ScanFrom(s, 5, false));
    assert [c5] + [] == [c5];
    assert ScanFrom(s, 3, true) == Prepend(x, ScanFrom(s, 4, false));
    assert [x] + [c5] == [x, c5];
    assert ScanFrom(s, 2, true) == Prepend(c2, ScanFrom(s, 3, true));
    assert [c2] + [x, c5] == [c2, x, c5];
    assert ScanFrom(s, 1, false) == Prepend(m, ScanFrom(s, 2, true));
    assert [m] + [c2, x, c5] == [m, c2, x, c5];
    assert ScanFrom(s, 0, false) == Prepend(c3, ScanFrom(s, 1, false));
    assert [c3] + [m, c2, x, c5] == [c3, m, c2, x, c5];
  }
}
