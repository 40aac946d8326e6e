# Orbifold symbols: parser, Euler characteristic and wallpaper classifier

This project models `orbifold::OrbifoldSymbol` in Dafny. The class takes a compact
orbifold symbol in Conway's notation, such as `*632`, `4*2` or `xx`. It parses the
symbol once, during construction, into a list of components: cone points, corner
reflectors, crosscaps, handles and mirror boundaries. It keeps a mirror flag and
crosscap and handle counters beside that list. It offers two derived values. One
is the Euler characteristic. The other is the wallpaper-group name, which is
looked up in a fixed 17-entry table by the exact symbol text.

Modules, one per part of the source:

- `Results` (`results.dfy`): `Option`, `Result` and the `Error` causes. These stand
  for the source's `std::optional` and its three `std::runtime_error`s.
- `Components` (`components.dfy`): `ComponentType` and the `Component` record
  with its `order` field, as in the header. Also the counting helpers.
- `Scanning` (`scanning.dfy`): what `parse` and `parseNumber` compute, as pure
  functions. `ScanFrom` is the scan with its mode flag, and `ParseSpec` is the
  whole parse. `Contributions` is an independent position-by-position
  description: it says what each character contributes, and when a digit run is
  in mirror mode. The file also holds the lemmas about the parse: which inputs it
  accepts, which error it reports, the counts, and that the scan agrees with the
  position-by-position description.
- `Wallpaper` (`wallpaper.dfy`): the 17-entry table and the lookup.
- `Characteristic` (`characteristic.dfy`): the value `eulerCharacteristic`
  returns, over exact reals. This includes the defensive last step and the
  +infinity that an order-0 component produces. The file also holds the lemmas
  that give the closed form and the bounds for parsed symbols.
- `Orbifold` (`orbifold.dfy`): the class. It has the five fields and the
  `Valid()` object invariant. `Parse` is a `while` loop with the mode flag.
  `ParseNumber` advances an index over a digit run. `EulerCharacteristic` is a
  loop with the `chi` accumulator and the `seenMirrorBoundary` flag. The file
  also holds the read-only accessors, `WallpaperGroup`, and `Create`, which plays
  the part of the throwing constructor.
- `Examples` (`examples.dfy`): concrete symbols, taken from the tests and the
  demo, plus edge cases.

The model follows the code where the code and its documentation differ:

- Order 0 is accepted. `"0"` parses to a cone point of order 0. Nothing checks
  that orders are positive.
- A run of digits is one number. `"*632"` is a mirror boundary followed by a
  single corner reflector of order 632, and `"333"` is one cone point of order
  333. This does not matter for the table keys, because the table is consulted
  first.
- `"333"` is a table key (`p3`).
- The comment above the last step of `eulerCharacteristic` says that step "does
  not change chi". The code subtracts 1.0 there. The model subtracts 1, and
  proves that a parsed symbol never reaches that branch.

## Model

| member | source | states |
|---|---|---|
| `Scanning.RunEnd` | src/OrbifoldSymbol.cpp:74-78 | the digit run that starts at `i` ends at the first non-digit or at the end of the text, and every index before that end holds a digit |
| `Scanning.ScanSucceedsIffAccepted` | src/OrbifoldSymbol.cpp:31-68 | a scan from index `i`, in either mode, succeeds exactly when every character from `i` on is a digit, `*`, `x`, `o`, space or tab |
| `Scanning.ParseSucceedsIffAccepted` | src/OrbifoldSymbol.cpp:33-66 | parsing succeeds iff every character is accepted; anything else, `X`, `\n` and `?` included, is an error |
| `Scanning.ScanReportsFirstUnsupported` | src/OrbifoldSymbol.cpp:31-66 | a failing scan reports the first unsupported character at or after its start index |
| `Scanning.ParseReportsFirstUnsupported` | src/OrbifoldSymbol.cpp:65-66 | the parse error names the first character outside the alphabet |
| `Scanning.ScanCounts` | src/OrbifoldSymbol.cpp:46-61 | from any index, the `Crosscap`, `Handle` and `MirrorBoundary` components number exactly the `x`, `o` and `*` characters, and non-numeric components keep order 0 |
| `Scanning.ParseCounts` | src/OrbifoldSymbol.cpp:47-60 | in a parsed symbol, the count of `x` equals the count of `Crosscap`, the count of `o` equals the count of `Handle`, and a `MirrorBoundary` exists iff the text has a `*`; every order is at least 0, and non-numeric kinds have order 0 |
| `Scanning.MirrorStep` | src/OrbifoldSymbol.cpp:47-64 | `*` turns mirror mode on, `x` and `o` turn it off, and every other character (digits and whitespace included) leaves it unchanged |
| `Scanning.MirrorAcrossRun` | src/OrbifoldSymbol.cpp:33-43 | a digit run leaves the mirror mode as it found it |
| `Scanning.ScanMatchesContributions` | src/OrbifoldSymbol.cpp:29-68 | from any index outside a digit run, scanning in the mode that the preceding text determines gives exactly the position-by-position contributions |
| `Scanning.ParseMatchesContributions` | src/OrbifoldSymbol.cpp:29-68 | an accepted symbol parses to its components in left-to-right order. Each marker gives one component. Each maximal digit run gives one component, whose order is the run's decimal value. That component is a `CornerReflector` iff the last `*`/`x`/`o` before the run is `*`. Whitespace gives nothing. |
| `Wallpaper.Classify` | src/OrbifoldSymbol.cpp:161-168 | the lookup succeeds exactly when the raw text is a table key. It then returns that key's group, and the text parses. Any other text is the "not recognized" error. |
| `Wallpaper.KeysAreAccepted` | src/OrbifoldSymbol.cpp:137-159 | every one of the 17 keys is spelled in the parser's alphabet, so every key parses |
| `Characteristic.DeficitNonNegative` | src/OrbifoldSymbol.cpp:110-126 | when no order is negative or 0, the loop's deductions add up to at least 0 |
| `Characteristic.ParsedClosedForm` | src/OrbifoldSymbol.cpp:89-134 | for a parsed symbol that is not a table key and has no order-0 component, the defensive step never fires. The characteristic is then 2 - 2·#o - #x - [a `*` occurs] - Σ cones (1 - 1/n) - Σ corners (1 - 1/(2n)). |
| `Characteristic.ParsedAtMostTwo` | src/OrbifoldSymbol.cpp:96-126 | when every order is positive, the characteristic is finite and at most 2. It is at most 0 once there is a handle, and at most 1 once there is a crosscap or a mirror. |
| `Characteristic.KeysHaveZero` | src/OrbifoldSymbol.cpp:90-94 | every table key parses and has characteristic exactly 0 |
| `Orbifold.OrbifoldSymbol.constructor` | include/orbifold/OrbifoldSymbol.h:38-42 | before parsing, the text is stored, the mirror flag is false, both counters are 0 and there are no components |
| `Orbifold.OrbifoldSymbol.Create` | src/OrbifoldSymbol.cpp:19-21 | construction succeeds iff the text is accepted. On success the new object satisfies `Valid()` and holds the text; otherwise the parse error is returned. |
| `Orbifold.OrbifoldSymbol.Parse` | src/OrbifoldSymbol.cpp:23-68 | the text is left unchanged. Parsing succeeds iff the text is accepted. On success the fields hold `ParseSpec`'s components, the flag says whether a `MirrorBoundary` exists, and the counters count the `Crosscap` and `Handle` components. On failure the error is the one `ParseSpec` gives. |
| `Orbifold.OrbifoldSymbol.ParseNumber` | src/OrbifoldSymbol.cpp:71-87 | called on a digit, it returns the decimal value of the maximal run there and leaves the index on the run's last digit; anywhere else it returns no value and leaves the index unchanged |
| `Orbifold.OrbifoldSymbol.Symbol` | include/orbifold/OrbifoldSymbol.h:27 | returns the stored text, which in a constructed object is accepted |
| `Orbifold.OrbifoldSymbol.Components` | include/orbifold/OrbifoldSymbol.h:28 | returns the parsed components of the text, with non-numeric kinds at order 0 |
| `Orbifold.OrbifoldSymbol.HasMirrorBoundary` | include/orbifold/OrbifoldSymbol.h:30 | true iff the text has a `*`, iff a `MirrorBoundary` component exists |
| `Orbifold.OrbifoldSymbol.Crosscaps` | include/orbifold/OrbifoldSymbol.h:31 | equals the number of `x` in the text and the number of `Crosscap` components |
| `Orbifold.OrbifoldSymbol.Handles` | include/orbifold/OrbifoldSymbol.h:32 | equals the number of `o` in the text and the number of `Handle` components |
| `Orbifold.OrbifoldSymbol.WallpaperGroup` | src/OrbifoldSymbol.cpp:161-168 | returns the group of the exact stored text, or the "not recognized" error for any other text. A recognised symbol has characteristic 0. |
| `Orbifold.OrbifoldSymbol.EulerCharacteristic` | src/OrbifoldSymbol.cpp:89-135 | for any field values, the loop with its accumulator and `seenMirrorBoundary` flag returns the result of the table fast path or of the general formula, defensive step included. It modifies nothing. |
| `Examples.StarSixThreeTwo` | tests/OrbifoldSymbolTests.cpp:10-23 | `"*632"` parses to a mirror boundary and a corner reflector of order 632, classifies as `p6m`, and has characteristic 0 |
| `Examples.WhitespaceMattersOnlyToTheTable` | src/OrbifoldSymbol.cpp:91-93 | `"* 632"` parses to the same components as `"*632"`. It is not recognised as a wallpaper group, and its characteristic is 1/1264, not 0. |
| `Examples.OtherClassifications` | tests/OrbifoldSymbolTests.cpp:13-17 | `"*x"` is `cm`; `"333"` is `p3` and parses to one cone point of order 333 |
| `Examples.Torus` | tests/OrbifoldSymbolTests.cpp:25-26 | `"o"` parses to one handle, classifies as `p1`, and has characteristic 0 < 2 |
| `Examples.EmptySymbol` | src/OrbifoldSymbol.cpp:24-31 | `""` parses to no components, is not recognised, and has characteristic 2 |
| `Examples.Rejections` | src/OrbifoldSymbol.cpp:65-66 | `?`, the upper-case `X` and a newline are each reported as unsupported |
| `Examples.SplitRunsAndZeroOrder` | src/OrbifoldSymbol.cpp:72-86 | `"6 3"` gives two cone points, 6 and 3. `"0"` gives a cone point of order 0, whose characteristic is +infinity. |
| `Examples.ModeResetByCrosscap` | src/OrbifoldSymbol.cpp:47-60 | in `"3*2x5"`, 3 and 5 are cone points and 2 is a corner reflector |

## Left out

- IEEE `double` rounding: the characteristic is modelled over exact reals. The
  only floating-point effect kept is the +infinity that an order-0 component
  produces (`1.0 / 0.0`).
- Overflow of `int` in `value * 10 + digit`, and of `size_t` in the counters
  and in `2 * handles_`: orders and counts are unbounded. A digit run too long
  for `int` is undefined behaviour in the source and is not modelled.
- The locale behaviour of `std::isdigit`: only the ASCII digits `'0'..'9'` are
  digits.
- Message text of the three exceptions: only their cause is modelled, as
  `Error`. An unsupported character keeps the offending character.
- Encoding: the text is a sequence of characters, while the source works on
  the bytes of a `std::string`. The same inputs are accepted. For a non-ASCII
  character the source reports the first byte of its encoding, and the model
  reports the whole character.
- The thread-safe, one-time initialisation of the function-local static table:
  the table is a constant `map`.
- `makeCone` and `makeCorner` (src/OrbifoldSymbol.cpp:9-15) are inlined as
  `Component(ConePoint, n)` and `Component(CornerReflector, n)`.
- Access control: the fields, `Parse` and the member-initialising constructor
  are not private in Dafny. `Create` is the C++ constructor. Calling the
  member-initialising constructor and then `Parse` is the same route. The
  member-initialising constructor alone already gives a `Valid()` object for
  the empty text. Only `Parse` writes the fields after construction.
- A failed `parse` leaves the fields partly filled before it throws. The model
  does not describe those fields, because the source never hands out such an
  object.
- Orbifold.OrbifoldSymbol.WallpaperGroup: its contract restates the lookup. The
  properties of the table are stated instead by `Wallpaper.KeysAreAccepted` and
  `Characteristic.KeysHaveZero`.
- The table's size (17 keys) is not stated as a lemma.
- `src/main.cpp`, the console demo, is not part of this model. It only prints.
  The tests in `tests/OrbifoldSymbolTests.cpp` are restated as the `Examples`
  lemmas.
