# A fake macOS desktop: calculator engine and window manager, in Dafny

This project models the two state machines of a browser page that imitates a
macOS desktop.

The first is the **programmer's calculator** of `js/calculator.js`. Its state is
the record `{value, input, pendingOp, waiting, base}`, and each key press
changes it. Values are JavaScript BigInts, modelled as Dafny `int`s. Digit
entry is re-parsed from decimal or `0x` text. The operators are `+ - * /`
(division truncates toward zero, and division by zero leaves the left
operand) and `AND OR XOR` on unbounded two's-complement integers. The display
shows the value as `0x` plus upper-case hex, and as a 32-bit binary text in
groups of eight.

The second is the **window manager** of `js/app.js`:

- a global z-index counter that starts at 20 and goes up by one each time a
  window is brought to the front;
- title-bar dragging, clamped below at left 8 and top 48;
- the close, minimize and maximize/restore buttons (maximize saves and
  restores four geometry fields);
- the fake browser window, which normalises the URL typed into it and keeps
  a truncate-then-push history with a cursor.

Files:

- `wrappers.dfy`: `Option`.
- `text.dfy`: whitespace trimming, prefix tests, ASCII lower-casing.
- `numerals.dfy`: BigInt text conversions (`toString(radix)`, the `BigInt(text)`
  constructor, the calculator's `parseInput`), the hex and binary display
  texts, truncating division and the bitwise operators.
- `calculator.dfy`: the key-press transitions, as pure functions (`Step`,
  `Run`) and as a class `Calculator` whose methods update the record field by
  field and are proved equal to `Step`.
- `browser.dfy`: URL normalisation and the browser history.
- `windows.dfy`: the class `Desktop`, holding the z-index counter and the
  windows keyed by id, with its invariant and the button, drag and
  navigation operations.

Behaviour worth knowing:

- A digit key re-parses `input` into `value` even while an operator is
  pending. So the entry is always the decimal text of the value, and every
  fold combines the value with itself. `5 + 3 =` ends with 6 (`FivePlusThree`)
  and `9 AND 5 =` ends with 5 (`NineAndFive`).
- A negative value is shown as `0x-…`. `parseInput` rejects that text, so the
  hex display reads back only for non-negative values (`HexRoundTrip`).
- A non-negative value of 2^32 or more is not cut to 32 bits. Its binary
  text holds all of its digits (`BinaryTextWide`).
- The grouped 32-bit binary text has its spaces at positions 8, 17 and 26
  and is 35 characters long (`BinaryTextLayout`).
- Restoring a maximized window with no saved geometry only clears the flag
  (`RestoreWithoutSaved`).

## Model

| member | source | states |
|---|---|---|
| Numerals.ParseInput | js/calculator.js:82-90 | parseInput: text starting with 0x or 0X is read as hexadecimal, text containing '.' takes the floating-point branch, which is not modelled and yields None, any other text is handed to BigInt; read back in DecimalRoundTrip and HexRoundTrip |
| Numerals.BigIntOf | js/calculator.js:84 | the BigInt(text) constructor: trimmed, empty text is 0, 0x/0o/0b prefixes, optional sign and decimal digits, None for a SyntaxError; its decimal cases in BigIntOfDigits and BigIntOfNegative |
| Numerals.HexText | js/calculator.js:73 | the main display, "0x" and the upper-case hex of the value (a minus sign after "0x" when negative); read back in HexRoundTrip |
| Numerals.BinaryDigits | js/calculator.js:76 | toString(2) of the value, or of asUintN(32, value) when it is negative; bounded in PaddedBits and BinaryTextWide |
| Numerals.BinaryText | js/calculator.js:76-77 | the binary sub-display, padded to 32, grouped by eight, trimmed; laid out in BinaryTextLayout, BinaryTextDigits and BinaryTextWide |
| Numerals.TruncDiv | js/calculator.js:108 | BigInt division, the quotient truncated toward zero; characterised in TruncDivIsTruncation |
| Numerals.Bitwise | js/calculator.js:109-111 | BigInt &, \| and ^ on two's-complement integers; characterised bit by bit in BitwiseBits and BitwiseIsUnique |
| Numerals.DigitValue | js/calculator.js:84 | a digit character's value is below 16; it is below 10 exactly for '0'..'9'; digits are never whitespace, signs or '.' |
| Numerals.DigitChar | js/calculator.js:73 | the upper-case digit character written for d reads back as d |
| Numerals.Digits | js/calculator.js:73 | toString(radix) of a non-negative value, upper-cased, is a non-empty string of the characters 0-9 and A-F, with no leading zero, that denotes the value |
| Numerals.BigIntOfDigits | js/calculator.js:89 | BigInt reads an unsigned decimal numeral as its value |
| Numerals.BigIntOfNegative | js/calculator.js:89 | BigInt reads a minus sign followed by a decimal numeral as the negated value |
| Numerals.DecimalRoundTrip | js/calculator.js:82-90 | parseInput reads back the decimal text of every value, negative ones included |
| Numerals.HexRoundTrip | js/calculator.js:73 | parseInput of the hex display gives the value when it is non-negative, and throws (None) for the "0x-…" text of a negative value |
| Numerals.AsUint32 | js/calculator.js:76 | BigInt.asUintN(32, v) lies in [0, 2^32), is congruent to v modulo 2^32, and is v itself when v already lies there |
| Numerals.PadStart | js/calculator.js:77 | padStart of a shorter text gives exactly the target length, with the text at the end and the pad character before it; a longer text is left alone |
| Numerals.BinaryDigitsFit | js/calculator.js:76 | a value below 2^k has at most k binary digits |
| Numerals.BinaryDigitsLong | js/calculator.js:76 | a value of at least 2^k has more than k binary digits |
| Numerals.RemoveSpacesOfGroups | js/calculator.js:77 | grouping by eight only inserts spaces |
| Numerals.RemoveSpacesOfTrim | js/calculator.js:77 | trimming only removes whitespace |
| Numerals.BinaryTextDigits | js/calculator.js:76-77 | with its spaces removed, the binary text is the padded binary digits |
| Numerals.PaddedBits | js/calculator.js:76-77 | below 2^32 the padded digits are exactly 32 and denote the value modulo 2^32 |
| Numerals.GroupsOfThirtyTwo | js/calculator.js:77 | the replace puts a space after each of the four groups of eight |
| Numerals.SpacedGroups | js/calculator.js:77 | thirty-two characters joined in groups of eight are 35 characters with spaces at 8, 17 and 26, and the groups read back in order |
| Numerals.GroupedThirtyTwo | js/calculator.js:77 | 32 binary digits are laid out as four groups of eight joined by single spaces |
| Numerals.BinaryTextLayout | js/calculator.js:76-78 | for every value below 2^32, negatives included, the binary text has length 35 with spaces at 8, 17 and 26, and its 32 digits denote the value modulo 2^32 |
| Numerals.BinaryTextWide | js/calculator.js:76-77 | a value of 2^32 or more keeps all of its more than 32 binary digits |
| Numerals.TruncDivIsTruncation | js/calculator.js:108 | BigInt division rounds toward zero: the remainder is smaller than the divisor in magnitude and is zero or has the dividend's sign |
| Numerals.BitwiseBits | js/calculator.js:109-111 | every bit of a & b, a \| b, a ^ b is the bit operator applied to the operands' two's-complement bits |
| Numerals.BitsDetermineValue | js/calculator.js:109-111 | two integers with the same two's-complement bits are equal |
| Numerals.BitwiseIsUnique | js/calculator.js:109-111 | the bitwise result is the only integer with those bits |
| Calculator.Render | js/calculator.js:71-80 | render writes the hex main text, the binary sub-display and the base label; their layout is proved in HexRoundTrip and BinaryTextLayout |
| Calculator.Apply | js/calculator.js:104-111 | the pending operator applied to value and operand, with division by zero leaving the value; see DivisionPolicy, BitwiseKeys and SelfFold |
| Calculator.Fold | js/calculator.js:103-113 | compute's switch, whose default branch (no operator) yields the operand |
| Calculator.Computed | js/calculator.js:100-116 | compute on the record: None when parsing the operand throws, else value and input set to the fold and its decimal text; Calculator.Compute is proved equal to it |
| Calculator.OpApplied | js/calculator.js:92-98 | applyOp on the record; Calculator.ApplyOp is proved equal to it |
| Calculator.DigitStep | js/calculator.js:122-127 | the digit branch of the handler; its effect is stated in DigitKeyEffect |
| Calculator.OperatorStep | js/calculator.js:133-138 | the operator branch of the handler; its effect is stated in OperatorStarts, OperatorWhileWaiting and OperatorFolds |
| Calculator.EqualsStep | js/calculator.js:140-142 | the '=' branch of the handler; its effect is stated in EqualsIdle and EqualsFolds |
| Calculator.Step | js/calculator.js:119-145 | the click handler on one key, which Calculator.Click is proved to follow; StepKeepsCanonical states what it preserves |
| Calculator.Calculator.constructor | js/calculator.js:69 | the record starts as value 0, input "0", nothing pending, not waiting, base "HEX" |
| Calculator.Calculator.Compute | js/calculator.js:100-116 | compute folds the pending operator (the parsed entry itself when none) and writes value and its decimal text; when the parse throws, nothing changes |
| Calculator.Calculator.ApplyOp | js/calculator.js:92-98 | applyOp computes first only when an operator is pending and digits followed it, then sets the operator pending and waiting |
| Calculator.Calculator.Click | js/calculator.js:119-145 | the click handler changes the record exactly as Step does |
| Calculator.DigitKeyEffect | js/calculator.js:122-125 | a digit starts the entry when waiting or when it is "0" and extends it otherwise; value becomes the number entered even with an operator pending; waiting clears; the pending operator is kept |
| Calculator.AppendDigit | js/calculator.js:123-125 | appending a digit to the decimal text of a non-zero value is the decimal text of ten times the value plus (or minus) the digit |
| Calculator.DecimalTextZero | js/calculator.js:123 | the entry "0" belongs to the value 0 only |
| Calculator.OperatorWhileWaiting | js/calculator.js:93-97 | a second operator while waiting does not compute: the value is kept and only the pending operator is replaced |
| Calculator.OperatorStarts | js/calculator.js:133-138 | an operator with nothing pending commits the entry and makes the operator pending, waiting |
| Calculator.OperatorFolds | js/calculator.js:93-97 | an operator after fresh digits folds exactly once, then the new operator is pending, waiting is set, and input is the decimal text of the result |
| Calculator.EqualsIdle | js/calculator.js:140-142 | '=' with nothing pending changes nothing |
| Calculator.EqualsFolds | js/calculator.js:141 | '=' with an operator pending computes, clears the operator and sets waiting |
| Calculator.DotIgnored | js/calculator.js:129-132 | '.' changes nothing |
| Calculator.StepKeepsCanonical | js/calculator.js:115 | every key press keeps input equal to the decimal text of value |
| Calculator.RunKeepsCanonical | js/calculator.js:123-136 | after any key sequence input is the decimal text of value, so parseInput never throws on key input |
| Calculator.InitialCanonical | js/calculator.js:69 | the initial record is canonical |
| Calculator.CanonicalOperand | js/calculator.js:102 | in a canonical record the operand parses to the value itself |
| Calculator.DivisionPolicy | js/calculator.js:108 | division by zero leaves the left operand; otherwise the quotient is truncated toward zero |
| Calculator.BitwiseKeys | js/calculator.js:109-111 | AND, OR and XOR act bit by bit on two's-complement representations |
| Calculator.SelfFold | js/calculator.js:104-112 | the value each operator gives when folded with itself: 2v, 0, v*v, 1 (0 for 0), v, v, 0 |
| Calculator.FivePlusThree | js/calculator.js:123-125 | 5 + 3 = ends with value 6 and main display "0x6" |
| Calculator.FivePlusPlusThree | js/calculator.js:93-97 | 5 + + 3 = also ends with 6: the repeated operator does not fold |
| Calculator.NineAndFive | js/calculator.js:141 | 9 AND 5 = ends with value 5 and main display "0x5" |
| Text.Trim | js/app.js:68 | String.prototype.trim over the whitespace set of IsSpace; characterised in TrimSplits, TrimmedIsFixed and TrimIdempotent |
| Text.TrimStartSuffix | js/app.js:68 | trimming the start leaves a suffix that starts with a non-space, having dropped only whitespace |
| Text.TrimEndPrefix | js/app.js:68 | trimming the end leaves a prefix that ends with a non-space, having dropped only whitespace |
| Text.TrimSplits | js/app.js:68 | trim keeps a middle slice with whitespace only outside it, and its result is trimmed |
| Text.TrimmedIsFixed | js/app.js:68 | a trimmed text is unchanged by trim |
| Text.TrimIdempotent | js/app.js:68 | trim is idempotent |
| Text.TrimTrailingSpace | js/calculator.js:77 | trim removes the space the grouping leaves after the last group |
| Browser.Normalize | js/app.js:67-71 | normalize; characterised in NormalizeResult and NormalizeIdempotent |
| Browser.SliceTo | js/app.js:83 | Array.prototype.slice(0, end) with JavaScript's clamping of end |
| Browser.Pushed | js/app.js:83-85 | the history after keeping the entries up to the cursor, pushing the URL and moving the cursor to it |
| Browser.Navigated | js/app.js:72-86 | navigate on the history: a blank URL returns early, any other pushes its normalised form; its effect is stated in NavigateEffect |
| Browser.NormalizeResult | js/app.js:67-71 | normalize is empty exactly for blank input; otherwise it is the trimmed text, prefixed with "https://" exactly when it has no http(s) scheme (case-insensitively) |
| Browser.NormalizeIdempotent | js/app.js:67-71 | normalize is idempotent |
| Browser.NavigateEffect | js/app.js:72-86 | a blank URL leaves the history alone; otherwise the entries up to the cursor are kept, the forward ones dropped, the URL pushed and the cursor put on it |
| Browser.NavigatedAtNewest | js/app.js:83-85 | with the cursor on the newest entry, a navigation appends its entry and drops nothing |
| Browser.HistoryRecordsVisits | js/app.js:83-85 | from a cursor on the newest entry, a sequence of navigations leaves exactly the visited non-blank URLs appended, in order |
| Windows.ToggleMaximize | js/app.js:131-141 | the maximize action on one window; characterised in MaximizeTwiceRestores, RestoreWithoutSaved and ToggleKeepsWinOk |
| Windows.DragFrom | js/app.js:105-109 | the drag session startDrag sets up, the mouse's offset within the window's rectangle |
| Windows.DragPosition | js/app.js:113-114 | the clamped position move writes; characterised in DragClamp |
| Windows.MaximizeTwiceRestores | js/app.js:131-141 | maximize saves the geometry and takes the full-size layout; maximizing again restores the saved geometry exactly and clears the flag |
| Windows.RestoreWithoutSaved | js/app.js:137-139 | restoring with no saved geometry only clears the flag |
| Windows.DragClamp | js/app.js:105-114 | a drag puts the window at max(8, origin left + dx), max(48, origin top + dy), with no upper bound |
| Windows.DragExample | js/app.js:113-114 | origin (90, 80) dragged by (10, -1000) lands at (100, 48) |
| Windows.RaiseKeepsInvariant | js/app.js:94-96 | raising a window to zTop + 1 keeps z-indexes distinct and within (20, zTop], and puts it above every other window |
| Windows.AddKeepsInvariant | js/app.js:21-33 | adding a new, not yet focused window keeps the desktop invariant |
| Windows.ReplaceKeepsInvariant | js/app.js:126-141 | a button action that leaves the z-index alone keeps the desktop invariant |
| Windows.ToggleKeepsWinOk | js/app.js:131-141 | maximize keeps the saved geometry present whenever the window is maximized, and leaves the z-index alone |
| Windows.Desktop.constructor | js/app.js:6 | the counter starts at 20 with no windows |
| Windows.Desktop.BringToFront | js/app.js:94-96 | the counter goes up by exactly one and becomes the window's z-index, above every other window's; nothing else changes |
| Windows.Desktop.Open | js/app.js:21-33 | opening either kind of window: added unfocused, then brought to the front, the counter up by one |
| Windows.Desktop.OpenCalculator | js/app.js:21-26 | a new calculator window at (160px, 120px) is added and brought to the front |
| Windows.Desktop.OpenBrowser | js/app.js:28-33 | a new browser window at (90px, 80px) with an empty history is added and brought to the front |
| Windows.Desktop.StartDrag | js/app.js:102-109 | starting a drag brings the window to the front and records the mouse's offset within it |
| Windows.Desktop.PressTitlebar | js/app.js:100-121 | a mouse-down on the title bar raises the counter by two, once in startDrag and once through the window's own listener |
| Windows.Desktop.Move | js/app.js:110-115 | a mouse move sets left and top to the clamped drag position and changes nothing else |
| Windows.Desktop.Close | js/app.js:129 | close detaches the window and changes nothing else; closing again is a no-op |
| Windows.Desktop.Minimize | js/app.js:130 | minimize hides the window; geometry, flags and z-index are unchanged |
| Windows.Desktop.Maximize | js/calculator.js:51-62 | the maximize button toggles exactly as ToggleMaximize, keeping the desktop invariant |
| Windows.Desktop.Navigate | js/app.js:72-86 | navigate in a browser window updates its history exactly as Navigated, and the cursor stays on the newest entry |

## Left out

- The DOM: HTML templates, element lookup, adding and removing listeners, the `setTimeout` that wires the browser's buttons, and the dock icons that open the windows. Opening a window is a method call here, and the identity of the new window is a parameter.
- `getBoundingClientRect` and the mouse's `clientX`/`clientY` are inputs the page supplies. They are integer parameters here, and the touch variants read the same values.
- Loading the page into the iframe, the `window.open` fallback, `encodeURIComponent`, and the branch for a non-empty proxy prefix (the prefix is the empty constant, so that branch is never taken). Navigation records the normalised URL.
- The clock (`Intl.DateTimeFormat`, `setInterval`) and the battery indicator (an asynchronous browser API with floating-point rounding).
- CSS `calc(...)` lengths are opaque strings; pixel lengths are integers.
- A closed window is removed from the page but stays in the desktop's map, marked detached. Nothing refers to it again.
- The window buttons sit inside the draggable title bar, so a click on one is first a title-bar mouse-down: it fires startDrag (bring to front and a drag session) and then the window's focus listener, raising the counter by two, before the button's action runs. The model does not compose these: `PressTitlebar` and `Close`, `Minimize` or `Maximize` are separate calls.
- Text.Trim: the whitespace set is space, tab, line feed, vertical tab, form feed, carriage return, U+00A0, U+2028, U+2029 and U+FEFF. JavaScript's `trim` also removes the other Unicode space separators, U+1680, U+2000 to U+200A, U+202F, U+205F and U+3000; those are not in the set.
- Numerals.ParseInput: text containing '.' takes a floating-point branch (`parseFloat` and `Math.round`), which is not modelled and is reported as a throw. No key input reaches it, because '.' is ignored and the entry is always the decimal text of the value (`RunKeepsCanonical`).
- The `default` branch of compute's switch is modelled (`Fold` with no operator yields the operand). The `'='` case of applyOp is not modelled: the operator type has no '=', because the handler only ever passes applyOp one of the seven operator keys.
