# X2JPEG core, modelled in Dafny

X2JPEG streams an X11 display or window to browser viewers as a sequence of
JPEG frames over a websocket, and takes keyboard and pointer input back over
the same socket. This project models the deterministic core of the server
(`server/X2JPEG.cpp`) and proves properties of it:

- **Quality controller** (`quality.dfy`, `screenshot.dfy`). The capture loop encodes each frame at a
  JPEG quality that starts at 100. After every encode the quality moves by 5,
  clamped to [1, 100], with a 10 KiB dead band under the size budget.
  - The C++ comparisons mix `size_t` and `int`. They are modelled exactly: a budget under 10 KiB has no dead band, and a negative budget never lowers the quality.
  - `ScreenShot` is a class. Its fields are the budget, the frame rate, the quality and the single-slot mailbox of encoded bytes. Its methods are the setters, one quality step, one publish, and one whole capture cycle.
  - The JPEG encoder is a function parameter.
- **Cursor compositing** (`cursor.dfy`). The cursor image is painted onto the captured
  frame in place, in two nested loops over a two-dimensional array:
  - only pixels with a non-zero alpha byte are painted;
  - only positions inside the frame are touched;
  - the low 32 bits of the cursor pixel are stored.
- **Control channel** (`scan.dfy`, `control.dfy`, `keymap.dfy`). Viewer messages are classified by a
  two-character prefix (`q `, `f `, `2+`, `1+`, `3+`) and read with
  `>> int`, `>> char`, `std::getline(.., '+')` and `std::stoi`, each
  modelled with its "C"-locale behaviour on the message's UTF-8 text.
  - Each message yields one action: a setter call, one injected input event, a drop, or an exception from `std::stoi`.
  - A budget message whose `kb * 1024` does not fit an `int` yields a separate outcome, `BudgetOverflow`, because the source has undefined behaviour there.
  - Key names are translated through the static table of `translate_js_code_to_keysym`. All 88 entries are modelled with their X11 keysym values.
  - The messages the browser client writes are proved to read back as the commands it meant, provided each number in them is an integer written in decimal.
- **Broadcast fallback** (`broadcast.dfy`). The broadcast loop sends the mailbox contents
  when they are non-empty. Otherwise it sends the last non-empty frame it read, which is the empty buffer before the first frame.
- **Client registry** (`registry.dfy`). The open handler appends a connection handle. The
  close handler erases every handle that is owner-equivalent to the closed one
  and keeps the others in order.

Notable behaviours of the server that the model keeps:

- A button message whose press or button field holds no number, or one out of `int` range, makes `std::stoi` throw. It is not silently dropped (`Control.Action.Throw`).
- Before any frame has been encoded, the broadcast loop sends the empty buffer to every client. It does not skip the cycle.
- A failed send is only logged. The client is not removed from the registry.
- The registry is a list that appends on every open without checking for duplicates. Close removes every owner-equivalent handle, not one identical handle.

The browser sends pointer motion as `"1+" + movementX + "+" + movementY`.
When a movement is fractional, the server takes the `'.'` as the field separator.
`Control.FractionalMoveIsMisread` states the result: `"1+<sign><i>.<d>…"` moves the pointer by (x, f), where x is the signed integer part and f the value of the digits after the point. So "1+1.05+2" moves by (1, 5) and "1+-0.5+2" by (0, 5).
The budget and frame-rate messages carry the raw text of an input field.
Text after the number is ignored, so "q 80.5" sets 80 and "q 1e3" sets 1 (`Control.BudgetIgnoresTrailingText`).
An empty field sends "q ", which is dropped (`Control.SetterIffInteger`).

## Model

| member | source | states |
|---|---|---|
| Common.ToSizeT | server/X2JPEG.cpp:148-150 | An `int` compared with a `size_t` becomes its value modulo 2^64: unchanged when non-negative, 2^64 + v when negative |
| Quality.NextQuality | server/X2JPEG.cpp:148-152 | The quality after one encode: max(1, q-5) when the size exceeds the budget as a `size_t`, else min(100, q+5) when it is under the budget minus 10 KiB as a `size_t`, else q |
| Quality.QualityAfter | server/X2JPEG.cpp:93-152 | The quality after the controller has seen a sequence of encoded sizes in turn, one step per size |
| Quality.NextQualityInRange | server/X2JPEG.cpp:147-152 | One quality step from a quality in [1, 100] stays in [1, 100] |
| Quality.QualityAfterInRange | server/X2JPEG.cpp:91-152 | From any start in [1, 100], every sequence of encoded sizes keeps the quality in [1, 100] |
| Quality.BudgetRule | server/X2JPEG.cpp:148-152 | For a budget of at least 10 KiB: over budget gives max(1, q-5); more than 10 KiB under gives min(100, q+5); in between leaves q |
| Quality.SmallBudgetHasNoDeadBand | server/X2JPEG.cpp:150 | For a budget under 10 KiB, every size not over the budget raises the quality, because `max_size_ - 10240` converts to a huge `size_t` |
| Quality.NegativeBudgetNeverLowers | server/X2JPEG.cpp:148-151 | With a negative budget, no size below 2^63 lowers the quality; every such size raises it |
| Quality.SustainedOverBudget | server/X2JPEG.cpp:148-149 | n frames all over a non-negative budget give quality max(1, q - 5n) |
| Quality.SustainedUnderBudget | server/X2JPEG.cpp:150-151 | n frames all more than 10 KiB under the budget give quality min(100, q + 5n) |
| Quality.DeadBandHolds | server/X2JPEG.cpp:148-152 | Frames that all land in [budget - 10 KiB, budget] never change the quality |
| Quality.QualityAfterAppend | server/X2JPEG.cpp:93-152 | Running the controller over a + b equals running it over a and then over b from the resulting quality |
| Capture.Rows | server/X2JPEG.cpp:137 | The image handed to the encoder has the frame's dimensions and its pixel at every row and column |
| Capture.ScreenShot.constructor | server/X2JPEG.cpp:31-33 | A new session has a 60 KiB budget, 60 fps, quality 100, an empty mailbox and the window's size |
| Capture.ScreenShot.SetMaxSize | server/X2JPEG.cpp:51-54 | The budget becomes exactly kb * 1024; nothing else changes |
| Capture.ScreenShot.SetFps | server/X2JPEG.cpp:56-60 | The frame rate becomes exactly n, unvalidated; nothing else changes |
| Capture.ScreenShot.Step | server/X2JPEG.cpp:147-152 | The new quality is the controller's next quality for the encoded size, and it stays in [1, 100] |
| Capture.ScreenShot.Publish | server/X2JPEG.cpp:142-161 | The mailbox holds the image encoded at the old quality; the quality steps on that encoding's size |
| Capture.ScreenShot.CaptureCycle | server/X2JPEG.cpp:102-161 | Every frame pixel is the cursor overlay of its old value (unchanged when there is no cursor); the mailbox holds the encoding of the composited frame; the quality steps |
| Cursor.Alpha | server/X2JPEG.cpp:122 | `pixel >> 24`: the cursor pixel's alpha byte together with any higher bits |
| Cursor.Store | server/X2JPEG.cpp:123 | What `XPutPixel` keeps of a cursor pixel in a 32-bit image: its low 32 bits |
| Cursor.Covers | server/X2JPEG.cpp:118-122 | Frame position (r, c) lies under the cursor image, and the cursor pixel there has non-zero alpha |
| Cursor.Overlay | server/X2JPEG.cpp:118-123 | The frame pixel after compositing: the stored cursor pixel where the cursor covers the position, the old pixel elsewhere |
| Cursor.IndexInBuffer | server/X2JPEG.cpp:121 | Index cy * width + cx of an in-range cursor position lies inside the cursor's pixel buffer |
| Cursor.Composite | server/X2JPEG.cpp:114-127 | After the loops, each frame pixel is the cursor pixel (low 32 bits) exactly where the cursor covers it with non-zero alpha, and its old value everywhere else |
| Cursor.VisiblePixelShows | server/X2JPEG.cpp:116-125 | Cursor pixel (cx, cy) ends up at frame position (top + cy, left + cx) when its alpha is non-zero, and leaves that position alone when its alpha is zero |
| Cursor.TransparentCursorIsInvisible | server/X2JPEG.cpp:122-124 | A cursor whose pixels all have alpha 0 changes no frame pixel |
| Cursor.OutsideCursorUnchanged | server/X2JPEG.cpp:118-120 | Frame positions outside the rectangle the cursor spans keep their value |
| Broadcast.LatestFrame | server/X2JPEG.cpp:296-301 | The last non-empty frame among the reads so far, or the empty buffer when there is none |
| Broadcast.BroadcastLoop | server/X2JPEG.cpp:291-301 | One payload per pass; the i-th payload is the latest non-empty frame among the first i + 1 mailbox reads |
| Broadcast.FreshFrameIsSent | server/X2JPEG.cpp:297-298 | A pass that reads a non-empty mailbox sends exactly those bytes |
| Broadcast.EmptyOnlyBeforeFirstFrame | server/X2JPEG.cpp:292-301 | The payload is empty exactly when every read so far found the mailbox empty |
| Broadcast.FallbackIsMostRecentFrame | server/X2JPEG.cpp:299-301 | A non-empty payload was read at some pass, and every later read found the mailbox empty |
| Broadcast.FrameIsNeverForgotten | server/X2JPEG.cpp:296-301 | Once a non-empty frame has been read, no later run of reads makes the payload empty again |
| Registry.OwnerBefore | server/X2JPEG.cpp:439 | `owner_before`: a strict order on the connections two handles refer to |
| Registry.Equivalent | server/X2JPEG.cpp:439 | The close handler's test: neither handle is `owner_before` the other |
| Registry.Without | server/X2JPEG.cpp:437-440 | `erase(remove_if(...))`: the handles not equivalent to the closed one, in their original order |
| Registry.ClientRegistry.constructor | server/X2JPEG.cpp:193 | The registry starts with no clients |
| Registry.ClientRegistry.Open | server/X2JPEG.cpp:430-433 | The new handle is appended after all existing ones |
| Registry.ClientRegistry.Close | server/X2JPEG.cpp:435-441 | The clients become those not owner-equivalent to the closed handle, in order; a handle stays exactly when it was present and refers to another connection |
| Registry.EquivalentIffSameOwner | server/X2JPEG.cpp:438-439 | Neither handle `owner_before` the other exactly when both refer to the same connection |
| Registry.WithoutMembers | server/X2JPEG.cpp:437-440 | A handle is in the result of the erase exactly when it was in the list and is not equivalent to the closed handle |
| Registry.WithoutCounts | server/X2JPEG.cpp:437-440 | Counted with multiplicity: handles equivalent to the closed one occur 0 times; every other handle occurs as often as before |
| Registry.WithoutAppend | server/X2JPEG.cpp:437-440 | Erasing from a + b gives the survivors of a followed by the survivors of b, which preserves order |
| Registry.WithoutUnrelated | server/X2JPEG.cpp:437-440 | When no handle refers to the closed connection, the list is left exactly as it was |
| Registry.CloseIsIdempotent | server/X2JPEG.cpp:435-441 | Closing the same connection twice is the same as closing it once |
| Registry.OpenThenClose | server/X2JPEG.cpp:430-441 | Opening and then closing a connection with no other handle in the list restores the list |
| KeyMap.KeyTable | server/X2JPEG.cpp:197-238 | The 88 pairs of browser key name and X11 keysym in the static table, grouped as in the source |
| KeyMap.TableHasNoNoSymbol | server/X2JPEG.cpp:197-238 | No entry of the 88-entry table maps to `NoSymbol` |
| KeyMap.Translate | server/X2JPEG.cpp:196-245 | The keysym is not `NoSymbol` exactly when the name is in the table, and then it is the table's keysym |
| Scan.SkipSpaces | server/X2JPEG.cpp:323 | The result is a suffix that starts with a non-space, and every skipped character is "C"-locale white space |
| Scan.LeadingDigits | server/X2JPEG.cpp:323 | Counts the digits at the front of the text: all of them are digits, and the next character (if any) is not |
| Scan.ScanInteger | server/X2JPEG.cpp:323 | The integer field that `>> int` and `std::stoi` scan: white space, an optional sign and at least one digit, with its value and the text after it; absent when no digit follows |
| Scan.ExtractInt | server/X2JPEG.cpp:323 | `>> int` succeeds exactly when an integer field can be scanned and its value fits an `int` |
| Scan.ExtractChar | server/X2JPEG.cpp:347-348 | `>> char` yields a non-space character, and fails exactly when only white space is left; for a non-ASCII character only its lead byte is read, which `Control.ParseMove` accounts for |
| Scan.FieldLength | server/X2JPEG.cpp:337 | The length of the text before the first `'+'` (all of it when there is none), stopped by a `'+'` |
| Scan.GetField | server/X2JPEG.cpp:337 | `getline(.., '+')` fails exactly on empty input; otherwise the field holds no `'+'`, and field, delimiter and rest make up the input |
| Scan.TwoFields | server/X2JPEG.cpp:337 | Two `getline(.., '+')` calls in a row: both fields, or nothing when either call fails |
| Scan.ExtractCharFirst | server/X2JPEG.cpp:347-348 | `>> char` facing a non-blank character reads exactly that character and leaves the rest |
| Scan.Stoi | server/X2JPEG.cpp:355-356 | `std::stoi` converts to an `int`, and throws `invalid_argument` exactly when no integer field can be scanned |
| Scan.DigitChar | client/illustrator.js:261 | A digit below 10 is written as the decimal character with that value |
| Scan.Digits | client/illustrator.js:261 | A natural number is written as at least one decimal digit |
| Scan.Decimal | client/illustrator.js:261 | A number is written as non-empty text without `'+'` that does not start with white space |
| Scan.DigitsValueOfDigits | server/X2JPEG.cpp:323 | The value of the decimal digits of n is n |
| Scan.LeadingDigitsOfDigits | server/X2JPEG.cpp:323 | A run of digits followed by a non-digit is counted exactly |
| Scan.MagnitudeOfDigits | server/X2JPEG.cpp:323 | Scanning the digits of m followed by a non-digit reads m and leaves the rest |
| Scan.ScanDecimal | server/X2JPEG.cpp:323 | Scanning any integer written in decimal, followed by a non-digit, reads that integer and leaves the rest |
| Scan.ScanNegative | server/X2JPEG.cpp:323 | The same, for negative numbers written with a leading `-` |
| Scan.ScanNonNegative | server/X2JPEG.cpp:323 | The same, for non-negative numbers |
| Scan.ScanUnsigned | server/X2JPEG.cpp:323 | Text that starts with a digit is read as the unsigned number at its front |
| Scan.ScanMinus | server/X2JPEG.cpp:323 | Text that starts with `-` is read as the negation of the number after it |
| Scan.MagnitudeOfDigitString | server/X2JPEG.cpp:347-348 | Any run of digits followed by a non-digit, leading zeros included, is read as its value, leaving the text after it |
| Scan.ExtractDigitString | server/X2JPEG.cpp:347-348 | `>> int` reads an optional '-' and any run of digits as their signed value when it fits an `int`, leaving the text after it |
| Scan.ExtractDecimal | server/X2JPEG.cpp:323 | `>> int` reads back any `int` written in decimal |
| Scan.StoiDecimal | server/X2JPEG.cpp:355-356 | `std::stoi` reads back any `int` written in decimal |
| Scan.GetFieldSplits | server/X2JPEG.cpp:337 | `getline` on field + "+" + rest returns the field and the rest, when the field holds no `'+'` |
| Scan.GetFieldLast | server/X2JPEG.cpp:354 | A non-empty final field without `'+'` is returned whole, with nothing left |
| Scan.FieldLengthStopsAtPlus | server/X2JPEG.cpp:337 | The field length is the position of the first `'+'` |
| Scan.TwoFieldsSplit | server/X2JPEG.cpp:337 | Two `getline` calls on a + "+" + b return a and b when neither holds `'+'` and b is non-empty |
| Control.HasPrefix | server/X2JPEG.cpp:320 | `msg.rfind(prefix, 0) == 0`: the message starts with the prefix |
| Control.ParseMove | server/X2JPEG.cpp:345-348 | `iss >> x >> plus >> y`: both numbers when each fits an `int` and a non-blank ASCII character separates them; nothing otherwise |
| Control.ParseButton | server/X2JPEG.cpp:352-356 | Two `getline` fields converted by `std::stoi`, press field first: both numbers, nothing when a field is missing, or the first exception thrown |
| Control.Parse | server/X2JPEG.cpp:320-364 | The command read from a message after the first of the five prefixes it starts with; ignored when it has none |
| Control.ButtonOf | server/X2JPEG.cpp:357-362 | The X11 button for a viewer's code: 1 for 1, 3 for 0, 0 for anything else |
| Control.Respond | server/X2JPEG.cpp:320-363 | What the message does: the setter to call, the one event to inject, a drop, a `std::stoi` exception, or the budget overflow |
| Control.OnMessage | server/X2JPEG.cpp:319-366 | The action is the dispatch of the message. The budget or frame rate changes only on the matching setter action, to the parsed value. Quality and mailbox are never touched |
| Control.ParsedIntsFit | server/X2JPEG.cpp:321-331 | Every budget and frame rate read from a message fits an `int` |
| Control.ReadsAfterPrefix | server/X2JPEG.cpp:320-354 | The text after each of the five prefixes goes to that prefix's reader |
| Control.AfterBudgetPrefix | server/X2JPEG.cpp:320-323 | The text after "q " is read with `>> int` |
| Control.AfterFpsPrefix | server/X2JPEG.cpp:327-330 | The text after "f " is read with `>> int` |
| Control.AfterKeyPrefix | server/X2JPEG.cpp:334-337 | The text after "2+" is split into two fields with `getline` |
| Control.AfterMovePrefix | server/X2JPEG.cpp:344-348 | The text after "1+" goes to the motion reader |
| Control.AfterButtonPrefix | server/X2JPEG.cpp:351-354 | The text after "3+" goes to the button reader |
| Control.MoveWithAnySeparator | server/X2JPEG.cpp:346-348 | Two motion numbers separated by any one non-blank, non-digit ASCII character read as that motion |
| Control.NonAsciiSeparatorIsDropped | server/X2JPEG.cpp:346-348 | A non-ASCII character after the first motion number makes the message do nothing, whatever follows |
| Control.BudgetIgnoresTrailingText | server/X2JPEG.cpp:322-323 | "q <kb><rest>" sets kb whenever the rest does not start with a digit, so "q 80.5" sets 80 |
| Control.Wire | client/illustrator.js:118-282 | The text the client sends for each command, numbers in decimal: the budget (118), the frame rate (149), key events (199, 215), motion (261) and buttons (268-282) |
| Control.WellFormed | server/X2JPEG.cpp:319-364 | The commands whose text the server reads back: numbers fit an `int`, key fields hold no `'+'`, the code is non-empty |
| Control.ParseBudgetWire | client/illustrator.js:118 | When the client's budget field holds an integer written in decimal, "q <kb>" reads back as a budget of kb |
| Control.ParseFpsWire | client/illustrator.js:149 | When the client's frame-rate field holds an integer written in decimal, "f <n>" reads back as a frame rate of n |
| Control.ParseKeyWire | client/illustrator.js:199 | "2+<type>+<code>" reads back as a key command with exactly those two fields |
| Control.ParseMoveWire | client/illustrator.js:261 | "1+<x>+<y>" reads back as a motion by (x, y) |
| Control.ParseButtonWire | client/illustrator.js:268 | "3+<p>+<b>" reads back as a button command with p and b |
| Control.ParseWire | server/X2JPEG.cpp:319-364 | Every well-formed command, written as the client writes it, is read back as itself |
| Control.BudgetMessage | server/X2JPEG.cpp:320-326 | "q <kb>" calls the budget setter with kb, unless kb * 1024 overflows an `int` |
| Control.FpsMessage | server/X2JPEG.cpp:327-333 | "f <n>" calls the frame-rate setter with n, whatever its sign |
| Control.SetterIffInteger | server/X2JPEG.cpp:320-333 | After "q " or "f ", the setter is reached exactly when an `int` can be read from the rest; otherwise the message is dropped |
| Control.KeyMessage | server/X2JPEG.cpp:334-343 | A key message injects one key event, pressed exactly when the type is "1", if the code is in the table; otherwise nothing happens |
| Control.MoveMessage | server/X2JPEG.cpp:344-350 | A motion message injects one motion by (x, y) |
| Control.ButtonMessage | server/X2JPEG.cpp:351-364 | A button message injects one button event, pressed exactly when p is 1; button 1 for b = 1, 3 for b = 0, 0 otherwise |
| Control.ButtonWithoutNumberThrows | server/X2JPEG.cpp:354-356 | A button message whose press field holds no number throws `invalid_argument` instead of being dropped |
| Control.UnknownPrefixIsDropped | server/X2JPEG.cpp:320-365 | A message with none of the five prefixes has no effect |
| Control.ClientRightPress | client/illustrator.js:268 | "3+1+0" presses button 3 |
| Control.ClientLeftPress | client/illustrator.js:271 | "3+1+1" presses button 1 |
| Control.ClientRightRelease | client/illustrator.js:279 | "3+0+0" releases button 3 |
| Control.ClientLeftRelease | client/illustrator.js:282 | "3+0+1" releases button 1 |
| Control.FractionalMotionFields | server/X2JPEG.cpp:346-348 | The motion fields "<sign><i>.<d>…" read as (x, f), with `'.'` taken as the separator: x is the signed value of the digits i, f the value of the digits d, leading zeros included |
| Control.ParseFractionalMove | server/X2JPEG.cpp:344-348 | The message "1+<sign><i>.<d>…" reads as a motion by (x, f) |
| Control.PointThenDigits | server/X2JPEG.cpp:347-348 | After the integer part, `>> plus` takes the `'.'` and `>> y` reads the digits after it as their value |
| Control.FractionalMoveIsMisread | client/illustrator.js:261 | A movement the client sends as an optional '-', digits, '.' and digits (such as "1.05" or "-0.5") moves the pointer by (x, f): x is the signed integer part (0 for "-0.5"), f the value of the digits after the point (5 for "1.05"), provided both fit an `int` |

## Left out

- X11 capture and input injection are not modelled: `XGetImage`, `XFixesGetCursorImage`, `XPutPixel` on anything but a 32-bits-per-pixel image, and `send_key`, `send_mouse_move`, `send_mouse_button`. These are foreign calls. A capture cycle receives the frame and cursor as arguments, and injection is the abstract `Control.InputEvent`.
- A failed `XGetImage` skips the cycle. That skipped cycle is not modelled; `Capture.ScreenShot.CaptureCycle` is one successful cycle.
- `cv::imencode` and the `cv::Mat` wrapping are not modelled. The encoder is an arbitrary function parameter from image and quality to bytes.
- Threads, the mutex, the condition variable and the atomics are not modelled. Each operation is modelled as one atomic step, and the setters' `notify_all` wakeup is left out.
- Timing and pacing are not modelled: the capture interval, the `sleep_for` calls and the broadcast's `1000 / get_fps()`.
  - For a positive frame rate they only affect timing.
  - A frame rate of 0 is accepted (`Control.FpsMessage`). The broadcast loop then divides by zero in `1000 / screen.get_fps()` at server/X2JPEG.cpp:314. That is undefined behaviour, and a typical build kills the server with a floating-point exception. The capture loop's `1000.0 / (fps_ * capture_multiplier)` at lines 97 and 169 becomes infinite. None of this is in the model.
  - A negative frame rate makes both waits negative, so both loops run unpaced.
- `get_buffer` and `get_fps` are plain reads of the fields `buffer` and `fps`. The mailbox reads of the broadcast loop are the input of `Broadcast.BroadcastLoop`.
- The `while (true)` capture loop is represented by `Capture.ScreenShot.CaptureCycle` for one pass and `Quality.QualityAfter` for a run of passes.
- Websocket sends are not modelled. Each payload of `Broadcast.BroadcastLoop` is what every client receives in that pass; a send failure is only logged.
- `report_performance`, `signal_handler`, `set_thread_priority` and `main` are not modelled. They handle diagnostics, signals, scheduling and argument handling.
- The websocketpp server set-up is not modelled.
- client/masterrahool.js is not part of this model. It wraps received bytes in a browser object URL.
- client/illustrator.js is used only for the strings it sends. Its DOM and UI logic are not part of this model.
- Capture.ScreenShot.SetMaxSize: requires `kb * 1024` to fit an `int`, because the source multiplication is undefined behaviour beyond that. A typical build stores the product wrapped modulo 2^32, which can make the budget negative. The model does not follow that: `Control.Respond` returns `BudgetOverflow`, and `Control.OnMessage` keeps the old budget in that case.
- Capture.ScreenShot.Step: requires `max_size_ - 10240` to fit an `int`, because the source subtraction overflows for budgets within 10 KiB of the smallest `int`.
- Cursor.Composite: `x - xhot` and `cursor_x + cx` are computed without `int` overflow. X server coordinates stay far from the limits.
- Messages are modelled as strings of Unicode characters, that is, as websocket text frames holding valid UTF-8. A binary frame with invalid UTF-8 is not modelled. Reading by character agrees with the server's byte-wise reading everywhere except at `>> char`. There a non-ASCII character makes the server drop a motion message, and `Control.ParseMove` models that drop.
