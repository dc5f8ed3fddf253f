/**
 * The control channel: every text message a viewer sends is classified by
 * a two-character prefix and turned into at most one effect, either a new
 * session parameter or one input event for the X server.
 *
 *   "q <kb>"            size budget = kb * 1024 bytes
 *   "f <n>"             target frame rate = n
 *   "2+<type>+<code>"   key event, pressed when type is "1"
 *   "1+<x><c><y>"       pointer motion by (x, y); c is any one non-blank ASCII character
 *   "3+<p>+<b>"         pointer button, pressed when p is 1; b = 1 is button 1, b = 0 button 3
 *
 * Anything else is ignored.  The fields are read with `>> int`, `>> char`,
 * `getline` and `std::stoi` as the server reads the message's UTF-8 text,
 * quirks included.
 */
module Control {
  import opened Common
  import opened Scan
  import opened KeyMap
  import opened Capture

  /** A recognised message, with its fields as the server read them. */
  datatype Command =
    | SetMaxSize(kb: int)
    | SetFps(fps: int)
    | Key(eventType: string, jsCode: string)
    | Move(x: int, y: int)
    | Button(pressValue: int, buttonCode: int)

  /** The outcome of reading a message: ignored, a command, or an exception from `std::stoi`. */
  datatype Parsed = Ignored | Recognised(command: Command) | Raised(error: StoiError)

  /** `msg.rfind(prefix, 0) == 0`: the message starts with the prefix. */
  predicate HasPrefix(msg: string, prefix: string) {
    |prefix| <= |msg| && msg[..|prefix|] == prefix
  }

  /**
   * `iss >> x >> plus >> y` on the text after "1+".  When `plus` is not ASCII
   * it holds only the first byte of the character, and `>> y` fails on the
   * continuation byte after it.
   */
  function ParseMove(s: string): Parsed {
    match ExtractInt(s)
    case None => Ignored
    case Some(Scanned(x, afterX)) =>
      match ExtractChar(afterX)
      case None => Ignored
      case Some((sep, afterSep)) =>
        if !IsAscii(sep) then Ignored
        else
        match ExtractInt(afterSep)
        case None => Ignored
        case Some(Scanned(y, _)) => Recognised(Move(x, y))
  }

  /** Two `getline` fields after "3+", each converted with `std::stoi`, the press field first. */
  function ParseButton(s: string): Parsed {
    match TwoFields(s)
    case None => Ignored
    case Some((pressText, buttonText)) =>
      match Stoi(pressText)
      case Threw(e) => Raised(e)
      case Converted(p) =>
        match Stoi(buttonText)
        case Threw(e) => Raised(e)
        case Converted(b) => Recognised(Button(p, b))
  }

  /** The field parsing of `on_message`. */
  function Parse(msg: string): Parsed {
    if HasPrefix(msg, "q ") then
      match ExtractInt(msg[2..])
      case Some(f) => Recognised(SetMaxSize(f.value))
      case None => Ignored
    else if HasPrefix(msg, "f ") then
      match ExtractInt(msg[2..])
      case Some(f) => Recognised(SetFps(f.value))
      case None => Ignored
    else if HasPrefix(msg, "2+") then
      match TwoFields(msg[2..])
      case Some((eventType, jsCode)) => Recognised(Key(eventType, jsCode))
      case None => Ignored
    else if HasPrefix(msg, "1+") then
      ParseMove(msg[2..])
    else if HasPrefix(msg, "3+") then
      ParseButton(msg[2..])
    else
      Ignored
  }

  /** An input event handed to the X server (XTest key, relative motion, button). */
  datatype InputEvent =
    | KeyEvent(keysym: KeySym, press: bool)
    | PointerMove(dx: int, dy: int)
    | PointerButton(button: int, press: bool)

  /** What handling one message amounts to. */
  datatype Action =
    | Drop
    | UpdateMaxSize(kb: int)
    | UpdateFps(fps: int)
    | Inject(event: InputEvent)
    | Throw(error: StoiError)
    /** `kb * 1024` does not fit an `int`: undefined behaviour in the server (typically a wrapped, possibly negative budget); the model keeps the old budget. */
    | BudgetOverflow(kb: int)

  /** The X11 button for a viewer's button code: 1 is button 1, 0 is button 3, anything else 0. */
  function ButtonOf(code: int): int {
    if code == 1 then 1 else if code == 0 then 3 else 0
  }

  /** The dispatch of `on_message`: the setter to call or the event to inject. */
  function Respond(msg: string): Action {
    match Parse(msg)
    case Ignored => Drop
    case Raised(e) => Throw(e)
    case Recognised(cmd) =>
      match cmd
      case SetMaxSize(kb) => if InInt32(kb * 1024) then UpdateMaxSize(kb) else BudgetOverflow(kb)
      case SetFps(n) => UpdateFps(n)
      case Key(eventType, jsCode) =>
        var keysym := Translate(jsCode);
        if keysym == NoSymbol then Drop else Inject(KeyEvent(keysym, eventType == "1"))
      case Move(x, y) => Inject(PointerMove(x, y))
      case Button(p, b) => Inject(PointerButton(ButtonOf(b), p == 1))
  }

  /**
   * `on_message`: handles one viewer message against the session.  A budget
   * or frame-rate message calls the matching setter; nothing else touches
   * the session; the quality and the mailbox are never touched.
   */
  method OnMessage(screen: ScreenShot, msg: string) returns (action: Action)
    requires screen.Valid()
    modifies screen
    ensures screen.Valid()
    ensures action == Respond(msg)
    ensures action.UpdateMaxSize? ==> screen.maxSize == action.kb * 1024
    ensures !action.UpdateMaxSize? ==> screen.maxSize == old(screen.maxSize)
    ensures action.UpdateFps? ==> screen.fps == action.fps
    ensures !action.UpdateFps? ==> screen.fps == old(screen.fps)
    ensures screen.quality == old(screen.quality) && screen.buffer == old(screen.buffer)
  {
    action := Respond(msg);
    match action {
      case UpdateMaxSize(kb) =>
        screen.SetMaxSize(kb);
      case UpdateFps(n) =>
        ParsedIntsFit(msg);
        screen.SetFps(n);
      case _ =>
    }
  }

  /** Every integer the parser produces fits an `int`. */
  lemma ParsedIntsFit(msg: string)
    ensures Respond(msg).UpdateFps? ==> InInt32(Respond(msg).fps)
    ensures Parse(msg).Recognised? && Parse(msg).command.SetMaxSize? ==> InInt32(Parse(msg).command.kb)
  {
  }

  /** A message whose first character differs from the prefix's does not start with it. */
  lemma FirstCharDiffers(msg: string, prefix: string)
    requires msg != [] && prefix != [] && msg[0] != prefix[0]
    ensures !HasPrefix(msg, prefix)
  {
    if |prefix| <= |msg| {
      assert msg[..|prefix|][0] == msg[0];
    }
  }

  /** What follows each of the five prefixes goes to that prefix's reader. */
  lemma ReadsAfterPrefix(rest: string)
    ensures Parse("q " + rest) == if ExtractInt(rest).Some? then Recognised(SetMaxSize(ExtractInt(rest).value.value)) else Ignored
    ensures Parse("f " + rest) == if ExtractInt(rest).Some? then Recognised(SetFps(ExtractInt(rest).value.value)) else Ignored
    ensures Parse("2+" + rest) == if TwoFields(rest).Some? then Recognised(Key(TwoFields(rest).value.0, TwoFields(rest).value.1)) else Ignored
    ensures Parse("1+" + rest) == ParseMove(rest)
    ensures Parse("3+" + rest) == ParseButton(rest)
  {
    AfterBudgetPrefix(rest);
    AfterFpsPrefix(rest);
    AfterKeyPrefix(rest);
    AfterMovePrefix(rest);
    AfterButtonPrefix(rest);
  }

  /** The text after "q " is read with `>> int`. */
  lemma AfterBudgetPrefix(rest: string)
    ensures Parse("q " + rest) == if ExtractInt(rest).Some? then Recognised(SetMaxSize(ExtractInt(rest).value.value)) else Ignored
  {
    var msg := "q " + rest;
    assert HasPrefix(msg, "q ") && msg[2..] == rest;
  }

  /** The text after "f " is read with `>> int`. */
  lemma AfterFpsPrefix(rest: string)
    ensures Parse("f " + rest) == if ExtractInt(rest).Some? then Recognised(SetFps(ExtractInt(rest).value.value)) else Ignored
  {
    var msg := "f " + rest;
    assert HasPrefix(msg, "f ") && msg[2..] == rest;
    FirstCharDiffers(msg, "q ");
  }

  /** The text after "2+" is split into two fields with `getline`. */
  lemma AfterKeyPrefix(rest: string)
    ensures Parse("2+" + rest) == if TwoFields(rest).Some? then Recognised(Key(TwoFields(rest).value.0, TwoFields(rest).value.1)) else Ignored
  {
    var msg := "2+" + rest;
    assert HasPrefix(msg, "2+") && msg[2..] == rest;
    FirstCharDiffers(msg, "q ");
    FirstCharDiffers(msg, "f ");
  }

  /** The text after "1+" goes to the motion reader. */
  lemma AfterMovePrefix(rest: string)
    ensures Parse("1+" + rest) == ParseMove(rest)
  {
    var msg := "1+" + rest;
    assert HasPrefix(msg, "1+") && msg[2..] == rest;
    FirstCharDiffers(msg, "q ");
    FirstCharDiffers(msg, "f ");
    FirstCharDiffers(msg, "2+");
  }

  /** The text after "3+" goes to the button reader. */
  lemma AfterButtonPrefix(rest: string)
    ensures Parse("3+" + rest) == ParseButton(rest)
  {
    var msg := "3+" + rest;
    assert HasPrefix(msg, "3+") && msg[2..] == rest;
    FirstCharDiffers(msg, "q ");
    FirstCharDiffers(msg, "f ");
    FirstCharDiffers(msg, "2+");
    FirstCharDiffers(msg, "1+");
  }

  // ---------------------------------------------------------------------
  // The messages a viewer sends, and reading them back.
  // ---------------------------------------------------------------------

  /** The text a viewer sends for a command (numbers in decimal). */
  function Wire(cmd: Command): string {
    match cmd
    case SetMaxSize(kb) => "q " + Decimal(kb)
    case SetFps(n) => "f " + Decimal(n)
    case Key(eventType, jsCode) => "2+" + eventType + "+" + jsCode
    case Move(x, y) => "1+" + Decimal(x) + "+" + Decimal(y)
    case Button(p, b) => "3+" + Decimal(p) + "+" + Decimal(b)
  }

  /** A command the server can read back: numbers fit an `int`, key fields hold no `'+'`, the code is not empty. */
  predicate WellFormed(cmd: Command) {
    match cmd
    case SetMaxSize(kb) => InInt32(kb)
    case SetFps(n) => InInt32(n)
    case Key(eventType, jsCode) => '+' !in eventType && '+' !in jsCode && jsCode != []
    case Move(x, y) => InInt32(x) && InInt32(y)
    case Button(p, b) => InInt32(p) && InInt32(b)
  }

  /** The motion fields may be separated by any one non-blank, non-digit ASCII character, not only `'+'`. */
  lemma {:induction false} MoveWithAnySeparator(x: int, y: int, sep: char)
    requires InInt32(x) && InInt32(y)
    requires IsAscii(sep) && !IsSpace(sep) && !IsDigit(sep)
    ensures ParseMove(Decimal(x) + [sep] + Decimal(y)) == Recognised(Move(x, y))
  {
    var afterX := [sep] + Decimal(y);
    assert Decimal(x) + [sep] + Decimal(y) == Decimal(x) + afterX;
    ExtractDecimal(x, afterX);
    ExtractCharFirst(sep, Decimal(y));
    ExtractDecimal(y, []);
    assert Decimal(y) + [] == Decimal(y);
  }

  /**
   * A non-ASCII character after the first motion number makes the server drop
   * the message, whatever follows: `>> plus` takes its lead byte and `>> y`
   * fails on the next one.
   */
  lemma {:induction false} NonAsciiSeparatorIsDropped(x: int, sep: char, rest: string)
    requires InInt32(x) && !IsAscii(sep)
    ensures ParseMove(Decimal(x) + ([sep] + rest)) == Ignored
  {
    ExtractDecimal(x, [sep] + rest);
    ExtractCharFirst(sep, rest);
  }

  /**
   * Text after the budget number is never read: "q <kb><rest>" sets `kb` when
   * the rest does not start with a digit, so "q 80.5" sets 80.
   */
  lemma {:induction false} BudgetIgnoresTrailingText(kb: int, rest: string)
    requires InInt32(kb)
    requires rest == [] || !IsDigit(rest[0])
    ensures Parse("q " + (Decimal(kb) + rest)) == Recognised(SetMaxSize(kb))
  {
    ExtractDecimal(kb, rest);
    assert Parse("q " + (Decimal(kb) + rest)) == Recognised(SetMaxSize(kb)) by {
      AfterBudgetPrefix(Decimal(kb) + rest);
    }
  }

  /** "q <kb>" reads back as a budget of `kb` kilobytes. */
  lemma {:induction false} ParseBudgetWire(kb: int)
    requires InInt32(kb)
    ensures Parse("q " + Decimal(kb)) == Recognised(SetMaxSize(kb))
  {
    ExtractDecimal(kb, []);
    assert Decimal(kb) + [] == Decimal(kb);
    assert Parse("q " + Decimal(kb)) == Recognised(SetMaxSize(kb)) by {
      AfterBudgetPrefix(Decimal(kb));
    }
  }

  /** "f <n>" reads back as a frame rate of `n`. */
  lemma {:induction false} ParseFpsWire(n: int)
    requires InInt32(n)
    ensures Parse("f " + Decimal(n)) == Recognised(SetFps(n))
  {
    ExtractDecimal(n, []);
    assert Decimal(n) + [] == Decimal(n);
    assert Parse("f " + Decimal(n)) == Recognised(SetFps(n)) by {
      AfterFpsPrefix(Decimal(n));
    }
  }

  /** "2+<type>+<code>" reads back as a key command with those two fields. */
  lemma {:induction false} ParseKeyWire(eventType: string, jsCode: string)
    requires '+' !in eventType && '+' !in jsCode && jsCode != []
    ensures Parse("2+" + eventType + "+" + jsCode) == Recognised(Key(eventType, jsCode))
  {
    var msg, rest := "2+" + eventType + "+" + jsCode, eventType + "+" + jsCode;
    assert msg == "2+" + rest;
    TwoFieldsSplit(eventType, jsCode);
    AfterKeyPrefix(rest);
  }

  /** "1+<x>+<y>" reads back as a motion by (x, y). */
  lemma {:induction false} ParseMoveWire(x: int, y: int)
    requires InInt32(x) && InInt32(y)
    ensures Parse("1+" + Decimal(x) + "+" + Decimal(y)) == Recognised(Move(x, y))
  {
    var rest := Decimal(x) + ['+'] + Decimal(y);
    assert "1+" + Decimal(x) + "+" + Decimal(y) == "1+" + rest;
    MoveWithAnySeparator(x, y, '+');
    assert Parse("1+" + rest) == Recognised(Move(x, y)) by {
      AfterMovePrefix(rest);
    }
  }

  /** "3+<p>+<b>" reads back as a button command with both numbers. */
  lemma {:induction false} ParseButtonWire(p: int, b: int)
    requires InInt32(p) && InInt32(b)
    ensures Parse("3+" + Decimal(p) + "+" + Decimal(b)) == Recognised(Button(p, b))
  {
    var rest := Decimal(p) + "+" + Decimal(b);
    assert "3+" + Decimal(p) + "+" + Decimal(b) == "3+" + rest;
    TwoFieldsSplit(Decimal(p), Decimal(b));
    StoiDecimal(p);
    StoiDecimal(b);
    assert ParseButton(rest) == Recognised(Button(p, b));
    assert Parse("3+" + rest) == Recognised(Button(p, b)) by {
      AfterButtonPrefix(rest);
    }
  }

  /** Every well-formed command survives the trip over the wire: the server reads back what was sent. */
  lemma {:induction false} ParseWire(cmd: Command)
    requires WellFormed(cmd)
    ensures Parse(Wire(cmd)) == Recognised(cmd)
  {
    match cmd
    case SetMaxSize(kb) => ParseBudgetWire(kb);
    case SetFps(n) => ParseFpsWire(n);
    case Key(eventType, jsCode) => ParseKeyWire(eventType, jsCode);
    case Move(x, y) => ParseMoveWire(x, y);
    case Button(p, b) => ParseButtonWire(p, b);
  }

  // ---------------------------------------------------------------------
  // What each kind of message does.
  // ---------------------------------------------------------------------

  /** "q <kb>" calls the budget setter with `kb`, unless `kb * 1024` overflows an `int`. */
  lemma {:induction false} BudgetMessage(kb: int)
    requires InInt32(kb)
    ensures Respond("q " + Decimal(kb)) == if InInt32(kb * 1024) then UpdateMaxSize(kb) else BudgetOverflow(kb)
  {
    ParseBudgetWire(kb);
  }

  /** "f <n>" calls the frame-rate setter with `n`, whatever its sign. */
  lemma {:induction false} FpsMessage(n: int)
    requires InInt32(n)
    ensures Respond("f " + Decimal(n)) == UpdateFps(n)
  {
    ParseFpsWire(n);
  }

  /**
   * After "q " or "f " the setter is reached exactly when an `int` can be read
   * from the rest of the message; otherwise the message is dropped.
   */
  lemma {:induction false} SetterIffInteger(rest: string)
    ensures Respond("q " + rest) != Drop <==> ExtractInt(rest).Some?
    ensures Respond("f " + rest) == if ExtractInt(rest).Some? then UpdateFps(ExtractInt(rest).value.value) else Drop
  {
    AfterBudgetPrefix(rest);
    AfterFpsPrefix(rest);
  }

  /**
   * "2+<type>+<code>" injects exactly one key event when the code is in the
   * table (pressed exactly when the type is "1", released for any other
   * type) and nothing when it is not.
   */
  lemma {:induction false} KeyMessage(eventType: string, jsCode: string)
    requires '+' !in eventType && '+' !in jsCode && jsCode != []
    ensures jsCode in KeyTable ==>
              Respond("2+" + eventType + "+" + jsCode) == Inject(KeyEvent(KeyTable[jsCode], eventType == "1"))
    ensures jsCode !in KeyTable ==> Respond("2+" + eventType + "+" + jsCode) == Drop
  {
    ParseKeyWire(eventType, jsCode);
  }

  /** "1+<x>+<y>" injects one motion by (x, y). */
  lemma {:induction false} MoveMessage(x: int, y: int)
    requires InInt32(x) && InInt32(y)
    ensures Respond("1+" + Decimal(x) + "+" + Decimal(y)) == Inject(PointerMove(x, y))
  {
    ParseMoveWire(x, y);
  }

  /**
   * "3+<p>+<b>" injects one button event, pressed exactly when p is 1:
   * button 1 for b = 1, button 3 for b = 0, and button 0 for any other b.
   */
  lemma {:induction false} ButtonMessage(p: int, b: int)
    requires InInt32(p) && InInt32(b)
    ensures Respond("3+" + Decimal(p) + "+" + Decimal(b)).Inject?
    ensures Respond("3+" + Decimal(p) + "+" + Decimal(b)).event.PointerButton?
    ensures Respond("3+" + Decimal(p) + "+" + Decimal(b)).event.press <==> p == 1
    ensures b == 1 ==> Respond("3+" + Decimal(p) + "+" + Decimal(b)).event.button == 1
    ensures b == 0 ==> Respond("3+" + Decimal(p) + "+" + Decimal(b)).event.button == 3
    ensures b != 0 && b != 1 ==> Respond("3+" + Decimal(p) + "+" + Decimal(b)).event.button == 0
  {
    ParseButtonWire(p, b);
  }

  /**
   * A button message whose press field holds no number makes `std::stoi`
   * throw `invalid_argument`: an error, not a silent drop.
   */
  lemma {:induction false} ButtonWithoutNumberThrows(pressText: string, buttonText: string)
    requires '+' !in pressText && '+' !in buttonText && buttonText != []
    requires ScanInteger(pressText).None?
    ensures Respond("3+" + pressText + "+" + buttonText) == Throw(InvalidArgument)
  {
    var rest := pressText + "+" + buttonText;
    assert "3+" + pressText + "+" + buttonText == "3+" + rest;
    TwoFieldsSplit(pressText, buttonText);
    assert ParseButton(rest) == Raised(InvalidArgument);
    assert Parse("3+" + rest) == Raised(InvalidArgument) by {
      AfterButtonPrefix(rest);
    }
  }

  /** A message with none of the five prefixes has no effect at all. */
  lemma UnknownPrefixIsDropped(msg: string)
    requires !HasPrefix(msg, "q ") && !HasPrefix(msg, "f ") && !HasPrefix(msg, "2+")
    requires !HasPrefix(msg, "1+") && !HasPrefix(msg, "3+")
    ensures Respond(msg) == Drop
  {
  }
  // ---------------------------------------------------------------------
  // The messages the browser client sends.
  // ---------------------------------------------------------------------

  /** The client's right-button press, "3+1+0", presses button 3. */
  lemma ClientRightPress()
    ensures Respond("3+1+0") == Inject(PointerButton(3, true))
  {
    ButtonMessage(1, 0);
    assert "3+" + Decimal(1) + "+" + Decimal(0) == "3+1+0" by {
      assert Decimal(0) == "0" && Decimal(1) == "1";
    }
  }

  /** The client's left-button press, "3+1+1", presses button 1. */
  lemma ClientLeftPress()
    ensures Respond("3+1+1") == Inject(PointerButton(1, true))
  {
    ButtonMessage(1, 1);
    assert "3+" + Decimal(1) + "+" + Decimal(1) == "3+1+1" by {
      assert Decimal(0) == "0" && Decimal(1) == "1";
    }
  }

  /** The client's right-button release, "3+0+0", releases button 3. */
  lemma ClientRightRelease()
    ensures Respond("3+0+0") == Inject(PointerButton(3, false))
  {
    ButtonMessage(0, 0);
    assert "3+" + Decimal(0) + "+" + Decimal(0) == "3+0+0" by {
      assert Decimal(0) == "0" && Decimal(1) == "1";
    }
  }

  /** The client's left-button release, "3+0+1", releases button 1. */
  lemma ClientLeftRelease()
    ensures Respond("3+0+1") == Inject(PointerButton(1, false))
  {
    ButtonMessage(0, 1);
    assert "3+" + Decimal(0) + "+" + Decimal(1) == "3+0+1" by {
      assert Decimal(0) == "0" && Decimal(1) == "1";
    }
  }

  /**
   * The motion fields "<sign><i>.<d>..." read as (x, f), where x is the signed
   * value of the integer digits i and f the value of the fraction digits d:
   * the `'.'` is taken as the separator.
   */
  lemma {:induction false} FractionalMotionFields(negative: bool, i: string, d: string, rest: string)
    requires i != [] && AllDigits(i) && d != [] && AllDigits(d)
    requires rest == [] || !IsDigit(rest[0])
    requires InInt32(SignedValue(negative, i)) && DigitsValue(d) <= IntMax
    ensures ParseMove(SignText(negative) + i + ("." + (d + rest))) == Recognised(Move(SignedValue(negative, i), DigitsValue(d)))
  {
    var afterX := "." + (d + rest);
    assert !IsDigit(afterX[0]);
    ExtractDigitString(negative, i, afterX);
    PointThenDigits(d, rest);
    MoveFromSteps(SignText(negative) + i + afterX, SignedValue(negative, i), afterX, '.', d + rest, DigitsValue(d), rest);
  }

  /** After the integer part, `>> plus` takes the `'.'` and `>> y` reads the digits after it. */
  lemma {:induction false} PointThenDigits(d: string, rest: string)
    requires d != [] && AllDigits(d) && DigitsValue(d) <= IntMax
    requires rest == [] || !IsDigit(rest[0])
    ensures ExtractChar("." + (d + rest)) == Some(('.', d + rest))
    ensures ExtractInt(d + rest) == Some(Scanned(DigitsValue(d), rest))
  {
    assert "." + (d + rest) == ['.'] + (d + rest);
    ExtractCharFirst('.', d + rest);
    assert SignText(false) + d + rest == d + rest;
    ExtractDigitString(false, d, rest);
  }

  /** `>> x >> plus >> y` succeeding step by step, with an ASCII `plus`, reads the motion (x, y). */
  lemma MoveFromSteps(s: string, x: int, afterX: string, sep: char, afterSep: string, y: int, tail: string)
    requires ExtractInt(s) == Some(Scanned(x, afterX))
    requires ExtractChar(afterX) == Some((sep, afterSep)) && IsAscii(sep)
    requires ExtractInt(afterSep) == Some(Scanned(y, tail))
    ensures ParseMove(s) == Recognised(Move(x, y))
  {
  }

  /** The whole message "1+<sign><i>.<d>..." reads as a motion by (x, f). */
  lemma {:induction false} ParseFractionalMove(negative: bool, i: string, d: string, rest: string)
    requires i != [] && AllDigits(i) && d != [] && AllDigits(d)
    requires rest == [] || !IsDigit(rest[0])
    requires InInt32(SignedValue(negative, i)) && DigitsValue(d) <= IntMax
    ensures Parse("1+" + SignText(negative) + i + "." + d + rest) == Recognised(Move(SignedValue(negative, i), DigitsValue(d)))
  {
    var fields := SignText(negative) + i + ("." + (d + rest));
    FractionalMotionFields(negative, i, d, rest);
    assert Parse("1+" + fields) == Recognised(Move(SignedValue(negative, i), DigitsValue(d))) by {
      AfterMovePrefix(fields);
    }
    Regroup("1+", SignText(negative), i, ".", d, rest);
  }

  /**
   * A fractional movement, as a browser may report it, is misread: in
   * "1+<sign><i>.<d>+<y>" the `'.'` is taken as the separator, the motion is
   * (x, f) with x the signed integer part and f the value of the digits after
   * the point (so "1.05" gives f = 5 and "-0.5" gives x = 0), and the rest of
   * the message is never looked at.
   */
  lemma {:induction false} FractionalMoveIsMisread(negative: bool, i: string, d: string, rest: string)
    requires i != [] && AllDigits(i) && d != [] && AllDigits(d)
    requires rest == [] || !IsDigit(rest[0])
    requires InInt32(SignedValue(negative, i)) && DigitsValue(d) <= IntMax
    ensures Respond("1+" + SignText(negative) + i + "." + d + rest) == Inject(PointerMove(SignedValue(negative, i), DigitsValue(d)))
  {
    var msg := "1+" + SignText(negative) + i + "." + d + rest;
    ParseFractionalMove(negative, i, d, rest);
    RecognisedMoveIsInjected(msg, SignedValue(negative, i), DigitsValue(d));
  }

  /** A message read as a motion injects exactly that motion. */
  lemma RecognisedMoveIsInjected(msg: string, x: int, y: int)
    requires Parse(msg) == Recognised(Move(x, y))
    ensures Respond(msg) == Inject(PointerMove(x, y))
  {
  }

  /** Concatenation regrouped to the right. */
  lemma Regroup(p: string, s: string, a: string, b: string, c: string, d: string)
    ensures p + s + a + b + c + d == p + (s + a + (b + (c + d)))
  {
  }
}
