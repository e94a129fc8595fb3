// Transport commands and their wire payloads (crates/akraz-daemon/src/lib.rs). JSON itself is not
// modelled: a payload is the record of strings and numbers that is serialized.
module WireCommands {
  import opened Wrappers
  import opened Ints
  import opened Geometry
  import opened CoreState
  import opened Decimal

  datatype Command =
    | StartSession(peer: string, crossing: Option<EdgeCrossing>)
    | Forward(event: InputEvent)
    | ReleaseAll
    | StopSession(session: Option<string>)

  datatype CrossingPayload = CrossingPayload(
    peerId: string, localEdge: string, remoteEdge: string, exitX: i32, exitY: i32, edgeOffset: i32)

  datatype InputPayload =
    | KeyPayload(key: string, state: string)
    | ButtonPayload(button: string, press: string)
    | MovePayload(deltaX: i32, deltaY: i32)
    | ScrollPayload(scrollX: i32, scrollY: i32)

  datatype CommandPayload =
    | StartPayload(peerId: string, crossing: Option<CrossingPayload>)
    | ForwardPayload(event: InputPayload)
    | ReleasePayload
    | StopPayload(sessionId: Option<string>)

  datatype WireError = UnsupportedValue(value: string) | InvalidNumber(code: string)

  type Parsed<T> = Result<T, WireError>

  // ---- Names -----------------------------------------------------------------------------------

  function EdgeName(edge: ScreenEdge): string {
    match edge case LeftEdge => "left" case RightEdge => "right" case TopEdge => "top" case BottomEdge => "bottom"
  }

  function ParseEdge(value: string): Parsed<ScreenEdge> {
    if value == "left" then Ok(LeftEdge)
    else if value == "right" then Ok(RightEdge)
    else if value == "top" then Ok(TopEdge)
    else if value == "bottom" then Ok(BottomEdge)
    else Err(UnsupportedValue(value))
  }

  function StateName(state: PressState): string { if state.Pressed? then "pressed" else "released" }

  function ParseState(value: string): Parsed<PressState> {
    if value == "pressed" then Ok(Pressed)
    else if value == "released" then Ok(Released)
    else Err(UnsupportedValue(value))
  }

  function KeyName(key: PhysicalKey): string {
    match key
    case LeftShift => "leftShift"
    case RightShift => "rightShift"
    case LeftControl => "leftControl"
    case RightControl => "rightControl"
    case LeftAlt => "leftAlt"
    case RightAlt => "rightAlt"
    case LeftMeta => "leftMeta"
    case RightMeta => "rightMeta"
    case Code(code) => "code:" + Print(code)
  }

  function ParseKey(value: string): Parsed<PhysicalKey> {
    if value == "leftShift" then Ok(LeftShift)
    else if value == "rightShift" then Ok(RightShift)
    else if value == "leftControl" then Ok(LeftControl)
    else if value == "rightControl" then Ok(RightControl)
    else if value == "leftAlt" then Ok(LeftAlt)
    else if value == "rightAlt" then Ok(RightAlt)
    else if value == "leftMeta" then Ok(LeftMeta)
    else if value == "rightMeta" then Ok(RightMeta)
    else match ParsePrefixedU16(value, "code:") case Ok(code) => Ok(Code(code)) case Err(e) => Err(e)
  }

  function ButtonName(button: MouseButton): string {
    match button
    case ButtonLeft => "left"
    case ButtonRight => "right"
    case ButtonMiddle => "middle"
    case ButtonBack => "back"
    case ButtonForward => "forward"
    case Other(code) => "other:" + Print(code)
  }

  function ParseButton(value: string): Parsed<MouseButton> {
    if value == "left" then Ok(ButtonLeft)
    else if value == "right" then Ok(ButtonRight)
    else if value == "middle" then Ok(ButtonMiddle)
    else if value == "back" then Ok(ButtonBack)
    else if value == "forward" then Ok(ButtonForward)
    else match ParsePrefixedU16(value, "other:") case Ok(code) => Ok(Other(code)) case Err(e) => Err(e)
  }

  function ParsePrefixedU16(value: string, prefix: string): Parsed<u16> {
    if !(prefix <= value) then Err(UnsupportedValue(value))
    else
      match ParseU16(value[|prefix|..])
      case None => Err(InvalidNumber(value[|prefix|..]))
      case Some(code) => Ok(code)
  }

  // ---- Payloads --------------------------------------------------------------------------------

  function ToPayload(command: Command): CommandPayload {
    match command
    case StartSession(peer, crossing) =>
      StartPayload(peer, match crossing case None => None case Some(c) => Some(ToCrossingPayload(c)))
    case Forward(event) => ForwardPayload(ToInputPayload(event))
    case ReleaseAll => ReleasePayload
    case StopSession(session) => StopPayload(session)
  }

  function ToCrossingPayload(c: EdgeCrossing): CrossingPayload {
    CrossingPayload(c.peerId, EdgeName(c.localEdge), EdgeName(c.remoteEdge), c.exit.x, c.exit.y, c.edgeOffset)
  }

  function ToInputPayload(event: InputEvent): InputPayload {
    match event
    case Key(key, state) => KeyPayload(KeyName(key), StateName(state))
    case Button(button, state) => ButtonPayload(ButtonName(button), StateName(state))
    case PointerMoved(dx, dy) => MovePayload(dx, dy)
    case Scroll(dx, dy) => ScrollPayload(dx, dy)
  }

  function IntoCommand(payload: CommandPayload): Parsed<Command> {
    match payload
    case StartPayload(peer, None) => Ok(StartSession(peer, None))
    case StartPayload(peer, Some(c)) =>
      (match IntoCrossing(c) case Err(e) => Err(e) case Ok(crossing) => Ok(StartSession(peer, Some(crossing))))
    case ForwardPayload(event) =>
      (match IntoInput(event) case Err(e) => Err(e) case Ok(input) => Ok(Forward(input)))
    case ReleasePayload => Ok(ReleaseAll)
    case StopPayload(session) => Ok(StopSession(session))
  }

  function IntoCrossing(c: CrossingPayload): Parsed<EdgeCrossing> {
    match ParseEdge(c.localEdge)
    case Err(e) => Err(e)
    case Ok(localEdge) =>
      match ParseEdge(c.remoteEdge)
      case Err(e) => Err(e)
      case Ok(remoteEdge) =>
        Ok(EdgeCrossing(c.peerId, localEdge, remoteEdge, Point(c.exitX, c.exitY), c.edgeOffset))
  }

  function IntoInput(event: InputPayload): Parsed<InputEvent> {
    match event
    case KeyPayload(key, state) =>
      (match ParseKey(key)
       case Err(e) => Err(e)
       case Ok(k) => match ParseState(state) case Err(e) => Err(e) case Ok(s) => Ok(Key(k, s)))
    case ButtonPayload(button, state) =>
      (match ParseButton(button)
       case Err(e) => Err(e)
       case Ok(b) => match ParseState(state) case Err(e) => Err(e) case Ok(s) => Ok(Button(b, s)))
    case MovePayload(dx, dy) => Ok(PointerMoved(dx, dy))
    case ScrollPayload(dx, dy) => Ok(Scroll(dx, dy))
  }

  // ---- Round trips -----------------------------------------------------------------------------

  lemma {:induction false} PrefixedRoundTrip(prefix: string, code: u16)
    ensures ParsePrefixedU16(prefix + Print(code), prefix) == Ok(code)
  {
    ParseInvertsPrint(code);
    assert (prefix + Print(code))[|prefix|..] == Print(code);
  }

  lemma {:induction false} KeyNameRoundTrip(key: PhysicalKey)
    ensures ParseKey(KeyName(key)) == Ok(key)
  {
    if key.Code? {
      PrefixedRoundTrip("code:", key.code);
      assert KeyName(key)[0] == 'c';
    }
  }

  lemma {:induction false} ButtonNameRoundTrip(button: MouseButton)
    ensures ParseButton(ButtonName(button)) == Ok(button)
  {
    if button.Other? {
      PrefixedRoundTrip("other:", button.other);
      assert ButtonName(button)[0] == 'o';
    }
  }

  // Decoding the wire payload of any command gives the command back.
  lemma {:induction false} CommandRoundTrip(command: Command)
    ensures IntoCommand(ToPayload(command)) == Ok(command)
  {
    match command
    case Forward(Key(key, _)) => KeyNameRoundTrip(key);
    case Forward(Button(button, _)) => ButtonNameRoundTrip(button);
    case _ =>
  }

  // A name denotes a numbered key exactly when it is the prefix followed by an accepted spelling
  // of the number, so every accepted name is stable after one print.
  lemma {:induction false} AcceptedKeyNames(value: string, key: PhysicalKey)
    ensures ParseKey(value) == Ok(key) <==>
      if key.Code? then exists plus, zeros :: value == "code:" + Spelling(plus, zeros, key.code)
      else value == KeyName(key)
    ensures ParseKey(value) == Ok(key) ==> ParseKey(KeyName(key)) == Ok(key)
  {
    KeyNameRoundTrip(key);
    if key.Code? {
      PrefixedSpellings("code:", value, key.code);
      NumberedKeysOnly(value);
    }
  }

  // No named key starts like a numbered one.
  lemma {:induction false} NumberedKeysOnly(value: string)
    ensures "code:" <= value ==> forall key :: ParseKey(value) == Ok(key) ==> key.Code?
    ensures forall code: u16 :: ParseKey(value) == Ok(Code(code)) <==> ParsePrefixedU16(value, "code:") == Ok(code)
  {
    if "code:" <= value {
      assert value[0] == 'c';
    }
  }

  lemma {:induction false} AcceptedButtonNames(value: string, button: MouseButton)
    ensures ParseButton(value) == Ok(button) <==>
      if button.Other? then exists plus, zeros :: value == "other:" + Spelling(plus, zeros, button.other)
      else value == ButtonName(button)
    ensures ParseButton(value) == Ok(button) ==> ParseButton(ButtonName(button)) == Ok(button)
  {
    ButtonNameRoundTrip(button);
    if button.Other? {
      PrefixedSpellings("other:", value, button.other);
      assert "other:" <= value ==> value[0] == 'o';
    }
  }

  // Edges and press states have one name each.
  lemma {:induction false} AcceptedEdgeAndStateNames(value: string, edge: ScreenEdge, state: PressState)
    ensures ParseEdge(value) == Ok(edge) <==> value == EdgeName(edge)
    ensures ParseState(value) == Ok(state) <==> value == StateName(state)
  {
    assert "left"[0] == 'l' && "right"[0] == 'r' && "top"[0] == 't' && "bottom"[0] == 'b';
    assert "pressed"[0] == 'p' && "released"[0] == 'r';
  }

  // The name of a key or button is refused whole, unless it starts like a numbered one; then what
  // follows is reported as no number.
  predicate RefusedTruly<T>(parsed: Parsed<T>, value: string, prefix: string) {
    match parsed
    case Ok(_) => true
    case Err(UnsupportedValue(reported)) => reported == value && !(prefix <= value)
    case Err(InvalidNumber(reported)) => value == prefix + reported && ParseU16(reported).None?
  }

  predicate RefusedWhole<T>(parsed: Parsed<T>, value: string) {
    parsed.Ok? || parsed.error == UnsupportedValue(value)
  }

  lemma {:induction false} NameErrorsAreTrue(value: string)
    ensures RefusedTruly(ParseKey(value), value, "code:") && RefusedTruly(ParseButton(value), value, "other:")
    ensures RefusedWhole(ParseEdge(value), value) && RefusedWhole(ParseState(value), value)
  {
    KeyErrorsAreTrue(value);
    ButtonErrorsAreTrue(value);
  }

  lemma {:induction false} KeyErrorsAreTrue(value: string)
    ensures RefusedTruly(ParseKey(value), value, "code:")
  {
    NumbersRefusedTruly(value, "code:");
    assert ParseKey(value).Err? ==> ParsePrefixedU16(value, "code:") == Err(ParseKey(value).error);
  }

  lemma {:induction false} ButtonErrorsAreTrue(value: string)
    ensures RefusedTruly(ParseButton(value), value, "other:")
  {
    NumbersRefusedTruly(value, "other:");
    assert ParseButton(value).Err? ==> ParsePrefixedU16(value, "other:") == Err(ParseButton(value).error);
  }

  lemma {:induction false} NumbersRefusedTruly(value: string, prefix: string)
    ensures RefusedTruly(ParsePrefixedU16(value, prefix), value, prefix)
  {
    if prefix <= value { assert value == prefix + value[|prefix|..]; }
  }

  // The names in a payload, in the order in which they are read.
  function NamesIn(payload: CommandPayload): seq<WireName> {
    match payload
    case StartPayload(_, Some(c)) => [EdgeField(c.localEdge), EdgeField(c.remoteEdge)]
    case ForwardPayload(KeyPayload(key, state)) => [KeyField(key), StateField(state)]
    case ForwardPayload(ButtonPayload(button, press)) => [ButtonField(button), StateField(press)]
    case _ => []
  }

  datatype WireName = EdgeField(value: string) | KeyField(value: string) | ButtonField(value: string)
                    | StateField(value: string)
  {
    function Error(): Option<WireError> {
      match this
      case EdgeField(v) => ErrorOf(ParseEdge(v))
      case KeyField(v) => ErrorOf(ParseKey(v))
      case ButtonField(v) => ErrorOf(ParseButton(v))
      case StateField(v) => ErrorOf(ParseState(v))
    }
  }

  function ErrorOf<T>(parsed: Parsed<T>): Option<WireError> {
    match parsed case Ok(_) => None case Err(e) => Some(e)
  }

  // A payload is a command exactly if every name in it is accepted; otherwise the first that is not is
  // reported.
  lemma {:induction false} PayloadsDecodeExactly(payload: CommandPayload)
    ensures var names := NamesIn(payload);
      && (IntoCommand(payload).Ok? <==> forall i :: 0 <= i < |names| ==> names[i].Error().None?)
      && (IntoCommand(payload).Err? ==>
            exists i :: 0 <= i < |names| && names[i].Error() == Some(IntoCommand(payload).error)
                     && forall j :: 0 <= j < i ==> names[j].Error().None?)
  {
    var names := NamesIn(payload);
    if names != [] {
      assert |names| == 2;
      assert IntoCommand(payload).Err? ==>
        if names[0].Error().Some? then names[0].Error() == Some(IntoCommand(payload).error)
        else names[1].Error() == Some(IntoCommand(payload).error);
    }
  }

  lemma {:induction false} PrefixedSpellings(prefix: string, value: string, code: u16)
    ensures ParsePrefixedU16(value, prefix) == Ok(code) <==>
      exists plus, zeros :: value == prefix + Spelling(plus, zeros, code)
  {
    if prefix <= value {
      var rest := value[|prefix|..];
      ParsesExactlyTheSpellings(rest, code);
      assert value == prefix + rest;
      assert forall s: string :: value == prefix + s ==> (prefix + s)[|prefix|..] == s;
      if ParsePrefixedU16(value, prefix) == Ok(code) {
        var plus, zeros :| rest == Spelling(plus, zeros, code);
        assert value == prefix + Spelling(plus, zeros, code);
      }
    }
  }
}
