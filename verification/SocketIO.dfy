// wss/socket.io.go: the Socket.IO text packets.
module SocketIO {
  import opened Words
  import opened Flags
  import opened Environment
  import opened Codec
  import CodecLaws
  import opened Decimal
  import Messages

  const COMMA: Byte := 44
  const SLASH: Byte := 47

  // ---------------------------------------------------------------- printing

  const EVENT_MARK: Bytes := [ZERO + 2, SLASH]
  const ACK_MARK: Bytes := [ZERO + 3, SLASH]
  const BINARY_MARK: Bytes := [ZERO + 5, DASH]

  function Field(text: Bytes, rest: Bytes): Bytes {
    text + [COMMA] + rest
  }

  /** The data, after an ack id when there is a positive one. */
  function Tail(data: Bytes, ack: Option<int>): Bytes {
    if ack.Some? && ack.value > 0 then Field(PrintInt(ack.value), data) else data
  }

  /** BuildEventPacket. */
  function BuildEvent(name: Bytes, data: Bytes, ack: Option<int>): Bytes {
    EVENT_MARK + Field(name, Tail(data, ack))
  }

  function BuildAck(ackId: int, data: Bytes): Bytes {
    ACK_MARK + Field(PrintInt(ackId), data)
  }

  function BuildBinaryEvent(attachments: int, name: Bytes, data: Bytes, ack: Option<int>): Bytes {
    BINARY_MARK + (PrintInt(attachments) + [SLASH] + Field(name, Tail(data, ack)))
  }

  /** WriteMessage: a confirm as an ACK, anything else as an EVENT. */
  function WritePacket(flag: Flag, index: I32, path: Bytes, body: Bytes): Bytes {
    if Has(flag, CONFIRM) then ACK_MARK + Field(PrintInt(index), body)
    else EVENT_MARK + Field(path, body)
  }

  // ----------------------------------------------------------------- parsing

  /** What an EVENT packet asks Marshal to put into the message. */
  datatype Event = Event(flag: Flag, index: I32, name: Bytes, body: Bytes)

  /** The part after the event name: an ack id, if the text can be read as one, and the body. */
  function ParseTail(rest: Bytes): (int, Bytes) {
    if rest != [] && IsDigit(rest[0]) && IndexOf(rest, COMMA) < |rest| then
      var j := IndexOf(rest, COMMA);
      var n := ParseInt(rest[..j]);
      (n.value, if n.err.NoError? then rest[j + 1..] else rest)
    else (0, rest)
  }

  function MakeEvent(name: Bytes, rest: Bytes): Event {
    var (ack, body) := ParseTail(rest);
    Event(if ack == 0 then NOREPLY else NO_FLAGS, WrapI32(ack), name, body)
  }

  function ParseEvent(data: Bytes): Outcome<Event> {
    var i := IndexOf(data, COMMA);
    if i == |data| then Err(Text) else Ok(MakeEvent(data[..i], data[i + 1..]))
  }

  function ParseAck(data: Bytes): Outcome<()> {
    var i := IndexOf(data, SLASH);
    if i == |data| || !ParseInt(data[..i]).err.NoError? then Err(Text) else Ok(())
  }

  function ParseBinaryEvent(data: Bytes): Outcome<Event> {
    var i := IndexOf(data, DASH);
    if i == |data| || !ParseInt(data[..i]).err.NoError? then Err(Text) else ParseEvent(data[i + 1..])
  }

  /** ReadMessage: the event to fill the message with, if any. */
  function Dispatch(data: Bytes): Outcome<Option<Event>> {
    if data == [] then Err(Text)
    else
      var kind, rest := (data[0] - ZERO) % 256, data[1..];
      if kind == 0 then Ok(None)
      else if kind == 1 then Err(Closed)
      else if kind == 2 then Asked(ParseEvent(rest))
      else if kind == 3 then (match ParseAck(rest) case Ok(_) => Ok(None) case Err(e) => Err(e) case Panic => Panic)
      else if kind == 5 then Asked(ParseBinaryEvent(rest))
      else Ok(None)
  }

  function Asked(r: Outcome<Event>): Outcome<Option<Event>> {
    match r case Ok(e) => Ok(Some(e)) case Err(e) => Err(e) case Panic => Panic
  }

  /** The message after an event is marshalled into it. */
  function Filled(env: Env, m: Msg, e: Event): (Msg, Outcome<()>)
    requires Usable(env)
  {
    Marshalled(env, m, PATH_JSON, e.flag, e.index, Name(e.name), Some(e.body))
  }

  method HandleEvent(env: Env, m: Messages.Message, data: Bytes) returns (r: Outcome<()>)
    requires m.Valid() && Usable(env)
    modifies m, m.arr
    ensures m.Valid() && (m.arr == old(m.arr) || fresh(m.arr))
    ensures match ParseEvent(data)
            case Ok(e) => (m.State(), r) == Filled(env, old(m.State()), e)
            case Err(e) => r == Err(e) && m.State() == old(m.State())
            case Panic => false
  {
    hide Marshalled, ParseInt, IndexOf, ParseTail;
    var commaIdx := IndexOf(data, COMMA);
    if commaIdx == |data| {
      return Err(Text);
    }
    var eventName := data[..commaIdx];
    var remainingData := data[commaIdx + 1..];
    var ackId, eventData := HandleTail(remainingData);
    var flag := NO_FLAGS;
    if ackId == 0 {
      flag := NOREPLY;
    }
    r := m.Marshal(env, PATH_JSON, flag, WrapI32(ackId), Name(eventName), Some(eventData));
  }

  /** The branches of handleEvent on what follows the event name. */
  method HandleTail(remainingData: Bytes) returns (ackId: int, eventData: Bytes)
    ensures (ackId, eventData) == ParseTail(remainingData)
  {
    hide ParseInt, IndexOf;
    ackId := 0;
    if |remainingData| > 0 && IsDigit(remainingData[0]) {
      var ackCommaIdx := IndexOf(remainingData, COMMA);
      if 0 < ackCommaIdx < |remainingData| {
        var n := ParseInt(remainingData[..ackCommaIdx]);
        ackId := n.value;
        if n.err.NoError? {
          eventData := remainingData[ackCommaIdx + 1..];
        } else {
          eventData := remainingData;
        }
      } else {
        eventData := remainingData;
      }
    } else {
      eventData := remainingData;
    }
  }

  /** CONNECT, DISCONNECT, ACK and unknown packets leave the message alone; EVENT and BINARY_EVENT fill
      it. A CONNECT packet is answered, and `answers` says whether that write succeeds. */
  method ReadMessage(env: Env, m: Messages.Message, data: Bytes, answers: bool) returns (r: Outcome<()>)
    requires m.Valid() && Usable(env)
    modifies m, m.arr
    ensures m.Valid() && (m.arr == old(m.arr) || fresh(m.arr))
    ensures match Dispatch(data)
            case Ok(Some(e)) => (m.State(), r) == Filled(env, old(m.State()), e)
            case Ok(None) =>
              r == (if data[0] == ZERO && !answers then Err(Closed) else Ok(())) && m.State() == old(m.State())
            case Err(e) => r == Err(e) && m.State() == old(m.State())
            case Panic => false
  {
    if |data| == 0 {
      return Err(Text);
    }
    var packetType := (data[0] - ZERO) % 256;
    if packetType == 0 {
      if !answers {
        return Err(Closed);
      }
      return Ok(());
    } else if packetType == 1 {
      return Err(Closed);
    } else if packetType == 2 {
      r := HandleEvent(env, m, data[1..]);
    } else if packetType == 3 {
      return ParseAck(data[1..]);
    } else if packetType == 5 {
      var rest := data[1..];
      var dashIdx := IndexOf(rest, DASH);
      if dashIdx == |rest| || !ParseInt(rest[..dashIdx]).err.NoError? {
        return Err(Text);
      }
      r := HandleEvent(env, m, rest[dashIdx + 1..]);
    } else {
      return Ok(());
    }
  }

  // -------------------------------------------------------------- round trips

  lemma {:induction false} IndexOfFirst(s: Bytes, c: Byte, t: Bytes)
    requires c !in s
    ensures IndexOf(s + [c] + t, c) == |s|
    decreases |s|
  {
    if s == [] {
      assert s + [c] + t == [c] + t;
    } else {
      IndexOfFirst(s[1..], c, t);
      assert (s + [c] + t)[1..] == s[1..] + [c] + t;
    }
  }

  /** A field without a comma in it is cut off where it ends. */
  lemma FieldSplits(text: Bytes, rest: Bytes)
    requires COMMA !in text
    ensures IndexOf(Field(text, rest), COMMA) == |text| < |Field(text, rest)|
    ensures Field(text, rest)[..|text|] == text && Field(text, rest)[|text| + 1..] == rest
  {
    IndexOfFirst(text, COMMA, rest);
  }

  lemma DispatchOn(kind: Byte, rest: Bytes)
    ensures kind == ZERO + 2 ==> Dispatch([kind] + rest) == Asked(ParseEvent(rest))
    ensures kind == ZERO + 3 ==> Dispatch([kind] + rest) == (if ParseAck(rest).Ok? then Ok(None) else Err(Text))
    ensures kind == ZERO + 5 ==> Dispatch([kind] + rest) == Asked(ParseBinaryEvent(rest))
    ensures kind == ZERO + 1 ==> Dispatch([kind] + rest) == Err(Closed)
    ensures kind !in {ZERO + 1, ZERO + 2, ZERO + 3, ZERO + 5} ==> Dispatch([kind] + rest) == Ok(None)
  {
    hide ParseEvent, ParseBinaryEvent, ParseInt, IndexOf;
    assert ([kind] + rest)[1..] == rest;
  }

  /** The text splits at the first comma after the name. */
  lemma ParseBuilt(name: Bytes, rest: Bytes)
    requires COMMA !in name
    ensures Dispatch(EVENT_MARK + Field(name, rest)) == Ok(Some(MakeEvent([SLASH] + name, rest)))
  {
    hide Dispatch, ParseEvent, MakeEvent;
    assert EVENT_MARK + Field(name, rest) == [ZERO + 2] + Field([SLASH] + name, rest);
    DispatchOn(ZERO + 2, Field([SLASH] + name, rest));
    ParseField([SLASH] + name, rest);
  }

  lemma ParseField(name: Bytes, rest: Bytes)
    requires COMMA !in name
    ensures ParseEvent(Field(name, rest)) == Ok(MakeEvent(name, rest))
  {
    FieldSplits(name, rest);
  }

  /** A positive ack id comes back, with the body whole, for every int64; as an index it is exact
      when it fits 32 bits. */
  lemma EventWithAck(name: Bytes, data: Bytes, ack: int)
    requires COMMA !in name && 0 < ack <= MAX_I64
    ensures Dispatch(BuildEvent(name, data, Some(ack))) == Ok(Some(Event(NO_FLAGS, WrapI32(ack), [SLASH] + name, data)))
    ensures WrapI32(ack) == ack <==> ack < TWO_31
  {
    var digits := Print(ack);
    ParseBuilt(name, Field(digits, data));
    FieldSplits(digits, data);
    ParsePrint(ack);
  }

  /** The text before the first comma; None when there is no comma. */
  function Lead(data: Bytes): Option<Bytes> {
    var j := IndexOf(data, COMMA);
    if j < |data| then Some(data[..j]) else None
  }

  /** The data opens with a number in int64 range and a comma, as an ack id would. */
  ghost predicate ReadsAsAck(data: Bytes) {
    match Lead(data) case None => false case Some(t) => t != [] && AllDigits(t) && Value(t, 0) <= MAX_I64
  }

  /** Before its first comma the data opens with digits beyond 64 bits, or is a number beyond int64. */
  ghost predicate ReadsAsTooLarge(data: Bytes) {
    match Lead(data)
    case None => false
    case Some(t) => t != [] && IsDigit(t[0]) && (Overflows(t, 0) || (AllDigits(t) && Value(t, 0) > MAX_I64))
  }

  lemma LeadStart(data: Bytes)
    requires Lead(data).Some?
    ensures var t := Lead(data).value; t != [] ==> data != [] && t[0] == data[0]
    ensures Lead(data).value == [] ==> data[0] == COMMA
  {}

  /** Without an ack id: when the data reads as one, that much of the body is lost and the rest
      stays; when it reads as one too large, the body stays and the no-reply mark is lost; and only
      otherwise is everything recovered. */
  lemma EventWithoutAck(name: Bytes, data: Bytes)
    requires COMMA !in name
    ensures Dispatch(BuildEvent(name, data, None))
            == Ok(Some(if ReadsAsAck(data) then
                         var t := Lead(data).value;
                         var n := Value(t, 0);
                         Event(if n == 0 then NOREPLY else NO_FLAGS, WrapI32(n), [SLASH] + name, data[|t| + 1..])
                       else if ReadsAsTooLarge(data) then Event(NO_FLAGS, -1, [SLASH] + name, data)
                       else Event(NOREPLY, 0, [SLASH] + name, data)))
  {
    hide Dispatch, ParseInt, Overflows;
    ParseBuilt(name, data);
    if Lead(data).Some? {
      LeadStart(data);
      var t := Lead(data).value;
      if t != [] && IsDigit(t[0]) {
        ParseDigits(t);
        if AllDigits(t) && Value(t, 0) <= MAX_I64 {
          NoOverflow(t);
        }
      }
    }
    assert WrapI32(MAX_I64) == -1;
  }

  /** The packet is unambiguous exactly when its data reads as neither. */
  lemma EventExact(name: Bytes, data: Bytes)
    requires COMMA !in name
    ensures Dispatch(BuildEvent(name, data, None)) == Ok(Some(Event(NOREPLY, 0, [SLASH] + name, data)))
            <==> !ReadsAsAck(data) && !ReadsAsTooLarge(data)
  {
    EventWithoutAck(name, data);
  }

  /** A comma in the name is where the parser ends the name. */
  lemma NameExact(name: Bytes, data: Bytes, ack: Option<int>)
    ensures var r := Dispatch(BuildEvent(name, data, ack));
            r.Ok? && r.value.Some? && (r.value.value.name == [SLASH] + name <==> COMMA !in name)
  {
    var i := IndexOf(name, COMMA);
    var tail := Tail(data, ack);
    if i == |name| {
      assert name[..i] == name;
      ParseBuilt(name, tail);
    } else {
      var short, rest := name[..i], Field(name[i + 1..], tail);
      assert Field(name, tail) == Field(short, rest);
      ParseBuilt(short, rest);
      assert |[SLASH] + short| < |[SLASH] + name|;
    }
  }

  /** End to end: the views of a released message after it read a built event. */
  lemma EventViews(env: Env, m: Msg, name: Bytes, data: Bytes, ack: int)
    requires Usable(env) && m.code == 0
    requires PATH_JSON in env.magics && env.magics[PATH_JSON].mode.PathMode?
    requires COMMA !in name && QUESTION !in name && 0 < ack < TWO_31 && |name| + |data| < TWO_31 - 5
    ensures var e := Event(NO_FLAGS, ack, [SLASH] + name, data);
            var (m', r) := Filled(env, m, e);
            && Dispatch(BuildEvent(name, data, Some(ack))) == Ok(Some(e)) && r == Ok(())
            && m'.head.index == ack && m'.head.flag == NO_FLAGS
            && PathOf(env, m') == Ok(([SLASH] + name, [])) && BodyOf(env, m') == Ok(data)
  {
    EventWithAck(name, data, ack);
    var path := [SLASH] + name;
    CodecLaws.PathModeViews(env, m, PATH_JSON, NO_FLAGS, ack, path, data);
    CodecLaws.CutJoins(path);
  }

  /** The same for an event without an ack id whose data reads as none. */
  lemma PlainEventViews(env: Env, m: Msg, name: Bytes, data: Bytes)
    requires Usable(env) && m.code == 0
    requires PATH_JSON in env.magics && env.magics[PATH_JSON].mode.PathMode?
    requires COMMA !in name && QUESTION !in name && |name| + |data| < TWO_31 - 5
    requires !ReadsAsAck(data) && !ReadsAsTooLarge(data)
    ensures var e := Event(NOREPLY, 0, [SLASH] + name, data);
            var (m', r) := Filled(env, m, e);
            && Dispatch(BuildEvent(name, data, None)) == Ok(Some(e)) && r == Ok(())
            && m'.head.index == 0 && m'.head.flag == NOREPLY
            && PathOf(env, m') == Ok(([SLASH] + name, [])) && BodyOf(env, m') == Ok(data)
  {
    hide Dispatch, BuildEvent, ReadsAsAck, ReadsAsTooLarge;
    EventExact(name, data);
    var path := [SLASH] + name;
    CodecLaws.PathModeViews(env, m, PATH_JSON, NOREPLY, 0, path, data);
    CodecLaws.CutJoins(path);
  }

  /** A pushed message is an event packet, so that its path gains a slash on the other side. */
  lemma PushGainsSlash(flag: Flag, index: I32, path: Bytes, body: Bytes)
    requires !Has(flag, CONFIRM) && COMMA !in path
    ensures WritePacket(flag, index, path, body) == BuildEvent(path, body, None)
    ensures var r := Dispatch(WritePacket(flag, index, path, body));
            r.Ok? && r.value.Some? && r.value.value.name == [SLASH] + path != path
  {
    NameExact(path, body, None);
    assert |[SLASH] + path| == 1 + |path|;
  }

  /** Every ACK packet that the library prints is rejected by its own reader, which looks for the
      slash after the id and finds the one before it. */
  lemma AckRejected(ackId: int, data: Bytes, flag: Flag, index: I32, path: Bytes)
    ensures Dispatch(BuildAck(ackId, data)) == Err(Text)
    ensures Has(flag, CONFIRM) ==> Dispatch(WritePacket(flag, index, path, data)) == Err(Text)
  {
    hide Dispatch;
    LeadingMark(ZERO + 3, SLASH, Field(PrintInt(ackId), data));
    LeadingMark(ZERO + 3, SLASH, Field(PrintInt(index), data));
  }

  /** So is every BINARY_EVENT packet. */
  lemma BinaryEventRejected(attachments: int, name: Bytes, data: Bytes, ack: Option<int>)
    ensures Dispatch(BuildBinaryEvent(attachments, name, data, ack)) == Err(Text)
  {
    hide Dispatch;
    LeadingMark(ZERO + 5, DASH, PrintInt(attachments) + [SLASH] + Field(name, Tail(data, ack)));
  }

  /** Nothing stands before the mark, and nothing is not a number. */
  lemma LeadingMark(kind: Byte, mark: Byte, rest: Bytes)
    requires (kind == ZERO + 3 && mark == SLASH) || (kind == ZERO + 5 && mark == DASH)
    ensures Dispatch([kind, mark] + rest) == Err(Text)
  {}

  /** The text is an id, the mark and more. */
  predicate SplitsAt(mark: Byte, text: Bytes, id: Bytes, rest: Bytes) {
    mark !in id && text == id + [mark] + rest
  }

  /** There is one way to split a text that has the mark in it. */
  lemma OneSplit(mark: Byte, text: Bytes)
    ensures var i := IndexOf(text, mark);
            if i < |text| then SplitsAt(mark, text, text[..i], text[i + 1..]) else mark !in text
    ensures forall id, rest :: SplitsAt(mark, text, id, rest) ==>
              var i := IndexOf(text, mark);
              i < |text| && id == text[..i] && rest == text[i + 1..]
  {
    var i := IndexOf(text, mark);
    if i == |text| {
      assert text[..i] == text;
    }
    forall id, rest | SplitsAt(mark, text, id, rest)
      ensures i < |text| && id == text[..i] && rest == text[i + 1..]
    {
      IndexOfFirst(id, mark, rest);
    }
  }

  /** The ACK reader accepts exactly the packets with a decimal int64 before their first slash. */
  lemma AckAccepted(text: Bytes)
    ensures Dispatch([ZERO + 3] + text) == Ok(None)
            <==> exists id, rest :: SplitsAt(SLASH, text, id, rest) && ParseInt(id).err.NoError?
  {
    hide Dispatch, ParseInt, IndexOf;
    DispatchOn(ZERO + 3, text);
    OneSplit(SLASH, text);
  }

  /** The BINARY_EVENT reader accepts exactly the packets with a decimal int64 before their first dash and an
      event after it, and reads that event. */
  lemma BinaryEventRead(text: Bytes)
    ensures forall id, rest :: SplitsAt(DASH, text, id, rest) && ParseInt(id).err.NoError? ==>
              Dispatch([ZERO + 5] + text) == Dispatch([ZERO + 2] + rest)
    ensures !(exists id, rest :: SplitsAt(DASH, text, id, rest) && ParseInt(id).err.NoError?) ==>
              Dispatch([ZERO + 5] + text) == Err(Text)
  {
    hide Dispatch, ParseInt, IndexOf, ParseEvent;
    DispatchOn(ZERO + 5, text);
    OneSplit(DASH, text);
    forall id, rest | SplitsAt(DASH, text, id, rest) && ParseInt(id).err.NoError?
      ensures Dispatch([ZERO + 5] + text) == Dispatch([ZERO + 2] + rest)
    {
      DispatchOn(ZERO + 2, rest);
    }
  }

  /** What comes of each kind of packet: an EVENT fills the message exactly when it has a comma, a
      DISCONNECT ends the reader, and a kind that is not known is passed over, as a CONNECT is. */
  lemma KindsRead(kind: Byte, rest: Bytes)
    ensures Dispatch([]) == Err(Text)
    ensures var r := Dispatch([kind] + rest);
            && (kind == ZERO + 1 <==> r == Err(Closed))
            && (kind == ZERO + 2 ==> if COMMA in rest then r.Ok? && r.value.Some? else r == Err(Text))
            && (kind !in {ZERO + 1, ZERO + 2, ZERO + 3, ZERO + 5} ==> r == Ok(None))
  {
    EventsEnd(rest);
    DispatchOn(kind, rest);
    assert Dispatch([]) == Err(Text);
    hide Dispatch, ParseEvent, ParseBinaryEvent, ParseAck;
  }

  lemma EventsEnd(rest: Bytes)
    ensures if COMMA in rest then ParseEvent(rest).Ok? else ParseEvent(rest) == Err(Text)
    ensures ParseBinaryEvent(rest).Ok? || ParseBinaryEvent(rest) == Err(Text)
    ensures ParseAck(rest).Ok? || ParseAck(rest) == Err(Text)
  {
    hide ParseInt, IndexOf, MakeEvent;
    OneSplit(COMMA, rest);
  }

  /** A printed number has none of the marks in it. */
  lemma NumberMarks(n: int)
    ensures COMMA !in PrintInt(n) && SLASH !in PrintInt(n)
  {
    var digits := Print(if n < 0 then -n else n);
    hide Print;
    assert forall c :: c in digits ==> IsDigit(c);
  }

  /** What a confirm says: the kind, the index up to the first comma, then the body; it is the ACK packet of
      that index. The path is not sent. */
  lemma ConfirmText(flag: Flag, index: I32, path: Bytes, body: Bytes)
    requires Has(flag, CONFIRM)
    ensures var text := WritePacket(flag, index, path, body);
            && text == BuildAck(index, body) && text[..2] == [51, 47]
            && SplitsAt(COMMA, text[2..], PrintInt(index), body)
            && ParseInt(PrintInt(index)) == Number(index, NoError)
  {
    hide PrintInt, ParseInt;
    NumberMarks(index);
    ParsePrint(index);
    assert WritePacket(flag, index, path, body)[2..] == Field(PrintInt(index), body);
  }

  /** What the binary event builder says: the kind, the number of attachments up to the first slash, and then
      what an event packet says. An ack id that is not positive is not sent. */
  lemma BinaryText(attachments: int, name: Bytes, data: Bytes, ack: Option<int>)
    requires -MAX_I64 - 1 <= attachments <= MAX_I64
    ensures var text := BuildBinaryEvent(attachments, name, data, ack);
            && text[..2] == [53, 45]
            && SplitsAt(SLASH, text[2..], PrintInt(attachments), BuildEvent(name, data, ack)[2..])
            && ParseInt(PrintInt(attachments)) == Number(attachments, NoError)
    ensures ack.Some? && ack.value <= 0 ==> BuildEvent(name, data, ack) == BuildEvent(name, data, None)
  {
    hide PrintInt, ParseInt;
    NumberMarks(attachments);
    ParsePrint(attachments);
    var event := Field(name, Tail(data, ack));
    assert BuildEvent(name, data, ack)[2..] == event;
    assert BuildBinaryEvent(attachments, name, data, ack)[2..] == PrintInt(attachments) + [SLASH] + event;
  }
}
