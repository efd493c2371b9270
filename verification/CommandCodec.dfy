/**
 `Command::Read` and `Command::Write` as the source runs them: a chain of token reads with an early
 return each, and a switch that copies field after field into a caller's buffer. Each is proved
 against the reference format of Codec.
 */
module CommandCodec {
  import opened Wrappers
  import opened Bytes
  import opened Codec

  // The value of a token and the offset of the next one, or nothing when the stream is too short.
  datatype Token<+T> = Short | Token(value: T, next: nat)

  function ReadU32(stream: Text, off: nat): Token<uint32> {
    if |stream| < off + 4 then Short else Token(U32At(stream, off), off + 4)
  }

  function ReadU64(stream: Text, off: nat): Token<uint64> {
    if |stream| < off + 8 then Short else Token(U64At(stream, off), off + 8)
  }

  // A length-prefixed text, read one byte at a time.
  method ReadText(stream: Text, off: nat) returns (token: Token<Text>)
    ensures token.Token? <==> off + 4 <= |stream| && off + 4 + U32At(stream, off) <= |stream|
    ensures token.Token? ==>
              token.next == off + 4 + U32At(stream, off) && token.value == stream[off + 4..token.next]
  {
    hide U32At;
    var length := ReadU32(stream, off);
    if length.Short? {
      return Short;
    }
    var value: Text := [];
    var next := length.next;
    for i := 0 to length.value
      invariant next == off + 4 + i <= |stream|
      invariant value == stream[off + 4..next]
    {
      if next == |stream| {
        return Short;
      }
      value := value + [stream[next]];
      next := next + 1;
    }
    return Token(value, next);
  }

  // Reads the command at the front of `buf`; consumes nothing unless a whole command is there.
  method Read(buf: Text) returns (p: Parse)
    ensures p == Decode(buf)
  {
    hide U32At, U64At;
    var number := ReadU32(buf, 0);
    if number.Short? {
      return NeedMore;
    }
    var choice := ChoiceOf(number.value);
    match choice {
      case None =>
        return Fatal;
      case Some(RegisterFilePath) =>
        var sessionId := ReadU32(buf, number.next);
        if sessionId.Short? { return NeedMore; }
        var id := ReadU32(buf, sessionId.next);
        if id.Short? { return NeedMore; }
        var filePath := ReadText(buf, id.next);
        if filePath.Short? { return NeedMore; }
        return Parsed(Command(RegisterFilePath, sessionId.value, id.value, Some(filePath.value), 0, 0, 0, None),
                      filePath.next);
      case Some(UnregisterFilePath) =>
        var sessionId := ReadU32(buf, number.next);
        if sessionId.Short? { return NeedMore; }
        var id := ReadU32(buf, sessionId.next);
        if id.Short? { return NeedMore; }
        return Parsed(Command(UnregisterFilePath, sessionId.value, id.value, None, 0, 0, 0, None), id.next);
      case Some(ReadAhead) =>
        var sessionId := ReadU32(buf, number.next);
        if sessionId.Short? { return NeedMore; }
        var id := ReadU32(buf, sessionId.next);
        if id.Short? { return NeedMore; }
        var kind := ReadU32(buf, id.next);
        if kind.Short? { return NeedMore; }
        var length := ReadU64(buf, kind.next);
        if length.Short? { return NeedMore; }
        var offset := ReadU64(buf, length.next);
        if offset.Short? { return NeedMore; }
        return Parsed(Command(ReadAhead, sessionId.value, id.value, None, kind.value, length.value, offset.value, None),
                      offset.next);
      case Some(CreateSession) =>
        p := ReadCreation(buf, CreateSession);
      case Some(CreateFdSession) =>
        p := ReadCreation(buf, CreateFdSession);
      case Some(DestroySession) =>
        var sessionId := ReadU32(buf, number.next);
        if sessionId.Short? { return NeedMore; }
        return Parsed(Command(DestroySession, sessionId.value, 0, None, 0, 0, 0, None), sessionId.next);
      case Some(DumpSession) =>
        var sessionId := ReadU32(buf, number.next);
        if sessionId.Short? { return NeedMore; }
        return Parsed(Command(DumpSession, sessionId.value, 0, None, 0, 0, 0, None), sessionId.next);
      case Some(Exit) =>
        return Parsed(Command(Exit, 0, 0, None, 0, 0, 0, None), number.next);
      case Some(DumpEverything) =>
        return Parsed(Command(DumpEverything, 0, 0, None, 0, 0, 0, None), number.next);
    }
  }

  // The case the source shares between the two creation commands.
  method ReadCreation(buf: Text, choice: Choice) returns (p: Parse)
    requires choice.CreateSession? || choice.CreateFdSession?
    requires 4 <= |buf| && ChoiceOf(U32At(buf, 0)) == Some(choice)
    ensures p == Decode(buf)
  {
    hide U32At;
    var sessionId := ReadU32(buf, 4);
    if sessionId.Short? { return NeedMore; }
    var description := ReadText(buf, sessionId.next);
    if description.Short? { return NeedMore; }
    return Parsed(Command(choice, sessionId.value, 0, Some(description.value), 0, 0, 0, None), description.next);
  }

  // memcpy of `image` to `buf[off..]`.
  method CopyInto(buf: array<byte>, off: nat, image: Text) returns (end: nat)
    requires off + |image| <= buf.Length
    modifies buf
    ensures end == off + |image|
    ensures buf[..end] == old(buf[..off]) + image
    ensures forall k | end <= k < buf.Length :: buf[k] == old(buf[k])
  {
    for i := 0 to |image|
      invariant buf[..off] == old(buf[..off])
      invariant buf[off..off + i] == image[..i]
      invariant forall k | off + i <= k < buf.Length :: buf[k] == old(buf[k])
    {
      buf[off + i] := image[i];
      assert buf[off..off + i + 1] == image[..i] + [image[i]];
    }
    end := off + |image|;
    assert image[..|image|] == image;
    assert buf[off..end] == image;
    assert buf[..end] == buf[..off] + buf[off..end];
  }

  // The length prefix and the contents of a text.
  method CopyText(buf: array<byte>, off: nat, text: Text) returns (end: nat)
    requires off + 4 + |text| <= buf.Length
    modifies buf
    ensures end == off + 4 + |text|
    ensures buf[..end] == old(buf[..off]) + (LittleEndian(|text| % 0x1_0000_0000, 4) + text)
    ensures forall k | end <= k < buf.Length :: buf[k] == old(buf[k])
  {
    hide LittleEndian;
    end := CopyInto(buf, off, LittleEndian(|text| % 0x1_0000_0000, 4));
    end := CopyInto(buf, end, text);
  }

  // The fields only ReadAhead carries.
  method CopyReadAhead(buf: array<byte>, off: nat, command: Command) returns (end: nat)
    requires command.choice.ReadAhead? && off + 20 <= buf.Length
    modifies buf
    ensures end == off + 20
    ensures buf[..end] == old(buf[..off]) + ReadAheadImage(command)
    ensures forall k | end <= k < buf.Length :: buf[k] == old(buf[k])
  {
    hide LittleEndian;
    end := CopyInto(buf, off, LittleEndian(command.kind, 4));
    end := CopyInto(buf, end, LittleEndian(command.length, 8));
    end := CopyInto(buf, end, LittleEndian(command.offset, 8));
  }

  // The fields after the choice number, case by case.
  method WriteFields(command: Command, buf: array<byte>) returns (end: nat)
    requires Serializable(command) && |Encode(command)| <= buf.Length
    modifies buf
    ensures end == |Encode(command)|
    ensures buf[..end] ==
            old(buf[..4]) + SessionImage(command) + IdImage(command) + ReadAheadImage(command) + TextImage(command)
    ensures forall k | end <= k < buf.Length :: buf[k] == old(buf[k])
  {
    hide LittleEndian;
    end := 4;
    match command.choice {
      case RegisterFilePath =>
        end := CopyInto(buf, end, LittleEndian(command.sessionId, 4));
        end := CopyInto(buf, end, LittleEndian(command.id, 4));
        end := CopyText(buf, end, command.filePath.value);
      case UnregisterFilePath =>
        end := CopyInto(buf, end, LittleEndian(command.sessionId, 4));
        end := CopyInto(buf, end, LittleEndian(command.id, 4));
      case ReadAhead =>
        end := CopyInto(buf, end, LittleEndian(command.sessionId, 4));
        end := CopyInto(buf, end, LittleEndian(command.id, 4));
        end := CopyReadAhead(buf, end, command);
      case CreateSession | CreateFdSession =>
        end := CopyInto(buf, end, LittleEndian(command.sessionId, 4));
        end := CopyText(buf, end, command.filePath.value);
      case DestroySession | DumpSession =>
        end := CopyInto(buf, end, LittleEndian(command.sessionId, 4));
      case Exit | DumpEverything =>
    }
  }

  // The choice number and the fields.
  method WriteAll(command: Command, buf: array<byte>)
    requires Serializable(command) && |Encode(command)| <= buf.Length
    modifies buf
    ensures buf[..|Encode(command)|] == Encode(command)
    ensures forall k | |Encode(command)| <= k < buf.Length :: buf[k] == old(buf[k])
  {
    hide LittleEndian, SessionImage, IdImage, ReadAheadImage, TextImage;
    var number := LittleEndian(Number(command.choice), 4);
    var start := CopyInto(buf, 0, number);
    assert buf[..4] == number;
    var end := WriteFields(command, buf);
  }

  // Serializes into the front of `buf`, or touches nothing and reports failure.
  method Write(command: Command, buf: array<byte>) returns (ok: bool, produced: nat)
    modifies buf
    ensures ok <==> Serializable(command) && |Encode(command)| <= buf.Length
    ensures ok ==> produced == |Encode(command)| && buf[..produced] == Encode(command) &&
                   forall k | produced <= k < buf.Length :: buf[k] == old(buf[k])
    ensures !ok ==> produced == 0 && buf[..] == old(buf[..])
  {
    var choice := command.choice;
    if HasText(choice) && command.filePath.None? {
      return false, 0;
    }
    var requirement := FixedSize(choice) + if HasText(choice) then |command.filePath.value| else 0;
    if buf.Length < requirement {
      return false, 0;
    }
    WriteAll(command, buf);
    return true, requirement;
  }
}
