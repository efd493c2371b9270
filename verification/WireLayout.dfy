/** The bytes of each kind of message, written out position by position. */
module WireLayout {
  import opened Wrappers
  import opened Bytes
  import opened Inodes
  import opened InodeText
  import opened ResultFraming
  import opened Codec
  import opened Client

  /// Numbers.

  // Four and eight bytes, the lowest first.
  function Four(n: nat): Text {
    [n % 0x100, n / 0x100 % 0x100, n / 0x1_0000 % 0x100, n / 0x100_0000 % 0x100]
  }

  function Eight(n: nat): Text {
    Four(n) + Four(n / 0x1_0000_0000)
  }

  // The first four bytes of any image, and the rest.
  lemma FourAtATime(n: nat, width: nat)
    ensures LittleEndian(n, 4 + width) == Four(n) + LittleEndian(n / 0x1_0000_0000, width)
  {
    var n1, n2, n3, n4 := n / 0x100, n / 0x1_0000, n / 0x100_0000, n / 0x1_0000_0000;
    ByteByByte(n);
    FirstByte(n, 3 + width);
    FirstByte(n1, 2 + width);
    FirstByte(n2, 1 + width);
    FirstByte(n3, width);
    hide LittleEndian;
    assert [n % 0x100] + ([n1 % 0x100] + ([n2 % 0x100] + ([n3 % 0x100] + LittleEndian(n4, width)))) ==
           Four(n) + LittleEndian(n4, width);
  }

  lemma FirstByte(n: nat, width: nat)
    ensures LittleEndian(n, 1 + width) == [n % 0x100] + LittleEndian(n / 0x100, width)
  {
  }

  lemma ByteByByte(n: nat)
    ensures n / 0x1_0000 == n / 0x100 / 0x100 && n / 0x100_0000 == n / 0x1_0000 / 0x100
    ensures n / 0x1_0000_0000 == n / 0x100_0000 / 0x100
  {
  }

  lemma FourBytes(n: nat)
    ensures LittleEndian(n, 4) == Four(n)
  {
    hide Four;
    FourAtATime(n, 0);
  }

  lemma EightBytes(n: nat)
    ensures LittleEndian(n, 8) == Eight(n)
  {
    hide LittleEndian, Four;
    FourAtATime(n, 4);
    FourBytes(n / 0x1_0000_0000);
  }

  /// Commands.

  // A text behind its length.
  function Counted(text: Text): Text {
    Four(|text| % 0x1_0000_0000) + text
  }

  /**
   Every command as it stands on the wire: its number, and then the fields its kind has, in the order of the
   documentation of the commands.
   */
  lemma CommandLayout(c: Command)
    requires Serializable(c)
    ensures HasText(c.choice) ==> c.filePath.Some?
    ensures Encode(c) ==
            match c.choice
            case RegisterFilePath => Four(0) + Four(c.sessionId) + Four(c.id) + Counted(c.filePath.value)
            case UnregisterFilePath => Four(1) + Four(c.sessionId) + Four(c.id)
            case ReadAhead => Four(2) + Four(c.sessionId) + Four(c.id) + Four(c.kind) + Eight(c.length) + Eight(c.offset)
            case Exit => Four(3)
            case CreateSession => Four(4) + Four(c.sessionId) + Counted(c.filePath.value)
            case DestroySession => Four(5) + Four(c.sessionId)
            case DumpSession => Four(6) + Four(c.sessionId)
            case DumpEverything => Four(7)
            case CreateFdSession => Four(8) + Four(c.sessionId) + Counted(c.filePath.value)
  {
    hide LittleEndian, Four, Eight;
    FourBytes(Number(c.choice));
    FourBytes(c.sessionId);
    FourBytes(c.id);
    FourBytes(c.kind);
    EightBytes(c.length);
    EightBytes(c.offset);
    if c.filePath.Some? {
      FourBytes(|c.filePath.value| % 0x1_0000_0000);
    }
  }

  /// Devices, inodes and results.

  // The bits of a device number as glibc and bionic lay them out.
  lemma DeviceLayout()
    ensures MakeDev(8, 1) == 0x801
    ensures MakeDev(0x1234_5678, 0x9abc_def0) == 0x1234_59ab_cde6_78f0
  {
  }

  lemma DecimalDigits()
    ensures Decimal(8) == [56] && Decimal(1) == [49] && Decimal(5) == [53] && Decimal(345) == [51, 52, 53]
  {
    assert Decimal(34) == [51, 52];
  }

  // "K 8:1:345 a" for a name that was found, and "E 8:1:345 -5" and a newline for an error.
  lemma ResultLayout()
    ensures LineOf(Success(Inode(8, 1, 345), [97])) == [75, 32, 56, 58, 49, 58, 51, 52, 53, 32, 97]
    ensures LineOf(Failure(Inode(8, 1, 345), -5)) == [69, 32, 56, 58, 49, 58, 51, 52, 53, 32, 45, 53, 10]
    ensures Frame([75, 32]) == [2, 0, 0, 0, 75, 32]
  {
    DecimalDigits();
    hide Decimal;
    assert FromWord(8) == 8 && FromWord(1) == 1 && FromWord(345) == 345;
    FourBytes(2);
  }

  /// What the client writes.

  lemma LowFour(n: nat)
    ensures Four(Narrow32(n)) == Four(n)
  {
    var q, r := n / 0x1_0000_0000, n % 0x1_0000_0000;
    Shifted(n, q, r);
    HighByte(0x100_0000 * q, r);
    HighByte(0x1_0000 * q, r / 0x100);
    HighByte(0x100 * q, r / 0x1_0000);
    HighByte(q, r / 0x100_0000);
  }

  lemma Shifted(n: nat, q: nat, r: nat)
    requires n == 0x1_0000_0000 * q + r
    ensures n / 0x100 == 0x100_0000 * q + r / 0x100
    ensures n / 0x1_0000 == 0x1_0000 * q + r / 0x1_0000
    ensures n / 0x100_0000 == 0x100 * q + r / 0x100_0000
  {
  }

  lemma HighByte(high: nat, low: nat)
    ensures (0x100 * high + low) % 0x100 == low % 0x100
  {
  }

  lemma LowEight(n: nat)
    ensures Eight(Narrow64(n)) == Eight(n)
  {
    hide Four;
    var low, high := n % 0x1_0000_0000, n / 0x1_0000_0000;
    assert Narrow64(n) == 0x1_0000_0000 * Narrow32(high) + low;
    LowFour(n);
    LowFour(Narrow64(n));
    LowFour(high);
    assert Narrow64(n) / 0x1_0000_0000 == Narrow32(high);
  }

  /**
   Each call as it is written: the low bytes of its numbers, however large they are, and the descriptor beside the
   one message that needs it.
   */
  lemma MessageLayout(action: Action)
    requires Remote(action)
    ensures MessageFor(action).bytes ==
            match action
            case Ask(Create(sid, description)) => Four(4) + Four(sid) + Counted(description)
            case Ask(CreateFromFd(sid, description, _)) => Four(8) + Four(sid) + Counted(description)
            case Ask(Destroy(sid)) => Four(5) + Four(sid)
            case Ask(OnSession(sid, RegisterOp(id, path))) => Four(0) + Four(sid) + Four(id) + Counted(path)
            case Ask(OnSession(sid, UnregisterOp(id))) => Four(1) + Four(sid) + Four(id)
            case Ask(OnSession(sid, ReadAheadOp(id, kind, length, offset))) =>
              Four(2) + Four(sid) + Four(id) + Four(kind) + Eight(length) + Eight(offset)
            case Ask(OnSession(_, ProcessFdOp(_))) => []
            case DumpOne(sid) => Four(6) + Four(sid)
            case DumpAll => Four(7)
            case Quit => Four(3)
    ensures MessageFor(action).fd == if action.Ask? && action.call.CreateFromFd? then Some(action.call.fd) else None
  {
    hide Four, Eight, Narrow32, Narrow64, Counted, Encode;
    CommandLayout(CommandFor(action));
    forall n: nat ensures Four(Narrow32(n)) == Four(n) {
      LowFour(n);
    }
    forall n: nat ensures Eight(Narrow64(n)) == Eight(n) {
      LowEight(n);
    }
  }

  // What is too long to be sent: a path of more than 1008 bytes, or a description of more than 1012; nothing else is.
  lemma LongestTexts(action: Action)
    requires Remote(action)
    ensures Fits(action) <==>
            match action
            case Ask(Create(_, description)) => |description| <= 1012
            case Ask(CreateFromFd(_, description, _)) => |description| <= 1012
            case Ask(OnSession(_, RegisterOp(_, path))) => |path| <= 1008
            case _ => true
  {
  }
}
