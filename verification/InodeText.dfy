/** Inodes as text: `operator<<`, `Inode::Parse`, and the number formats underneath. */
module InodeText {
  import opened Wrappers
  import opened Bytes
  import opened Inodes

  const COLON: byte := 58
  const AT: byte := 64
  const ZERO: byte := 48

  // std::isspace in the C locale.
  predicate IsSpace(b: byte) {
    b == 32 || 9 <= b <= 13
  }

  predicate NoSpace(s: Text) {
    forall b <- s :: !IsSpace(b)
  }

  function SkipSpace(s: Text): Text {
    if s != [] && IsSpace(s[0]) then SkipSpace(s[1..]) else s
  }

  predicate IsDigit(b: byte) {
    ZERO <= b <= ZERO + 9
  }

  predicate AllDigits(s: Text) {
    forall b <- s :: IsDigit(b)
  }

  // The value of one digit in the given base.
  function Digit(b: byte, radix: nat): Option<nat> {
    var value := if IsDigit(b) then b - ZERO
                 else if 97 <= b <= 102 then b - 87
                 else if 65 <= b <= 70 then b - 55
                 else radix;
    if value < radix then Some(value) else None
  }

  // What strtoull reads from a text that is digits throughout.
  function Digits(s: Text, radix: nat): Option<nat> {
    if s == [] then Some(0)
    else match Digits(s[..|s| - 1], radix)
         case None => None
         case Some(high) =>
           match Digit(s[|s| - 1], radix)
           case None => None
           case Some(low) => Some(radix * high + low)
  }

  function Decimal(n: nat): (s: Text)
    ensures s != [] && AllDigits(s)
  {
    if n < 10 then [ZERO + n] else Decimal(n / 10) + [ZERO + n % 10]
  }

  lemma {:induction false} DecimalRoundTrip(n: nat)
    ensures Digits(Decimal(n), 10) == Some(n)
  {
    if n < 10 {
      assert Decimal(n)[..0] == [];
    } else {
      DecimalRoundTrip(n / 10);
      assert Decimal(n)[..|Decimal(n)| - 1] == Decimal(n / 10);
    }
  }

  function ToWord(n: uint64): Word {
    n as bv64
  }

  function FromWord(word: Word): uint64 {
    word as int
  }

  lemma WordOfItsNumber(word: Word)
    ensures ToWord(FromWord(word)) == word
  {
  }

  // ParseUint for a 64-bit result: decimal, or hexadecimal after 0x.
  function ParseUint(s: Text): Option<Word> {
    var t := SkipSpace(s);
    var hex := |t| >= 2 && t[0] == ZERO && (t[1] == 120 || t[1] == 88);
    var digits := if hex then t[2..] else if t != [] && t[0] == 43 then t[1..] else t;
    if digits == [] then None
    else match Digits(digits, if hex then 16 else 10)
         case Some(n) => if n < 0x1_0000_0000_0000_0000 then Some(ToWord(n)) else None
         case None => None
  }

  function PrintWord(word: Word): Text {
    Decimal(FromWord(word))
  }

  lemma DigitsAreNotSkipped(s: Text)
    requires s != [] && AllDigits(s)
    ensures SkipSpace(s) == s && IsDigit(s[0]) && (|s| >= 2 ==> IsDigit(s[1]))
  {
    assert s[0] in s;
  }

  lemma NumberRoundTrip(n: uint64)
    ensures ParseUint(Decimal(n)) == Some(ToWord(n))
  {
    hide ToWord, Decimal, Digits, SkipSpace, AllDigits;
    DecimalRoundTrip(n);
    DigitsAreNotSkipped(Decimal(n));
  }

  lemma WordRoundTrip(word: Word)
    ensures ParseUint(PrintWord(word)) == Some(word)
  {
    hide ToWord, FromWord, ParseUint;
    NumberRoundTrip(FromWord(word));
    WordOfItsNumber(word);
  }

  // The pieces between separators; always one more than there are separators.
  function Split(s: Text, separator: byte): (pieces: seq<Text>)
    ensures pieces != []
  {
    if s == [] then [[]]
    else if s[0] == separator then [[]] + Split(s[1..], separator)
    else var pieces := Split(s[1..], separator); [[s[0]] + pieces[0]] + pieces[1..]
  }

  lemma {:induction false} SplitWithout(s: Text, separator: byte)
    requires separator !in s
    ensures Split(s, separator) == [s]
  {
    if s != [] {
      SplitWithout(s[1..], separator);
      assert [s[0]] + s[1..] == s;
    }
  }

  lemma {:induction false} SplitFirst(s: Text, separator: byte, rest: Text)
    requires separator !in s
    ensures Split(s + [separator] + rest, separator) == [s] + Split(rest, separator)
  {
    var whole := s + [separator] + rest;
    if s == [] {
      assert whole[1..] == rest;
    } else {
      SplitFirst(s[1..], separator, rest);
      assert whole[1..] == s[1..] + [separator] + rest;
      assert [s[0]] + s[1..] == s;
    }
  }

  function PrintInode(inode: Inode): Text {
    PrintWord(inode.deviceMajor) + [COLON] + (PrintWord(inode.deviceMinor) + [COLON] + PrintWord(inode.inode))
  }

  // An inode as a whole device number and an inode number.
  function PrintPair(dev: Word, ino: Word): Text {
    PrintWord(dev) + [AT] + PrintWord(ino)
  }

  // What Inode::Parse makes of a text; nothing when it returns false.
  function ParsedInode(s: Text): Option<Inode> {
    var pair, triple := Split(s, AT), Split(s, COLON);
    if |pair| == 2 then
      match (ParseUint(pair[0]), ParseUint(pair[1]))
      case (Some(dev), Some(ino)) => Some(FromDeviceAndInode(dev, ino))
      case _ => None
    else if |triple| == 3 then
      match (ParseUint(triple[0]), ParseUint(triple[1]), ParseUint(triple[2]))
      case (Some(major), Some(minor), Some(ino)) => Some(Inode(major, minor, ino))
      case _ => None
    else None
  }

  // Fills `out` field by field, so a failed parse can leave it partly overwritten.
  method Parse(s: Text, before: Inode) returns (ok: bool, out: Inode, message: string)
    ensures ok <==> ParsedInode(s).Some?
    ensures ok ==> ParsedInode(s) == Some(out)
    ensures !ok ==> message != ""
  {
    hide ParseUint, Split, Major, Minor;
    out, message := before, "";
    var pair := Split(s, AT);
    if |pair| == 2 {
      var dev := ParseUint(pair[0]);
      if dev.None? {
        return false, out, "Failed to parse the whole device id as uint.";
      }
      out := out.(deviceMajor := Wide(Major(dev.value)));
      out := out.(deviceMinor := Wide(Minor(dev.value)));
      var ino := ParseUint(pair[1]);
      if ino.None? {
        return false, out, "Failed to parse inode as uint.";
      }
      return true, out.(inode := ino.value), message;
    }
    var triple := Split(s, COLON);
    if |triple| != 3 {
      return false, out, "Too few : separated items";
    }
    var field := ParseUint(triple[0]);
    if field.None? {
      return false, out, "Failed to parse 0th element as a uint";
    }
    out := out.(deviceMajor := field.value);
    field := ParseUint(triple[1]);
    if field.None? {
      return false, out, "Failed to parse 1st element as a uint";
    }
    out := out.(deviceMinor := field.value);
    field := ParseUint(triple[2]);
    if field.None? {
      return false, out, "Failed to parse 2nd element as a uint";
    }
    return true, out.(inode := field.value), message;
  }

  // Every inode survives printing and parsing, device numbers of any size included.
  lemma InodeRoundTrip(inode: Inode)
    ensures ParsedInode(PrintInode(inode)) == Some(inode)
  {
    hide ParseUint, Split, Decimal;
    var a, b, c := PrintWord(inode.deviceMajor), PrintWord(inode.deviceMinor), PrintWord(inode.inode);
    SplitWithout(PrintInode(inode), AT);
    SplitFirst(a, COLON, b + [COLON] + c);
    SplitFirst(b, COLON, c);
    SplitWithout(c, COLON);
    WordRoundTrip(inode.deviceMajor);
    WordRoundTrip(inode.deviceMinor);
    WordRoundTrip(inode.inode);
  }

  // The two notations name the same inode.
  lemma NotationsAgree(dev: Word, ino: Word)
    ensures ParsedInode(PrintPair(dev, ino)) == Some(FromDeviceAndInode(dev, ino))
    ensures ParsedInode(PrintPair(dev, ino)) == ParsedInode(PrintInode(FromDeviceAndInode(dev, ino)))
  {
    hide ParseUint, Split, Decimal, Major, Minor;
    SplitFirst(PrintWord(dev), AT, PrintWord(ino));
    SplitWithout(PrintWord(ino), AT);
    WordRoundTrip(dev);
    WordRoundTrip(ino);
    InodeRoundTrip(FromDeviceAndInode(dev, ino));
  }

  /// What is refused.

  lemma {:induction false} SplitCounts(s: Text, separator: byte)
    ensures |Split(s, separator)| == 1 + multiset(s)[separator]
  {
    if s != [] {
      SplitCounts(s[1..], separator);
      assert s == [s[0]] + s[1..];
    }
  }

  // 0 to 9, and in base 16 A to F in either case.
  predicate IsDigitOf(b: byte, radix: nat) {
    48 <= b <= 57 || (radix == 16 && (65 <= b <= 70 || 97 <= b <= 102))
  }

  lemma {:induction false} DigitsOnly(s: Text, radix: nat)
    requires radix == 10 || radix == 16
    ensures Digits(s, radix).Some? <==> forall b <- s :: IsDigitOf(b, radix)
  {
    if s != [] {
      var front, last := s[..|s| - 1], s[|s| - 1];
      DigitsOnly(front, radix);
      assert Digit(last, radix).Some? <==> IsDigitOf(last, radix);
      hide Digit, IsDigitOf;
      assert s == front + [last];
      assert (forall b <- s :: IsDigitOf(b, radix)) <==> (forall b <- front :: IsDigitOf(b, radix)) && IsDigitOf(last, radix);
    }
  }

  // A text is refused unless it has one @ or, failing that, two colons.
  lemma NoInode(s: Text)
    ensures multiset(s)[AT] != 1 && multiset(s)[COLON] != 2 ==> ParsedInode(s).None?
  {
    hide ParseUint, Split;
    SplitCounts(s, AT);
    SplitCounts(s, COLON);
  }

  // A text with one @ is an inode exactly if what stands on either side of it is a number.
  lemma PairIsParsed(dev: Text, ino: Text)
    requires AT !in dev && AT !in ino
    ensures ParsedInode(dev + [AT] + ino) ==
            if ParseUint(dev).Some? && ParseUint(ino).Some?
            then Some(FromDeviceAndInode(ParseUint(dev).value, ParseUint(ino).value)) else None
  {
    hide ParseUint, Split, Major, Minor;
    SplitFirst(dev, AT, ino);
    SplitWithout(ino, AT);
  }

  // One with two colons, and not one @, exactly if the three pieces are numbers.
  lemma TripleIsParsed(major: Text, minor: Text, ino: Text)
    requires COLON !in major && COLON !in minor && COLON !in ino
    requires multiset(major + [COLON] + (minor + [COLON] + ino))[AT] != 1
    ensures ParsedInode(major + [COLON] + (minor + [COLON] + ino)) ==
            if ParseUint(major).Some? && ParseUint(minor).Some? && ParseUint(ino).Some?
            then Some(Inode(ParseUint(major).value, ParseUint(minor).value, ParseUint(ino).value)) else None
  {
    hide ParseUint, Split;
    SplitCounts(major + [COLON] + (minor + [COLON] + ino), AT);
    SplitFirst(major, COLON, minor + [COLON] + ino);
    SplitFirst(minor, COLON, ino);
    SplitWithout(ino, COLON);
  }

  // A number is refused if it is empty, has anything but digits of its base in it, or does not fit 64 bits.
  lemma NoNumber(s: Text)
    requires s != [] && !IsSpace(s[0]) && s[0] != 43
    ensures var hex := |s| >= 2 && s[0] == 48 && s[1] in {88, 120};
            var digits := if hex then s[2..] else s;
            ParseUint(s).Some? <==>
            digits != [] && Digits(digits, if hex then 16 else 10).Some? &&
            Digits(digits, if hex then 16 else 10).value < 0x1_0000_0000_0000_0000
  {
    hide Digits, ToWord;
  }
}
