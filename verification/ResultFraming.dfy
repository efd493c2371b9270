/**
 Results of an inode search on their way between two processes: inode2filename writes each as a line
 behind a four-byte length, and the out-of-process resolver reads the lines back.
 */
module ResultFraming {
  import opened Wrappers
  import opened Bytes
  import opened Inodes
  import opened InodeText

  const SPACE: byte := 32
  const NEWLINE: byte := 10
  const OK: byte := 75
  const ERR: byte := 69
  const PLUS: byte := 43
  const MINUS: byte := 45

  // ---- numbers with a sign, as streams print and read an int ----

  predicate IsInt32(n: int) {
    -0x8000_0000 <= n < 0x8000_0000
  }

  function InRange(n: int): Option<int> {
    if IsInt32(n) then Some(n) else None
  }

  function PrintInt(n: int): Text {
    if n < 0 then [MINUS] + Decimal(-n) else Decimal(n)
  }

  // The leading digits of a text.
  function DigitSpan(s: Text): (n: nat)
    ensures n <= |s| && AllDigits(s[..n])
  {
    if s == [] || !IsDigit(s[0]) then 0
    else assert s[..1 + DigitSpan(s[1..])] == [s[0]] + s[1..][..DigitSpan(s[1..])]; 1 + DigitSpan(s[1..])
  }

  // `stream >> int`; nothing when the stream fails, which includes a number out of range.
  function TakeInt(s: Text): Option<int> {
    var t := SkipSpace(s);
    var signed := t != [] && (t[0] == MINUS || t[0] == PLUS);
    var digits := if signed then t[1..] else t;
    var span := DigitSpan(digits);
    if span == 0 then None
    else match Digits(digits[..span], 10)
         case Some(n) => if signed && t[0] == MINUS then InRange(0 - n) else InRange(n)
         case None => None
  }

  lemma {:induction false} DigitSpanStops(digits: Text, rest: Text)
    requires AllDigits(digits) && (rest == [] || !IsDigit(rest[0]))
    ensures DigitSpan(digits + rest) == |digits|
  {
    if digits == [] {
      assert digits + rest == rest;
    } else {
      DigitSpanStops(digits[1..], rest);
      assert (digits + rest)[1..] == digits[1..] + rest;
    }
  }

  lemma IntRoundTrip(n: int)
    ensures TakeInt([SPACE] + PrintInt(n) + [NEWLINE]) == InRange(n)
  {
    hide Digits, DigitSpan, Decimal;
    var digits := Decimal(if n < 0 then -n else n);
    var s := [SPACE] + PrintInt(n) + [NEWLINE];
    assert IsDigit(digits[0]);
    assert s[1..] == PrintInt(n) + [NEWLINE];
    assert SkipSpace(s) == s[1..] by { assert !IsSpace(s[1]); }
    DigitSpanStops(digits, [NEWLINE]);
    DecimalRoundTrip(if n < 0 then -n else n);
    if n < 0 {
      assert s[1..][1..] == digits + [NEWLINE];
    } else {
      assert s[1..] == digits + [NEWLINE];
    }
    assert (digits + [NEWLINE])[..|digits|] == digits;
  }

  // ---- words ----

  function WordSpan(s: Text): (n: nat)
    ensures n <= |s| && NoSpace(s[..n])
  {
    if s == [] || IsSpace(s[0]) then 0
    else assert s[..1 + WordSpan(s[1..])] == [s[0]] + s[1..][..WordSpan(s[1..])]; 1 + WordSpan(s[1..])
  }

  // `stream >> string`: a word and what follows it.
  function TakeWord(s: Text): (taken: Option<(Text, Text)>)
    ensures taken.Some? ==> taken.value.0 != [] && NoSpace(taken.value.0)
  {
    var t := SkipSpace(s);
    var span := WordSpan(t);
    if span == 0 then None else Some((t[..span], t[span..]))
  }

  lemma {:induction false} WordSpanStops(word: Text, rest: Text)
    requires NoSpace(word) && (rest == [] || IsSpace(rest[0]))
    ensures WordSpan(word + rest) == |word|
  {
    if word == [] {
      assert word + rest == rest;
    } else {
      WordSpanStops(word[1..], rest);
      assert (word + rest)[1..] == word[1..] + rest;
    }
  }

  // A word is taken whole, with or without a space before it.
  lemma TakesTheWord(word: Text, rest: Text)
    requires word != [] && NoSpace(word) && (rest == [] || IsSpace(rest[0]))
    ensures TakeWord(word + rest) == Some((word, rest))
    ensures TakeWord([SPACE] + word + rest) == Some((word, rest))
  {
    hide WordSpan, SkipSpace;
    WordSpanStops(word, rest);
    assert !IsSpace(word[0]);
    NoSpaceToSkip(word + rest);
    SkipsOneSpace(word + rest);
    assert [SPACE] + word + rest == [SPACE] + (word + rest);
    assert (word + rest)[..|word|] == word && (word + rest)[|word|..] == rest;
  }

  lemma NoSpaceToSkip(s: Text)
    requires s != [] && !IsSpace(s[0])
    ensures SkipSpace(s) == s
  {
  }

  lemma SkipsOneSpace(s: Text)
    ensures SkipSpace([SPACE] + s) == SkipSpace(s)
  {
    assert ([SPACE] + s)[1..] == s;
  }

  // ---- lines ----

  function LineOf(result: InodeResult): Text {
    match result
    case Success(inode, filename) => [OK, SPACE] + PrintInode(inode) + [SPACE] + filename
    case Failure(inode, error) => [ERR, SPACE] + PrintInode(inode) + [SPACE] + PrintInt(error) + [NEWLINE]
  }

  function LineResult(line: Text): Option<InodeResult> {
    match TakeWord(line)
    case None => None
    case Some((kind, afterKind)) =>
      if kind != [OK] && kind != [ERR] then None
      else match TakeWord(afterKind)
           case None => None
           case Some((word, afterWord)) =>
             match ParsedInode(word)
             case None => None
             case Some(inode) => RestResult(kind == [OK], inode, afterWord)
  }

  function RestResult(success: bool, inode: Inode, rest: Text): Option<InodeResult> {
    if success then
      match TakeWord(rest)
      case None => None
      case Some((filename, _)) => Some(Success(inode, SkipSpace(filename)))
    else
      match TakeInt(rest)
      case None => None
      case Some(error) => Some(Failure(inode, error))
  }

  method ParseFromLine(line: Text) returns (result: Option<InodeResult>)
    ensures result == LineResult(line)
  {
    hide TakeWord, TakeInt, ParsedInode, SkipSpace;
    var kind := TakeWord(line);
    if kind.None? {
      return None;
    }
    var resultOk := false;
    if kind.value.0 == [OK] {
      resultOk := true;
    } else if kind.value.0 == [ERR] {
      resultOk := false;
    } else {
      return None;
    }
    var word := TakeWord(kind.value.1);
    if word.None? {
      return None;
    }
    var ok, inode, _ := Parse(word.value.0, Inode(0, 0, 0));
    if !ok {
      return None;
    }
    if !resultOk {
      var error := TakeInt(word.value.1);
      if error.None? {
        return None;
      }
      return Some(Failure(inode, error.value));
    }
    var filename := TakeWord(word.value.1);
    if filename.None? {
      return None;
    }
    return Some(Success(inode, SkipSpace(filename.value.0)));
  }

  // A file name that survives being read as one word.
  predicate IsWord(name: Text) {
    name != [] && NoSpace(name)
  }

  // What the line format can carry.
  predicate Carried(result: InodeResult) {
    match result
    case Success(_, filename) => IsWord(filename)
    case Failure(_, error) => IsInt32(error)
  }

  lemma {:induction false} InodeIsAWord(inode: Inode)
    ensures IsWord(PrintInode(inode))
  {
    hide Decimal, FromWord;
    forall b <- PrintInode(inode) ensures !IsSpace(b) {
      assert IsDigit(b) || b == COLON;
    }
  }

  lemma LineStart(kind: byte, inode: Inode, rest: Text)
    requires kind == OK || kind == ERR
    requires rest != [] && IsSpace(rest[0])
    ensures LineResult([kind, SPACE] + PrintInode(inode) + rest) == RestResult(kind == OK, inode, rest)
  {
    hide TakeWord, TakeInt, ParsedInode, PrintInode, RestResult;
    var word := PrintInode(inode);
    var afterKind := [SPACE] + word + rest;
    assert [kind, SPACE] + word + rest == [kind] + afterKind;
    TakesTheWord([kind], afterKind);
    InodeIsAWord(inode);
    TakesTheWord(word, rest);
    InodeRoundTrip(inode);
  }

  // A line gives its result back exactly when the format can carry the result.
  lemma LineRoundTrip(result: InodeResult)
    ensures LineResult(LineOf(result)) == Some(result) <==> Carried(result)
  {
    hide TakeWord, TakeInt, PrintInode, LineResult, PrintInt;
    match result
    case Success(inode, filename) =>
      var rest := [SPACE] + filename;
      LineStart(OK, inode, rest);
      assert LineOf(result) == [OK, SPACE] + PrintInode(inode) + rest;
      if IsWord(filename) {
        TakesTheWord(filename, []);
        assert rest + [] == rest && filename + [] == filename;
        assert !IsSpace(filename[0]);
      } else {
        NeverAnotherWord(rest);
      }
    case Failure(inode, error) =>
      var rest := [SPACE] + PrintInt(error) + [NEWLINE];
      LineStart(ERR, inode, rest);
      assert LineOf(result) == [ERR, SPACE] + PrintInode(inode) + rest;
      IntRoundTrip(error);
  }

  lemma NeverAnotherWord(rest: Text)
    ensures TakeWord(rest).Some? ==> IsWord(SkipSpace(TakeWord(rest).value.0))
  {
    if TakeWord(rest).Some? {
      var word := TakeWord(rest).value.0;
      assert !IsSpace(word[0]);
    }
  }

  // ---- frames ----

  // An int32_t held in an unsigned word.
  function Signed(n: nat): int {
    if n < 0x8000_0000 then n else n - 0x1_0000_0000
  }

  // The length, converted to int32_t, and then that many bytes; a negative count writes none.
  function Frame(line: Text): Text {
    var low := |line| % 0x1_0000_0000;
    var size := Signed(low);
    LittleEndian(low, 4) + if size < 0 then [] else line[..size]
  }

  function Frames(results: seq<InodeResult>): Text {
    if results == [] then [] else Frames(results[..|results| - 1]) + Frame(LineOf(results[|results| - 1]))
  }

  predicate IsSuccess(result: InodeResult) {
    result.Success?
  }

  class ResultWriter {
    var fout: Text
    var returnCode: int

    constructor ()
      ensures fout == [] && returnCode == 2
    {
      fout, returnCode := [], 2;
    }

    method OnNext(result: InodeResult)
      modifies this
      ensures fout == old(fout) + Frame(LineOf(result))
      ensures returnCode == if result.Success? then 0 else old(returnCode)
    {
      hide LineOf, LittleEndian;
      var line := LineOf(result);
      var size := Signed(|line| % 0x1_0000_0000);
      assert fout + LittleEndian(|line| % 0x1_0000_0000, 4) + (if size < 0 then [] else line[..size]) ==
             fout + Frame(line);
      fout := fout + LittleEndian(|line| % 0x1_0000_0000, 4);
      if 0 <= size {
        fout := fout + line[..size];
      }
      if result.Success? {
        returnCode := 0;
      }
    }

    // The whole subscription: every result in turn, then completion or an error.
    method Subscribe(results: seq<InodeResult>, fails: bool)
      modifies this
      ensures fout == old(fout) + Frames(results)
      ensures returnCode ==
        if fails then 3 else if exists r <- results :: IsSuccess(r) then 0 else old(returnCode)
    {
      hide Frame, LineOf;
      for i := 0 to |results|
        invariant fout == old(fout) + Frames(results[..i])
        invariant returnCode == if exists r <- results[..i] :: IsSuccess(r) then 0 else old(returnCode)
      {
        OnNext(results[i]);
        assert results[..i + 1][..i] == results[..i];
        assert results[..i + 1] == results[..i] + [results[i]];
        assert IsSuccess(results[i]) ==> results[i] in results[..i + 1];
      }
      assert results[..|results|] == results;
      if fails {
        returnCode := 3;
      }
    }
  }

  // A line and what follows it; nothing at the end of the stream or at a broken frame.
  function NextLine(input: Text): Option<(Text, Text)> {
    if |input| < 4 then None
    else var length := Signed(FromLittleEndian(input[..4]));
         if length <= 0 || |input| - 4 < length then None
         else Some((input[4..4 + length], input[4 + length..]))
  }

  // A line is read back behind any other bytes exactly when its length fits an int32_t.
  lemma FrameRoundTrip(line: Text, rest: Text)
    ensures NextLine(Frame(line) + rest) == Some((line, rest)) <==> 0 < |line| < 0x8000_0000
  {
    hide LittleEndian, FromLittleEndian;
    var low := |line| % 0x1_0000_0000;
    var input := Frame(line) + rest;
    LittleEndianRoundTrip(low, 4);
    SpanOfWords();
    assert input[..4] == LittleEndian(low, 4);
    if 0 < |line| < 0x8000_0000 {
      assert input == LittleEndian(low, 4) + line + rest;
      assert input[4..4 + |line|] == line;
      assert input[4 + |line|..] == rest;
    }
  }

  // A FILE reading from the pipe.
  class Pipe {
    var unread: Text
    var atEnd: bool

    constructor (contents: Text)
      ensures unread == contents && !atEnd
    {
      unread, atEnd := contents, false;
    }

    // fread: as much as there is, and the end-of-file mark when that is too little.
    method Read(count: nat) returns (chunk: Text)
      modifies this
      ensures count <= |old(unread)| ==> chunk == old(unread)[..count] && unread == old(unread)[count..] && atEnd == old(atEnd)
      ensures count > |old(unread)| ==> chunk == old(unread) && unread == [] && atEnd
    {
      if count <= |unread| {
        chunk, unread := unread[..count], unread[count..];
      } else {
        chunk, unread, atEnd := unread, [], true;
      }
    }

    method ReadLineLength() returns (length: int, eof: bool)
      requires !atEnd
      modifies this
      ensures eof == (|old(unread)| < 4) == atEnd
      ensures eof ==> length == 0 && unread == []
      ensures !eof ==> length == Signed(FromLittleEndian(old(unread)[..4])) && unread == old(unread)[4..]
    {
      var buffer := Read(4);
      if atEnd {
        return 0, true;
      }
      return Signed(FromLittleEndian(buffer)), false;
    }

    method ReadOneLine() returns (line: Text, eof: bool)
      requires !atEnd
      modifies this
      ensures NextLine(old(unread)) == if eof then None else Some((line, unread))
      ensures eof ==> line == []
      ensures eof || !atEnd
    {
      hide FromLittleEndian;
      var length;
      length, eof := ReadLineLength();
      if length <= 0 {
        return [], true;
      }
      ghost var input := old(unread);
      assert length <= |unread| ==> unread[..length] == input[4..4 + length] && unread[length..] == input[4 + length..];
      var str := Read(length);
      if atEnd || |str| != length {
        return [], true;
      }
      return str, eof;
    }
  }

  // ---- the resolver ----

  datatype Ending = Completed | InvalidOutput(line: Text) | InvalidCount(expected: nat, actual: nat)

  // What a subscriber holds after more items are offered to it.
  function Offered(items: seq<InodeResult>, ending: Option<Ending>, more: seq<InodeResult>): seq<InodeResult> {
    if ending.None? then items + more else items
  }

  lemma OfferedInTurn(items: seq<InodeResult>, ending: Option<Ending>, more: seq<InodeResult>, last: InodeResult)
    ensures Offered(Offered(items, ending, more), ending, [last]) == Offered(items, ending, more + [last])
    ensures Offered(items, ending, []) == items
  {
    assert items + more + [last] == items + (more + [last]);
    assert items + [] == items;
  }

  // An rx subscriber: nothing is delivered after the ending.
  class Subscriber {
    var items: seq<InodeResult>
    var ending: Option<Ending>

    constructor ()
      ensures items == [] && ending == None
    {
      items, ending := [], None;
    }

    method OnNext(item: InodeResult)
      modifies this
      ensures ending == old(ending)
      ensures items == Offered(old(items), ending, [item])
    {
      if ending.None? {
        items := items + [item];
      }
    }

    method OnEnd(how: Ending)
      modifies this
      ensures items == old(items)
      ensures ending == if old(ending).None? then Some(how) else old(ending)
    {
      if ending.None? {
        ending := Some(how);
      }
    }
  }

  // The results read, the line that stopped the reading if one did, and the bytes not made into lines.
  datatype Reading = Reading(results: seq<InodeResult>, invalid: Option<Text>, unread: Text)

  function ReadAll(input: Text): Reading
    decreases |input|
  {
    match NextLine(input)
    case None => Reading([], None, input)
    case Some((line, rest)) =>
      match LineResult(line)
      case None => Reading([], Some(line), rest)
      case Some(result) =>
        var after := ReadAll(rest);
        after.(results := [result] + after.results)
  }

  function EndingOf(reading: Reading, expected: Option<nat>): Ending {
    if reading.invalid.Some? then InvalidOutput(reading.invalid.value)
    else if expected.Some? && |reading.results| != expected.value then
      InvalidCount(expected.value, |reading.results|)
    else Completed
  }

  // The parent's half of EmitFromCommandWithArgv, on everything the child writes.
  method EmitFromCommand(dest: Subscriber, output: Text, expected: Option<nat>)
    modifies dest
    ensures dest.items == Offered(old(dest.items), old(dest.ending), ReadAll(output).results)
    ensures dest.ending ==
      if old(dest.ending).None? then Some(EndingOf(ReadAll(output), expected)) else old(dest.ending)
  {
    hide LineResult, NextLine, ReadAll, Offered;
    var pipe := new Pipe(output);
    ghost var read, items, ending := [], dest.items, dest.ending;
    OfferedInTurn(items, ending, [], Failure(Inode(0, 0, 0), 0));
    var count, eof := 0, false;
    while !eof
      invariant fresh(pipe) && (eof || !pipe.atEnd)
      invariant dest.ending == ending && dest.items == Offered(items, ending, read)
      invariant count == |read|
      invariant ReadAll(output) ==
        if eof then Reading(read, None, ReadAll(output).unread)
        else ReadAll(pipe.unread).(results := read + ReadAll(pipe.unread).results)
      decreases if eof then 0 else 1 + |pipe.unread|
    {
      ReadAllStep(pipe.unread);
      var line;
      line, eof := pipe.ReadOneLine();
      if line == [] {
        continue;
      }
      var result := ParseFromLine(line);
      if result.None? {
        assert read + [] == read;
        dest.OnEnd(InvalidOutput(line));
        return;
      }
      dest.OnNext(result.value);
      OfferedInTurn(items, ending, read, result.value);
      assert read + ([result.value] + ReadAll(pipe.unread).results) == read + [result.value] + ReadAll(pipe.unread).results;
      read := read + [result.value];
      count := count + 1;
    }
    if expected.Some? && count != expected.value {
      dest.OnEnd(InvalidCount(expected.value, count));
      return;
    }
    dest.OnEnd(Completed);
  }

  lemma ReadAllStep(input: Text)
    ensures NextLine(input).Some? ==> NextLine(input).value.0 != [] && |NextLine(input).value.1| < |input|
    ensures ReadAll(input) ==
      match NextLine(input)
      case None => Reading([], None, input)
      case Some((line, rest)) =>
        match LineResult(line)
        case None => Reading([], Some(line), rest)
        case Some(result) => ReadAll(rest).(results := [result] + ReadAll(rest).results)
  {
    hide LineResult;
  }

  // An empty search list completes at once and then runs the command all the same.
  method EmitFromCommandFind(dest: Subscriber, inodes: seq<Inode>, output: Text)
    requires dest.ending == None
    modifies dest
    ensures dest.items == old(dest.items) + if inodes == [] then [] else ReadAll(output).results
    ensures dest.ending == Some(if inodes == [] then Completed else EndingOf(ReadAll(output), Some(|inodes|)))
  {
    if inodes == [] {
      dest.OnEnd(Completed);
    }
    EmitFromCommand(dest, output, Some(|inodes|));
  }

  // ---- the round trip ----

  // The values an InodeResult can hold whose line is short enough for its length prefix.
  predicate Framable(result: InodeResult) {
    |LineOf(result)| < 0x8000_0000 && (result.Failure? ==> IsInt32(result.error))
  }

  function FramesFromFront(results: seq<InodeResult>): Text {
    if results == [] then [] else Frame(LineOf(results[0])) + FramesFromFront(results[1..])
  }

  lemma {:induction false} FramesAreTheSame(results: seq<InodeResult>)
    ensures Frames(results) == FramesFromFront(results)
  {
    hide Frame, LineOf;
    if |results| > 1 {
      var n := |results| - 1;
      FramesAreTheSame(results[..n]);
      FramesAreTheSame(results[1..]);
      FramesAreTheSame(results[1..n]);
      assert results[..n][1..] == results[1..n] && results[1..][..n - 1] == results[1..n];
      calc {
        Frames(results);
        FramesFromFront(results[..n]) + Frame(LineOf(results[n]));
        Frame(LineOf(results[0])) + FramesFromFront(results[1..n]) + Frame(LineOf(results[n]));
        Frame(LineOf(results[0])) + (Frames(results[1..n]) + Frame(LineOf(results[n])));
        Frame(LineOf(results[0])) + Frames(results[1..]);
        FramesFromFront(results);
      }
    } else if |results| == 1 {
      assert results[..0] == [] && results[1..] == [];
      assert Frames(results) == [] + Frame(LineOf(results[0])) == FramesFromFront(results);
    }
  }

  lemma NothingFramed()
    ensures Frames([]) == [] && NextLine([]) == None
  {
  }

  lemma FirstFrame(results: seq<InodeResult>)
    requires results != []
    ensures Frames(results) == Frame(LineOf(results[0])) + Frames(results[1..])
  {
    hide Frame, LineOf, Frames;
    FramesAreTheSame(results);
    FramesAreTheSame(results[1..]);
  }

  /**
   Written and read back, a list of results is the same list, the reader stopping exactly at its end,
   if and only if every file name in it is a word.
   */
  lemma {:induction false} FramingRoundTrip(results: seq<InodeResult>)
    requires forall r <- results :: Framable(r)
    ensures ReadAll(Frames(results)).results == results <==> forall r <- results :: Carried(r)
    ensures ReadAll(Frames(results)) == Reading(results, None, []) <==> forall r <- results :: Carried(r)
  {
    hide Frames, LineResult, NextLine, Frame, LineOf, Carried;
    NothingFramed();
    if results != [] {
      var first, rest := results[0], results[1..];
      FirstFrame(results);
      FramingRoundTrip(rest);
      assert Framable(first);
      LineIsNotEmpty(first);
      FrameRoundTrip(LineOf(first), Frames(rest));
      LineRoundTrip(first);
      assert results == [first] + rest;
    }
  }

  lemma LineIsNotEmpty(result: InodeResult)
    ensures LineOf(result) != []
  {
  }

  // Any number of bytes of a last frame missing: the results before it are read, and no others.
  lemma {:induction false} CutShort(results: seq<InodeResult>, last: InodeResult, kept: nat)
    requires forall r <- results :: Framable(r) && Carried(r)
    requires Framable(last) && kept < |Frame(LineOf(last))|
    ensures ReadAll(Frames(results) + Frame(LineOf(last))[..kept]).results == results
    ensures ReadAll(Frames(results) + Frame(LineOf(last))[..kept]).invalid == None
  {
    hide Frames, LineResult, NextLine, Frame, LineOf, Carried;
    NothingFramed();
    var tail := Frame(LineOf(last))[..kept];
    if results == [] {
      assert [] + tail == tail;
      LineIsNotEmpty(last);
      BrokenFrame(LineOf(last), kept);
    } else {
      var first, rest := results[0], results[1..];
      FirstFrame(results);
      CutShort(rest, last, kept);
      assert Framable(first) && Carried(first);
      LineIsNotEmpty(first);
      FrameRoundTrip(LineOf(first), Frames(rest) + tail);
      LineRoundTrip(first);
      assert Frames(results) + tail == Frame(LineOf(first)) + (Frames(rest) + tail);
      assert results == [first] + rest;
    }
  }

  lemma BrokenFrame(line: Text, kept: nat)
    requires 0 < |line| < 0x8000_0000 && kept < |Frame(line)|
    ensures NextLine(Frame(line)[..kept]) == None
  {
    hide LittleEndian, FromLittleEndian;
    LittleEndianRoundTrip(|line|, 4);
    SpanOfWords();
    if kept >= 4 {
      assert Frame(line)[..kept][..4] == LittleEndian(|line|, 4);
    }
  }

  // ---- lines that are no results ----

  /**
   A line is refused if it does not begin with one of the two kinds, if what follows is not an inode, or if
   there is no file name, or no int32_t, after that.
   */
  lemma RefusedLines(kind: Text, word: Text, rest: Text)
    requires IsWord(kind) && IsWord(word) && (rest == [] || IsSpace(rest[0]))
    ensures var line := kind + [SPACE] + word + rest;
            LineResult(line).None? <==>
            || kind !in {[OK], [ERR]} || ParsedInode(word).None?
            || (kind == [OK] && TakeWord(rest).None?) || (kind == [ERR] && TakeInt(rest).None?)
    ensures LineResult(kind).None?
  {
    hide TakeWord, TakeInt, ParsedInode, SkipSpace;
    var afterKind := [SPACE] + word + rest;
    assert kind + [SPACE] + word + rest == kind + afterKind;
    TakesTheWord(kind, afterKind);
    TakesTheWord(word, rest);
    assert kind + [] == kind;
    TakesTheWord(kind, []);
    NoWordInNothing();
  }

  lemma NoWordInNothing()
    ensures TakeWord([]).None?
  {
  }

  /**
   A line that is refused ends the reading there and then: the results before it have been delivered, nothing
   after it is read, and the search fails with that line, whatever number of results was expected.
   */
  lemma {:induction false} RefusedLineEndsIt(results: seq<InodeResult>, line: Text, rest: Text, expected: Option<nat>)
    requires forall r <- results :: Framable(r) && Carried(r)
    requires 0 < |line| < 0x8000_0000 && LineResult(line).None?
    ensures var reading := ReadAll(Frames(results) + (Frame(line) + rest));
            reading == Reading(results, Some(line), rest) && EndingOf(reading, expected) == InvalidOutput(line)
  {
    hide Frames, LineResult, NextLine, Frame, LineOf, Carried;
    NothingFramed();
    FrameRoundTrip(line, rest);
    var tail := Frame(line) + rest;
    if results == [] {
      assert [] + tail == tail;
    } else {
      var first, others := results[0], results[1..];
      FirstFrame(results);
      RefusedLineEndsIt(others, line, rest, expected);
      assert Framable(first) && Carried(first);
      LineIsNotEmpty(first);
      FrameRoundTrip(LineOf(first), Frames(others) + tail);
      LineRoundTrip(first);
      assert Frames(results) + tail == Frame(LineOf(first)) + (Frames(others) + tail);
      assert results == [first] + others;
    }
  }
}
