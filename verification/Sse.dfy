/** The assistant's answer as a stream of server-sent events: what the server prints, and how the
    browser reads it back from chunks cut at arbitrary places. */
module Sse {
  import opened Text
  import Tags

  datatype Parsed = Parsed(blocks: seq<string>, rest: string)

  predicate BreakAt(s: string, i: int) {
    0 <= i && i + 1 < |s| && s[i] == '\n' && s[i + 1] == '\n'
  }

  /** Where the first blank line starts, or |s|. */
  function FirstBreak(s: string, from: nat): (i: nat)
    requires from <= |s|
    ensures from <= i <= |s| && (i < |s| ==> BreakAt(s, i))
    ensures forall j :: from <= j < i ==> !BreakAt(s, j)
    decreases |s| - from
  {
    if from == |s| || BreakAt(s, from) then from else FirstBreak(s, from + 1)
  }

  function ParseSseBlocks(s: string): Parsed
    decreases |s|
  {
    var i := FirstBreak(s, 0);
    if i == |s| then Parsed([], s) else
      var p := ParseSseBlocks(s[i + 2..]);
      Parsed([s[..i]] + p.blocks, p.rest)
  }

  // --- what splitting means ---

  function Joined(blocks: seq<string>, rest: string): string {
    if blocks == [] then rest else blocks[0] + "\n\n" + Joined(blocks[1..], rest)
  }

  ghost predicate NoBreak(s: string) {
    forall i :: !BreakAt(s, i)
  }

  /** Each block ends at the first blank line after its start, and nothing complete is left. */
  ghost predicate CutAtFirstBreaks(p: Parsed) {
    NoBreak(p.rest) && forall b :: b in p.blocks ==> NoBreak(b + "\n")
  }

  lemma FirstBreakOf(block: string, tail: string)
    requires NoBreak(block + "\n")
    ensures FirstBreak(block + "\n\n" + tail, 0) == |block|
  {
    var s := block + "\n\n" + tail;
    assert BreakAt(s, |block|);
    forall j | 0 <= j < |block|
      ensures !BreakAt(s, j)
    {
      assert !BreakAt(block + "\n", j);
      assert s[j] == (block + "\n")[j] && s[j + 1] == (block + "\n")[j + 1];
    }
  }

  /** The split is the only such cut of the text. */
  lemma {:induction false} SplitIsTheCut(s: string, p: Parsed)
    ensures ParseSseBlocks(s) == p <==> Joined(p.blocks, p.rest) == s && CutAtFirstBreaks(p)
    decreases |s| + |p.blocks|
  {
    SplitJoins(s);
    SplitCuts(s);
    if Joined(p.blocks, p.rest) == s && CutAtFirstBreaks(p) {
      if p.blocks == [] {
        assert FirstBreak(s, 0) == |s|;
      } else {
        var block, tail := p.blocks[0], Parsed(p.blocks[1..], p.rest);
        var more := Joined(tail.blocks, tail.rest);
        assert s == block + "\n\n" + more;
        FirstBreakOf(block, more);
        assert s[|block| + 2..] == more && s[..|block|] == block;
        SplitIsTheCut(more, tail);
        assert p.blocks == [block] + tail.blocks;
      }
    }
  }

  lemma BlockHasNoBreak(s: string)
    requires FirstBreak(s, 0) < |s|
    ensures NoBreak(s[..FirstBreak(s, 0)] + "\n")
  {
    var i := FirstBreak(s, 0);
    var block := s[..i] + "\n";
    forall j | 0 <= j < i
      ensures !BreakAt(block, j)
    {
      assert !BreakAt(s, j);
      assert block[j] == s[j] && block[j + 1] == s[j + 1];
    }
  }

  lemma {:induction false} SplitJoins(s: string)
    ensures var p := ParseSseBlocks(s); Joined(p.blocks, p.rest) == s
    decreases |s|
  {
    var i := FirstBreak(s, 0);
    if i < |s| {
      var tail := ParseSseBlocks(s[i + 2..]);
      SplitJoins(s[i + 2..]);
      assert ([s[..i]] + tail.blocks)[1..] == tail.blocks;
      assert s == s[..i] + "\n\n" + s[i + 2..];
    }
  }

  lemma {:induction false} SplitCuts(s: string)
    ensures CutAtFirstBreaks(ParseSseBlocks(s))
    decreases |s|
  {
    if FirstBreak(s, 0) < |s| {
      BlockHasNoBreak(s);
      SplitCuts(s[FirstBreak(s, 0) + 2..]);
    }
  }

  // --- cutting the text into chunks changes nothing ---

  lemma {:induction false} JoinedLonger(blocks: seq<string>, rest: string, b: string)
    ensures Joined(blocks, rest + b) == Joined(blocks, rest) + b
  {
    if blocks != [] {
      JoinedLonger(blocks[1..], rest, b);
    }
  }

  lemma {:induction false} JoinedConcat(a: seq<string>, b: seq<string>, rest: string)
    ensures Joined(a + b, rest) == Joined(a, Joined(b, rest))
  {
    if a == [] {
      assert a + b == b;
    } else {
      assert (a + b)[1..] == a[1..] + b;
      JoinedConcat(a[1..], b, rest);
    }
  }

  /** What arrives later joins what was left over. */
  lemma SplitResumes(a: string, b: string)
    ensures var p := ParseSseBlocks(a); var q := ParseSseBlocks(p.rest + b);
            ParseSseBlocks(a + b) == Parsed(p.blocks + q.blocks, q.rest)
  {
    var p := ParseSseBlocks(a);
    var q := ParseSseBlocks(p.rest + b);
    SplitJoins(a);
    SplitCuts(a);
    SplitJoins(p.rest + b);
    SplitCuts(p.rest + b);
    JoinedConcat(p.blocks, q.blocks, q.rest);
    JoinedLonger(p.blocks, p.rest, b);
    SplitIsTheCut(a + b, Parsed(p.blocks + q.blocks, q.rest));
  }

  function Concat(chunks: seq<string>): string {
    if chunks == [] then "" else Concat(chunks[..|chunks| - 1]) + chunks[|chunks| - 1]
  }

  // --- one block ---

  /** JavaScript's split on a single newline. */
  function Lines(s: string): (r: seq<string>)
    ensures r != []
    decreases |s|
  {
    var i := LineEnd(s, 0);
    if i == |s| then [s] else [s[..i]] + Lines(s[i + 1..])
  }

  function LineEnd(s: string, from: nat): (i: nat)
    requires from <= |s|
    ensures from <= i <= |s| && (i < |s| ==> s[i] == '\n')
    ensures forall j :: from <= j < i ==> s[j] != '\n'
    decreases |s| - from
  {
    if from == |s| || s[from] == '\n' then from else LineEnd(s, from + 1)
  }

  function DataOf(lines: seq<string>): string {
    if lines == [] then ""
    else (if StartsWith(lines[0], "data:") then Trim(JavaScript, lines[0][5..]) else "") + DataOf(lines[1..])
  }

  function DataLine(block: string): string {
    DataOf(Lines(block))
  }

  // --- the messages ---

  datatype Payload =
    | Token(text: string)
    | Status(text: string)
    | ToolStart(toolName: string)
    | ToolEnd(toolName: string)
    | Final(text: string)
    | Error(text: string)
    | Unrecognised

  /** The assistant's message on screen, with the line that says what it is doing. */
  datatype Chat = Chat(content: string, pending: bool, error: bool, status: string, hasAssistantText: bool)

  const THINKING := "Думаю..."
  const TOOL := "инструмент"
  const FAILED := "Не удалось завершить запрос."
  const START_CHAT := Chat("", true, false, THINKING, false)

  function FirstNonEmpty(s: string, other: string): string {
    if s != "" then s else other
  }

  function Show(chat: Chat, payload: Payload): Chat {
    match payload
    case Token(text) => chat.(hasAssistantText := true, content := chat.content + text, pending := false)
    case Status(text) => chat.(status := FirstNonEmpty(text, THINKING))
    case ToolStart(name) => chat.(status := "Использую " + FirstNonEmpty(name, TOOL) + "...")
    case ToolEnd(name) => chat.(status := "Готово: " + FirstNonEmpty(name, TOOL))
    case Final(text) =>
      chat.(status := "", content := if chat.hasAssistantText then chat.content else FirstNonEmpty(text, chat.content), pending := false)
    case Error(text) =>
      chat.(status := "", content := FirstNonEmpty(FirstNonEmpty(chat.content, text), FAILED), pending := false, error := true)
    case Unrecognised => chat
  }

  function ShowAll(chat: Chat, payloads: seq<Payload>): Chat {
    if payloads == [] then chat else Show(ShowAll(chat, payloads[..|payloads| - 1]), payloads[|payloads| - 1])
  }

  /** What a block tells the page: nothing when its data is empty or does not parse. */
  function PayloadOf(parse: string -> Option<Payload>, block: string): seq<Payload> {
    if DataLine(block) == "" then [] else
      match parse(DataLine(block))
      case None => []
      case Some(payload) => [payload]
  }

  function FlatMap<A, B>(f: A -> seq<B>, xs: seq<A>): seq<B> {
    if xs == [] then [] else FlatMap(f, xs[..|xs| - 1]) + f(xs[|xs| - 1])
  }

  lemma {:induction false} FlatMapConcat<A, B>(f: A -> seq<B>, a: seq<A>, b: seq<A>)
    ensures FlatMap(f, a + b) == FlatMap(f, a) + FlatMap(f, b)
  {
    if b == [] {
      assert a + b == a;
    } else {
      var init, x := b[..|b| - 1], b[|b| - 1];
      FlatMapConcat(f, a, init);
      assert (a + b)[..|a + b| - 1] == a + init && (a + b)[|a + b| - 1] == x;
      assert FlatMap(f, a + b) == FlatMap(f, a + init) + f(x);
    }
  }

  lemma {:induction false} FlatMapSingletons<A, B>(f: A -> seq<B>, xs: seq<A>, ys: seq<B>)
    requires |xs| == |ys| && forall i :: 0 <= i < |xs| ==> f(xs[i]) == [ys[i]]
    ensures FlatMap(f, xs) == ys
  {
    if xs != [] {
      var n := |xs| - 1;
      FlatMapSingletons(f, xs[..n], ys[..n]);
      assert ys == ys[..n] + [ys[n]];
    }
  }

  function BlockReader(parse: string -> Option<Payload>): string -> seq<Payload> {
    block => PayloadOf(parse, block)
  }

  function Payloads(parse: string -> Option<Payload>, blocks: seq<string>): seq<Payload> {
    FlatMap(BlockReader(parse), blocks)
  }

  lemma {:induction false} ShowAllConcat(chat: Chat, a: seq<Payload>, b: seq<Payload>)
    ensures ShowAll(chat, a + b) == ShowAll(ShowAll(chat, a), b)
  {
    if b == [] {
      assert a + b == a;
    } else {
      var n := |b| - 1;
      assert (a + b)[..|a| + n] == a + b[..n];
      ShowAllConcat(chat, a, b[..n]);
    }
  }

  method ShowBlock(parse: string -> Option<Payload>, start: Chat, block: string) returns (chat: Chat)
    ensures chat == ShowAll(start, PayloadOf(parse, block))
  {
    chat := start;
    var dataLine := DataLine(block);
    if dataLine == "" {
      return;
    }
    var parsed := parse(dataLine);
    if parsed == None {
      return;
    }
    chat := Show(chat, parsed.value);
    assert [parsed.value][..0] == [];
  }

  /** The payloads of a stretch of complete blocks, shown one by one. */
  method ShowBlocks(parse: string -> Option<Payload>, start: Chat, blocks: seq<string>) returns (chat: Chat)
    ensures chat == ShowAll(start, Payloads(parse, blocks))
  {
    chat := start;
    for i := 0 to |blocks|
      invariant chat == ShowAll(start, Payloads(parse, blocks[..i]))
    {
      assert blocks[..i + 1][..i] == blocks[..i];
      chat := ShowBlock(parse, chat, blocks[i]);
      ShowAllConcat(start, Payloads(parse, blocks[..i]), PayloadOf(parse, blocks[i]));
    }
    assert blocks[..|blocks|] == blocks;
  }

  /** The read loop: whatever the chunks, the page shows the payloads of the whole text's complete
      blocks, in order, and what follows the last of them is kept back. */
  method ReadStream(parse: string -> Option<Payload>, chunks: seq<string>) returns (chat: Chat, buffer: string)
    ensures var p := ParseSseBlocks(Concat(chunks));
            buffer == p.rest && chat == ShowAll(START_CHAT, Payloads(parse, p.blocks)).(pending := false, status := "")
  {
    chat, buffer := START_CHAT, "";
    ghost var seen: seq<string> := [];
    for i := 0 to |chunks|
      invariant ParseSseBlocks(Concat(chunks[..i])) == Parsed(seen, buffer)
      invariant chat == ShowAll(START_CHAT, Payloads(parse, seen))
    {
      assert chunks[..i + 1][..i] == chunks[..i];
      SplitResumes(Concat(chunks[..i]), chunks[i]);
      var p := ParseSseBlocks(buffer + chunks[i]);
      buffer := p.rest;
      chat := ShowBlocks(parse, chat, p.blocks);
      FlatMapConcat(BlockReader(parse), seen, p.blocks);
      ShowAllConcat(START_CHAT, Payloads(parse, seen), Payloads(parse, p.blocks));
      seen := seen + p.blocks;
    }
    assert chunks[..|chunks|] == chunks;
    chat := chat.(pending := false, status := "");
  }

  // --- reading what the server printed ---

  /** One frame of the server's event stream. */
  function Frame(payload: string): string {
    "data: " + payload + "\n\n"
  }

  function Frames(payloads: seq<string>): string {
    if payloads == [] then "" else Frame(payloads[0]) + Frames(payloads[1..])
  }

  ghost predicate OneLine(s: string) {
    forall i :: 0 <= i < |s| ==> s[i] != '\n'
  }

  function Blocks(payloads: seq<string>): (r: seq<string>)
    ensures |r| == |payloads| && forall i :: 0 <= i < |r| ==> r[i] == "data: " + payloads[i]
  {
    if payloads == [] then [] else ["data: " + payloads[0]] + Blocks(payloads[1..])
  }

  lemma {:induction false} FramesSplit(payloads: seq<string>)
    requires forall i :: 0 <= i < |payloads| ==> OneLine(payloads[i])
    ensures ParseSseBlocks(Frames(payloads)) == Parsed(Blocks(payloads), "")
  {
    if payloads != [] {
      var block, tail := "data: " + payloads[0], Frames(payloads[1..]);
      assert OneLine(payloads[0]);
      assert NoBreak(block + "\n");
      FirstBreakOf(block, tail);
      var s := Frames(payloads);
      assert s == block + "\n\n" + tail;
      assert s[..|block|] == block && s[|block| + 2..] == tail;
      FramesSplit(payloads[1..]);
    }
  }

  /** A payload printed on one line is read back unchanged when it is trimmed. */
  lemma DataLineOfFrame(payload: string)
    requires OneLine(payload) && payload != "" && IsTrimmed(JavaScript, payload)
    ensures DataLine("data: " + payload) == payload
  {
    var block := "data: " + payload;
    assert LineEnd(block, 0) == |block|;
    assert Lines(block) == [block];
    assert block[..5] == "data:" && block[5..] == " " + payload;
    Tags.TrimPadded(" ", payload);
    assert DataOf([block]) == payload + DataOf([]);
  }

  /** What the printer and the parser of payload values have to satisfy. */
  ghost predicate Printable(print_: Payload -> string, parse: string -> Option<Payload>, payload: Payload) {
    var p := print_(payload);
    OneLine(p) && p != "" && IsTrimmed(JavaScript, p) && parse(p) == Some(payload)
  }

  function Printed(print_: Payload -> string, payloads: seq<Payload>): seq<string> {
    seq(|payloads|, i requires 0 <= i < |payloads| => print_(payloads[i]))
  }

  /** Reading what the server framed gives back its payloads, in order, with nothing left over. */
  lemma StreamRoundTrip(print_: Payload -> string, parse: string -> Option<Payload>, payloads: seq<Payload>)
    requires forall i :: 0 <= i < |payloads| ==> Printable(print_, parse, payloads[i])
    ensures var p := ParseSseBlocks(Frames(Printed(print_, payloads))); Payloads(parse, p.blocks) == payloads && p.rest == ""
  {
    var printed := Printed(print_, payloads);
    forall i | 0 <= i < |printed|
      ensures OneLine(printed[i])
    {
      assert Printable(print_, parse, payloads[i]);
    }
    FramesSplit(printed);
    var blocks := Blocks(printed);
    forall i | 0 <= i < |blocks|
      ensures PayloadOf(parse, blocks[i]) == [payloads[i]]
    {
      assert Printable(print_, parse, payloads[i]);
      DataLineOfFrame(printed[i]);
    }
    FlatMapSingletons(BlockReader(parse), blocks, payloads);
  }

  // --- what ends up on screen ---

  function TokenText(payloads: seq<Payload>): string {
    if payloads == [] then "" else
      TokenText(payloads[..|payloads| - 1]) +
        var last := payloads[|payloads| - 1]; if last.Token? then last.text else ""
  }

  ghost predicate NoneEnds(payloads: seq<Payload>) {
    forall i :: 0 <= i < |payloads| ==> !payloads[i].Final? && !payloads[i].Error?
  }

  ghost predicate AnyToken(payloads: seq<Payload>) {
    exists i :: 0 <= i < |payloads| && payloads[i].Token?
  }

  lemma {:induction false} TokensAccumulate(payloads: seq<Payload>)
    requires NoneEnds(payloads)
    ensures var chat := ShowAll(START_CHAT, payloads);
            chat.content == TokenText(payloads) && !chat.error && (chat.hasAssistantText <==> AnyToken(payloads))
  {
    if payloads != [] {
      var n := |payloads| - 1;
      TokensAccumulate(payloads[..n]);
      assert payloads == payloads[..n] + [payloads[n]];
    }
  }

  /** An answer that ends well is the tokens put together, or the final text when none came. */
  lemma AnswerShown(payloads: seq<Payload>, final: string)
    requires NoneEnds(payloads)
    ensures ShowAll(START_CHAT, payloads + [Final(final)]) ==
            Chat(if AnyToken(payloads) then TokenText(payloads) else final, false, false, "", AnyToken(payloads))
  {
    TokensAccumulate(payloads);
    assert (payloads + [Final(final)])[..|payloads|] == payloads;
    if !AnyToken(payloads) {
      NoTokenNoText(payloads);
    }
  }

  lemma {:induction false} NoTokenNoText(payloads: seq<Payload>)
    requires !AnyToken(payloads)
    ensures TokenText(payloads) == ""
  {
    if payloads != [] {
      var n := |payloads| - 1;
      assert forall i :: 0 <= i < n ==> !payloads[..n][i].Token?;
      NoTokenNoText(payloads[..n]);
      assert !payloads[n].Token?;
    }
  }

  // --- the page while an answer comes in, and when it fails ---

  predicate Ends(p: Payload) {
    p.Token? || p.Final? || p.Error?
  }

  lemma {:induction false} PendingUntilEnd(payloads: seq<Payload>)
    ensures ShowAll(START_CHAT, payloads).pending <==> forall i :: 0 <= i < |payloads| ==> !Ends(payloads[i])
  {
    if payloads != [] {
      var n := |payloads| - 1;
      PendingUntilEnd(payloads[..n]);
      assert forall i :: 0 <= i < n ==> payloads[..n][i] == payloads[i];
    }
  }

  lemma {:induction false} FailedByError(payloads: seq<Payload>)
    ensures ShowAll(START_CHAT, payloads).error <==> exists i :: 0 <= i < |payloads| && payloads[i].Error?
  {
    if payloads != [] {
      var n := |payloads| - 1;
      FailedByError(payloads[..n]);
      assert forall i :: 0 <= i < n ==> payloads[..n][i] == payloads[i];
    }
  }

  /** The answer is waited for until a token, the final text or an error arrives, and is marked failed
      exactly when an error did. */
  lemma PendingAndFailed(payloads: seq<Payload>)
    ensures var chat := ShowAll(START_CHAT, payloads);
      && (chat.pending <==> forall i :: 0 <= i < |payloads| ==> !Ends(payloads[i]))
      && (chat.error <==> exists i :: 0 <= i < |payloads| && payloads[i].Error?)
  {
    PendingUntilEnd(payloads);
    FailedByError(payloads);
  }

  /** What the line under the answer says after each kind of message: nothing once it is over, and
      otherwise what the assistant is at, with words of its own where the message has none. */
  lemma StatusLine(payloads: seq<Payload>, p: Payload)
    ensures var (before, after) := (ShowAll(START_CHAT, payloads), ShowAll(START_CHAT, payloads + [p]));
      match p
      case Token(_) => after.status == before.status
      case Status(text) => after.status != "" && (text != "" ==> after.status == text) && (text == "" ==> after.status == "Думаю...")
      case ToolStart(name) => after.status == "Использую " + (if name == "" then "инструмент" else name) + "..."
      case ToolEnd(name) => after.status == "Готово: " + (if name == "" then "инструмент" else name)
      case Final(_) => after.status == ""
      case Error(_) => after.status == ""
      case Unrecognised => after == before
  {
    assert (payloads + [p])[..|payloads|] == payloads;
  }

  /** A failed answer keeps what had come of it; otherwise it shows the error, or a text of its own. */
  lemma FailureShown(payloads: seq<Payload>, error: string)
    requires NoneEnds(payloads)
    ensures var chat := ShowAll(START_CHAT, payloads + [Error(error)]);
      && chat.error && !chat.pending && chat.content != ""
      && (TokenText(payloads) != "" ==> chat.content == TokenText(payloads))
      && (TokenText(payloads) == "" && error != "" ==> chat.content == error)
      && (TokenText(payloads) == "" && error == "" ==> chat.content == "Не удалось завершить запрос.")
  {
    TokensAccumulate(payloads);
    assert (payloads + [Error(error)])[..|payloads|] == payloads;
  }

  // --- chunks and lines ---

  /** A text may be cut anywhere: its parts, put together again, are the text. */
  lemma {:induction false} ChunksTogether(a: seq<string>, b: seq<string>, s: string, i: nat)
    ensures Concat(a + b) == Concat(a) + Concat(b)
    ensures i <= |s| ==> Concat([s[..i], s[i..]]) == s
  {
    if b == [] {
      assert a + b == a;
    } else {
      var n := |b| - 1;
      assert (a + b)[..|a| + n] == a + b[..n];
      ChunksTogether(a, b[..n], s, i);
    }
    if i <= |s| {
      assert [s[..i], s[i..]][..1] == [s[..i]] && [s[..i]][..0] == [];
    }
  }

  lemma {:induction false} FirstLine(line: string, rest: string, from: nat)
    requires OneLine(line) && from <= |line|
    ensures LineEnd(line + "\n" + rest, from) == |line|
    decreases |line| - from
  {
    var s := line + "\n" + rest;
    if from < |line| {
      assert s[from] == line[from];
      FirstLine(line, rest, from + 1);
    } else {
      assert s[|line|] == '\n';
    }
  }

  /** Of a block's lines those that begin with "data:" count, trimmed and put together; the others, an
      event's name or a comment, do not. */
  lemma DataLineByLine(line: string, rest: string)
    requires OneLine(line)
    ensures DataLine(line + "\n" + rest) == (if "data:" <= line then Trim(JavaScript, line[5..]) else "") + DataLine(rest)
    ensures DataLine(line) == if "data:" <= line then Trim(JavaScript, line[5..]) else ""
  {
    var s := line + "\n" + rest;
    FirstLine(line, rest, 0);
    assert s[..|line|] == line && s[|line| + 1..] == rest;
    assert Lines(s) == [line] + Lines(rest);
    FirstLine(line, "", 0);
    WholeLine(line, 0);
    assert Lines(line) == [line] && DataOf([line][1..]) == "";
  }

  lemma {:induction false} WholeLine(line: string, from: nat)
    requires OneLine(line) && from <= |line|
    ensures LineEnd(line, from) == |line|
    decreases |line| - from
  {
    if from < |line| {
      WholeLine(line, from + 1);
    }
  }

  /** A block tells the page at most one thing: what its data parses to, if it has any. */
  lemma BlockTells(parse: string -> Option<Payload>, block: string, p: Payload)
    ensures PayloadOf(parse, block) == [p] <==> DataLine(block) != "" && parse(DataLine(block)) == Some(p)
    ensures PayloadOf(parse, block) == [] <==> DataLine(block) == "" || parse(DataLine(block)) == None
  {
  }
}
