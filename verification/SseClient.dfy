/** The browser's side: an incremental parser that carries over the unfinished block, and stops at a terminal event. */
module SseClient {
  import opened Wrappers
  import opened Events
  import opened SseText

  predicate StartsWith(s: string, prefix: string) { prefix <= s }

  /** What the lines of one block say: the id field and the data lines, last id wins. */
  datatype Fields = Fields(id: string, data: seq<string>)

  function ReadLine(f: Fields, line: string): Fields {
    if StartsWith(line, ":") then f
    else if StartsWith(line, "data: ") then f.(data := f.data + [line[6..]])
    else if StartsWith(line, "data:") then f.(data := f.data + [line[5..]])
    else if StartsWith(line, "id: ") then f.(id := line[4..])
    else if StartsWith(line, "id:") then f.(id := line[3..])
    else f
  }

  function ReadLines(ls: seq<string>): Fields {
    if ls == [] then Fields("", []) else ReadLine(ReadLines(ls[..|ls| - 1]), ls[|ls| - 1])
  }

  /** `lastId` is the Last-Event-ID to send; `delivered` are the events handed to the application. */
  datatype Client = Client(buffer: string, lastId: string, delivered: seq<Event>, closed: bool)

  function HandleFields(codec: Codec, c: Client, f: Fields): Client {
    var c1 := if f.id != "" then c.(lastId := f.id) else c;
    if Join(f.data) == "" then c1
    else
      match codec.decode(Join(f.data))
      case None => c1
      case Some(e) => c1.(delivered := c1.delivered + [e], closed := Terminal(e))
  }

  function HandleBlock(codec: Codec, c: Client, block: string): Client {
    if c.closed then c else HandleFields(codec, c, ReadLines(Lines(block)))
  }

  function HandleBlocks(codec: Codec, c: Client, blocks: seq<string>): Client {
    if blocks == [] then c
    else HandleBlock(codec, HandleBlocks(codec, c, blocks[..|blocks| - 1]), blocks[|blocks| - 1])
  }

  /** What one chunk of text does. */
  function Feed(codec: Codec, c: Client, chunk: string): Client {
    if c.closed then c
    else
      var text := c.buffer + chunk;
      HandleBlocks(codec, c.(buffer := Rest(text)), Blocks(text))
  }

  function FeedAll(codec: Codec, c: Client, chunks: seq<string>): Client {
    if chunks == [] then c
    else Feed(codec, FeedAll(codec, c, chunks[..|chunks| - 1]), chunks[|chunks| - 1])
  }

  function Concat(chunks: seq<string>): string {
    if chunks == [] then "" else Concat(chunks[..|chunks| - 1]) + chunks[|chunks| - 1]
  }

  // ---------- What a block says ----------

  /** The line gives the field that text; one space after the colon is not part of it. */
  predicate Gives(line: string, name: string, text: string) {
    line == name + ": " + text || (line == name + ":" + text && !(" " <= text))
  }

  /** `data` are the texts of the data lines, which are those at the positions `at`, in order. */
  predicate GiveData(ls: seq<string>, at: seq<nat>, data: seq<string>) {
    && |at| == |data|
    && (forall k | 0 <= k < |at| :: at[k] < |ls| && Gives(ls[at[k]], "data", data[k]))
    && (forall j, k | 0 <= j < k < |at| :: at[j] < at[k])
    && (forall i | 0 <= i < |ls| :: i in at <==> "data:" <= ls[i])
  }

  /** `id` is what the last id line gives, or empty. */
  predicate GiveId(ls: seq<string>, id: string) {
    if ls == [] then id == ""
    else if "id:" <= ls[|ls| - 1] then Gives(ls[|ls| - 1], "id", id)
    else GiveId(ls[..|ls| - 1], id)
  }

  lemma GivesField(line: string, name: string)
    requires name + ":" <= line
    ensures name + ": " <= line ==> Gives(line, name, line[|name| + 2..])
    ensures !(name + ": " <= line) ==> Gives(line, name, line[|name| + 1..])
  {
    var rest := line[|name| + 1..];
    assert line == name + ":" + rest;
    assert name + ": " <= line ==> line[|name| + 1] == (name + ": ")[|name| + 1] == ' ';
    if " " <= rest { assert line == name + ": " + rest[1..]; }
  }

  lemma ReadLineGives(f: Fields, line: string)
    ensures if "data:" <= line then
              |ReadLine(f, line).data| == |f.data| + 1 && ReadLine(f, line).data[..|f.data|] == f.data &&
              Gives(line, "data", ReadLine(f, line).data[|f.data|])
            else ReadLine(f, line).data == f.data
    ensures if "id:" <= line then Gives(line, "id", ReadLine(f, line).id) else ReadLine(f, line).id == f.id
  {
    assert "data" + ":" == "data:" && "data" + ": " == "data: ";
    assert "id" + ":" == "id:" && "id" + ": " == "id: ";
    assert "data:" <= line ==> line[0] == 'd';
    assert "data: " <= line ==> "data:" <= line by { assert "data: "[..5] == "data:"; }
    assert "id: " <= line ==> "id:" <= line by { assert "id: "[..3] == "id:"; }
    assert "id:" <= line ==> line[0] == 'i';
    if "data:" <= line { GivesField(line, "data"); }
    if "id:" <= line { GivesField(line, "id"); }
  }

  lemma {:induction false} LinesGive(ls: seq<string>) returns (at: seq<nat>)
    ensures GiveData(ls, at, ReadLines(ls).data) && GiveId(ls, ReadLines(ls).id)
  {
    at := [];
    if ls != [] {
      var n := |ls| - 1;
      var before := LinesGive(ls[..n]);
      ReadLineGives(ReadLines(ls[..n]), ls[n]);
      at := before + if "data:" <= ls[n] then [n] else [];
    }
  }

  /**
   Any block, not only one the server formats, does this to an open client: the last id line
   sets the id to reconnect with, and the data lines, joined by newlines, are one event, which
   is delivered if it parses and closes the client if it is terminal.
   */
  lemma BlockMeans(codec: Codec, c: Client, block: string) returns (at: seq<nat>, data: seq<string>, id: string)
    requires !c.closed
    ensures GiveData(Lines(block), at, data) && GiveId(Lines(block), id)
    ensures var parsed := if Join(data) == "" then None else codec.decode(Join(data));
            HandleBlock(codec, c, block) ==
            Client(c.buffer, if id == "" then c.lastId else id,
                   c.delivered + (if parsed.Some? then [parsed.value] else []),
                   parsed.Some? && parsed.value.Sequenced? && parsed.value.kind in {Complete, Error, Timeout})
  {
    at := LinesGive(Lines(block));
    var f := ReadLines(Lines(block));
    data, id := f.data, f.id;
  }

  // ---------- The read loop ----------

  /** The ASCII characters that trimming removes; the other ones start no field either. */
  predicate IsSpace(c: char) {
    c == ' ' || c == '\t' || c == '\n' || c == '\r' || c == 11 as char || c == 12 as char
  }

  predicate IsBlank(s: string) { forall i | 0 <= i < |s| :: IsSpace(s[i]) }

  predicate AllComments(ls: seq<string>) { forall l | l in ls :: StartsWith(l, ":") }

  class EventSource {
    const codec: Codec
    var buffer: string
    var lastEventId: string
    var delivered: seq<Event>
    var closed: bool

    ghost function State(): Client
      reads this
    {
      Client(buffer, lastEventId, delivered, closed)
    }

    constructor (codec: Codec)
      ensures this.codec == codec && State() == Client("", "", [], false)
    {
      this.codec := codec;
      buffer, lastEventId, delivered, closed := "", "", [], false;
    }

    /** Connecting again keeps everything but the carried-over text. */
    method Connect() returns (lastEventIdHeader: Option<string>)
      requires !closed
      modifies this`buffer
      ensures State() == old(State()).(buffer := "")
      ensures lastEventIdHeader == if lastEventId == "" then None else Some(lastEventId)
    {
      buffer := "";
      lastEventIdHeader := if lastEventId == "" then None else Some(lastEventId);
    }

    method OnChunk(chunk: string)
      requires !closed
      modifies this
      ensures State() == Feed(codec, old(State()), chunk)
    {
      var text := buffer + chunk;
      var parts := Blocks(text);
      buffer := Rest(text);
      ghost var start := State();
      for i := 0 to |parts|
        invariant !closed
        invariant State() == HandleBlocks(codec, start, parts[..i])
      {
        assert parts[..i + 1][..i] == parts[..i];
        OnBlock(parts[i]);
        if closed {
          StaysClosed(codec, start, parts, i + 1);
          return;
        }
      }
      assert parts[..|parts|] == parts;
    }

    method OnBlock(part: string)
      requires !closed
      modifies this
      ensures State() == HandleBlock(codec, old(State()), part)
    {
      var lines := Lines(part);
      if IsBlank(part) {
        BlankSaysNothing(part);
        return;
      }
      if AllComments(lines) {
        CommentsSayNothing(lines);
        return;
      }
      var dataLines: seq<string>, eventId := [], "";
      for i := 0 to |lines|
        invariant Fields(eventId, dataLines) == ReadLines(lines[..i])
      {
        var line := lines[i];
        assert lines[..i + 1][..i] == lines[..i];
        if StartsWith(line, ":") { continue; }
        if StartsWith(line, "data: ") { dataLines := dataLines + [line[6..]]; }
        else if StartsWith(line, "data:") { dataLines := dataLines + [line[5..]]; }
        else if StartsWith(line, "id: ") { eventId := line[4..]; }
        else if StartsWith(line, "id:") { eventId := line[3..]; }
      }
      assert lines[..|lines|] == lines;
      var eventData := Join(dataLines);
      if eventId != "" { lastEventId := eventId; }
      if eventData != "" {
        var parsed := codec.decode(eventData);
        if parsed.Some? {
          delivered := delivered + [parsed.value];
          if Terminal(parsed.value) { closed := true; }
        }
      }
    }
  }

  lemma {:induction false} CommentsSayNothing(ls: seq<string>)
    requires AllComments(ls)
    ensures ReadLines(ls) == Fields("", [])
  {
    if ls != [] {
      CommentsSayNothing(ls[..|ls| - 1]);
    }
  }

  lemma {:induction false} LinesOfBlank(s: string)
    requires IsBlank(s)
    ensures forall l | l in Lines(s) :: IsBlank(l)
  {
    if s != "" {
      LinesOfBlank(s[1..]);
      var rest := Lines(s[1..]);
      assert rest[0] in rest;
    }
  }

  lemma {:induction false} BlankLinesSayNothing(ls: seq<string>)
    requires forall l | l in ls :: IsBlank(l)
    ensures ReadLines(ls) == Fields("", [])
  {
    if ls != [] {
      var l := ls[|ls| - 1];
      BlankLinesSayNothing(ls[..|ls| - 1]);
      assert l in ls && (l != "" ==> IsSpace(l[0]));
    }
  }

  lemma BlankSaysNothing(part: string)
    requires IsBlank(part)
    ensures ReadLines(Lines(part)) == Fields("", [])
  {
    LinesOfBlank(part);
    BlankLinesSayNothing(Lines(part));
  }

  /** Once closed, further blocks change nothing. */
  lemma {:induction false} StaysClosed(codec: Codec, c: Client, blocks: seq<string>, i: nat)
    requires i <= |blocks| && HandleBlocks(codec, c, blocks[..i]).closed
    ensures HandleBlocks(codec, c, blocks) == HandleBlocks(codec, c, blocks[..i])
    decreases |blocks|
  {
    if i == |blocks| {
      assert blocks[..i] == blocks;
    } else {
      var n := |blocks| - 1;
      assert blocks[..n][..i] == blocks[..i];
      StaysClosed(codec, c, blocks[..n], i);
    }
  }

  // ---------- Chunking does not matter ----------

  lemma {:induction false} HandleBlocksConcat(codec: Codec, c: Client, a: seq<string>, b: seq<string>)
    ensures HandleBlocks(codec, c, a + b) == HandleBlocks(codec, HandleBlocks(codec, c, a), b)
  {
    if b == [] {
      assert a + b == a;
    } else {
      assert (a + b)[..|a + b| - 1] == a + b[..|b| - 1];
      HandleBlocksConcat(codec, c, a, b[..|b| - 1]);
    }
  }

  /** Handling blocks never looks at the carried-over text. */
  lemma {:induction false} HandleBlocksBuffer(codec: Codec, c: Client, blocks: seq<string>, buffer: string)
    ensures HandleBlocks(codec, c.(buffer := buffer), blocks) == HandleBlocks(codec, c, blocks).(buffer := buffer)
  {
    if blocks != [] {
      HandleBlocksBuffer(codec, c, blocks[..|blocks| - 1], buffer);
    }
  }

  /** The same but for the carried-over text of a closed client. */
  predicate Alike(a: Client, b: Client) {
    a == b || (a.closed && a.(buffer := "") == b.(buffer := ""))
  }

  lemma FeedTwice(codec: Codec, c: Client, a: string, b: string)
    ensures Alike(Feed(codec, Feed(codec, c, a), b), Feed(codec, c, a + b))
  {
    if !c.closed {
      var s, t := c.buffer + a, c.buffer + (a + b);
      assert t == s + b;
      BlocksOfConcat(s, b);
      var c0 := c.(buffer := Rest(t));
      HandleBlocksConcat(codec, c0, Blocks(s), Blocks(Rest(s) + b));
      HandleBlocksBuffer(codec, c, Blocks(s), Rest(s));
      HandleBlocksBuffer(codec, c, Blocks(s), Rest(t));
      var mid := HandleBlocks(codec, c, Blocks(s));
      if mid.closed {
        assert Blocks(t)[..|Blocks(s)|] == Blocks(s);
        StaysClosed(codec, c0, Blocks(t), |Blocks(s)|);
      }
    }
  }

  /** However the text is cut into chunks, the client ends up as if it had come in one piece. */
  lemma {:induction false} ChunkingDoesNotMatter(codec: Codec, c: Client, chunks: seq<string>)
    requires c.buffer == "" && !c.closed
    ensures Alike(FeedAll(codec, c, chunks), Feed(codec, c, Concat(chunks)))
  {
    if chunks == [] {
      assert c.(buffer := Rest("")) == c;
    } else {
      var init, last := chunks[..|chunks| - 1], chunks[|chunks| - 1];
      ChunkingDoesNotMatter(codec, c, init);
      FeedTwice(codec, c, Concat(init), last);
    }
  }

  // ---------- The parser undoes the formatter ----------

  /** What the items mean to a client. */
  function Receive(c: Client, item: Item): Client {
    if c.closed || item.Comment? then c
    else
      var e := item.e;
      Client(c.buffer, if e.Sequenced? then Decimal(e.id) else c.lastId, c.delivered + [e], Terminal(e))
  }

  function ReceiveAll(c: Client, items: seq<Item>): Client {
    if items == [] then c else Receive(ReceiveAll(c, items[..|items| - 1]), items[|items| - 1])
  }

  lemma ReadDataLine(f: Fields, text: string)
    ensures ReadLine(f, "data: " + text) == f.(data := f.data + [text])
  {
    assert ("data: " + text)[6..] == text;
    assert ("data: " + text)[0] == 'd';
  }

  lemma ReadIdLine(f: Fields, text: string)
    ensures ReadLine(f, "id: " + text) == f.(id := text)
  {
    assert ("id: " + text)[4..] == text;
    assert ("id: " + text)[0] == 'i';
  }

  lemma ReadTypeLine(f: Fields, text: string)
    ensures ReadLine(f, "event: " + text) == f
  {
    assert ("event: " + text)[0] == 'e';
  }

  lemma ReadItemLines(codec: Codec, e: Event)
    ensures ReadLines(ItemLines(codec, Frame(e))) ==
            Fields(if e.Sequenced? then Decimal(e.id) else "", [codec.encode(e)])
  {
    var ls := ItemLines(codec, Frame(e));
    var n := |ls|;
    var f := Fields(if e.Sequenced? then Decimal(e.id) else "", []);
    assert ReadLines(ls[..n - 2]) == f by {
      if e.Sequenced? {
        assert ls[..1] == [IdLine(e.id)] && ls[..1][..0] == [];
        ReadIdLine(Fields("", []), Decimal(e.id));
      } else {
        assert ls[..0] == [];
      }
    }
    assert ls[..n - 1][..n - 2] == ls[..n - 2];
    ReadTypeLine(f, TypeName(e));
    ReadDataLine(f, codec.encode(e));
  }

  lemma HandleLines(codec: Codec, c: Client, block: string, f: Fields)
    requires ReadLines(Lines(block)) == f
    ensures HandleBlock(codec, c, block) == if c.closed then c else HandleFields(codec, c, f)
  {
  }

  /** The fields of a formatted event are that event to a client. */
  lemma HandleEventFields(codec: Codec, c: Client, e: Event)
    requires ValidCodec(codec) && !e.Invalid? && !c.closed
    ensures HandleFields(codec, c, Fields(if e.Sequenced? then Decimal(e.id) else "", [codec.encode(e)])) ==
            Receive(c, Frame(e))
  {
    assert Join([codec.encode(e)]) == codec.encode(e);
    assert codec.decode(codec.encode(e)) == Some(e);
  }

  lemma HandleItem(codec: Codec, c: Client, item: Item)
    requires ValidCodec(codec) && ValidItem(item)
    ensures HandleBlock(codec, c, Body(codec, item)) == Receive(c, item)
  {
    BodyShape(codec, item);
    match item
    case Comment =>
      CommentsSayNothing(ItemLines(codec, item));
      HandleLines(codec, c, Body(codec, item), Fields("", []));
    case Frame(e) =>
      ReadItemLines(codec, e);
      HandleLines(codec, c, Body(codec, item), Fields(if e.Sequenced? then Decimal(e.id) else "", [codec.encode(e)]));
      if !c.closed { HandleEventFields(codec, c, e); }
  }

  lemma {:induction false} BodiesConcat(codec: Codec, items: seq<Item>, item: Item)
    ensures Bodies(codec, items + [item]) == Bodies(codec, items) + [Body(codec, item)]
  {
    if items == [] {
      assert [item][1..] == [];
    } else {
      assert (items + [item])[1..] == items[1..] + [item];
      BodiesConcat(codec, items[1..], item);
    }
  }

  lemma {:induction false} HandleItems(codec: Codec, c: Client, items: seq<Item>)
    requires ValidCodec(codec) && forall item | item in items :: ValidItem(item)
    ensures HandleBlocks(codec, c, Bodies(codec, items)) == ReceiveAll(c, items)
  {
    if items != [] {
      var init, last := items[..|items| - 1], items[|items| - 1];
      assert items == init + [last];
      BodiesConcat(codec, init, last);
      HandleItems(codec, c, init);
      HandleItem(codec, ReceiveAll(c, init), last);
    }
  }

  /**
   A stream of formatted events and heartbeats, cut off after any number of characters and
   delivered in any chunks, gives the client the events and ids of the items wholly
   written by then, up to the first terminal event.
   */
  lemma ParserUndoesFormatter(codec: Codec, c: Client, items: seq<Item>, n: nat, chunks: seq<string>) returns (k: nat)
    requires ValidCodec(codec) && forall item | item in items :: ValidItem(item)
    requires c.buffer == "" && !c.closed && n <= |FormatAll(codec, items)|
    requires Concat(chunks) == FormatAll(codec, items)[..n]
    ensures IsWrittenBy(codec, items, n, k)
    ensures FeedAll(codec, c, chunks).(buffer := "") == ReceiveAll(c, items[..k])
  {
    var text := FormatAll(codec, items)[..n];
    k := BlocksOfPrefix(codec, items, n);
    ChunkingDoesNotMatter(codec, c, chunks);
    HandleItems(codec, c, items[..k]);
    FeedOnce(codec, c, text);
    ReceiveAllBuffer(c, items[..k]);
  }

  lemma FeedOnce(codec: Codec, c: Client, text: string)
    requires c.buffer == "" && !c.closed
    ensures Feed(codec, c, text) == HandleBlocks(codec, c, Blocks(text)).(buffer := Rest(text))
  {
    assert c.buffer + text == text;
    HandleBlocksBuffer(codec, c, Blocks(text), Rest(text));
  }

  lemma {:induction false} ReceiveAllBuffer(c: Client, items: seq<Item>)
    ensures ReceiveAll(c, items).buffer == c.buffer
  {
    if items != [] {
      ReceiveAllBuffer(c, items[..|items| - 1]);
    }
  }

  // ---------- The generator over the same text ----------

  /** The second parser takes the first data line of each block that is not a comment. */
  function FirstData(ls: seq<string>): seq<string> {
    if ls == [] then []
    else if StartsWith(ls[0], "data: ") then [ls[0][6..]]
    else FirstData(ls[1..])
  }

  function YieldOf(block: string): seq<string> {
    if StartsWith(block, ":") then [] else FirstData(Lines(block))
  }

  function YieldsOf(blocks: seq<string>): seq<string> {
    if blocks == [] then [] else YieldsOf(blocks[..|blocks| - 1]) + YieldOf(blocks[|blocks| - 1])
  }

  /** The generator's loop: the texts it hands to the JSON parser. */
  method ParseSSEStream(chunks: seq<string>) returns (texts: seq<string>)
    ensures texts == YieldsOf(Blocks(Concat(chunks)))
  {
    var buffer := "";
    texts := [];
    for i := 0 to |chunks|
      invariant buffer == Rest(Concat(chunks[..i]))
      invariant texts == YieldsOf(Blocks(Concat(chunks[..i])))
    {
      ghost var before := Concat(chunks[..i]);
      assert chunks[..i + 1][..i] == chunks[..i];
      BlocksOfConcat(before, chunks[i]);
      buffer := buffer + chunks[i];
      var parts := Blocks(buffer);
      buffer := Rest(buffer);
      texts := YieldParts(Blocks(before), texts, parts);
    }
    assert chunks[..|chunks|] == chunks;
  }

  /** One round's loop over the complete parts. */
  method YieldParts(ghost before: seq<string>, texts0: seq<string>, parts: seq<string>) returns (texts: seq<string>)
    requires texts0 == YieldsOf(before)
    ensures texts == YieldsOf(before + parts)
  {
    texts := texts0;
    assert before + parts[..0] == before;
    for j := 0 to |parts|
      invariant texts == YieldsOf(before + parts[..j])
    {
      var part := parts[j];
      YieldsOfOneMore(before, parts, j);
      if StartsWith(part, ":") { continue; }
      var data := FirstDataLine(Lines(part));
      texts := texts + data;
    }
    assert parts[..|parts|] == parts;
  }

  lemma YieldsOfOneMore(before: seq<string>, parts: seq<string>, j: nat)
    requires j < |parts|
    ensures YieldsOf(before + parts[..j + 1]) == YieldsOf(before + parts[..j]) + YieldOf(parts[j])
  {
    var all := before + parts[..j + 1];
    assert all[..|all| - 1] == before + parts[..j];
  }

  method FirstDataLine(lines: seq<string>) returns (data: seq<string>)
    ensures data == FirstData(lines)
  {
    for i := 0 to |lines|
      invariant FirstData(lines) == FirstData(lines[i..])
    {
      if StartsWith(lines[i], "data: ") { return [lines[i][6..]]; }
    }
    return [];
  }

  lemma {:induction false} FirstDataIs(ls: seq<string>) returns (i: nat)
    ensures i <= |ls| && forall j | 0 <= j < i :: !("data: " <= ls[j])
    ensures if i < |ls| then |FirstData(ls)| == 1 && ls[i] == "data: " + FirstData(ls)[0] else FirstData(ls) == []
  {
    i := 0;
    if ls != [] && !StartsWith(ls[0], "data: ") {
      var k := FirstDataIs(ls[1..]);
      i := k + 1;
      assert forall j | 0 <= j < |ls| - 1 :: ls[1..][j] == ls[j + 1];
    } else if ls != [] {
      assert ls[0] == "data: " + ls[0][6..];
    }
  }

  /**
   Any block, not only one the server formats, yields the text of its first data line, if it has
   one and does not begin as a comment.
   */
  lemma YieldMeans(block: string) returns (i: nat)
    ensures i <= |Lines(block)| && forall j | 0 <= j < i :: !("data: " <= Lines(block)[j])
    ensures if i < |Lines(block)| && !(":" <= block)
            then |YieldOf(block)| == 1 && Lines(block)[i] == "data: " + YieldOf(block)[0]
            else YieldOf(block) == []
  {
    i := FirstDataIs(Lines(block));
  }

  function EncodedEvents(codec: Codec, items: seq<Item>): seq<string> {
    if items == [] then []
    else EncodedEvents(codec, items[..|items| - 1]) +
         if items[|items| - 1].Frame? then [codec.encode(items[|items| - 1].e)] else []
  }

  lemma FirstDataOfItem(codec: Codec, e: Event)
    ensures FirstData(ItemLines(codec, Frame(e))) == [codec.encode(e)]
  {
    var b, d := TypeLine(e), DataLine(codec, e);
    assert d[6..] == codec.encode(e) && b[0] == 'e';
    assert FirstData([b, d]) == [codec.encode(e)] by { assert [b, d][1..] == [d]; }
    if e.Sequenced? {
      var a := IdLine(e.id);
      assert ItemLines(codec, Frame(e)) == [a, b, d] && [a, b, d][1..] == [b, d] && a[0] == 'i';
    } else {
      assert ItemLines(codec, Frame(e)) == [b, d];
    }
  }

  lemma FrameIsNoComment(codec: Codec, e: Event)
    ensures !StartsWith(Body(codec, Frame(e)), ":")
  {
    var ls := ItemLines(codec, Frame(e));
    assert ls == [ls[0]] + ls[1..];
    BodyStart(ls[0], ls[1..]);
  }

  lemma YieldOfItem(codec: Codec, item: Item)
    requires ValidCodec(codec) && ValidItem(item)
    ensures YieldOf(Body(codec, item)) == if item.Frame? then [codec.encode(item.e)] else []
  {
    BodyShape(codec, item);
    if item.Frame? {
      FirstDataOfItem(codec, item.e);
      FrameIsNoComment(codec, item.e);
    }
  }

  lemma BodyStart(a: string, rest: seq<string>)
    requires a != ""
    ensures Join([a] + rest)[0] == a[0]
  {
    assert ([a] + rest)[0] == a;
  }

  /** The generator yields every event of the stream, whatever the chunks, and does not stop at a terminal one. */
  lemma {:induction false} GeneratorUndoesFormatter(codec: Codec, items: seq<Item>, chunks: seq<string>)
    requires ValidCodec(codec) && forall item | item in items :: ValidItem(item)
    requires Concat(chunks) == FormatAll(codec, items)
    ensures YieldsOf(Blocks(Concat(chunks))) == EncodedEvents(codec, items)
  {
    var n := |FormatAll(codec, items)|;
    assert FormatAll(codec, items)[..n] == FormatAll(codec, items);
    var k := BlocksOfPrefix(codec, items, n);
    assert items[..k] == items by {
      if k < |items| { FormatAllGrows(codec, items, k + 1); }
    }
    YieldsOfItems(codec, items);
  }

  lemma {:induction false} FormatAllGrows(codec: Codec, items: seq<Item>, k: nat)
    requires k <= |items|
    ensures |FormatAll(codec, items[..k])| <= |FormatAll(codec, items)|
  {
    if k > 0 {
      assert items[..k][1..] == items[1..][..k - 1];
      FormatAllGrows(codec, items[1..], k - 1);
    }
  }

  lemma {:induction false} YieldsOfItems(codec: Codec, items: seq<Item>)
    requires ValidCodec(codec) && forall item | item in items :: ValidItem(item)
    ensures YieldsOf(Bodies(codec, items)) == EncodedEvents(codec, items)
  {
    if items != [] {
      var init, last := items[..|items| - 1], items[|items| - 1];
      assert items == init + [last];
      BodiesConcat(codec, init, last);
      YieldsOfItems(codec, init);
      YieldOfItem(codec, last);
    }
  }
}
