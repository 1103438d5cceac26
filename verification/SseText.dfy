/**
 The event stream as text: what the server writes for an event or a heartbeat, and how
 text is cut into blocks at blank lines and into lines.
 */
module SseText {
  import opened Wrappers
  import opened Events

  // ---------- Decimal numbers ----------

  function Digit(d: nat): char
    requires d < 10
  {
    '0' + d as char
  }

  function Decimal(n: nat): (s: string)
    ensures s != "" && forall c | c in s :: '0' <= c <= '9'
  {
    if n < 10 then [Digit(n)] else Decimal(n / 10) + [Digit(n % 10)]
  }

  /** The number a digit string stands for; anything else is not a number. */
  function ReadDecimal(s: string): Option<nat> {
    if s == "" || !('0' <= s[|s| - 1] <= '9') then None
    else
      var d := (s[|s| - 1] - '0') as nat;
      if |s| == 1 then Some(d)
      else
        match ReadDecimal(s[..|s| - 1])
        case None => None
        case Some(n) => Some(10 * n + d)
  }

  lemma {:induction false} DecimalRoundTrip(n: nat)
    ensures ReadDecimal(Decimal(n)) == Some(n)
    ensures Decimal(n)[0] == '0' ==> Decimal(n) == "0"
  {
    if n >= 10 {
      DecimalRoundTrip(n / 10);
      assert Decimal(n)[..|Decimal(n)| - 1] == Decimal(n / 10);
    }
  }

  // ---------- Lines ----------

  predicate OneLine(s: string) { '\n' !in s }

  /** Splitting at every newline. */
  function Lines(s: string): (ls: seq<string>)
    ensures ls != []
  {
    if s == "" then [""]
    else
      var rest := Lines(s[1..]);
      if s[0] == '\n' then [""] + rest else [[s[0]] + rest[0]] + rest[1..]
  }

  function Join(ls: seq<string>): string {
    if ls == [] then "" else if |ls| == 1 then ls[0] else ls[0] + "\n" + Join(ls[1..])
  }

  lemma {:induction false} LinesOfLine(line: string, rest: string)
    requires OneLine(line)
    ensures Lines(line) == [line]
    ensures Lines(line + "\n" + rest) == [line] + Lines(rest)
  {
    var s := line + "\n" + rest;
    if line == "" {
      assert s[1..] == rest;
    } else {
      LinesOfLine(line[1..], rest);
      assert s[1..] == line[1..] + "\n" + rest;
      assert [line[0]] + line[1..] == line;
    }
  }

  /** Lines without newlines survive being joined and split. */
  lemma {:induction false} LinesOfJoin(ls: seq<string>)
    requires ls != [] && forall l | l in ls :: OneLine(l)
    ensures Lines(Join(ls)) == ls
  {
    if |ls| == 1 {
      LinesOfLine(ls[0], "");
    } else {
      LinesOfJoin(ls[1..]);
      LinesOfLine(ls[0], Join(ls[1..]));
    }
  }

  /** And every text is its lines, joined. */
  lemma {:induction false} JoinOfLines(s: string)
    ensures Join(Lines(s)) == s
  {
    if s != "" {
      JoinOfLines(s[1..]);
      var rest := Lines(s[1..]);
      assert s == [s[0]] + s[1..];
      if s[0] != '\n' {
        assert ([[s[0]] + rest[0]] + rest[1..])[1..] == rest[1..];
      }
    }
  }

  // ---------- Blocks ----------

  /** Where the first blank line starts, or -1. */
  function FirstBreak(s: string): (i: int)
    ensures i == -1 || (0 <= i && i + 2 <= |s|)
  {
    if |s| < 2 then -1
    else if s[0] == '\n' && s[1] == '\n' then 0
    else
      var i := FirstBreak(s[1..]);
      if i == -1 then -1 else i + 1
  }

  /** The complete blocks of a text. */
  function Blocks(s: string): seq<string>
    decreases |s|
  {
    var i := FirstBreak(s);
    if i == -1 then [] else [s[..i]] + Blocks(s[i + 2..])
  }

  /** What follows the last complete block. */
  function Rest(s: string): string
    decreases |s|
  {
    var i := FirstBreak(s);
    if i == -1 then s else Rest(s[i + 2..])
  }

  lemma {:induction false} FirstBreakOfPrefix(s: string, t: string)
    ensures FirstBreak(s) != -1 ==> FirstBreak(s + t) == FirstBreak(s)
  {
    if |s| >= 2 {
      assert (s + t)[1..] == s[1..] + t;
      FirstBreakOfPrefix(s[1..], t);
    }
  }

  lemma BreakOfConcat(s: string, t: string)
    requires FirstBreak(s) != -1
    ensures var i := FirstBreak(s);
            FirstBreak(s + t) == i && (s + t)[..i] == s[..i] && (s + t)[i + 2..] == s[i + 2..] + t
  {
    FirstBreakOfPrefix(s, t);
  }

  /** Blocks do not depend on where the text was cut, as long as the rest is carried over. */
  lemma {:induction false} BlocksOfConcat(s: string, t: string)
    ensures Blocks(s + t) == Blocks(s) + Blocks(Rest(s) + t)
    ensures Rest(s + t) == Rest(Rest(s) + t)
    decreases |s|
  {
    var i := FirstBreak(s);
    if i != -1 {
      BreakOfConcat(s, t);
      BlocksOfConcat(s[i + 2..], t);
    }
  }

  /** A block that has no blank line inside and does not end in a newline. */
  predicate Clean(body: string) {
    body != "" && FirstBreak(body) == -1 && body[|body| - 1] != '\n'
  }

  lemma {:induction false} FirstBreakOfFrame(body: string, t: string)
    requires Clean(body)
    ensures FirstBreak(body + "\n\n" + t) == |body|
  {
    var s := body + "\n\n" + t;
    assert s[1..] == body[1..] + "\n\n" + t;
    if |body| == 1 {
      assert s[1..][0] == '\n' && s[1..][1] == '\n';
    } else {
      FirstBreakOfFrame(body[1..], t);
    }
  }

  lemma {:induction false} CleanLine(line: string)
    requires OneLine(line)
    ensures FirstBreak(line) == -1
  {
    if |line| >= 2 {
      CleanLine(line[1..]);
    }
  }

  lemma {:induction false} NoBreakAcross(line: string, t: string)
    requires OneLine(line) && line != "" && t != "" && t[0] != '\n' && FirstBreak(t) == -1
    ensures FirstBreak(line + "\n" + t) == -1
  {
    var s := line + "\n" + t;
    if |line| == 1 {
      assert s[1..] == "\n" + t && s[1..][1..] == t;
    } else {
      NoBreakAcross(line[1..], t);
      assert s[1..] == line[1..] + "\n" + t;
    }
  }

  /** Joined non-empty lines make a clean block. */
  lemma {:induction false} JoinIsClean(ls: seq<string>)
    requires ls != [] && forall l | l in ls :: OneLine(l) && l != ""
    ensures Clean(Join(ls)) && Join(ls)[0] != '\n'
  {
    if |ls| == 1 {
      CleanLine(ls[0]);
    } else {
      JoinIsClean(ls[1..]);
      NoBreakAcross(ls[0], Join(ls[1..]));
    }
  }

  // ---------- What the server writes ----------

  /** How events are turned into JSON text and back. */
  datatype Codec = Codec(encode: Event -> string, decode: string -> Option<Event>)

  /** JSON text is never empty, has no raw newline, and decodes to the event it came from. */
  ghost predicate ValidCodec(c: Codec) {
    forall e: Event {:trigger c.encode(e)} | !e.Invalid? ::
      c.decode(c.encode(e)) == Some(e) && OneLine(c.encode(e)) && c.encode(e) != ""
  }

  function TypeName(e: Event): (s: string)
    ensures OneLine(s)
  {
    match e
    case Invalid => ""
    case Queued => "queued"
    case Heartbeat => "heartbeat"
    case Sequenced(_, kind, _) =>
      match kind
      case CompileOutput => "compile_output"
      case CompileError => "compile_error"
      case TestOutput => "test_output"
      case TestResult => "test_result"
      case BenchmarkProgress => "benchmark_progress"
      case BenchmarkResult => "benchmark_result"
      case CriteriaResults => "criteria_results"
      case Output => "output"
      case Complete => "complete"
      case Error => "error"
      case Timeout => "timeout"
  }

  /** One thing on the wire: an event's frame, or a comment that keeps the connection alive. */
  datatype Item = Frame(e: Event) | Comment

  function IdLine(id: nat): string { "id: " + Decimal(id) }

  function TypeLine(e: Event): string { "event: " + TypeName(e) }

  function DataLine(c: Codec, e: Event): string { "data: " + c.encode(e) }

  function FormatEvent(c: Codec, e: Event): string {
    if e.Sequenced? then
      IdLine(e.id) + "\n" + TypeLine(e) + "\n" + DataLine(c, e) + "\n\n"
    else
      TypeLine(e) + "\n" + DataLine(c, e) + "\n\n"
  }

  function FormatItem(c: Codec, item: Item): string {
    match item
    case Frame(e) => FormatEvent(c, e)
    case Comment => ": heartbeat\n\n"
  }

  function FormatAll(c: Codec, items: seq<Item>): string {
    if items == [] then "" else FormatItem(c, items[0]) + FormatAll(c, items[1..])
  }

  /** The lines of one item. */
  function ItemLines(c: Codec, item: Item): seq<string> {
    match item
    case Comment => [": heartbeat"]
    case Frame(e) => (if e.Sequenced? then [IdLine(e.id)] else []) + [TypeLine(e), DataLine(c, e)]
  }

  predicate ValidItem(item: Item) { item.Frame? ==> !item.e.Invalid? }

  function Body(c: Codec, item: Item): string { Join(ItemLines(c, item)) }

  lemma JoinTwo(b: string, d: string)
    ensures Join([b, d]) == b + "\n" + d
  {
    assert [b, d][1..] == [d];
  }

  lemma JoinThree(a: string, b: string, d: string)
    ensures Join([a, b, d]) + "\n\n" == a + "\n" + b + "\n" + d + "\n\n"
  {
    assert [a, b, d][1..] == [b, d];
    JoinTwo(b, d);
  }

  lemma LinesAreLines(c: Codec, item: Item)
    requires ValidCodec(c) && ValidItem(item)
    ensures forall l | l in ItemLines(c, item) :: OneLine(l) && l != ""
  {
  }

  /** What is written for an item is its lines, joined, and a blank line. */
  lemma FormatIsLines(c: Codec, item: Item)
    ensures FormatItem(c, item) == Body(c, item) + "\n\n"
  {
    match item
    case Comment =>
    case Frame(e) =>
      if e.Sequenced? {
        assert ItemLines(c, item) == [IdLine(e.id), TypeLine(e), DataLine(c, e)];
        JoinThree(IdLine(e.id), TypeLine(e), DataLine(c, e));
      } else {
        assert ItemLines(c, item) == [TypeLine(e), DataLine(c, e)];
        JoinTwo(TypeLine(e), DataLine(c, e));
      }
  }

  lemma BodyIsClean(c: Codec, item: Item)
    requires ValidCodec(c) && ValidItem(item)
    ensures Clean(Body(c, item))
  {
    LinesAreLines(c, item);
    JoinIsClean(ItemLines(c, item));
  }

  lemma BodyShape(c: Codec, item: Item)
    requires ValidCodec(c) && ValidItem(item)
    ensures Clean(Body(c, item)) && Lines(Body(c, item)) == ItemLines(c, item)
  {
    BodyIsClean(c, item);
    LinesAreLines(c, item);
    LinesOfJoin(ItemLines(c, item));
  }

  /** The kind of numbered event a name on the wire stands for. */
  function KindNamed(name: string): Option<Kind> {
    if name == "compile_output" then Some(CompileOutput)
    else if name == "compile_error" then Some(CompileError)
    else if name == "test_output" then Some(TestOutput)
    else if name == "test_result" then Some(TestResult)
    else if name == "benchmark_progress" then Some(BenchmarkProgress)
    else if name == "benchmark_result" then Some(BenchmarkResult)
    else if name == "criteria_results" then Some(CriteriaResults)
    else if name == "output" then Some(Output)
    else if name == "complete" then Some(Complete)
    else if name == "error" then Some(Error)
    else if name == "timeout" then Some(Timeout)
    else None
  }

  /** The event a block's lines announce, as far as its id and its event lines tell; its body is left empty. */
  function Announced(ls: seq<string>): Option<Event> {
    if ls == [] then None
    else if "id: " <= ls[0] then
      var id := ReadDecimal(ls[0][4..]);
      if |ls| > 1 && "event: " <= ls[1] && id.Some? && KindNamed(ls[1][7..]).Some?
      then Some(Sequenced(id.value, KindNamed(ls[1][7..]).value, ""))
      else None
    else if ls[0] == "event: queued" then Some(Queued)
    else if ls[0] == "event: heartbeat" then Some(Heartbeat)
    else None
  }

  lemma NameRoundTrip(e: Event)
    requires e.Sequenced?
    ensures KindNamed(TypeName(e)) == Some(e.kind)
    ensures TypeName(e) in {"complete", "error", "timeout"} <==> Terminal(e)
  {
  }

  lemma CutPrefix(prefix: string, rest: string)
    ensures (prefix + rest)[|prefix|..] == rest && prefix <= prefix + rest
  {
  }

  lemma AnnouncedNumbered(e: Event, data: string)
    requires e.Sequenced?
    ensures Announced([IdLine(e.id), TypeLine(e), data]) == Some(e.(body := ""))
  {
    DecimalRoundTrip(e.id);
    NameRoundTrip(e);
    CutPrefix("id: ", Decimal(e.id));
    CutPrefix("event: ", TypeName(e));
  }

  /** The names a client stops at. */
  predicate StopLine(line: string) { "event: " <= line && line[7..] in {"complete", "error", "timeout"} }

  lemma StopsAtTerminal(e: Event)
    requires !e.Invalid?
    ensures StopLine(TypeLine(e)) <==> Terminal(e)
  {
    CutPrefix("event: ", TypeName(e));
    if e.Sequenced? { NameRoundTrip(e); }
  }

  /** The lines announce the event, and the last of them is the data line, behind the event line. */
  predicate Announces(ls: seq<string>, e: Event, data: string) {
    && Announced(ls) == Some(if e.Sequenced? then e.(body := "") else e)
    && |ls| == (if e.Sequenced? then 3 else 2)
    && ls[|ls| - 1] == "data: " + data
    && (StopLine(ls[|ls| - 2]) <==> Terminal(e))
  }

  lemma AnnouncedUnnumbered(e: Event, data: string)
    requires e.Queued? || e.Heartbeat?
    ensures Announced([TypeLine(e), data]) == Some(e)
  {
    assert TypeLine(e)[0] == 'e';
    assert TypeLine(e) == if e.Queued? then "event: queued" else "event: heartbeat";
  }

  /**
   The text of every event announces that event: reading its id and event lines gives back its
   id and kind, and the name is one the client stops at exactly for a terminal event. The data
   line comes last.
   */
  lemma TextAnnounces(c: Codec, e: Event)
    requires ValidCodec(c) && !e.Invalid?
    ensures Announces(Lines(Body(c, Frame(e))), e, c.encode(e))
  {
    var data := DataLine(c, e);
    BodyShape(c, Frame(e));
    StopsAtTerminal(e);
    if e.Sequenced? {
      AnnouncedNumbered(e, data);
      assert Lines(Body(c, Frame(e))) == [IdLine(e.id), TypeLine(e), data];
    } else {
      AnnouncedUnnumbered(e, data);
      assert Lines(Body(c, Frame(e))) == [TypeLine(e), data];
    }
  }

  function Bodies(c: Codec, items: seq<Item>): seq<string> {
    if items == [] then [] else [Body(c, items[0])] + Bodies(c, items[1..])
  }

  lemma OneBlock(body: string, t: string)
    requires Clean(body)
    ensures Blocks(body + "\n\n" + t) == [body] + Blocks(t)
    ensures Rest(body + "\n\n" + t) == Rest(t)
  {
    var s := body + "\n\n" + t;
    FirstBreakOfFrame(body, t);
    assert s[..|body|] == body && s[|body| + 2..] == t;
  }

  lemma {:induction false} NoBlockYet(body: string, n: nat)
    requires Clean(body) && n < |body| + 2
    ensures FirstBreak((body + "\n\n")[..n]) == -1
  {
    var frame := body + "\n\n";
    FirstBreakOfFrame(body, "");
    assert frame + "" == frame == frame[..n] + frame[n..];
    FirstBreakOfPrefix(frame[..n], frame[n..]);
  }

  /** The first `n` characters hold `k` whole items and no more. */
  predicate IsWrittenBy(c: Codec, items: seq<Item>, n: nat, k: nat) {
    && k <= |items|
    && |FormatAll(c, items[..k])| <= n
    && (k < |items| ==> n < |FormatAll(c, items[..k + 1])|)
  }

  /** A block counts once its blank line is wholly written. */
  lemma FirstFrame(body: string, rest: string, n: nat)
    requires Clean(body) && n <= |body| + 2 + |rest|
    ensures Blocks((body + "\n\n" + rest)[..n]) ==
            if n < |body| + 2 then [] else [body] + Blocks(rest[..n - (|body| + 2)])
  {
    var frame := body + "\n\n";
    CutConcat(frame, rest, n);
    if n < |frame| {
      NoBlockYet(body, n);
    } else {
      OneBlock(body, rest[..n - |frame|]);
    }
  }

  lemma FirstItem(c: Codec, item: Item, rest: string, n: nat)
    requires ValidCodec(c) && ValidItem(item)
    requires n <= |FormatItem(c, item)| + |rest|
    ensures var size := |FormatItem(c, item)|;
            Blocks((FormatItem(c, item) + rest)[..n]) ==
            if n < size then [] else [Body(c, item)] + Blocks(rest[..n - size])
  {
    var frame, body := FormatItem(c, item), Body(c, item);
    FormatIsLines(c, item);
    BodyIsClean(c, item);
    FrameOf(frame, body, rest, n);
  }

  lemma FrameOf(frame: string, body: string, rest: string, n: nat)
    requires frame == body + "\n\n" && Clean(body) && n <= |frame| + |rest|
    ensures Blocks((frame + rest)[..n]) == if n < |frame| then [] else [body] + Blocks(rest[..n - |frame|])
  {
    FirstFrame(body, rest, n);
  }

  /** What holds of the items after the first holds of all, counted from its end. */
  lemma WrittenBehindFirst(c: Codec, items: seq<Item>, n: nat, k: nat)
    requires items != [] && n >= |FormatItem(c, items[0])|
    requires IsWrittenBy(c, items[1..], n - |FormatItem(c, items[0])|, k)
    ensures IsWrittenBy(c, items, n, k + 1)
    ensures Bodies(c, items[..k + 1]) == [Body(c, items[0])] + Bodies(c, items[1..][..k])
  {
    BodiesFront(c, items, k);
    if k + 1 < |items| { BodiesFront(c, items, k + 1); }
  }

  lemma NothingWritten(c: Codec, items: seq<Item>, n: nat)
    requires items == [] || n < |FormatItem(c, items[0])|
    ensures IsWrittenBy(c, items, n, 0) && Bodies(c, items[..0]) == []
  {
    if items != [] { BodiesFront(c, items, 0); }
  }

  /** The blocks of a stream cut after `n` characters are those of the items wholly written by then. */
  lemma {:induction false} BlocksOfPrefix(c: Codec, items: seq<Item>, n: nat) returns (k: nat)
    requires ValidCodec(c) && forall item | item in items :: ValidItem(item)
    requires n <= |FormatAll(c, items)|
    ensures IsWrittenBy(c, items, n, k) && Blocks(FormatAll(c, items)[..n]) == Bodies(c, items[..k])
  {
    if items == [] {
      k := 0;
      NothingWritten(c, items, n);
    } else {
      var size := |FormatItem(c, items[0])|;
      FirstItem(c, items[0], FormatAll(c, items[1..]), n);
      if n < size {
        k := 0;
        NothingWritten(c, items, n);
      } else {
        var k1 := BlocksOfPrefix(c, items[1..], n - size);
        WrittenBehindFirst(c, items, n, k1);
        k := k1 + 1;
      }
    }
  }

  lemma CutConcat(a: string, b: string, n: nat)
    requires n <= |a| + |b|
    ensures (a + b)[..n] == if n < |a| then a[..n] else a + b[..n - |a|]
  {
  }

  lemma BodiesFront(c: Codec, items: seq<Item>, k: nat)
    requires items != [] && k < |items|
    ensures Bodies(c, items[..k + 1]) == [Body(c, items[0])] + Bodies(c, items[1..][..k])
    ensures FormatAll(c, items[..k + 1]) == FormatItem(c, items[0]) + FormatAll(c, items[1..][..k])
  {
    assert items[..k + 1][1..] == items[1..][..k];
  }
}
