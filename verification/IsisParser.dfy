/** The parser for IS-IS neighbour listings (internal/connector/controller/parser.go:129-309), and what it
    makes of the listings devices print: blocks of `key: value` lines, separated by blank lines. */
module IsisParser {
  import opened Common
  import opened GraphModel
  import opened Text

  type Fields = map<string, string>

  // ---------------------------------------------------------------- single fields

  function MapStatus(val: string): string {
    if Lower(val) == "up" || Lower(val) == "active" then "Active" else "Inactive"
  }

  function MapLevel(val: string): string {
    var v := Upper(val);
    if Contains(v, "L1L2") || Contains(v, "L1/L2") then "L1L2"
    else if Contains(v, "L2") then "L2"
    else if Contains(v, "L1") then "L1"
    else "L1L2"
  }

  lemma StatusWords()
    ensures MapStatus("Up") == MapStatus("UP") == MapStatus("active") == "Active"
    ensures MapStatus("Down") == MapStatus("Init") == MapStatus("Inactive") == MapStatus("") == "Inactive"
  {
    assert Lower("Up") == Lower("UP") == "up" && Lower("active") == "active";
    assert Lower("Down") == "down" && Lower("Init") == "init" && Lower("Inactive") == "inactive";
  }

  lemma LevelWords()
    ensures MapLevel("L1") == MapLevel("l1") == "L1" && MapLevel("L2") == MapLevel("l2") == "L2"
    ensures MapLevel("L1L2") == MapLevel("l1/l2") == MapLevel("") == "L1L2"
  {
    assert Upper("L1") == Upper("l1") == "L1" && Upper("L2") == Upper("l2") == "L2";
    assert Upper("L1L2") == "L1L2" && Upper("l1/l2") == "L1/L2";
    assert Contains("L1L2", "L1L2") && Contains("L1/L2", "L1/L2") && Contains("L1", "L1") && Contains("L2", "L2");
    ShortLevels();
  }

  lemma ShortLevels()
    ensures !Contains("L1", "L2") && !Contains("L1", "L1L2") && !Contains("L1", "L1/L2")
    ensures !Contains("L2", "L1L2") && !Contains("L2", "L1/L2") && !Contains("", "L2") && !Contains("", "L1")
  {
    TooShort("L1", "L1L2");
    TooShort("L1", "L1/L2");
    TooShort("L2", "L1L2");
    TooShort("L2", "L1/L2");
    TooShort("", "L2");
    TooShort("", "L1");
    assert "L2"[1] != "L1"[1] && "L1"[1..] == "1";
    TooShort("1", "L2");
  }

  lemma {:induction false} TooShort(s: string, sub: string)
    requires |s| < |sub|
    ensures !Contains(s, sub)
  {
    if s != "" {
      TooShort(s[1..], sub);
    }
  }

  /** The effect of one key; unknown keys have none. */
  function Set(key: string, val: string, f: Fields): Fields {
    var k := Lower(key);
    if k == "system id" then f["system_id" := val]
    else if k == "area id" || k == "area address(es)" then f["area_id" := val]
    else if k == "state" then f["status" := MapStatus(val)]
    else if k == "type" || k == "level" then f["level" := MapLevel(val)]
    else if k == "interface" then f["interface" := val]
    else if k == "holdtime" then f["holdtime" := val]
    else if k == "circuit id" then f["circuit_id" := val]
    else if k == "pri" then f["priority" := val]
    else f
  }

  function SetChunk(chunk: string, f: Fields): Fields {
    var c := Trim(chunk);
    var i := IndexOf(c, ":");
    if c == "" || i < 0 then f
    else
      var key, val := Trim(c[..i]), Trim(c[i + 1..]);
      if key != "" then Set(key, val, f) else f
  }

  function SetChunks(chunks: seq<string>, f: Fields): Fields
    decreases |chunks|
  {
    if chunks == [] then f else SetChunks(chunks[1..], SetChunk(chunks[0], f))
  }

  /** The field each key of a listing stands for. */
  const FIELDS: map<string, string> := map[
    "system id" := "system_id", "area id" := "area_id", "area address(es)" := "area_id", "state" := "status",
    "type" := "level", "level" := "level", "interface" := "interface", "holdtime" := "holdtime",
    "circuit id" := "circuit_id", "pri" := "priority"]

  /** The neighbour being read. */
  class Peer {
    var fields: Fields

    constructor ()
      ensures fields == map[]
    {
      fields := map[];
    }

    method SetField(key: string, val: string)
      modifies this
      ensures fields == Set(key, val, old(fields))
      ensures Lower(key) !in FIELDS ==> fields == old(fields)
      ensures Lower(key) in FIELDS ==>
        var f := FIELDS[Lower(key)];
        && f in fields && fields - {f} == old(fields) - {f}
        && (f != "status" && f != "level" ==> fields[f] == val)
        && (f == "status" ==> fields[f] == if Lower(val) in {"up", "active"} then "Active" else "Inactive")
        && (f == "level" ==> fields[f] == "L1" || fields[f] == "L2" || fields[f] == "L1L2")
    {
      var k := Lower(key);
      if k == "system id" {
        fields := fields["system_id" := val];
      } else if k == "area id" || k == "area address(es)" {
        fields := fields["area_id" := val];
      } else if k == "state" {
        fields := fields["status" := MapStatus(val)];
      } else if k == "type" || k == "level" {
        fields := fields["level" := MapLevel(val)];
      } else if k == "interface" {
        fields := fields["interface" := val];
      } else if k == "holdtime" {
        fields := fields["holdtime" := val];
      } else if k == "circuit id" {
        fields := fields["circuit_id" := val];
      } else if k == "pri" {
        fields := fields["priority" := val];
      }
    }

    method ParseKeyValuePairs(line: string)
      modifies this
      ensures fields == SetChunks(Chunks(line, ""), old(fields))
    {
      var chunks := Chunks(line, "");
      for i := 0 to |chunks|
        invariant SetChunks(chunks[i..], fields) == SetChunks(chunks, old(fields))
      {
        assert chunks[i..][1..] == chunks[i + 1..];
        var chunk := Trim(chunks[i]);
        if chunk == "" {
          continue;
        }
        var colon := IndexOf(chunk, ":");
        if colon < 0 {
          continue;
        }
        var key, val := Trim(chunk[..colon]), Trim(chunk[colon + 1..]);
        if key != "" {
          SetField(key, val);
        }
      }
    }
  }

  // ---------------------------------------------------------------- whole listings

  /** The text between the first "IS-IS(" and the next ")" of its line. */
  function ProcessId(lines: seq<string>): string {
    if lines == [] then ""
    else
      var i := IndexOf(Upper(lines[0]), "IS-IS(");
      if i < 0 then ProcessId(lines[1..])
      else
        var rest := lines[0][i + 6..];
        var end := IndexOf(rest, ")");
        if end < 0 then "" else rest[..end]
  }

  predicate Skipped(line: string) {
    "display " <= line || "Peer information" <= line || "---" <= line
  }

  function Stamp(processId: string, f: Fields): Fields {
    if processId != "" then f["process_id" := processId] else f
  }

  /** A block ends; it counts if it has named a system. */
  function Flush(processId: string, peers: seq<Fields>, current: Option<Fields>): seq<Fields> {
    if current.Some? && "system_id" in current.value then peers + [Stamp(processId, current.value)] else peers
  }

  function Begun(current: Option<Fields>): Fields {
    if current.Some? then current.value else map[]
  }

  function ParseLines(processId: string, lines: seq<string>, peers: seq<Fields>, current: Option<Fields>): seq<Fields>
    decreases |lines|
  {
    if lines == [] then Flush(processId, peers, current)
    else
      var line := Trim(lines[0]);
      if Skipped(line) then ParseLines(processId, lines[1..], peers, current)
      else if line == "" then ParseLines(processId, lines[1..], Flush(processId, peers, current), None)
      else ParseLines(processId, lines[1..], peers, Some(SetChunks(Chunks(line, ""), Begun(current))))
  }

  function Parse(text: string): seq<Fields> {
    var lines := Split(text, '\n');
    ParseLines(ProcessId(lines), lines, [], None)
  }

  /** Command echoes, titles and rules are skipped wherever they stand. */
  lemma {:induction false} TitlesSkipped(processId: string, a: seq<string>, line: string, b: seq<string>, peers: seq<Fields>, current: Option<Fields>)
    requires "display " <= Trim(line) || "Peer information" <= Trim(line) || "---" <= Trim(line)
    ensures ParseLines(processId, a + [line] + b, peers, current) == ParseLines(processId, a + b, peers, current)
    decreases |a|
  {
    if a == [] {
      assert a + [line] + b == [line] + b && a + b == b;
      assert ([line] + b)[1..] == b;
    } else {
      var first, rest := Trim(a[0]), a[1..];
      assert (a + [line] + b)[1..] == rest + [line] + b && (a + b)[1..] == rest + b;
      if Skipped(first) {
        TitlesSkipped(processId, rest, line, b, peers, current);
      } else if first == "" {
        TitlesSkipped(processId, rest, line, b, Flush(processId, peers, current), None);
      } else {
        TitlesSkipped(processId, rest, line, b, peers, Some(SetChunks(Chunks(first, ""), Begun(current))));
      }
    }
  }

  method FindProcessId(lines: seq<string>) returns (processId: string)
    ensures processId == ProcessId(lines)
  {
    processId := "";
    for i := 0 to |lines|
      invariant processId == "" && ProcessId(lines[i..]) == ProcessId(lines)
    {
      assert lines[i..][1..] == lines[i + 1..];
      var idx := IndexOf(Upper(lines[i]), "IS-IS(");
      if idx != -1 {
        var rest := lines[i][idx + 6..];
        var end := IndexOf(rest, ")");
        if end != -1 {
          processId := rest[..end];
        }
        return;
      }
    }
  }

  function Contents(current: Peer?): Option<Fields>
    reads current
  {
    if current == null then None else Some(current.fields)
  }

  method ParseTabular(text: string) returns (peers: seq<Fields>)
    ensures peers == Parse(text)
  {
    var lines := Split(text, '\n');
    var processId := FindProcessId(lines);
    peers := [];
    var current: Peer? := null;
    for i := 0 to |lines|
      invariant current == null || fresh(current)
      invariant ParseLines(processId, lines[i..], peers, Contents(current)) == Parse(text)
    {
      assert lines[i..][1..] == lines[i + 1..];
      var line := Trim(lines[i]);
      if Skipped(line) {
        continue;
      }
      if line == "" {
        if current != null && "system_id" in current.fields {
          if processId != "" {
            current.fields := current.fields["process_id" := processId];
          }
          peers := peers + [current.fields];
        }
        current := null;
        continue;
      }
      if current == null {
        current := new Peer();
      }
      current.ParseKeyValuePairs(line);
    }
    if current != null && "system_id" in current.fields {
      if processId != "" {
        current.fields := current.fields["process_id" := processId];
      }
      peers := peers + [current.fields];
    }
  }

  /** Every vendor's listing is parsed the same way. */
  method ParseIsisText(vendor: string, text: string) returns (peers: seq<Fields>)
    ensures peers == Parse(text)
  {
    if text == "" {
      return [];
    }
    match Upper(vendor)
    case "H3C" => peers := ParseTabular(text);
    case "ZTE" => peers := ParseTabular(text);
    case _ => peers := ParseTabular(text);
  }

  // ---------------------------------------------------------------- printed lines

  /** One `key: value` of a line: `gap` blanks after the colon, `pad` blanks before the next cell. */
  datatype Cell = Cell(key: string, gap: nat, value: string, pad: nat)

  predicate CleanText(s: string) {
    Trimmed(s) && NoRuns(s) && '\n' !in s
  }

  predicate CleanCell(c: Cell) {
    c.key != "" && CleanText(c.key) && ':' !in c.key && CleanText(c.value) && c.gap <= 2 && c.pad >= 3
  }

  function CellText(c: Cell): string { c.key + ":" + Blank(c.gap) + c.value }

  function LineText(cells: seq<Cell>): string
    requires cells != []
  {
    if |cells| == 1 then CellText(cells[0]) else CellText(cells[0]) + Blank(cells[0].pad) + LineText(cells[1..])
  }

  /** The cell without the blanks it may end in, and their number. */
  function Core(c: Cell): string { if c.value == "" then c.key + ":" else CellText(c) }

  function Trailing(c: Cell): nat { if c.value == "" then c.gap else 0 }

  lemma CellCore(c: Cell)
    requires CleanCell(c)
    ensures CellText(c) == Core(c) + Blank(Trailing(c))
    ensures Core(c) != "" && Trimmed(Core(c)) && NoRuns(Core(c)) && Core(c)[0] == c.key[0]
  {
    var s := Core(c);
    var k := |c.key|;
    assert s[..k] == c.key && s[k] == ':';
    if c.value == "" {
      assert CellText(c) == s + Blank(c.gap);
    } else {
      assert s == c.key + ":" + Blank(c.gap) + c.value;
      assert s[k + 1 + c.gap..] == c.value;
      assert s[|s| - 1] == c.value[|c.value| - 1];
      assert s + Blank(0) == s;
    }
    forall i | 0 <= i < |s| - 2 ensures !(s[i] == ' ' && s[i + 1] == ' ' && s[i + 2] == ' ') {
      CoreRun(c, i);
    }
  }

  lemma CoreRun(c: Cell, i: nat)
    requires CleanCell(c) && i < |Core(c)| - 2
    ensures !(Core(c)[i] == ' ' && Core(c)[i + 1] == ' ' && Core(c)[i + 2] == ' ')
  {
    var s := Core(c);
    var k := |c.key|;
    if i + 2 < k {
      assert s[i] == c.key[i] && s[i + 1] == c.key[i + 1] && s[i + 2] == c.key[i + 2];
    } else if i <= k {
      assert s[k] == ':';
    } else {
      var v := k + 1 + c.gap;
      assert c.value != "" && s[v] == c.value[0] && s[v] != ' ';
      if i > v {
        assert s[i] == c.value[i - v] && s[i + 1] == c.value[i + 1 - v] && s[i + 2] == c.value[i + 2 - v];
      }
    }
  }

  function LineCore(cells: seq<Cell>): string
    requires cells != []
  {
    if |cells| == 1 then Core(cells[0])
    else Core(cells[0]) + Blank(Trailing(cells[0]) + cells[0].pad) + LineCore(cells[1..])
  }

  function Cores(cells: seq<Cell>): seq<string> {
    if cells == [] then [] else [Core(cells[0])] + Cores(cells[1..])
  }

  predicate CleanLine(cells: seq<Cell>) {
    cells != [] && forall i :: 0 <= i < |cells| ==> CleanCell(cells[i])
  }

  lemma {:induction false} LineCoreTrimmed(cells: seq<Cell>)
    requires CleanLine(cells)
    ensures LineCore(cells) != "" && Trimmed(LineCore(cells)) && LineCore(cells)[0] == cells[0].key[0]
  {
    var c := cells[0];
    CellCore(c);
    if |cells| > 1 {
      LineCoreTrimmed(cells[1..]);
      TrimmedAround(Core(c), Blank(Trailing(c) + c.pad), LineCore(cells[1..]));
    }
  }

  lemma {:induction false} LineTextCore(cells: seq<Cell>)
    requires CleanLine(cells)
    ensures LineText(cells) == LineCore(cells) + Blank(Trailing(cells[|cells| - 1]))
  {
    var c := cells[0];
    CellCore(c);
    if |cells| > 1 {
      LineTextCore(cells[1..]);
      Regroup(Core(c), Trailing(c), c.pad, LineCore(cells[1..]), Blank(Trailing(cells[|cells| - 1])));
    }
  }

  lemma Regroup(a: string, n: nat, m: nat, b: string, end: string)
    ensures a + Blank(n) + Blank(m) + (b + end) == a + Blank(n + m) + b + end
  {
    assert Blank(n) + Blank(m) == Blank(n + m);
  }

  lemma LastChunk(c: Cell)
    requires CleanCell(c)
    ensures Chunks(Core(c), "") == [Core(c)]
  {
    CellCore(c);
    ChunkWhole(Core(c), "");
    assert "" + Core(c) == Core(c);
  }

  lemma SolidCore(c: Cell)
    requires CleanCell(c)
    ensures Solid(Core(c))
  {
    CellCore(c);
  }

  lemma NextChunk(c: Cell, rest: string)
    requires CleanCell(c) && rest != "" && rest[0] != ' '
    ensures Chunks(Core(c) + Blank(Trailing(c) + c.pad) + rest, "") == [Core(c)] + Chunks(rest, "")
  {
    SolidCore(c);
    FirstChunk(Core(c), Trailing(c) + c.pad, rest);
  }

  /** Splitting a printed line at long runs yields its cells. */
  lemma {:induction false} LineChunks(cells: seq<Cell>)
    requires CleanLine(cells)
    ensures Chunks(LineCore(cells), "") == Cores(cells)
  {
    if |cells| == 1 {
      LastChunk(cells[0]);
      assert Cores(cells[1..]) == [];
    } else {
      LineChunks(cells[1..]);
      LineCoreTrimmed(cells[1..]);
      NextChunk(cells[0], LineCore(cells[1..]));
    }
  }

  lemma TrimmedLine(cells: seq<Cell>)
    requires CleanLine(cells)
    ensures Trim(LineText(cells)) == LineCore(cells) != ""
  {
    var n := Trailing(cells[|cells| - 1]);
    LineTextCore(cells);
    LineCoreTrimmed(cells);
    TrimPadded(0, LineCore(cells), n);
    assert Blank(0) + LineCore(cells) + Blank(n) == LineText(cells);
  }

  /** What comes after the colon. */
  function After(c: Cell): string { if c.value == "" then "" else Blank(c.gap) + c.value }

  lemma AfterTrims(c: Cell)
    requires CleanCell(c)
    ensures Trim(After(c)) == c.value
  {
    if c.value == "" {
      TrimTrimmed("");
    } else {
      TrimPadded(c.gap, c.value, 0);
      assert Blank(c.gap) + c.value + Blank(0) == After(c);
    }
  }

  lemma ColonOf(c: Cell)
    requires CleanCell(c)
    ensures IndexOf(Core(c), ":") == |c.key| && Core(c)[..|c.key|] == c.key && Core(c)[|c.key| + 1..] == After(c)
  {
    assert Core(c) == c.key + [':'] + After(c);
    IndexOfChar(c.key, ':', After(c));
  }

  /** A cell sets exactly its field. */
  lemma CellSets(c: Cell, f: Fields)
    requires CleanCell(c)
    ensures SetChunk(Core(c), f) == Set(c.key, c.value, f)
  {
    CellCore(c);
    TrimTrimmed(Core(c));
    TrimTrimmed(c.key);
    ColonOf(c);
    AfterTrims(c);
  }

  function SetCells(cells: seq<Cell>, f: Fields): Fields
    decreases |cells|
  {
    if cells == [] then f else SetCells(cells[1..], Set(cells[0].key, cells[0].value, f))
  }

  lemma {:induction false} CellsSet(cells: seq<Cell>, f: Fields)
    requires cells == [] || CleanLine(cells)
    ensures SetChunks(Cores(cells), f) == SetCells(cells, f)
    decreases |cells|
  {
    if cells != [] {
      CellSets(cells[0], f);
      CellsSet(cells[1..], Set(cells[0].key, cells[0].value, f));
    }
  }

  // ---------------------------------------------------------------- printed listings

  type Block = seq<seq<Cell>>

  /** No line of the block looks like part of the header. */
  predicate CleanBlock(b: Block) {
    forall i :: 0 <= i < |b| ==> CleanLine(b[i]) && !Skipped(LineCore(b[i]))
  }

  predicate CleanBlocks(blocks: seq<Block>) {
    forall i :: 0 <= i < |blocks| ==> CleanBlock(blocks[i])
  }

  function BlockLines(b: Block): seq<string>
    requires CleanBlock(b)
  {
    if b == [] then [] else [LineText(b[0])] + BlockLines(b[1..])
  }

  function SetLines(b: Block, f: Fields): Fields
    decreases |b|
  {
    if b == [] then f else SetLines(b[1..], SetCells(b[0], f))
  }

  lemma LineParses(processId: string, line: seq<Cell>, rest: seq<string>, peers: seq<Fields>, current: Option<Fields>)
    requires CleanLine(line) && !Skipped(LineCore(line))
    ensures ParseLines(processId, [LineText(line)] + rest, peers, current)
         == ParseLines(processId, rest, peers, Some(SetCells(line, Begun(current))))
  {
    TrimmedLine(line);
    LineChunks(line);
    CellsSet(line, Begun(current));
    assert ([LineText(line)] + rest)[1..] == rest;
  }

  lemma BlockLinesSplit(b: Block, tail: seq<string>)
    requires CleanBlock(b) && b != []
    ensures BlockLines(b) + tail == [LineText(b[0])] + (BlockLines(b[1..]) + tail)
  {
  }

  lemma {:induction false} BlockParses(processId: string, b: Block, tail: seq<string>, peers: seq<Fields>, current: Option<Fields>)
    requires CleanBlock(b)
    ensures ParseLines(processId, BlockLines(b) + tail, peers, current)
         == ParseLines(processId, tail, peers, if b == [] then current else Some(SetLines(b, Begun(current))))
    decreases |b|
  {
    if b == [] {
      assert BlockLines(b) + tail == tail;
    } else {
      BlockLinesSplit(b, tail);
      LineParses(processId, b[0], BlockLines(b[1..]) + tail, peers, current);
      BlockParses(processId, b[1..], tail, peers, Some(SetCells(b[0], Begun(current))));
    }
  }

  function Body(blocks: seq<Block>, end: nat): seq<string>
    requires CleanBlocks(blocks)
  {
    if blocks == [] then seq(end, _ => "")
    else if |blocks| == 1 then BlockLines(blocks[0]) + seq(end, _ => "")
    else BlockLines(blocks[0]) + [""] + Body(blocks[1..], end)
  }

  /** The peers of a listing: the blocks that name a system, in order. */
  function Peers(processId: string, blocks: seq<Block>): seq<Fields> {
    if blocks == [] then []
    else PeersOf(processId, blocks[0]) + Peers(processId, blocks[1..])
  }

  lemma {:induction false} EndParses(processId: string, end: nat, peers: seq<Fields>, current: Option<Fields>)
    ensures ParseLines(processId, seq(end, _ => ""), peers, current) == Flush(processId, peers, current)
    decreases end
  {
    TrimTrimmed("");
    if end > 0 {
      assert seq(end, _ => "")[1..] == seq(end - 1, _ => "");
      EndParses(processId, end - 1, Flush(processId, peers, current), None);
    }
  }

  lemma BlankLine(processId: string, rest: seq<string>, peers: seq<Fields>, current: Option<Fields>)
    ensures ParseLines(processId, [""] + rest, peers, current) == ParseLines(processId, rest, Flush(processId, peers, current), None)
  {
    TrimTrimmed("");
    assert ([""] + rest)[1..] == rest;
  }

  /** What a block adds to the peers. */
  function PeersOf(processId: string, b: Block): seq<Fields> { Flush(processId, [], Some(SetLines(b, map[]))) }

  lemma FlushBlock(processId: string, b: Block, peers: seq<Fields>)
    ensures Flush(processId, peers, if b == [] then None else Some(SetLines(b, map[]))) == peers + PeersOf(processId, b)
  {
  }

  lemma BlockThenBlank(processId: string, b: Block, rest: seq<string>, peers: seq<Fields>)
    requires CleanBlock(b)
    ensures ParseLines(processId, BlockLines(b) + [""] + rest, peers, None)
         == ParseLines(processId, rest, peers + PeersOf(processId, b), None)
  {
    assert BlockLines(b) + [""] + rest == BlockLines(b) + ([""] + rest);
    BlockParses(processId, b, [""] + rest, peers, None);
    BlankLine(processId, rest, peers, if b == [] then None else Some(SetLines(b, map[])));
    FlushBlock(processId, b, peers);
  }

  lemma FirstBlock(processId: string, b: Block, rest: seq<string>, peers: seq<Fields>, more: seq<Fields>)
    requires CleanBlock(b)
    requires ParseLines(processId, rest, peers + PeersOf(processId, b), None) == peers + PeersOf(processId, b) + more
    ensures ParseLines(processId, BlockLines(b) + [""] + rest, peers, None) == peers + (PeersOf(processId, b) + more)
  {
    BlockThenBlank(processId, b, rest, peers);
    Associates(peers, PeersOf(processId, b), more);
  }

  lemma Associates(a: seq<Fields>, b: seq<Fields>, c: seq<Fields>)
    ensures a + b + c == a + (b + c)
  {
  }

  lemma LastBlock(processId: string, b: Block, end: nat, peers: seq<Fields>)
    requires CleanBlock(b)
    ensures ParseLines(processId, BlockLines(b) + seq(end, _ => ""), peers, None) == peers + PeersOf(processId, b)
  {
    BlockParses(processId, b, seq(end, _ => ""), peers, None);
    EndParses(processId, end, peers, if b == [] then None else Some(SetLines(b, map[])));
    FlushBlock(processId, b, peers);
  }

  lemma {:induction false} BodyParses(processId: string, blocks: seq<Block>, end: nat, peers: seq<Fields>)
    requires CleanBlocks(blocks)
    ensures ParseLines(processId, Body(blocks, end), peers, None) == peers + Peers(processId, blocks)
    decreases |blocks|
  {
    if blocks == [] {
      EndParses(processId, end, peers, None);
    } else if |blocks| == 1 {
      LastBlock(processId, blocks[0], end, peers);
    } else {
      BodyParses(processId, blocks[1..], end, peers + PeersOf(processId, blocks[0]));
      FirstBlock(processId, blocks[0], Body(blocks[1..], end), peers, Peers(processId, blocks[1..]));
    }
  }

  function Header(processId: string): seq<string> {
    ["display isis peer verbose", "Peer information for IS-IS(" + processId + ")", "------------------------------"]
  }

  predicate CleanProcessId(processId: string) {
    ')' !in processId && '\n' !in processId
  }

  lemma UpperKeeps(s: string, c: char)
    requires c !in s && !('A' <= c <= 'Z')
    ensures c !in Upper(s)
  {
  }

  lemma HeaderProcessId(processId: string, rest: seq<string>)
    requires CleanProcessId(processId)
    ensures ProcessId(Header(processId) + rest) == processId
  {
    var lines := Header(processId) + rest;
    UpperKeeps(lines[0], '(');
    NotWithout(Upper(lines[0]), "IS-IS(", 5);
    var lead := "Peer information for ";
    var line := lines[1];
    UpperKeeps(lead, '(');
    assert line == lead + "IS-IS(" + (processId + ")");
    assert Upper(line) == Upper(lead) + "IS-IS(" + Upper(processId + ")");
    IndexOfLast(Upper(lead), "IS-IS(", Upper(processId + ")"));
    var after := line[|lead| + 6..];
    assert after == processId + [')'] + "";
    IndexOfChar(processId, ')', "");
    assert after[..|processId|] == processId;
    assert lines[1..][0] == line;
  }

  lemma SkipLine(processId: string, line: string, rest: seq<string>)
    requires Trimmed(line) && Skipped(line)
    ensures ParseLines(processId, [line] + rest, [], None) == ParseLines(processId, rest, [], None)
  {
    TrimTrimmed(line);
    assert ([line] + rest)[1..] == rest;
  }

  lemma HeaderLines(processId: string)
    ensures forall i :: 0 <= i < 3 ==> Trimmed(Header(processId)[i]) && Skipped(Header(processId)[i])
  {
  }

  lemma ThreePlus(h: seq<string>, rest: seq<string>)
    requires |h| == 3
    ensures h + rest == [h[0]] + ([h[1]] + ([h[2]] + rest))
  {
  }

  lemma HeaderSkipped(processId: string, rest: seq<string>)
    ensures ParseLines(processId, Header(processId) + rest, [], None) == ParseLines(processId, rest, [], None)
  {
    HeaderLines(processId);
    ThreeSkipped(processId, Header(processId), rest);
  }

  lemma ThreeSkipped(processId: string, h: seq<string>, rest: seq<string>)
    requires |h| == 3 && forall i :: 0 <= i < 3 ==> Trimmed(h[i]) && Skipped(h[i])
    ensures ParseLines(processId, h + rest, [], None) == ParseLines(processId, rest, [], None)
  {
    SkipLine(processId, h[2], rest);
    SkipLine(processId, h[1], [h[2]] + rest);
    SkipLine(processId, h[0], [h[1]] + ([h[2]] + rest));
    ThreePlus(h, rest);
  }

  /** Printing any listing of clean blocks and parsing it yields its peers, each with the process id. */
  lemma ListingParses(processId: string, blocks: seq<Block>, end: nat)
    requires CleanProcessId(processId) && CleanBlocks(blocks)
    ensures Parse(JoinLines(Header(processId) + Body(blocks, end))) == Peers(processId, blocks)
  {
    var lines := Header(processId) + Body(blocks, end);
    BodyOneLine(blocks, end);
    SplitJoin(lines);
    HeaderProcessId(processId, Body(blocks, end));
    HeaderSkipped(processId, Body(blocks, end));
    BodyParses(processId, blocks, end, []);
  }

  lemma {:induction false} LineTextOneLine(cells: seq<Cell>)
    requires CleanLine(cells)
    ensures '\n' !in LineText(cells)
  {
    BlankOneLine(cells[0].gap);
    BlankOneLine(cells[0].pad);
    if |cells| > 1 {
      LineTextOneLine(cells[1..]);
    }
  }

  lemma {:induction false} BlockOneLine(b: Block)
    requires CleanBlock(b)
    ensures forall l :: l in BlockLines(b) ==> '\n' !in l
  {
    if b != [] {
      LineTextOneLine(b[0]);
      BlockOneLine(b[1..]);
    }
  }

  lemma {:induction false} BodyOneLine(blocks: seq<Block>, end: nat)
    requires CleanBlocks(blocks)
    ensures forall l :: l in Body(blocks, end) ==> '\n' !in l
    decreases |blocks|
  {
    if blocks != [] {
      BlockOneLine(blocks[0]);
      BodyOneLine(blocks[1..], end);
    }
  }

  // ---------------------------------------------------------------- neighbours

  datatype Neighbour = Neighbour(
    systemId: string, iface: string, circuitId: string, state: string,
    holdTime: string, level: string, priority: string, area: string)

  /** The widths of the gaps between the columns. */
  datatype Layout = Layout(a: nat, b: nat, c: nat, d: nat) {
    predicate Wide() { a >= 3 && b >= 3 && c >= 3 && d >= 3 }
  }

  predicate CleanNeighbour(n: Neighbour) {
    && CleanText(n.systemId) && CleanText(n.iface) && CleanText(n.circuitId) && CleanText(n.state)
    && CleanText(n.holdTime) && CleanText(n.level) && CleanText(n.priority) && CleanText(n.area)
  }

  function InterfaceLine(n: Neighbour, w: Layout): seq<Cell> {
    [Cell("Interface", 1, n.iface, w.a), Cell("Circuit Id", 2, n.circuitId, 3)]
  }

  function StateLine(n: Neighbour, w: Layout): seq<Cell> {
    [Cell("State", 1, n.state, w.b), Cell("HoldTime", 1, n.holdTime, w.c),
     Cell("Type", 1, n.level, w.d), Cell("PRI", 1, n.priority, 3)]
  }

  /** The layout of a neighbour in a verbose peer listing. */
  function Printed(n: Neighbour, w: Layout): Block {
    [[Cell("System ID", 1, n.systemId, 3)], InterfaceLine(n, w), StateLine(n, w), [Cell("Area address(es)", 1, n.area, 3)]]
  }

  function FieldsOf(n: Neighbour): Fields {
    map["system_id" := n.systemId, "interface" := n.iface, "circuit_id" := n.circuitId,
        "status" := MapStatus(n.state), "holdtime" := n.holdTime, "level" := MapLevel(n.level),
        "priority" := n.priority, "area_id" := n.area]
  }

  lemma LoweredKeys()
    ensures Lower("System ID") == "system id" && Lower("Interface") == "interface" && Lower("Circuit Id") == "circuit id"
    ensures Lower("State") == "state" && Lower("HoldTime") == "holdtime" && Lower("Type") == "type" && Lower("PRI") == "pri"
    ensures Lower("Area address(es)") == "area address(es)"
  {
  }

  predicate CleanKey(key: string) {
    key != "" && CleanText(key) && ':' !in key
  }

  predicate Letter(c: char) { 'a' <= c <= 'z' || 'A' <= c <= 'Z' || c == '(' || c == ')' }

  predicate Word(s: string) {
    s != "" && forall c :: c in s ==> Letter(c)
  }

  lemma LetterIsText(c: char)
    requires Letter(c)
    ensures !IsSpace(c) && c != ':' && c != '\n' && c != ' '
  {
  }

  /** A key of one or two words. */
  lemma WordsClean(a: string, b: string)
    requires Word(a) && Word(b)
    ensures CleanKey(a) && CleanKey(a + " " + b)
  {
    forall c | c in a || c in b ensures !IsSpace(c) && c != ':' && c != '\n' && c != ' ' {
      LetterIsText(c);
    }
    assert a[0] in a && a[|a| - 1] in a && b[|b| - 1] in b;
    forall i | 0 <= i < |a| - 2 ensures !(a[i] == ' ' && a[i + 1] == ' ' && a[i + 2] == ' ') {
      assert a[i] in a;
    }
    var s := a + " " + b;
    assert s[0] == a[0] && s[|s| - 1] == b[|b| - 1];
    forall i | 0 <= i < |s| - 2 ensures !(s[i] == ' ' && s[i + 1] == ' ' && s[i + 2] == ' ') {
      assert if i < |a| then s[i] in a else s[i + 1] in b;
    }
  }

  lemma ShortKeysClean()
    ensures CleanKey("State") && CleanKey("Type") && CleanKey("PRI") && CleanKey("HoldTime")
  {
    WordsClean("State", "Type");
    WordsClean("Type", "State");
    WordsClean("PRI", "State");
    WordsClean("HoldTime", "State");
  }

  lemma LongKeysClean()
    ensures CleanKey("System ID") && CleanKey("Interface") && CleanKey("Circuit Id") && CleanKey("Area address(es)")
  {
    WordsClean("System", "ID");
    WordsClean("Circuit", "Id");
    WordsClean("Interface", "Id");
    WordsClean("Area", "address(es)");
    assert "System ID" == "System" + " " + "ID" && "Circuit Id" == "Circuit" + " " + "Id";
    assert "Area address(es)" == "Area" + " " + "address(es)";
  }

  lemma PrintedLineClean(cells: seq<Cell>)
    requires CleanLine(cells) && cells[0].key[0] !in ['d', 'P', '-']
    ensures !Skipped(LineCore(cells))
  {
    LineCoreTrimmed(cells);
  }

  lemma OneCellClean(key: string, value: string)
    requires CleanKey(key) && CleanText(value) && key[0] !in ['d', 'P', '-']
    ensures CleanLine([Cell(key, 1, value, 3)]) && !Skipped(LineCore([Cell(key, 1, value, 3)]))
  {
    PrintedLineClean([Cell(key, 1, value, 3)]);
  }

  lemma PrintedClean(n: Neighbour, w: Layout)
    requires CleanNeighbour(n) && w.Wide()
    ensures CleanBlock(Printed(n, w))
  {
    LongKeysClean();
    ShortKeysClean();
    OneCellClean("System ID", n.systemId);
    OneCellClean("Area address(es)", n.area);
    InterfaceLineClean(n, w);
    StateLineClean(n, w);
  }

  lemma InterfaceLineClean(n: Neighbour, w: Layout)
    requires CleanNeighbour(n) && w.Wide()
    ensures CleanLine(InterfaceLine(n, w)) && !Skipped(LineCore(InterfaceLine(n, w)))
  {
    LongKeysClean();
    PrintedLineClean(InterfaceLine(n, w));
  }

  lemma StateLineClean(n: Neighbour, w: Layout)
    requires CleanNeighbour(n) && w.Wide()
    ensures CleanLine(StateLine(n, w)) && !Skipped(LineCore(StateLine(n, w)))
  {
    ShortKeysClean();
    PrintedLineClean(StateLine(n, w));
  }

  lemma OneSets(c: Cell, f: Fields)
    ensures SetCells([c], f) == Set(c.key, c.value, f)
  {
    assert [c][1..] == [];
  }

  lemma NextSets(c: Cell, rest: seq<Cell>, f: Fields)
    ensures SetCells([c] + rest, f) == SetCells(rest, Set(c.key, c.value, f))
  {
    assert ([c] + rest)[1..] == rest;
  }

  lemma InterfaceLineSets(n: Neighbour, w: Layout, f: Fields)
    ensures SetCells(InterfaceLine(n, w), f) == f["interface" := n.iface]["circuit_id" := n.circuitId]
  {
    LoweredKeys();
    var cells := InterfaceLine(n, w);
    assert "system id"[0] != "interface"[0];
    assert cells == [cells[0]] + [cells[1]];
    NextSets(cells[0], [cells[1]], f);
    OneSets(cells[1], f["interface" := n.iface]);
  }

  lemma StateLineSets(n: Neighbour, w: Layout, f: Fields)
    ensures SetCells(StateLine(n, w), f)
         == f["status" := MapStatus(n.state)]["holdtime" := n.holdTime]["level" := MapLevel(n.level)]["priority" := n.priority]
  {
    LoweredKeys();
    var cells := StateLine(n, w);
    var f1 := f["status" := MapStatus(n.state)];
    var f2 := f1["holdtime" := n.holdTime];
    var f3 := f2["level" := MapLevel(n.level)];
    assert cells == [cells[0]] + ([cells[1]] + ([cells[2]] + [cells[3]]));
    NextSets(cells[0], [cells[1]] + ([cells[2]] + [cells[3]]), f);
    NextSets(cells[1], [cells[2]] + [cells[3]], f1);
    NextSets(cells[2], [cells[3]], f2);
    OneSets(cells[3], f3);
  }

  lemma PrintedSets(n: Neighbour, w: Layout)
    ensures SetLines(Printed(n, w), map[]) == FieldsOf(n)
  {
    var b := Printed(n, w);
    LoweredKeys();
    var f1: Fields := map["system_id" := n.systemId];
    var f2 := f1["interface" := n.iface]["circuit_id" := n.circuitId];
    var f3 := f2["status" := MapStatus(n.state)]["holdtime" := n.holdTime]["level" := MapLevel(n.level)]["priority" := n.priority];
    OneSets(b[0][0], map[]);
    InterfaceLineSets(n, w, f1);
    StateLineSets(n, w, f2);
    OneSets(b[3][0], f3);
    FourLines(b, map[]);
  }

  lemma FourLines(b: Block, f: Fields)
    requires |b| == 4
    ensures SetLines(b, f) == SetCells(b[3], SetCells(b[2], SetCells(b[1], SetCells(b[0], f))))
  {
    assert b[1..][0] == b[1] && b[1..][1..] == b[2..] && b[2..][0] == b[2] && b[2..][1..] == b[3..] && b[3..][0] == b[3];
    assert b[3..][1..] == [];
    assert SetLines(b[3..], SetCells(b[2], SetCells(b[1], SetCells(b[0], f))))
        == SetCells(b[3], SetCells(b[2], SetCells(b[1], SetCells(b[0], f))));
    assert SetLines(b[2..], SetCells(b[1], SetCells(b[0], f))) == SetLines(b[3..], SetCells(b[2], SetCells(b[1], SetCells(b[0], f))));
  }

  lemma PrintedPeer(processId: string, n: Neighbour, w: Layout)
    ensures PeersOf(processId, Printed(n, w)) == [Stamp(processId, FieldsOf(n))]
  {
    PrintedSets(n, w);
  }

  function Printing(ns: seq<Neighbour>, w: Layout): seq<Block> {
    seq(|ns|, i requires 0 <= i < |ns| => Printed(ns[i], w))
  }

  function Render(processId: string, ns: seq<Neighbour>, w: Layout, end: nat): string
    requires (forall i :: 0 <= i < |ns| ==> CleanNeighbour(ns[i])) && w.Wide()
  {
    PrintingClean(ns, w);
    JoinLines(Header(processId) + Body(Printing(ns, w), end))
  }

  lemma PrintingClean(ns: seq<Neighbour>, w: Layout)
    requires (forall i :: 0 <= i < |ns| ==> CleanNeighbour(ns[i])) && w.Wide()
    ensures CleanBlocks(Printing(ns, w))
  {
    forall i | 0 <= i < |ns| ensures CleanBlock(Printing(ns, w)[i]) {
      PrintedClean(ns[i], w);
    }
  }

  function Stamped(processId: string, ns: seq<Neighbour>): seq<Fields> {
    seq(|ns|, i requires 0 <= i < |ns| => Stamp(processId, FieldsOf(ns[i])))
  }

  lemma {:induction false} PrintedPeers(processId: string, ns: seq<Neighbour>, w: Layout)
    ensures Peers(processId, Printing(ns, w)) == Stamped(processId, ns)
    decreases |ns|
  {
    if ns != [] {
      PrintedPeer(processId, ns[0], w);
      PrintedPeers(processId, ns[1..], w);
      assert Printing(ns, w)[1..] == Printing(ns[1..], w);
      assert Stamped(processId, ns) == [Stamp(processId, FieldsOf(ns[0]))] + Stamped(processId, ns[1..]);
    }
  }

  /** The peer a neighbour is parsed to. */
  ghost predicate PeerOf(processId: string, n: Neighbour, p: Fields) {
    && p.Keys == {"system_id", "interface", "circuit_id", "status", "holdtime", "level", "priority", "area_id"}
                 + (if processId != "" then {"process_id"} else {})
    && p["system_id"] == n.systemId && p["interface"] == n.iface && p["circuit_id"] == n.circuitId
    && p["status"] == MapStatus(n.state) && p["holdtime"] == n.holdTime && p["level"] == MapLevel(n.level)
    && p["priority"] == n.priority && p["area_id"] == n.area
    && (processId != "" ==> p["process_id"] == processId)
  }

  /** Printing any list of neighbours and parsing the text yields the same neighbours in the same
      order, every one with the process id. */
  lemma NeighbourRoundTrip(processId: string, ns: seq<Neighbour>, w: Layout, end: nat)
    requires CleanProcessId(processId) && w.Wide() && forall i :: 0 <= i < |ns| ==> CleanNeighbour(ns[i])
    ensures Parse(Render(processId, ns, w, end)) == Stamped(processId, ns)
    ensures var peers := Parse(Render(processId, ns, w, end));
      |peers| == |ns| && forall i :: 0 <= i < |ns| ==> PeerOf(processId, ns[i], peers[i])
  {
    PrintingClean(ns, w);
    ListingParses(processId, Printing(ns, w), end);
    PrintedPeers(processId, ns, w);
    StampedPeers(processId, ns);
  }

  lemma StampedPeers(processId: string, ns: seq<Neighbour>)
    ensures forall i :: 0 <= i < |ns| ==> PeerOf(processId, ns[i], Stamped(processId, ns)[i])
  {
    forall i | 0 <= i < |ns| ensures PeerOf(processId, ns[i], Stamped(processId, ns)[i]) {
      StampedPeer(processId, ns[i]);
    }
  }

  lemma StampedPeer(processId: string, n: Neighbour)
    ensures PeerOf(processId, n, Stamp(processId, FieldsOf(n)))
  {
  }
}
