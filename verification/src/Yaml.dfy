/** The indentation-based YAML subset of the rig descriptions, from logical lines on.
    How one scalar is read is a parameter. */
module Yaml {
  import opened Basics

  datatype Value = Null | Bool(b: bool) | Int(i: int) | Float(r: real) | Text(s: string)
                 | List(items: seq<Value>) | Map(entries: seq<(string, Value)>)

  datatype Error = UnexpectedIndentation | MissingColon | BadScalar | NotMapping | TrailingContent

  datatype Outcome<T> = Ok(value: T) | Fail(error: Error)

  /** A line without comment or trailing blanks; its content starts with no blank. */
  datatype Line = Line(indent: nat, content: string)

  /** How a scalar text is read, once the blanks around it are stripped. */
  type Scalars = string -> Outcome<Value>

  /** A value and the number of lines it took. */
  datatype Parsed = Parsed(value: Value, used: nat)

  /** What one row adds to its block. */
  datatype Cell = Element(v: Value) | Binding(key: string, v: Value)

  // ---- Texts -----------------------------------------------------------------------------

  predicate IsSpace(c: char) {
    var n := c as int;
    9 <= n <= 13 || 28 <= n <= 32 || n == 0x85 || n == 0xA0 || n == 0x1680 || 0x2000 <= n <= 0x200A
    || n == 0x2028 || n == 0x2029 || n == 0x202F || n == 0x205F || n == 0x3000
  }

  function StripLeft(s: string): (r: string)
    ensures |r| <= |s|
  {
    if s != "" && IsSpace(s[0]) then StripLeft(s[1..]) else s
  }

  function StripRight(s: string): (r: string)
    ensures |r| <= |s|
  {
    if s != "" && IsSpace(s[|s| - 1]) then StripRight(s[..|s| - 1]) else s
  }

  function Strip(s: string): string {
    StripRight(StripLeft(s))
  }

  /** Leading blanks only. */
  function SkipBlanks(s: string): (r: string) {
    if s != "" && s[0] == ' ' then SkipBlanks(s[1..]) else s
  }

  /** The first colon, or the end. */
  function Colon(s: string): (i: nat)
    ensures i <= |s| && (i < |s| <==> ':' in s)
    ensures ':' !in s[..i] && (i < |s| ==> s[i] == ':')
  {
    if s == "" || s[0] == ':' then 0 else
      assert s == [s[0]] + s[1..];
      1 + Colon(s[1..])
  }

  function KeyOf(s: string): string {
    Strip(s[..Colon(s)])
  }

  function AfterColon(s: string): string {
    if Colon(s) < |s| then s[Colon(s) + 1..] else ""
  }

  predicate IsItem(content: string) {
    content == "-" || "- " <= content
  }

  function ItemText(content: string): string {
    if content == "" then "" else SkipBlanks(content[1..])
  }

  /** "key: value" inside a list item. */
  predicate IsInlineMap(text: string) {
    text != "" && ':' in text && text[0] != '\'' && text[0] != '"'
  }

  // ---- Dictionaries in insertion order -----------------------------------------------------

  function Put(m: seq<(string, Value)>, key: string, v: Value): (r: seq<(string, Value)>)
    ensures forall i | 0 <= i < |m| && m[i].0 != key :: i < |r| && r[i] == m[i]
  {
    if m == [] then [(key, v)]
    else if m[0].0 == key then [(key, v)] + m[1..]
    else [m[0]] + Put(m[1..], key, v)
  }

  function Update(m: seq<(string, Value)>, more: seq<(string, Value)>): seq<(string, Value)>
    decreases |more|
  {
    if more == [] then m else Update(Put(m, more[0].0, more[0].1), more[1..])
  }

  function Extend(acc: Value, cell: Cell): Value {
    match (acc, cell)
    case (List(items), Element(v)) => List(items + [v])
    case (Map(entries), Binding(key, v)) => Map(Put(entries, key, v))
    case _ => acc
  }

  function Empty(list: bool): Value {
    if list then List([]) else Map([])
  }

  // ---- The parser ----------------------------------------------------------------------------

  predicate Deeper(ls: seq<Line>, indent: nat) {
    ls != [] && ls[0].indent > indent
  }

  /** _parse_block on the lines from its position on. */
  function Block(ps: Scalars, ls: seq<Line>, indent: nat): (r: Outcome<Parsed>)
    ensures r.Ok? ==> r.value.used <= |ls|
    decreases |ls|, 3
  {
    if ls == [] then Ok(Parsed(Null, 0))
    else Loop(ps, IsItem(ls[0].content), ls, indent, Empty(IsItem(ls[0].content)))
  }

  /** Its while loop. */
  function Loop(ps: Scalars, list: bool, ls: seq<Line>, indent: nat, acc: Value): (r: Outcome<Parsed>)
    ensures r.Ok? ==> r.value.used <= |ls|
    decreases |ls|, 2
  {
    if ls == [] || ls[0].indent < indent then Ok(Parsed(acc, 0))
    else if ls[0].indent > indent then Fail(UnexpectedIndentation)
    else if IsItem(ls[0].content) != list then Ok(Parsed(acc, 0))
    else
      match RowAt(ps, list, ls, indent)
      case Fail(e) => Fail(e)
      case Ok((cell, used)) => After(used, Loop(ps, list, ls[used..], indent, Extend(acc, cell)))
  }

  function After(used: nat, r: Outcome<Parsed>): Outcome<Parsed> {
    match r
    case Fail(e) => Fail(e)
    case Ok(p) => Ok(Parsed(p.value, used + p.used))
  }

  /** A row may have a block below it. */
  predicate Opens(list: bool, content: string) {
    if list then ItemText(content) == "" || IsInlineMap(ItemText(content)) else Strip(AfterColon(content)) == ""
  }

  /** The scalar on a row. */
  function Reads(ps: Scalars, list: bool, content: string): Outcome<Value> {
    if list then
      var text := ItemText(content);
      if text == "" then Ok(Null) else if IsInlineMap(text) then ps(Strip(AfterColon(text))) else ps(Strip(text))
    else
      var text := Strip(AfterColon(content));
      if ':' !in content then Fail(MissingColon) else if text == "" then Ok(Null) else ps(text)
  }

  /** The scalar on a row and the block below it, together. */
  function Join(list: bool, content: string, scalar: Value, child: Option<Value>): (r: Outcome<Cell>)
    ensures r.Ok? ==> if list then r.value.Element? else r.value.Binding?
    ensures r.Fail? ==> list && IsInlineMap(ItemText(content)) && child.Some? && !child.value.Map?
  {
    var below := match child case None => Null case Some(v) => v;
    if list then
      var text := ItemText(content);
      if text == "" then Ok(Element(below))
      else if IsInlineMap(text) then
        var first := [(KeyOf(text), scalar)];
        match child
        case None => Ok(Element(Map(first)))
        case Some(Map(more)) => Ok(Element(Map(Update(first, more))))
        case Some(_) => Fail(NotMapping)
      else Ok(Element(scalar))
    else Ok(Binding(KeyOf(content), if Strip(AfterColon(content)) == "" then below else scalar))
  }

  function Took(used: nat, r: Outcome<Cell>): Outcome<(Cell, nat)> {
    match r
    case Fail(e) => Fail(e)
    case Ok(cell) => Ok((cell, used))
  }

  /** One turn of the loop. */
  function RowAt(ps: Scalars, list: bool, ls: seq<Line>, indent: nat): (r: Outcome<(Cell, nat)>)
    requires ls != []
    ensures r.Ok? ==> 1 <= r.value.1 <= |ls|
    decreases |ls|, 1
  {
    match Reads(ps, list, ls[0].content)
    case Fail(e) => Fail(e)
    case Ok(scalar) =>
      if Opens(list, ls[0].content) && Deeper(ls[1..], indent) then
        match Block(ps, ls[1..], ls[1].indent)
        case Fail(e) => Fail(e)
        case Ok(p) => Took(1 + p.used, Join(list, ls[0].content, scalar, Some(p.value)))
      else Took(1, Join(list, ls[0].content, scalar, None))
  }

  /** parse_yaml_subset after its lines are split. */
  function Parse(ps: Scalars, lines: seq<Line>): Outcome<Value> {
    if lines == [] then Ok(Map([]))
    else
      match Block(ps, lines, lines[0].indent)
      case Fail(e) => Fail(e)
      case Ok(p) => if p.used == |lines| then Ok(p.value) else Fail(TrailingContent)
  }

  // ---- The documents ---------------------------------------------------------------------------

  /** A block of rows, each with the block below it. */
  datatype Tree = Nothing | Branch(list: bool, indent: nat, rows: Rows)
  datatype Rows = Done | Row(content: string, child: Tree, rest: Rows)

  /** Every line of a document, in order. */
  function Render(t: Tree): seq<Line>
    decreases t, 0
  {
    match t
    case Nothing => []
    case Branch(_, indent, rows) => RenderRows(indent, rows)
  }

  function RenderRows(indent: nat, rows: Rows): seq<Line>
    decreases rows
  {
    match rows
    case Done => []
    case Row(content, child, rest) => [Line(indent, content)] + (Render(child) + RenderRows(indent, rest))
  }

  predicate WellFormed(ps: Scalars, t: Tree)
    decreases t, 0
  {
    match t
    case Nothing => true
    case Branch(list, indent, rows) => rows.Row? && RowsFormed(ps, list, indent, rows)
  }

  predicate RowsFormed(ps: Scalars, list: bool, indent: nat, rows: Rows)
    decreases rows
  {
    match rows
    case Done => true
    case Row(content, child, rest) =>
      RowFormed(ps, list, indent, content, child) && WellFormed(ps, child) && RowsFormed(ps, list, indent, rest)
  }

  /** What a row may say, and what may stand below it. */
  predicate RowFormed(ps: Scalars, list: bool, indent: nat, content: string, child: Tree) {
    match child
    case Nothing => IsItem(content) == list && Reads(ps, list, content).Ok?
    case Branch(below, deeper, _) =>
      IsItem(content) == list && Reads(ps, list, content).Ok? && Opens(list, content) && deeper > indent
      && !(below && list && IsInlineMap(ItemText(content)))
  }

  /** The value a document stands for. */
  function Eval(ps: Scalars, t: Tree): (v: Value)
    requires WellFormed(ps, t) && t.Branch?
    ensures if t.list then v.List? else v.Map?
  {
    EvalRows(ps, t.list, t.indent, t.rows, Empty(t.list))
  }

  function EvalRows(ps: Scalars, list: bool, indent: nat, rows: Rows, acc: Value): (v: Value)
    requires RowsFormed(ps, list, indent, rows)
    requires if list then acc.List? else acc.Map?
    ensures if list then v.List? else v.Map?
    decreases rows
  {
    match rows
    case Done => acc
    case Row(content, child, rest) =>
      EvalRows(ps, list, indent, rest, Extend(acc, EvalRow(ps, list, indent, content, child)))
  }

  function EvalRow(ps: Scalars, list: bool, indent: nat, content: string, child: Tree): (cell: Cell)
    requires RowFormed(ps, list, indent, content, child) && WellFormed(ps, child)
    ensures if list then cell.Element? else cell.Binding?
    decreases child, 1
  {
    Join(list, content, Reads(ps, list, content).value, Below(ps, child)).value
  }

  function Below(ps: Scalars, child: Tree): (r: Option<Value>)
    requires WellFormed(ps, child)
    ensures child.Branch? ==> r.Some? && if child.list then r.value.List? else r.value.Map?
    decreases child, 0
  {
    match child
    case Nothing => None
    case Branch(list, indent, rows) => Some(EvalRows(ps, list, indent, rows, Empty(list)))
  }

  // ---- Every document is read back ---------------------------------------------------------------

  /** The lines that follow end a block of this kind and depth. */
  predicate Stops(list: bool, indent: nat, post: seq<Line>) {
    post == [] || post[0].indent < indent || (post[0].indent == indent && IsItem(post[0].content) != list)
  }

  lemma {:induction false} Complete(ps: Scalars, t: Tree, post: seq<Line>)
    requires WellFormed(ps, t) && t.Branch? && Stops(t.list, t.indent, post)
    ensures Block(ps, Render(t) + post, t.indent) == Ok(Parsed(Eval(ps, t), |Render(t)|))
    decreases t, 0
  {
    CompleteRows(ps, t.list, t.indent, t.rows, post, Empty(t.list));
    assert (Render(t) + post)[0] == Line(t.indent, t.rows.content);
  }

  lemma LoopEnds(ps: Scalars, list: bool, post: seq<Line>, indent: nat, acc: Value)
    requires Stops(list, indent, post)
    ensures Reaches(ps, list, post, indent, acc, acc, 0)
  {
  }

  /** The loop reads the rows on ls and stops with acc extended to v. */
  predicate Reaches(ps: Scalars, list: bool, ls: seq<Line>, indent: nat, acc: Value, v: Value, used: nat) {
    match Loop(ps, list, ls, indent, acc)
    case Fail(_) => false
    case Ok(p) => p == Parsed(v, used)
  }

  lemma Cut(line: Line, child: seq<Line>, rest: seq<Line>, post: seq<Line>)
    ensures ([line] + (child + rest)) + post == [line] + (child + (rest + post))
    ensures ([line] + (child + (rest + post)))[1 + |child|..] == rest + post
  {
  }

  /** A row that is read, before rows that are read. */
  lemma RowThenRest(ps: Scalars, list: bool, indent: nat, rows: Rows, post: seq<Line>, acc: Value, cell: Cell, v: Value)
    requires rows.Row? && IsItem(rows.content) == list
    requires RowAt(ps, list, [Line(indent, rows.content)] + (Render(rows.child) + (RenderRows(indent, rows.rest) + post)), indent)
          == Ok((cell, 1 + |Render(rows.child)|))
    requires Reaches(ps, list, RenderRows(indent, rows.rest) + post, indent, Extend(acc, cell), v, |RenderRows(indent, rows.rest)|)
    ensures Reaches(ps, list, RenderRows(indent, rows) + post, indent, acc, v, |RenderRows(indent, rows)|)
  {
    var line := Line(indent, rows.content);
    Cut(line, Render(rows.child), RenderRows(indent, rows.rest), post);
  }

  lemma {:induction false} CompleteRows(ps: Scalars, list: bool, indent: nat, rows: Rows, post: seq<Line>, acc: Value)
    requires RowsFormed(ps, list, indent, rows) && Stops(list, indent, post)
    requires if list then acc.List? else acc.Map?
    ensures Reaches(ps, list, RenderRows(indent, rows) + post, indent, acc,
                    EvalRows(ps, list, indent, rows, acc), |RenderRows(indent, rows)|)
    decreases rows
  {
    if rows.Done? {
      LoopEnds(ps, list, post, indent, acc);
      assert [] + post == post;
    } else {
      CompleteRow(ps, list, indent, rows.content, rows.child, RenderRows(indent, rows.rest) + post);
      var cell := EvalRow(ps, list, indent, rows.content, rows.child);
      CompleteRows(ps, list, indent, rows.rest, post, Extend(acc, cell));
      RowThenRest(ps, list, indent, rows, post, acc, cell, EvalRows(ps, list, indent, rows.rest, Extend(acc, cell)));
    }
  }

  lemma RowAbove(ps: Scalars, list: bool, ls: seq<Line>, indent: nat, child: Tree)
    requires ls != [] && child.Branch? && WellFormed(ps, child) && RowFormed(ps, list, indent, ls[0].content, child)
    requires |ls| > 1 && ls[1].indent == child.indent
    requires Block(ps, ls[1..], child.indent) == Ok(Parsed(Eval(ps, child), |Render(child)|))
    ensures RowAt(ps, list, ls, indent) == Ok((EvalRow(ps, list, indent, ls[0].content, child), 1 + |Render(child)|))
  {
  }

  lemma {:induction false} CompleteRow(ps: Scalars, list: bool, indent: nat, content: string, child: Tree, next: seq<Line>)
    requires RowFormed(ps, list, indent, content, child) && WellFormed(ps, child) && !Deeper(next, indent)
    ensures RowAt(ps, list, [Line(indent, content)] + (Render(child) + next), indent)
         == Ok((EvalRow(ps, list, indent, content, child), 1 + |Render(child)|))
    decreases child, 1
  {
    var ls := [Line(indent, content)] + (Render(child) + next);
    assert ls[1..] == Render(child) + next;
    if child.Nothing? {
      assert Render(child) + next == next;
    } else {
      Complete(ps, child, next);
      assert ls[1] == Line(child.indent, child.rows.content);
      RowAbove(ps, list, ls, indent, child);
    }
  }

  // ---- Only documents are read ---------------------------------------------------------------------

  lemma {:induction false} Sound(ps: Scalars, ls: seq<Line>, indent: nat) returns (t: Tree)
    requires ls != [] && ls[0].indent == indent && Block(ps, ls, indent).Ok?
    ensures WellFormed(ps, t) && t.Branch? && t.indent == indent
    ensures Block(ps, ls, indent) == Ok(Parsed(Eval(ps, t), |Render(t)|)) && Render(t) <= ls
    decreases |ls|, 3
  {
    var list := IsItem(ls[0].content);
    var rows := SoundRows(ps, list, ls, indent, Empty(list));
    t := Branch(list, indent, rows);
    if rows.Done? {
      assert false;
    }
  }

  lemma Paste(line: Line, child: seq<Line>, rest: seq<Line>, ls: seq<Line>)
    requires ls != [] && line == ls[0] && 1 + |child| <= |ls|
    requires ls[1..1 + |child|] == child && rest <= ls[1 + |child|..]
    ensures [line] + (child + rest) <= ls
  {
    assert ls == [line] + (ls[1..1 + |child|] + ls[1 + |child|..]);
  }

  /** The first row of ls was read, with this block below it. */
  ghost predicate RowRead(ps: Scalars, list: bool, ls: seq<Line>, indent: nat, child: Tree, cell: Cell)
    requires ls != []
  {
    match RowAt(ps, list, ls, indent)
    case Fail(_) => false
    case Ok((c, used)) =>
      && RowFormed(ps, list, indent, ls[0].content, child) && WellFormed(ps, child)
      && c == cell == EvalRow(ps, list, indent, ls[0].content, child)
      && used == 1 + |Render(child)| && ls[1..used] == Render(child)
  }

  /** These rows were read from the start of ls. */
  ghost predicate RowsRead(ps: Scalars, list: bool, ls: seq<Line>, indent: nat, acc: Value, rows: Rows) {
    match Loop(ps, list, ls, indent, acc)
    case Fail(_) => false
    case Ok(p) =>
      && RowsFormed(ps, list, indent, rows) && RenderRows(indent, rows) <= ls
      && (if list then acc.List? else acc.Map?)
      && p == Parsed(EvalRows(ps, list, indent, rows, acc), |RenderRows(indent, rows)|)
  }

  /** A formed row before formed rows. */
  lemma RowMeans(ps: Scalars, list: bool, indent: nat, rows: Rows, acc: Value, cell: Cell)
    requires rows.Row? && RowFormed(ps, list, indent, rows.content, rows.child) && WellFormed(ps, rows.child)
    requires EvalRow(ps, list, indent, rows.content, rows.child) == cell && RowsFormed(ps, list, indent, rows.rest)
    requires if list then acc.List? else acc.Map?
    ensures RowsFormed(ps, list, indent, rows)
    ensures EvalRows(ps, list, indent, rows, acc) == EvalRows(ps, list, indent, rows.rest, Extend(acc, cell))
  {
  }

  lemma RowBeforeRest(ps: Scalars, list: bool, ls: seq<Line>, indent: nat, acc: Value, child: Tree, cell: Cell, rest: Rows)
    requires ls != [] && ls[0].indent == indent && IsItem(ls[0].content) == list
    requires RowRead(ps, list, ls, indent, child, cell) && if list then acc.List? else acc.Map?
    requires 1 + |Render(child)| <= |ls| && RowsRead(ps, list, ls[1 + |Render(child)|..], indent, Extend(acc, cell), rest)
    ensures RowsRead(ps, list, ls, indent, acc, Row(ls[0].content, child, rest))
  {
    var rows := Row(ls[0].content, child, rest);
    Paste(ls[0], Render(child), RenderRows(indent, rest), ls);
    RowMeans(ps, list, indent, rows, acc, cell);
  }

  lemma LoopTook(ps: Scalars, list: bool, ls: seq<Line>, indent: nat, acc: Value, child: Tree, cell: Cell)
    requires Loop(ps, list, ls, indent, acc).Ok?
    requires ls != [] && ls[0].indent == indent && IsItem(ls[0].content) == list
    requires RowRead(ps, list, ls, indent, child, cell) && if list then acc.List? else acc.Map?
    ensures 1 + |Render(child)| <= |ls| && Loop(ps, list, ls[1 + |Render(child)|..], indent, Extend(acc, cell)).Ok?
    ensures if list then Extend(acc, cell).List? else Extend(acc, cell).Map?
  {
  }

  lemma {:induction false} SoundRows(ps: Scalars, list: bool, ls: seq<Line>, indent: nat, acc: Value) returns (rows: Rows)
    requires Loop(ps, list, ls, indent, acc).Ok?
    requires if list then acc.List? else acc.Map?
    ensures RowsRead(ps, list, ls, indent, acc, rows)
    ensures ls != [] && ls[0].indent == indent && IsItem(ls[0].content) == list ==> rows.Row?
    decreases |ls|, 2
  {
    if ls != [] && ls[0].indent == indent && IsItem(ls[0].content) == list {
      var child := SoundRow(ps, list, ls, indent);
      var cell := EvalRow(ps, list, indent, ls[0].content, child);
      LoopTook(ps, list, ls, indent, acc, child, cell);
      var rest := SoundRows(ps, list, ls[1 + |Render(child)|..], indent, Extend(acc, cell));
      rows := Row(ls[0].content, child, rest);
      RowBeforeRest(ps, list, ls, indent, acc, child, cell, rest);
    } else {
      rows := Done;
    }
  }

  lemma {:induction false} SoundRow(ps: Scalars, list: bool, ls: seq<Line>, indent: nat) returns (child: Tree)
    requires ls != [] && ls[0].indent == indent && IsItem(ls[0].content) == list
    requires RowAt(ps, list, ls, indent).Ok?
    ensures RowFormed(ps, list, indent, ls[0].content, child) && WellFormed(ps, child)
    ensures RowAt(ps, list, ls, indent) == Ok((EvalRow(ps, list, indent, ls[0].content, child), 1 + |Render(child)|))
    ensures 1 + |Render(child)| <= |ls| && ls[1..1 + |Render(child)|] == Render(child)
    decreases |ls|, 1
  {
    if Opens(list, ls[0].content) && Deeper(ls[1..], indent) {
      child := Sound(ps, ls[1..], ls[1].indent);
      RowOver(ps, list, ls, indent, child);
      assert ls[1..][..|Render(child)|] == ls[1..1 + |Render(child)|];
    } else {
      child := Nothing;
    }
  }

  /** A row that was read with the block below it. */
  lemma RowOver(ps: Scalars, list: bool, ls: seq<Line>, indent: nat, child: Tree)
    requires ls != [] && IsItem(ls[0].content) == list && RowAt(ps, list, ls, indent).Ok?
    requires Opens(list, ls[0].content) && Deeper(ls[1..], indent)
    requires child.Branch? && WellFormed(ps, child) && child.indent == ls[1].indent
    requires Block(ps, ls[1..], ls[1].indent) == Ok(Parsed(Eval(ps, child), |Render(child)|))
    ensures RowFormed(ps, list, indent, ls[0].content, child)
    ensures RowAt(ps, list, ls, indent) == Ok((EvalRow(ps, list, indent, ls[0].content, child), 1 + |Render(child)|))
  {
  }

  /** The tree stands on exactly these lines and means this value. */
  ghost predicate Document(ps: Scalars, t: Tree, lines: seq<Line>, v: Value) {
    WellFormed(ps, t) && t.Branch? && Render(t) == lines && Eval(ps, t) == v
  }

  /** A parse succeeds exactly on the documents, and takes each of their lines once. */
  lemma ParseExact(ps: Scalars, lines: seq<Line>, v: Value)
    ensures Parse(ps, lines) == Ok(v) <==>
            if lines == [] then v == Map([]) else exists t :: Document(ps, t, lines, v)
  {
    if lines != [] && Parse(ps, lines) == Ok(v) {
      var t := Sound(ps, lines, lines[0].indent);
      assert Document(ps, t, lines, v);
    }
    forall t | Document(ps, t, lines, v) && lines != []
      ensures Parse(ps, lines) == Ok(v)
    {
      Complete(ps, t, []);
      assert Render(t) + [] == lines && lines[0].indent == t.indent;
    }
  }
}
