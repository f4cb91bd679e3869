/** The parser as it runs: a position moving over the lines, a result filled in place. */
module YamlParser {
  import opened Yaml

  /** A cell and the position after its row. */
  function Placed(pos: nat, r: Outcome<(Cell, nat)>): Outcome<(Cell, nat)> {
    match r
    case Fail(e) => Fail(e)
    case Ok((cell, used)) => Ok((cell, pos + used))
  }

  lemma Moved(pos: nat, next: nat, r: Outcome<Parsed>, rest: Outcome<Parsed>)
    requires pos < next && r == After(next - pos, rest)
    ensures After(pos, r) == After(next, rest)
  {
  }

  /** The rest of a loop that has read its row. */
  lemma LoopMoves(ps: Scalars, list: bool, lines: seq<Line>, pos: nat, indent: nat, acc: Value, cell: Cell, next: nat)
    requires pos < next <= |lines| && lines[pos].indent == indent && IsItem(lines[pos].content) == list
    requires Placed(pos, RowAt(ps, list, lines[pos..], indent)) == Ok((cell, next))
    ensures After(pos, Loop(ps, list, lines[pos..], indent, acc)) == After(next, Loop(ps, list, lines[next..], indent, Extend(acc, cell)))
  {
    assert lines[pos..][next - pos..] == lines[next..];
    Moved(pos, next, Loop(ps, list, lines[pos..], indent, acc), Loop(ps, list, lines[next..], indent, Extend(acc, cell)));
  }

  lemma LoopStops(ps: Scalars, list: bool, lines: seq<Line>, pos: nat, indent: nat, acc: Value)
    requires pos <= |lines| && Stops(list, indent, lines[pos..])
    ensures After(pos, Loop(ps, list, lines[pos..], indent, acc)) == Ok(Parsed(acc, pos))
  {
    LoopEnds(ps, list, lines[pos..], indent, acc);
  }

  /** _parse_block; used is the position it returns. */
  method ParseBlock(ps: Scalars, lines: seq<Line>, start: nat, indent: nat) returns (r: Outcome<Parsed>)
    requires start <= |lines|
    ensures r == After(start, Block(ps, lines[start..], indent))
    ensures r.Ok? ==> start <= r.value.used <= |lines|
    decreases |lines| - start, 1
  {
    if start == |lines| {
      return Ok(Parsed(Null, start));
    }
    var list := IsItem(lines[start].content);
    var result, pos := Empty(list), start;
    while pos < |lines|
      invariant start <= pos <= |lines|
      invariant After(start, Block(ps, lines[start..], indent)) == After(pos, Loop(ps, list, lines[pos..], indent, result))
    {
      if lines[pos].indent < indent {
        break;
      }
      if lines[pos].indent > indent {
        return Fail(UnexpectedIndentation);
      }
      if IsItem(lines[pos].content) != list {
        break;
      }
      var row := ParseRow(ps, list, lines, pos, indent);
      if row.Fail? {
        return Fail(row.error);
      }
      LoopMoves(ps, list, lines, pos, indent, result, row.value.0, row.value.1);
      result, pos := Extend(result, row.value.0), row.value.1;
    }
    LoopStops(ps, list, lines, pos, indent, result);
    r := Ok(Parsed(result, pos));
  }

  /** One turn of its loop. */
  method ParseRow(ps: Scalars, list: bool, lines: seq<Line>, pos: nat, indent: nat) returns (r: Outcome<(Cell, nat)>)
    requires pos < |lines|
    ensures r == Placed(pos, RowAt(ps, list, lines[pos..], indent))
    ensures r.Ok? ==> pos < r.value.1 <= |lines|
    decreases |lines| - pos, 0, 1
  {
    if list {
      r := ParseItem(ps, lines, pos, indent);
    } else {
      r := ParseEntry(ps, lines, pos, indent);
    }
  }

  method ParseItem(ps: Scalars, lines: seq<Line>, pos: nat, indent: nat) returns (r: Outcome<(Cell, nat)>)
    requires pos < |lines|
    ensures r == Placed(pos, RowAt(ps, true, lines[pos..], indent))
    ensures r.Ok? ==> pos < r.value.1 <= |lines|
    decreases |lines| - pos, 0, 0
  {
    var text, next := ItemText(lines[pos].content), pos + 1;
    assert lines[pos..][1..] == lines[next..];
    if text == "" {
      if next < |lines| && lines[next].indent > indent {
        var child := ParseBlock(ps, lines, next, lines[next].indent);
        if child.Fail? {
          return Fail(child.error);
        }
        return Ok((Element(child.value.value), child.value.used));
      }
      return Ok((Element(Null), next));
    }
    if IsInlineMap(text) {
      r := ParseInlineMap(ps, lines, pos, indent, text);
      return;
    }
    var scalar := ps(Strip(text));
    if scalar.Fail? {
      return Fail(scalar.error);
    }
    r := Ok((Element(scalar.value), next));
  }

  method ParseInlineMap(ps: Scalars, lines: seq<Line>, pos: nat, indent: nat, text: string) returns (r: Outcome<(Cell, nat)>)
    requires pos < |lines| && text == ItemText(lines[pos].content) && IsInlineMap(text)
    ensures r == Placed(pos, RowAt(ps, true, lines[pos..], indent))
    ensures r.Ok? ==> pos < r.value.1 <= |lines|
    decreases |lines| - pos - 1, 2
  {
    var next := pos + 1;
    assert lines[pos..][1..] == lines[next..];
    var scalar := ps(Strip(AfterColon(text)));
    if scalar.Fail? {
      return Fail(scalar.error);
    }
    var item := [(KeyOf(text), scalar.value)];
    if next < |lines| && lines[next].indent > indent {
      var more := ParseBlock(ps, lines, next, lines[next].indent);
      if more.Fail? {
        return Fail(more.error);
      }
      if !more.value.value.Map? {
        return Fail(NotMapping);
      }
      return Ok((Element(Map(Update(item, more.value.value.entries))), more.value.used));
    }
    r := Ok((Element(Map(item)), next));
  }

  method ParseEntry(ps: Scalars, lines: seq<Line>, pos: nat, indent: nat) returns (r: Outcome<(Cell, nat)>)
    requires pos < |lines|
    ensures r == Placed(pos, RowAt(ps, false, lines[pos..], indent))
    ensures r.Ok? ==> pos < r.value.1 <= |lines|
    decreases |lines| - pos, 0, 0
  {
    var content, next := lines[pos].content, pos + 1;
    assert lines[pos..][1..] == lines[next..];
    if ':' !in content {
      return Fail(MissingColon);
    }
    var key, text := KeyOf(content), Strip(AfterColon(content));
    if text == "" {
      if next < |lines| && lines[next].indent > indent {
        var child := ParseBlock(ps, lines, next, lines[next].indent);
        if child.Fail? {
          return Fail(child.error);
        }
        return Ok((Binding(key, child.value.value), child.value.used));
      }
      return Ok((Binding(key, Null), next));
    }
    var scalar := ps(text);
    if scalar.Fail? {
      return Fail(scalar.error);
    }
    r := Ok((Binding(key, scalar.value), next));
  }

  /** parse_yaml_subset once its lines are split: it returns a value exactly for the
      lines of a document, and then every line was read. */
  method ParseLines(ps: Scalars, lines: seq<Line>) returns (r: Outcome<Value>)
    ensures r == Parse(ps, lines)
    ensures r.Ok? && lines != [] <==> exists t, v :: Document(ps, t, lines, v)
    ensures forall t, v :: Document(ps, t, lines, v) ==> r == Ok(v)
  {
    if lines == [] {
      r := Ok(Map([]));
    } else {
      var block := ParseBlock(ps, lines, 0, lines[0].indent);
      assert lines[0..] == lines;
      if block.Fail? {
        r := Fail(block.error);
      } else if block.value.used != |lines| {
        r := Fail(TrailingContent);
      } else {
        r := Ok(block.value.value);
      }
    }
    DocumentsParse(ps, lines);
  }

  lemma DocumentsParse(ps: Scalars, lines: seq<Line>)
    ensures Parse(ps, lines).Ok? && lines != [] <==> exists t, v :: Document(ps, t, lines, v)
    ensures forall t, v :: Document(ps, t, lines, v) ==> Parse(ps, lines) == Ok(v)
  {
    forall t, v | Document(ps, t, lines, v)
      ensures Parse(ps, lines) == Ok(v) && lines != []
    {
      assert t.rows.Row? && |RenderRows(t.indent, t.rows)| > 0;
      ParseExact(ps, lines, v);
    }
    if Parse(ps, lines).Ok? && lines != [] {
      ParseExact(ps, lines, Parse(ps, lines).value);
    }
  }
}
