/** Writing a tree of maps, lists and scalars as lines, and reading it back. */
module YamlRoundTrip {
  import opened Basics
  import opened Yaml

  /** How a scalar is written. */
  type Writer = Value -> string

  predicate IsScalar(v: Value) {
    !v.List? && !v.Map?
  }

  /** The text stands for the scalar and has no blanks around it. */
  predicate GoodText(ps: Scalars, show: Writer, v: Value) {
    var t := show(v);
    t != "" && !IsSpace(t[0]) && !IsSpace(t[|t| - 1]) && ps(t) == Ok(v)
  }

  predicate GoodKey(key: string) {
    ':' !in key && Strip(key) == key && !("- " <= key)
  }

  ghost predicate DistinctKeys(m: seq<(string, Value)>) {
    forall i, j | 0 <= i < j < |m| :: m[i].0 != m[j].0
  }

  /** Trees without empty lists or maps, whose keys and scalars can be written. */
  ghost predicate Writable(ps: Scalars, show: Writer, v: Value)
    decreases v, 0
  {
    match v
    case List(items) =>
      items != [] && forall i | 0 <= i < |items| :: ItemWritable(ps, show, items[i])
    case Map(entries) =>
      entries != [] && DistinctKeys(entries)
      && forall i | 0 <= i < |entries| :: GoodKey(entries[i].0) && Writable(ps, show, entries[i].1)
    case _ => GoodText(ps, show, v)
  }

  /** A scalar in a list must not read as an inline map. */
  ghost predicate ItemWritable(ps: Scalars, show: Writer, v: Value)
    decreases v, 1
  {
    Writable(ps, show, v) && (IsScalar(v) ==> !IsInlineMap(show(v)))
  }

  // ---- Layouts -----------------------------------------------------------------------------

  /** The tree writes v, each block anywhere deeper than the row above it. */
  ghost predicate LaysOut(show: Writer, t: Tree, v: Value)
    decreases t, 1
  {
    match t
    case Nothing => false
    case Branch(list, indent, rows) =>
      match v
      case List(items) => list && LaysItems(show, indent, rows, items)
      case Map(entries) => !list && LaysEntries(show, indent, rows, entries)
      case _ => false
  }

  ghost predicate LaysItems(show: Writer, indent: nat, rows: Rows, items: seq<Value>)
    decreases rows, 0
  {
    match rows
    case Done => items == []
    case Row(content, child, rest) =>
      && items != [] && LaysItems(show, indent, rest, items[1..])
      && (LaysValue(show, indent, "-", content, child, items[0]) || LaysInline(show, indent, content, child, items[0]))
  }

  ghost predicate LaysEntries(show: Writer, indent: nat, rows: Rows, entries: seq<(string, Value)>)
    decreases rows, 0
  {
    match rows
    case Done => entries == []
    case Row(content, child, rest) =>
      entries != [] && LaysValue(show, indent, entries[0].0 + ":", content, child, entries[0].1)
      && LaysEntries(show, indent, rest, entries[1..])
  }

  /** A scalar follows its mark on the row; a block stands below it. */
  ghost predicate LaysValue(show: Writer, indent: nat, mark: string, content: string, child: Tree, v: Value)
    decreases child, 2
  {
    match child
    case Nothing => IsScalar(v) && content == mark + " " + show(v)
    case Branch(_, deeper, _) => content == mark && deeper > indent && LaysOut(show, child, v)
  }

  /** A map in a list may start on the row of its item: a first key that is not quoted,
      with its scalar, and the other entries in a block below. */
  ghost predicate LaysInline(show: Writer, indent: nat, content: string, child: Tree, v: Value)
    decreases child, 2
  {
    && v.Map? && v.entries != [] && IsScalar(v.entries[0].1) && Unquoted(v.entries[0].0)
    && content == "-" + " " + (v.entries[0].0 + ":" + " " + show(v.entries[0].1))
    && match child
       case Nothing => |v.entries| == 1
       case Branch(list, deeper, rows) =>
         |v.entries| > 1 && !list && deeper > indent && LaysEntries(show, deeper, rows, v.entries[1..])
  }

  predicate Unquoted(key: string) {
    key != "" ==> key[0] != '\'' && key[0] != '"'
  }

  /** One layout: every block under a value stands gap(value) columns beyond the next one,
      and a map in a list starts on the row of its item where that is wanted and possible. */
  function LayOut(show: Writer, gap: Value -> nat, inline: Value -> bool, indent: nat, v: Value): Tree
    requires v.List? || v.Map?
    decreases v, 1
  {
    match v
    case List(items) => Branch(true, indent, LayItems(show, gap, inline, indent, v, items))
    case Map(entries) => Branch(false, indent, LayEntries(show, gap, inline, indent, v, entries))
  }

  predicate MayInline(v: Value) {
    v.Map? && v.entries != [] && IsScalar(v.entries[0].1) && Unquoted(v.entries[0].0)
  }

  function LayItems(show: Writer, gap: Value -> nat, inline: Value -> bool, indent: nat, whole: Value, items: seq<Value>): Rows
    requires forall i | 0 <= i < |items| :: items[i] < whole
    decreases whole, 0, |items|
  {
    if items == [] then Done
    else if IsScalar(items[0]) then
      Row("-" + " " + show(items[0]), Nothing, LayItems(show, gap, inline, indent, whole, items[1..]))
    else if inline(items[0]) && MayInline(items[0]) then
      var entries := items[0].entries;
      Row("-" + " " + (entries[0].0 + ":" + " " + show(entries[0].1)),
          if |entries| == 1 then Nothing
          else
            var deeper := indent + 1 + gap(items[0]);
            Branch(false, deeper, LayEntries(show, gap, inline, deeper, items[0], entries[1..])),
          LayItems(show, gap, inline, indent, whole, items[1..]))
    else
      Row("-", LayOut(show, gap, inline, indent + 1 + gap(items[0]), items[0]), LayItems(show, gap, inline, indent, whole, items[1..]))
  }

  function LayEntries(show: Writer, gap: Value -> nat, inline: Value -> bool, indent: nat, whole: Value, entries: seq<(string, Value)>): Rows
    requires forall i | 0 <= i < |entries| :: entries[i].1 < whole
    decreases whole, 0, |entries|
  {
    if entries == [] then Done
    else if IsScalar(entries[0].1) then
      Row(entries[0].0 + ":" + " " + show(entries[0].1), Nothing, LayEntries(show, gap, inline, indent, whole, entries[1..]))
    else
      Row(entries[0].0 + ":", LayOut(show, gap, inline, indent + 1 + gap(entries[0].1), entries[0].1),
          LayEntries(show, gap, inline, indent, whole, entries[1..]))
  }

  // ---- What the rows say ---------------------------------------------------------------------

  lemma ScalarItem(ps: Scalars, show: Writer, v: Value)
    requires GoodText(ps, show, v) && !IsInlineMap(show(v))
    ensures var content := "-" + " " + show(v);
            IsItem(content) && ItemText(content) == show(v) && Reads(ps, true, content) == Ok(v)
  {
    var content, t := "-" + " " + show(v), show(v);
    assert content[1..] == " " + t && (" " + t)[1..] == t;
    assert IsSpace(' ') && SkipBlanks(" " + t) == SkipBlanks(t) == t;
    assert Strip(t) == t;
  }

  lemma {:induction false} ColonAt(key: string, tail: string)
    requires ':' !in key
    ensures Colon(key + ":" + tail) == |key|
    decreases |key|
  {
    var s := key + ":" + tail;
    if key != "" {
      assert s[1..] == key[1..] + ":" + tail && s[0] == key[0];
      ColonAt(key[1..], tail);
    }
  }

  lemma StripTight(t: string)
    requires t != "" && !IsSpace(t[0]) && !IsSpace(t[|t| - 1])
    ensures Strip(" " + t) == t
  {
    assert (" " + t)[1..] == t && (" " + t)[0] == ' ' && IsSpace(' ');
    assert StripLeft(" " + t) == StripLeft(t) == t;
  }

  /** A row that starts with a good key is an entry under that key. */
  lemma KeyRow(key: string, tail: string)
    requires GoodKey(key)
    ensures var content := key + ":" + tail;
            !IsItem(content) && ':' in content && KeyOf(content) == key && AfterColon(content) == tail
  {
    var content := key + ":" + tail;
    ColonAt(key, tail);
    assert content[..|key|] == key && content[|key| + 1..] == tail && content[|key|] == ':';
  }

  lemma BareEntry(ps: Scalars, key: string)
    requires GoodKey(key)
    ensures var content := key + ":";
            !IsItem(content) && KeyOf(content) == key && Strip(AfterColon(content)) == ""
            && Reads(ps, false, content) == Ok(Null)
  {
    KeyRow(key, "");
    assert key + ":" + "" == key + ":";
  }

  lemma ScalarEntry(ps: Scalars, show: Writer, key: string, v: Value)
    requires GoodKey(key) && GoodText(ps, show, v)
    ensures var content := key + ":" + " " + show(v);
            !IsItem(content) && KeyOf(content) == key && Strip(AfterColon(content)) == show(v)
            && Reads(ps, false, content) == Ok(v)
  {
    KeyRow(key, " " + show(v));
    StripTight(show(v));
    assert key + ":" + " " + show(v) == key + ":" + (" " + show(v));
  }

  lemma StripShortens(key: string)
    requires key != "" && IsSpace(key[0])
    ensures |Strip(key)| < |key|
  {
    assert StripLeft(key) == StripLeft(key[1..]);
  }

  lemma ItemOf(text: string)
    requires text != "" && text[0] != ' '
    ensures IsItem("-" + " " + text) && ItemText("-" + " " + text) == text
  {
    var content := "-" + " " + text;
    assert content[1..] == " " + text && (" " + text)[1..] == text;
    assert SkipBlanks(" " + text) == SkipBlanks(text) == text;
  }

  /** What an inline map says on the row of its item. */
  lemma InlineText(show: Writer, key: string, v: Value, text: string)
    requires GoodKey(key) && Unquoted(key) && text == key + ":" + " " + show(v)
    requires show(v) != "" && !IsSpace(show(v)[0]) && !IsSpace(show(v)[|show(v)| - 1])
    ensures IsInlineMap(text) && text[0] != ' ' && KeyOf(text) == key && Strip(AfterColon(text)) == show(v)
  {
    KeyRow(key, " " + show(v));
    StripTight(show(v));
    assert text == key + ":" + (" " + show(v));
    assert text[0] == if key == "" then ':' else key[0];
    if key != "" && IsSpace(key[0]) {
      StripShortens(key);
    }
  }

  lemma InlineItem(ps: Scalars, show: Writer, key: string, v: Value, text: string)
    requires GoodKey(key) && Unquoted(key) && GoodText(ps, show, v) && text == key + ":" + " " + show(v)
    ensures IsItem("-" + " " + text) && ItemText("-" + " " + text) == text && IsInlineMap(text) && KeyOf(text) == key
    ensures Reads(ps, true, "-" + " " + text) == Ok(v)
  {
    InlineText(show, key, v, text);
    ItemOf(text);
  }

  // ---- Layouts are documents that mean their value ---------------------------------------------

  ghost predicate Means(ps: Scalars, t: Tree, v: Value) {
    match t
    case Nothing => false
    case Branch(list, _, _) => WellFormed(ps, t) && Eval(ps, t) == v && list == v.List?
  }

  lemma {:induction false} LayoutMeans(ps: Scalars, show: Writer, t: Tree, v: Value)
    requires LaysOut(show, t, v) && Writable(ps, show, v)
    ensures Means(ps, t, v)
    decreases t, 1
  {
    match v
    case List(items) =>
      ItemsMean(ps, show, t.indent, t.rows, items, []);
      assert [] + items == items;
    case Map(entries) =>
      EntriesMean(ps, show, t.indent, t.rows, entries, []);
      assert [] + entries == entries;
    case _ =>
  }

  lemma {:induction false} ItemMeans(ps: Scalars, show: Writer, indent: nat, content: string, child: Tree, v: Value)
    requires LaysValue(show, indent, "-", content, child, v) && ItemWritable(ps, show, v)
    ensures RowFormed(ps, true, indent, content, child) && WellFormed(ps, child)
    ensures EvalRow(ps, true, indent, content, child) == Element(v)
    decreases child, 2
  {
    if child.Nothing? {
      ScalarItem(ps, show, v);
    } else {
      LayoutMeans(ps, show, child, v);
    }
  }

  lemma {:induction false} UpdateNew(m: seq<(string, Value)>, more: seq<(string, Value)>)
    requires DistinctKeys(m + more)
    ensures Update(m, more) == m + more
    decreases |more|
  {
    if more == [] {
      assert m + more == m;
    } else {
      PutNext(m, more);
      UpdateNew(m + [more[0]], more[1..]);
    }
  }

  /** An inline map and the entries below it are one map. */
  lemma InlineJoin(content: string, text: string, key: string, scalar: Value, more: seq<(string, Value)>)
    requires ItemText(content) == text && IsInlineMap(text) && KeyOf(text) == key && DistinctKeys([(key, scalar)] + more)
    ensures Join(true, content, scalar, Some(Map(more))) == Ok(Element(Map([(key, scalar)] + more)))
    ensures Join(true, content, scalar, None) == Ok(Element(Map([(key, scalar)])))
  {
    UpdateNew([(key, scalar)], more);
  }

  lemma {:induction false} InlineMeans(ps: Scalars, show: Writer, indent: nat, content: string, child: Tree, v: Value)
    requires LaysInline(show, indent, content, child, v) && Writable(ps, show, v)
    ensures RowFormed(ps, true, indent, content, child) && WellFormed(ps, child)
    ensures EvalRow(ps, true, indent, content, child) == Element(v)
    decreases child, 2
  {
    var first, more := v.entries[0], v.entries[1..];
    var text := first.0 + ":" + " " + show(first.1);
    assert v.entries == [first] + more;
    InlineItem(ps, show, first.0, first.1, text);
    InlineJoin(content, text, first.0, first.1, more);
    if child.Branch? {
      EntriesMean(ps, show, child.indent, child.rows, more, []);
      assert [] + more == more;
      assert Below(ps, child) == Some(Map(more));
    } else {
      assert [first] + more == [first];
    }
  }

  lemma {:induction false} EntryMeans(ps: Scalars, show: Writer, indent: nat, key: string, content: string, child: Tree, v: Value)
    requires LaysValue(show, indent, key + ":", content, child, v) && GoodKey(key) && Writable(ps, show, v)
    ensures RowFormed(ps, false, indent, content, child) && WellFormed(ps, child)
    ensures EvalRow(ps, false, indent, content, child) == Binding(key, v)
    decreases child, 2
  {
    if child.Nothing? {
      ScalarEntry(ps, show, key, v);
    } else {
      BareEntry(ps, key);
      LayoutMeans(ps, show, child, v);
    }
  }

  lemma MoveOver(acc: seq<Value>, items: seq<Value>)
    requires items != []
    ensures acc + [items[0]] + items[1..] == acc + items
  {
  }

  lemma {:induction false} ItemsMean(ps: Scalars, show: Writer, indent: nat, rows: Rows, items: seq<Value>, acc: seq<Value>)
    requires LaysItems(show, indent, rows, items)
    requires forall i | 0 <= i < |items| :: ItemWritable(ps, show, items[i])
    ensures RowsFormed(ps, true, indent, rows)
    ensures EvalRows(ps, true, indent, rows, List(acc)) == List(acc + items)
    decreases rows, 0
  {
    if rows.Row? {
      if LaysValue(show, indent, "-", rows.content, rows.child, items[0]) {
        ItemMeans(ps, show, indent, rows.content, rows.child, items[0]);
      } else {
        InlineMeans(ps, show, indent, rows.content, rows.child, items[0]);
      }
      ItemsMean(ps, show, indent, rows.rest, items[1..], acc + [items[0]]);
      RowMeans(ps, true, indent, rows, List(acc), Element(items[0]));
      MoveOver(acc, items);
    } else {
      assert acc + items == acc;
    }
  }

  lemma {:induction false} PutNew(m: seq<(string, Value)>, key: string, v: Value)
    requires forall i | 0 <= i < |m| :: m[i].0 != key
    ensures Put(m, key, v) == m + [(key, v)]
    decreases |m|
  {
    if m != [] {
      PutNew(m[1..], key, v);
    }
  }

  lemma PutNext(acc: seq<(string, Value)>, entries: seq<(string, Value)>)
    requires entries != [] && DistinctKeys(acc + entries)
    ensures Extend(Map(acc), Binding(entries[0].0, entries[0].1)) == Map(acc + [entries[0]])
    ensures acc + [entries[0]] + entries[1..] == acc + entries
  {
    forall i | 0 <= i < |acc|
      ensures acc[i].0 != entries[0].0
    {
      assert (acc + entries)[i] == acc[i] && (acc + entries)[|acc|] == entries[0];
    }
    PutNew(acc, entries[0].0, entries[0].1);
  }

  lemma {:induction false} EntriesMean(ps: Scalars, show: Writer, indent: nat, rows: Rows,
                                       entries: seq<(string, Value)>, acc: seq<(string, Value)>)
    requires LaysEntries(show, indent, rows, entries) && DistinctKeys(acc + entries)
    requires forall i | 0 <= i < |entries| :: GoodKey(entries[i].0) && Writable(ps, show, entries[i].1)
    ensures RowsFormed(ps, false, indent, rows)
    ensures EvalRows(ps, false, indent, rows, Map(acc)) == Map(acc + entries)
    decreases rows, 0
  {
    if rows.Row? {
      EntryMeans(ps, show, indent, entries[0].0, rows.content, rows.child, entries[0].1);
      PutNext(acc, entries);
      EntriesMean(ps, show, indent, rows.rest, entries[1..], acc + [entries[0]]);
      RowMeans(ps, false, indent, rows, Map(acc), Binding(entries[0].0, entries[0].1));
    } else {
      assert acc + entries == acc;
    }
  }

  /** Whatever the indentation, a written tree reads back as itself, all lines taken. */
  lemma RoundTrip(ps: Scalars, show: Writer, t: Tree, v: Value)
    requires Writable(ps, show, v) && LaysOut(show, t, v)
    ensures Parse(ps, Render(t)) == Ok(v)
  {
    LayoutMeans(ps, show, t, v);
    assert t.rows.Row? && |RenderRows(t.indent, t.rows)| > 0;
    assert Document(ps, t, Render(t), v);
    ParseExact(ps, Render(t), v);
  }

  /** A scalar in a list is read back exactly when its text does not read as an inline map. */
  lemma ListScalarExact(ps: Scalars, show: Writer, indent: nat, v: Value)
    requires IsScalar(v) && GoodText(ps, show, v)
    ensures Parse(ps, [Line(indent, "-" + " " + show(v))]) == Ok(List([v])) <==> !IsInlineMap(show(v))
  {
    var content := "-" + " " + show(v);
    var t := Branch(true, indent, Row(content, Nothing, Done));
    assert RenderRows(indent, Done) == [] && Render(Nothing) == [];
    assert RenderRows(indent, t.rows) == [Line(indent, content)];
    if IsInlineMap(show(v)) {
      assert content[1..] == " " + show(v) && (" " + show(v))[1..] == show(v);
      assert IsSpace(' ') && ItemText(content) == SkipBlanks(show(v)) == show(v);
      OnlyRow(ps, indent, content);
    } else {
      assert LaysItems(show, indent, t.rows, [v]) by {
        assert LaysItems(show, indent, Done, [v][1..]);
      }
      assert Writable(ps, show, List([v]));
      RoundTrip(ps, show, t, List([v]));
    }
  }

  /** A document of one inline map is never a list of a scalar. */
  lemma OnlyRow(ps: Scalars, indent: nat, content: string)
    requires IsItem(content) && IsInlineMap(ItemText(content))
    ensures Parse(ps, [Line(indent, content)]).Ok? ==>
            exists m :: Parse(ps, [Line(indent, content)]) == Ok(List([Map(m)]))
  {
    var ls := [Line(indent, content)];
    assert ls[1..] == [];
    var row := RowAt(ps, true, ls, indent);
    if row.Ok? {
      assert row.value.0.v.Map? && row.value.1 == 1;
      LoopEnds(ps, true, [], indent, Extend(List([]), row.value.0));
      assert Extend(List([]), row.value.0) == List([row.value.0.v]);
      assert Block(ps, ls, indent) == Ok(Parsed(List([Map(row.value.0.v.entries)]), 1));
    }
  }

  // ---- Every writable tree has layouts ------------------------------------------------------------

  lemma {:induction false} LayOutLays(show: Writer, gap: Value -> nat, inline: Value -> bool, indent: nat, v: Value)
    requires v.List? || v.Map?
    ensures LaysOut(show, LayOut(show, gap, inline, indent, v), v)
    decreases v, 1
  {
    match v
    case List(items) => LayItemsLays(show, gap, inline, indent, v, items);
    case Map(entries) => LayEntriesLays(show, gap, inline, indent, v, entries);
  }

  lemma {:induction false} LayItemsLays(show: Writer, gap: Value -> nat, inline: Value -> bool, indent: nat, whole: Value, items: seq<Value>)
    requires forall i | 0 <= i < |items| :: items[i] < whole
    ensures LaysItems(show, indent, LayItems(show, gap, inline, indent, whole, items), items)
    decreases whole, 0, |items|
  {
    if items != [] {
      if !IsScalar(items[0]) {
        LayOutLays(show, gap, inline, indent + 1 + gap(items[0]), items[0]);
        if MayInline(items[0]) {
          LayEntriesLays(show, gap, inline, indent + 1 + gap(items[0]), items[0], items[0].entries[1..]);
        }
      }
      LayItemsLays(show, gap, inline, indent, whole, items[1..]);
    }
  }

  lemma {:induction false} LayEntriesLays(show: Writer, gap: Value -> nat, inline: Value -> bool, indent: nat, whole: Value,
                                          entries: seq<(string, Value)>)
    requires forall i | 0 <= i < |entries| :: entries[i].1 < whole
    ensures LaysEntries(show, indent, LayEntries(show, gap, inline, indent, whole, entries), entries)
    decreases whole, 0, |entries|
  {
    if entries != [] {
      if !IsScalar(entries[0].1) {
        LayOutLays(show, gap, inline, indent + 1 + gap(entries[0].1), entries[0].1);
      }
      LayEntriesLays(show, gap, inline, indent, whole, entries[1..]);
    }
  }
}
