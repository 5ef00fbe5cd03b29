/**
  The `summary` command: the channel's expense lines, accepted by the same
  rule as the other handlers but with the value left unconverted, rewritten
  as `- Valor;Descrição;Pessoa` and grouped by person in a dict of lists;
  the reply lists the groups by person name, unless it would be too long.
 */
module SummaryCommand {
  import opened Optional
  import opened Text
  import opened Sorting
  import opened Ledger
  import opened LineParser

  /** The longest result text the reply shows. */
  const MAX_RESULT_LENGTH := 1900

  const NO_MATCH_REPLY := "Sem mensagens no padrão esperado (- Valor;Descrição;Pessoa)"
  const TOO_LONG_REPLY := "Muitas mensagens! Resultado é muito grande para exibir aqui."
  const RESULT_HEADING := "**Resultado:**\n"
  const XLSX_QUESTION := "\n\nDeseja gerar um arquivo .xlsx com o resultado?"

  /** An accepted line: its person and the line rewritten from its fields. */
  datatype Item = Item(person: string, text: string)

  /** A key of `expenses_by_person` with its list of lines. */
  datatype Group = Group(person: string, lines: seq<string>)

  /** One line of the history loop: an accepted line always splits into
      three fields, so it always gives an item. */
  function ItemOf(line: string): Option<Item> {
    if !Accepts(line) then None
    else
      var fs := Fields(line);
      Some(Item(fs[2], Render(fs[0], fs[1], fs[2])))
  }

  function Items(lines: seq<string>): seq<Item> {
    Collect(lines, ItemOf)
  }

  function ItemPersons(items: seq<Item>): (ps: seq<string>)
    ensures |ps| == |items| && forall i :: 0 <= i < |items| ==> ps[i] == items[i].person
  {
    seq(|items|, i requires 0 <= i < |items| => items[i].person)
  }

  /** The texts of `p`'s items, in the order they come. */
  function TextsBy(items: seq<Item>, p: string): seq<string>
    decreases |items|
  {
    if |items| == 0 then []
    else
      var last := items[|items| - 1];
      TextsBy(items[..|items| - 1], p) + (if last.person == p then [last.text] else [])
  }

  /** The keys of the dict, in insertion order. */
  function Keys(groups: seq<Group>): (ks: seq<string>)
    ensures |ks| == |groups| && forall i :: 0 <= i < |groups| ==> ks[i] == groups[i].person
  {
    seq(|groups|, i requires 0 <= i < |groups| => groups[i].person)
  }

  /** `expenses_by_person[p]`, or no lines for a missing key. */
  function LinesOf(groups: seq<Group>, p: string): seq<string>
    decreases |groups|
  {
    if |groups| == 0 then [] else if groups[0].person == p then groups[0].lines else LinesOf(groups[1..], p)
  }

  /** `if person not in d: d[person] = []` then `d[person].append(text)`. */
  function AddItem(groups: seq<Group>, item: Item): seq<Group>
    decreases |groups|
  {
    if |groups| == 0 then [Group(item.person, [item.text])]
    else if groups[0].person == item.person then [Group(item.person, groups[0].lines + [item.text])] + groups[1..]
    else [groups[0]] + AddItem(groups[1..], item)
  }

  /** The dict after the history loop over the items. */
  function Grouped(items: seq<Item>): seq<Group>
    decreases |items|
  {
    if |items| == 0 then [] else AddItem(Grouped(items[..|items| - 1]), items[|items| - 1])
  }

  /** `result_lines` after extending it with the lists of `keys`, in order. */
  function Gather(groups: seq<Group>, keys: seq<string>): seq<string>
    decreases |keys|
  {
    if |keys| == 0 then [] else Gather(groups, keys[..|keys| - 1]) + LinesOf(groups, keys[|keys| - 1])
  }

  /** `result_lines`: the lists over the sorted keys. */
  function ResultLines(groups: seq<Group>): seq<string> {
    Gather(groups, Sort(Keys(groups)))
  }

  /** The texts of each person of `persons` in turn, each in the order they
      come. */
  function ByPerson(items: seq<Item>, persons: seq<string>): seq<string>
    decreases |persons|
  {
    if |persons| == 0 then [] else ByPerson(items, persons[..|persons| - 1]) + TextsBy(items, persons[|persons| - 1])
  }

  /** The reply to the lines of the channel. */
  function SummaryReply(lines: seq<string>): string {
    var groups := Grouped(Items(lines));
    if |groups| == 0 then NO_MATCH_REPLY
    else
      var text := JoinWith(ResultLines(groups), '\n');
      if |text| > MAX_RESULT_LENGTH then TOO_LONG_REPLY else RESULT_HEADING + text + XLSX_QUESTION
  }

  /** `value, description, person_name = expense.lstrip('- ').split(';')`
      and the `strip()` of the three: no row when the line does not split
      into exactly three pieces. */
  function XlsxRow(text: string): (r: Option<(string, string, string)>)
    ensures r.Some? <==> Count(LStrip(text, DASH_SPACE), ';') == 2
  {
    var parts := SplitOn(LStrip(text, DASH_SPACE), ';');
    if |parts| != 3 then None
    else Some((Strip(parts[0], PY_WHITESPACE), Strip(parts[1], PY_WHITESPACE), Strip(parts[2], PY_WHITESPACE)))
  }

  // ----- The loops -----

  /** The history loop, filling the dict of lists. */
  method GroupLines(lines: seq<string>) returns (groups: seq<Group>)
    ensures groups == Grouped(Items(lines))
  {
    groups := [];
    ghost var items: seq<Item> := [];
    for i := 0 to |lines|
      invariant items == Items(lines[..i])
      invariant groups == Grouped(items)
    {
      assert lines[..i + 1][..i] == lines[..i];
      var found := ItemOf(lines[i]);
      if found.Some? {
        GroupedAppend(items, found.value);
        groups := AddItem(groups, found.value);
        items := items + [found.value];
      }
    }
    assert lines[..|lines|] == lines;
  }

  /** One more item is one more step of the loop. */
  lemma GroupedAppend(items: seq<Item>, item: Item)
    ensures Grouped(items + [item]) == AddItem(Grouped(items), item)
  {
    assert (items + [item])[..|items|] == items;
  }

  /** `for person in sorted(keys): result_lines.extend(d[person])`. */
  method RenderLines(groups: seq<Group>) returns (resultLines: seq<string>)
    ensures resultLines == ResultLines(groups)
  {
    var keys := Sort(Keys(groups));
    resultLines := [];
    for i := 0 to |keys|
      invariant resultLines == Gather(groups, keys[..i])
    {
      assert keys[..i + 1][..i] == keys[..i];
      resultLines := resultLines + LinesOf(groups, keys[i]);
    }
    assert keys[..|keys|] == keys;
  }

  /** The command. */
  method Summarize(lines: seq<string>) returns (reply: string)
    ensures reply == SummaryReply(lines)
  {
    var groups := GroupLines(lines);
    if |groups| == 0 {
      return NO_MATCH_REPLY;
    }
    var resultLines := RenderLines(groups);
    var text := JoinWith(resultLines, '\n');
    if |text| > MAX_RESULT_LENGTH {
      reply := TOO_LONG_REPLY;
    } else {
      reply := RESULT_HEADING + text + XLSX_QUESTION;
    }
  }

  // ----- The dict of lists -----

  /** A new person becomes the last key; a known one keeps its place. */
  lemma {:induction false} AddItemKeys(groups: seq<Group>, item: Item)
    ensures Keys(AddItem(groups, item))
         == if item.person in Keys(groups) then Keys(groups) else Keys(groups) + [item.person]
    decreases |groups|
  {
    if |groups| > 0 && groups[0].person != item.person {
      AddItemKeys(groups[1..], item);
      assert Keys(groups) == [groups[0].person] + Keys(groups[1..]);
    }
  }

  /** Adding an item appends its text to its person's list only. */
  lemma {:induction false} AddItemLines(groups: seq<Group>, item: Item, p: string)
    ensures LinesOf(AddItem(groups, item), p)
         == if p == item.person then LinesOf(groups, p) + [item.text] else LinesOf(groups, p)
    decreases |groups|
  {
    if |groups| > 0 && groups[0].person != item.person {
      AddItemLines(groups[1..], item, p);
    }
  }

  /** The dict has one key per person of the items, each once, in the order
      the persons first appear. */
  lemma {:induction false} GroupedKeys(items: seq<Item>)
    ensures var keys := Keys(Grouped(items));
      && Distinct(keys)
      && (forall p :: p in keys <==> p in ItemPersons(items))
      && FirstSeenOrder(keys, ItemPersons(items))
    decreases |items|
  {
    if |items| > 0 {
      var init := items[..|items| - 1];
      var item := items[|items| - 1];
      GroupedKeys(init);
      AddItemKeys(Grouped(init), item);
      ItemPersonsLast(items);
      FirstSeenOrderExtend(Keys(Grouped(init)), ItemPersons(init), item.person,
                           Keys(Grouped(items)), ItemPersons(items));
    }
  }

  lemma ItemPersonsLast(items: seq<Item>)
    requires |items| > 0
    ensures ItemPersons(items) == ItemPersons(items[..|items| - 1]) + [items[|items| - 1].person]
  {
    var a, b := ItemPersons(items), ItemPersons(items[..|items| - 1]) + [items[|items| - 1].person];
    assert |a| == |b|;
    forall k | 0 <= k < |a| ensures a[k] == b[k] {
    }
  }

  /** Each person's list holds that person's texts in the order they come. */
  lemma {:induction false} GroupedLines(items: seq<Item>, p: string)
    ensures LinesOf(Grouped(items), p) == TextsBy(items, p)
    decreases |items|
  {
    if |items| > 0 {
      GroupedLines(items[..|items| - 1], p);
      AddItemLines(Grouped(items[..|items| - 1]), items[|items| - 1], p);
    }
  }

  lemma {:induction false} GatherGrouped(items: seq<Item>, persons: seq<string>)
    ensures Gather(Grouped(items), persons) == ByPerson(items, persons)
    decreases |persons|
  {
    if |persons| > 0 {
      GatherGrouped(items, persons[..|persons| - 1]);
      GroupedLines(items, persons[|persons| - 1]);
    }
  }

  /** The result lists each person of the items once, by name, and for each
      person all of that person's lines in the order they came. */
  lemma SummaryLines(items: seq<Item>)
    ensures var persons := Sort(Keys(Grouped(items)));
      && StrictlyAscending(persons)
      && (forall p :: p in persons <==> p in ItemPersons(items))
      && ResultLines(Grouped(items)) == ByPerson(items, persons)
  {
    GroupedKeys(items);
    SortDistinct(Keys(Grouped(items)));
    GatherGrouped(items, Sort(Keys(Grouped(items))));
  }

  // ----- The reply -----

  /** The line rule is the parser's, without the conversion: every accepted
      line gives an item, of the person the parser would read, written from
      the cleaned fields. */
  lemma ItemOfCases(line: string)
    ensures ItemOf(line).Some? <==> Accepts(line)
    ensures ItemOf(line).Some? ==>
      var fs := Fields(line);
      |fs| == 3 && ItemOf(line).value == Item(fs[2], Render(fs[0], fs[1], fs[2]))
    ensures ParseRecord(line).Some? ==> ItemOf(line).Some? && ItemOf(line).value.person == ParseRecord(line).value.person
  {
    ParseRecordCases(line);
  }

  /** A line written from clean fields gives the item of its person, and
      the same line. */
  lemma ItemOfRendered(value: string, description: string, person: string)
    requires CleanField(value) && CleanField(description) && CleanField(person)
    ensures ItemOf(Render(value, description, person)) == Some(Item(person, Render(value, description, person)))
  {
    RenderFields(value, description, person);
  }

  /** `- abc;Bar;Ana` is listed by the summary although no other handler
      reads a record from it. */
  lemma SummaryKeepsUnconverted()
    ensures ItemOf("- abc;Bar;Ana") == Some(Item("Ana", "- abc;Bar;Ana"))
    ensures ParseRecord("- abc;Bar;Ana") == None
  {
    assert Render("abc", "Bar", "Ana") == "- abc;Bar;Ana";
    RejectNotANumber();
    ExampleFieldsClean();
    ItemOfRendered("abc", "Bar", "Ana");
  }

  /** The dict is empty exactly when no line is accepted. */
  lemma GroupedEmpty(lines: seq<string>)
    ensures Grouped(Items(lines)) == [] <==> forall i :: 0 <= i < |lines| ==> !Accepts(lines[i])
  {
    var items := Items(lines);
    GroupedKeys(items);
    CollectEmpty(lines, ItemOf);
    forall i | 0 <= i < |lines| ensures ItemOf(lines[i]).Some? <==> Accepts(lines[i]) {
      ItemOfCases(lines[i]);
    }
    if items != [] {
      assert items[0].person in ItemPersons(items);
    }
  }

  /** The hint is sent exactly when no line is accepted, the too-long
      message exactly when the result text passes the limit, and otherwise
      the result, which is then never longer than the limit allows. */
  lemma SummaryReplyCases(lines: seq<string>)
    ensures var groups := Grouped(Items(lines));
      var text := JoinWith(ResultLines(groups), '\n');
      var reply := SummaryReply(lines);
      && (reply == NO_MATCH_REPLY <==> forall i :: 0 <= i < |lines| ==> !Accepts(lines[i]))
      && (reply == TOO_LONG_REPLY <==> groups != [] && |text| > MAX_RESULT_LENGTH)
      && (groups != [] && |text| <= MAX_RESULT_LENGTH ==> reply == RESULT_HEADING + text + XLSX_QUESTION)
      && |reply| <= |RESULT_HEADING| + MAX_RESULT_LENGTH + |XLSX_QUESTION|
  {
    GroupedEmpty(lines);
    var groups := Grouped(Items(lines));
    var text := JoinWith(ResultLines(groups), '\n');
    if groups != [] && |text| <= MAX_RESULT_LENGTH {
      var reply := RESULT_HEADING + text + XLSX_QUESTION;
      assert reply[0] == '*';
    }
  }

  // ----- The spreadsheet rows -----

  /** A field of an accepted line holds no `;`. */
  lemma CleanKeepsNoSeparator(x: string)
    requires ';' !in x
    ensures ';' !in Clean(x)
  {
    StripKeepsOut(x, DASH_SPACE, ';');
    StripKeepsOut(Strip(x, DASH_SPACE), PY_WHITESPACE, ';');
  }

  /** The fields of an accepted line: three, none holding `;`, none with
      whitespace at an end. */
  lemma AcceptedFields(line: string)
    requires Accepts(line)
    ensures var fs := Fields(line);
      |fs| == 3 && forall k :: 0 <= k < 3 ==> ';' !in fs[k] && Strip(fs[k], PY_WHITESPACE) == fs[k]
  {
    var parts := SplitOn(line, ';');
    var fs := Fields(line);
    forall k | 0 <= k < 3 ensures ';' !in fs[k] && Strip(fs[k], PY_WHITESPACE) == fs[k] {
      assert fs[k] == Clean(parts[k]);
      CleanKeepsNoSeparator(parts[k]);
      StripNoop(fs[k], PY_WHITESPACE);
    }
  }

  /** Three pieces joined by `;` split back into those pieces. */
  lemma SplitThree(a: string, b: string, c: string)
    requires ';' !in a && ';' !in b && ';' !in c
    ensures SplitOn(a + ";" + b + ";" + c, ';') == [a, b, c]
  {
    JoinWithCons(b, [c], ';');
    JoinWithCons(a, [b, c], ';');
    ThreeParts(a, b, c, ';');
    SplitJoin([a, b, c], ';');
  }

  /** The three-part display, and the three parts joined two ways. */
  lemma ThreeParts(a: string, b: string, c: string, sep: char)
    ensures [a] + [b, c] == [a, b, c]
    ensures a + [sep] + (b + [sep] + c) == a + [sep] + b + [sep] + c
  {
  }

  /** `lstrip('- ')` of a written line removes the leading `- ` and no more
      when the value does not start with `-` or a space. */
  lemma LStripRendered(value: string, description: string, person: string)
    requires value == [] || (value[0] != '-' && value[0] != ' ')
    ensures LStrip(Render(value, description, person), DASH_SPACE) == value + ";" + description + ";" + person
  {
    var rest := value + ";" + description + ";" + person;
    var line := Render(value, description, person);
    assert line == ['-'] + (" " + rest);
    assert line[1..] == " " + rest;
    assert (" " + rest)[1..] == rest;
    assert rest[0] == (if value == [] then ';' else value[0]);
  }

  /** The spreadsheet row of an item gives back the three fields of its line
      when the value does not start with `-`: `lstrip('- ')` then removes
      just the `- ` the item was written with. */
  lemma XlsxRoundTrip(line: string)
    requires Accepts(line)
    requires Fields(line)[0] == [] || Fields(line)[0][0] != '-'
    ensures var fs := Fields(line);
      XlsxRow(ItemOf(line).value.text) == Some((fs[0], fs[1], fs[2]))
  {
    var fs := Fields(line);
    AcceptedFields(line);
    assert ' ' in PY_WHITESPACE;
    LStripRendered(fs[0], fs[1], fs[2]);
    SplitThree(fs[0], fs[1], fs[2]);
  }
}
