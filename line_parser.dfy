/**
  The expense line rule the command handlers share: a chat line
  `- Valor;Descrição;Pessoa` is considered when its very first character is
  `-` and it holds exactly two `;`; its three fields are cleaned with
  `strip('- ')` and then `strip()`; the value has `,` replaced by `.` and is
  converted with `float`, and a line whose value does not convert is skipped.
 */
module LineParser {
  import opened Optional
  import opened Text
  import opened Decimal
  import opened Ledger
  import opened Seqs

  /** `line.startswith('-') and line.count(';') == 2`: a line that starts
      with `-` and splits into exactly three fields. */
  predicate Accepts(line: string)
    ensures Accepts(line) <==> |line| > 0 && line[0] == '-' && |Fields(line)| == 3
  {
    StartsWith(line, '-') && Count(line, ';') == 2
  }

  /** `x.strip('- ').strip()`. */
  function Clean(x: string): (r: string)
    ensures r == [] || (r[0] !in PY_WHITESPACE && r[|r| - 1] !in PY_WHITESPACE)
  {
    Strip(Strip(x, DASH_SPACE), PY_WHITESPACE)
  }

  /** `[x.strip('- ').strip() for x in line.split(';')]`. */
  function Fields(line: string): (fs: seq<string>)
    ensures |fs| == Count(line, ';') + 1
  {
    var parts := SplitOn(line, ';');
    seq(|parts|, k requires 0 <= k < |parts| => Clean(parts[k]))
  }

  /** One line of the history loop: the record `(value, description, person)`
      of an accepted line whose value converts, and nothing otherwise. */
  function ParseRecord(line: string): (r: Option<Record>)
    ensures r.Some? ==> Accepts(line) && r.value.description == Fields(line)[1] && r.value.person == Fields(line)[2]
  {
    if !Accepts(line) then None
    else
      var fs := Fields(line);
      match ParseAmount(Replace(fs[0], ',', '.'))
      case None => None
      case Some(v) => Some(Record(v, fs[1], fs[2]))
  }

  /** What a history loop keeps of the lines: for each line in order, the
      value `parse` finds in it, if any. */
  function Collect<T>(lines: seq<string>, parse: string -> Option<T>): seq<T>
    decreases |lines|
  {
    if |lines| == 0 then []
    else
      var last := lines[|lines| - 1];
      Collect(lines[..|lines| - 1], parse) + (match parse(last) case None => [] case Some(x) => [x])
  }

  /** The records of the lines, in the order the lines come. */
  function ParseAll(lines: seq<string>): seq<Record> {
    Collect(lines, ParseRecord)
  }

  /** The history loop: every accepted line whose value converts is appended. */
  method ParseLines(lines: seq<string>) returns (records: seq<Record>)
    ensures records == ParseAll(lines)
  {
    records := [];
    for i := 0 to |lines|
      invariant records == Collect(lines[..i], ParseRecord)
    {
      assert lines[..i + 1][..i] == lines[..i];
      match ParseRecord(lines[i]) {
        case None =>
        case Some(r) => records := records + [r];
      }
    }
    assert lines[..|lines|] == lines;
  }

  /** A line gives a record exactly when it is accepted, and so splits into
      three fields, and its first field, with `,` read as `.`, converts; the
      record holds the converted value and the other two fields. */
  lemma ParseRecordCases(line: string)
    ensures ParseRecord(line).Some? <==>
      Accepts(line) && ParseAmount(Replace(Fields(line)[0], ',', '.')).Some?
    ensures ParseRecord(line).Some? ==>
      var fs := Fields(line);
      |fs| == 3
      && ParseRecord(line).value == Record(ParseAmount(Replace(fs[0], ',', '.')).value, fs[1], fs[2])
  {
  }

  /** Collecting is line by line: what two runs of lines give is what the
      first gives followed by what the second gives. */
  lemma {:induction false} CollectAppend<T>(a: seq<string>, b: seq<string>, parse: string -> Option<T>)
    ensures Collect(a + b, parse) == Collect(a, parse) + Collect(b, parse)
    decreases |b|
  {
    if |b| == 0 {
      assert a + b == a;
    } else {
      var b0 := b[..|b| - 1];
      assert (a + b)[..|a + b| - 1] == a + b0;
      CollectAppend(a, b0, parse);
    }
  }

  /** Everything collected comes from a line of the input, and every line
      `parse` finds something in contributes it. */
  lemma {:induction false} CollectMembers<T>(lines: seq<string>, parse: string -> Option<T>)
    ensures forall x :: x in Collect(lines, parse) ==> exists i :: 0 <= i < |lines| && parse(lines[i]) == Some(x)
    ensures forall i :: 0 <= i < |lines| && parse(lines[i]).Some? ==> parse(lines[i]).value in Collect(lines, parse)
    decreases |lines|
  {
    if |lines| > 0 {
      var init := lines[..|lines| - 1];
      CollectMembers(init, parse);
      forall x | x in Collect(lines, parse)
        ensures exists i :: 0 <= i < |lines| && parse(lines[i]) == Some(x)
      {
        if x in Collect(init, parse) {
          var i :| 0 <= i < |init| && parse(init[i]) == Some(x);
          assert lines[i] == init[i];
        } else {
          assert parse(lines[|lines| - 1]) == Some(x);
        }
      }
      forall i | 0 <= i < |lines| && parse(lines[i]).Some?
        ensures parse(lines[i]).value in Collect(lines, parse)
      {
        if i < |init| {
          assert lines[i] == init[i];
        }
      }
    }
  }

  /** Nothing is collected exactly when `parse` finds nothing in any line. */
  lemma CollectEmpty<T>(lines: seq<string>, parse: string -> Option<T>)
    ensures Collect(lines, parse) == [] <==> forall i :: 0 <= i < |lines| ==> parse(lines[i]).None?
  {
    CollectMembers(lines, parse);
    if Collect(lines, parse) != [] {
      assert Collect(lines, parse)[0] in Collect(lines, parse);
    }
  }

  // ----- Lines written in the expected pattern -----

  /** `f"- {value};{description};{person}"`. */
  function Render(value: string, description: string, person: string): string {
    "- " + value + ";" + description + ";" + person
  }

  /** A field that cleaning leaves as it is and that holds no `;`. */
  predicate CleanField(s: string) {
    ';' !in s
    && (s == [] || (s[0] != '-' && s[0] !in PY_WHITESPACE && s[|s| - 1] != '-' && s[|s| - 1] !in PY_WHITESPACE))
  }

  /** A line written in the pattern from clean fields is accepted and gives
      back exactly those fields. */
  lemma RenderFields(value: string, description: string, person: string)
    requires CleanField(value) && CleanField(description) && CleanField(person)
    ensures Accepts(Render(value, description, person))
    ensures Fields(Render(value, description, person)) == [value, description, person]
  {
    RenderAccepted(value, description, person);
    var line := Render(value, description, person);
    RenderSplit(value, description, person);
    CleanPrefixed(value);
    CleanFieldKept(description);
    CleanFieldKept(person);
    FieldsOfThree(line, "- " + value, description, person);
  }

  lemma RenderAccepted(value: string, description: string, person: string)
    requires CleanField(value) && CleanField(description) && CleanField(person)
    ensures Accepts(Render(value, description, person))
  {
    RenderSplit(value, description, person);
    assert Render(value, description, person)[0] == '-';
  }

  /** The rendered line splits into its three written fields. */
  lemma RenderSplit(value: string, description: string, person: string)
    requires CleanField(value) && CleanField(description) && CleanField(person)
    ensures SplitOn(Render(value, description, person), ';') == ["- " + value, description, person]
  {
    var parts := ["- " + value, description, person];
    RenderJoin(value, description, person);
    assert ';' !in parts[0] by {
      assert parts[0] == ['-', ' '] + value;
    }
    SplitJoin(parts, ';');
  }

  /** Cleaning leaves a clean field as it is. */
  lemma CleanFieldKept(s: string)
    requires CleanField(s)
    ensures Clean(s) == s
  {
    StripNoop(s, DASH_SPACE);
    StripNoop(s, PY_WHITESPACE);
  }

  /** The fields of a line that splits into three pieces are the cleaned pieces. */
  lemma FieldsOfThree(line: string, a: string, b: string, c: string)
    requires SplitOn(line, ';') == [a, b, c]
    ensures Fields(line) == [Clean(a), Clean(b), Clean(c)]
  {
    var fs := Fields(line);
    assert |fs| == 3;
    ThreeElements(fs);
    assert fs[0] == Clean(a) && fs[1] == Clean(b) && fs[2] == Clean(c);
  }

  /** The rendered line is its three fields joined by `;`. */
  lemma RenderJoin(value: string, description: string, person: string)
    ensures Render(value, description, person) == JoinWith(["- " + value, description, person], ';')
  {
    var first := "- " + value;
    assert Render(value, description, person) == first + [';'] + (description + [';'] + person);
    assert JoinWith([description, person], ';') == description + [';'] + person by {
      assert [description, person][1..] == [person];
    }
    assert [first, description, person][1..] == [description, person];
  }

  /** Cleaning `"- " + value` gives the clean value. */
  lemma CleanPrefixed(value: string)
    requires CleanField(value)
    ensures Clean("- " + value) == value
  {
    var s := "- " + value;
    assert LStrip(s, DASH_SPACE) == value by {
      assert s == ['-'] + (" " + value);
      assert s[0] == '-' && s[1..] == " " + value;
      assert (" " + value)[0] == ' ' && (" " + value)[1..] == value;
      assert LStrip(value, DASH_SPACE) == value;
    }
    assert RStrip(value, DASH_SPACE) == value;
    StripNoop(value, PY_WHITESPACE);
  }

  /** A line written in the pattern from clean fields parses to the
      converted value, the description and the person. */
  lemma ParseRendered(value: string, amount: real, description: string, person: string)
    requires CleanField(value) && CleanField(description) && CleanField(person)
    requires ParseAmount(Replace(value, ',', '.')) == Some(amount)
    ensures ParseRecord(Render(value, description, person)) == Some(Record(amount, description, person))
  {
    RenderFields(value, description, person);
    ParseRecordOf(Render(value, description, person), [value, description, person], amount);
  }

  /** The record of an accepted line whose value converts. */
  lemma ParseRecordOf(line: string, fs: seq<string>, v: real)
    requires Accepts(line) && Fields(line) == fs && ParseAmount(Replace(fs[0], ',', '.')) == Some(v)
    ensures ParseRecord(line) == Some(Record(v, fs[1], fs[2]))
  {
  }

  /** `- 10,5;Pão;Ana` is 10.5 spent on bread by Ana. */
  lemma ParseExample()
    ensures ParseRecord("- 10,5;Pão;Ana") == Some(Record(10.5, "Pão", "Ana"))
  {
    ExampleAmount();
    ExampleFieldsClean();
    assert Render("10,5", "Pão", "Ana") == "- 10,5;Pão;Ana";
    ParseRendered("10,5", 10.5, "Pão", "Ana");
  }

  lemma ExampleAmount()
    ensures ParseAmount(Replace("10,5", ',', '.')) == Some(10.5)
  {
    var literal := NatToString(10) + "." + "5";
    assert literal == "10.5" by {
      assert NatToString(10) == "10";
    }
    assert Replace("10,5", ',', '.') == literal;
    assert ParseAmount(literal) == Some(10.5) by {
      assert Fraction("5") == 0.5;
      ParseDecimalLiteral(10, "5");
    }
  }

  lemma ExampleFieldsClean()
    ensures CleanField("10,5") && CleanField("Pão") && CleanField("Ana")
    ensures CleanField("abc") && CleanField("Bar")
  {
    PlainClean("10,5");
    PlainClean("Pão");
    PlainClean("Ana");
    PlainClean("abc");
    PlainClean("Bar");
  }

  /** Letters, digits and `,`, as in the fields of the examples. */
  predicate Plain(s: string) {
    forall i :: 0 <= i < |s| ==> 'a' <= s[i] <= 'z' || 'A' <= s[i] <= 'Z' || '0' <= s[i] <= '9' || s[i] in ",ã"
  }

  lemma PlainClean(s: string)
    requires Plain(s)
    ensures CleanField(s)
  {
  }

  /** A line that does not start with `-` is skipped. */
  lemma RejectNoDash()
    ensures ParseRecord("10;Almoço;Ana") == None
  {
  }

  /** A line with a third `;` is skipped. */
  lemma RejectExtraSeparator()
    ensures ParseRecord("- 1;x;y;z") == None
  {
    assert "- 1;x;y;z" == "- 1" + (";x" + (";y" + ";z"));
    CountAppend("- 1", ";x" + (";y" + ";z"), ';');
    CountAppend(";x", ";y" + ";z", ';');
    CountAppend(";y", ";z", ';');
  }

  /** A line whose value is not a number is skipped. */
  lemma RejectNotANumber()
    ensures ParseRecord("- abc;Bar;Ana") == None
  {
    assert ParseAmount(Replace("abc", ',', '.')) == None by {
      assert Replace("abc", ',', '.') == "abc";
      assert LeadingDigits("abc") == 0;
    }
    ExampleFieldsClean();
    assert Render("abc", "Bar", "Ana") == "- abc;Bar;Ana";
    RenderFields("abc", "Bar", "Ana");
    ParseRecordCases("- abc;Bar;Ana");
  }
}
