/**
 * "Export to Excel": every todo (not only the filtered ones) is projected to
 * `{id, title, completed}`; the CSV text is the keys of the first projected
 * record joined by commas, then one line per record with its values joined
 * by commas, all lines joined by newlines. Nothing is quoted or escaped.
 * `ParseCsv` reads such text back and is the inverse the export is checked against.
 */
module CsvExport {
  import opened Wrappers
  import opened Strings
  import opened Todos

  /** The keys of a projected record, in the order the projection creates them. */
  const Keys: seq<string> := ["id", "title", "completed"]

  /** `Object.keys(data[0]).join(",")`: the header line. */
  const Header: string := Join(Keys, ',')

  /** `Object.values(row)` of the projection of `t`, each rendered as `join` renders it. */
  function Fields(t: Todo): seq<string> {
    [IntToString(t.id), t.title, BoolToString(t.completed)]
  }

  /** `Object.values(row).join(",")`. */
  function Line(t: Todo): string {
    Join(Fields(t), ',')
  }

  /** One line per todo, in the order of the collection. */
  function Lines(todos: seq<Todo>): seq<string> {
    seq(|todos|, k requires 0 <= k < |todos| => Line(todos[k]))
  }

  /**
   * The exported text. Reading the keys of `data[0]` fails on an empty
   * collection, hence the precondition.
   */
  function Csv(todos: seq<Todo>): string
    requires |todos| > 0
  {
    Join([Header] + Lines(todos), '\n')
  }

  /** The titles hold no comma and no newline: the only case the unquoted format can carry. */
  predicate PlainTitles(todos: seq<Todo>) {
    forall k :: 0 <= k < |todos| ==> ',' !in todos[k].title && '\n' !in todos[k].title
  }

  /** Reads one line back into a todo: three comma-separated fields, an integer, any text, a boolean. */
  function ParseLine(line: string): Option<Todo> {
    var f := Split(line, ',');
    if |f| != 3 then None
    else
      match (ParseInt(f[0]), ParseBool(f[2]))
      case (Some(id), Some(done)) => Some(Todo(id, f[1], done))
      case _ => None
  }

  /** Reads every line, failing if any line fails. */
  function ParseLines(lines: seq<string>): Option<seq<Todo>> {
    if lines == [] then Some([])
    else
      match (ParseLine(lines[0]), ParseLines(lines[1..]))
      case (Some(t), Some(ts)) => Some([t] + ts)
      case _ => None
  }

  /** Reads an exported text back: the header line, then one todo per line. */
  function ParseCsv(csv: string): Option<seq<Todo>> {
    var lines := Split(csv, '\n');
    if lines[0] != Header then None else ParseLines(lines[1..])
  }

  /** The export starts with the header line `id,title,completed` and a newline. */
  lemma CsvStartsWithHeader(todos: seq<Todo>)
    requires |todos| > 0
    ensures Header == "id,title,completed"
    ensures Csv(todos)[..|Header| + 1] == "id,title,completed\n"
  {
    var lines := [Header] + Lines(todos);
    assert lines[1..] == Lines(todos);
    assert Header == "id,title,completed";
  }

  /** A line holds no newline as long as the title holds none. */
  lemma LineHasNoNewline(t: Todo)
    requires '\n' !in t.title
    ensures '\n' !in Line(t)
  {
    IntToStringHasNoSeparator(t.id);
    JoinThree(IntToString(t.id), t.title, BoolToString(t.completed), ',');
  }

  /**
   * When no title holds a newline, splitting the export on newlines gives the
   * header and then exactly one line per todo, in the order of the collection.
   */
  lemma CsvLines(todos: seq<Todo>)
    requires |todos| > 0
    requires forall k :: 0 <= k < |todos| ==> '\n' !in todos[k].title
    ensures Split(Csv(todos), '\n') == [Header] + Lines(todos)
    ensures |Split(Csv(todos), '\n')| == |todos| + 1
  {
    var lines := [Header] + Lines(todos);
    forall k | 0 <= k < |lines| ensures '\n' !in lines[k] {
      if k > 0 { LineHasNoNewline(todos[k - 1]); }
    }
    SplitJoin(lines, '\n');
  }

  /** When the title holds no comma, splitting a line on commas gives back the three fields. */
  lemma LineFields(t: Todo)
    requires ',' !in t.title
    ensures Split(Line(t), ',') == [IntToString(t.id), t.title, BoolToString(t.completed)]
  {
    IntToStringHasNoSeparator(t.id);
    SplitJoin(Fields(t), ',');
  }

  lemma ParseLineRoundTrip(t: Todo)
    requires ',' !in t.title
    ensures ParseLine(Line(t)) == Some(t)
  {
    LineFields(t);
    ParseIntRoundTrip(t.id);
    ParseBoolRoundTrip(t.completed);
  }

  lemma {:induction false} ParseLinesRoundTrip(todos: seq<Todo>)
    requires PlainTitles(todos)
    ensures ParseLines(Lines(todos)) == Some(todos)
  {
    if todos != [] {
      ParseLineRoundTrip(todos[0]);
      assert Lines(todos)[1..] == Lines(todos[1..]);
      ParseLinesRoundTrip(todos[1..]);
      assert [todos[0]] + todos[1..] == todos;
    }
  }

  /**
   * Round trip: when no title holds a comma or a newline, reading the export
   * back recovers every todo's id, title and completed flag, in order.
   */
  lemma CsvRoundTrip(todos: seq<Todo>)
    requires |todos| > 0 && PlainTitles(todos)
    ensures ParseCsv(Csv(todos)) == Some(todos)
  {
    CsvLines(todos);
    assert ([Header] + Lines(todos))[1..] == Lines(todos);
    ParseLinesRoundTrip(todos);
  }

  /** The export of two lists laid end to end has the lines of the first, then those of the second. */
  lemma LinesAppend(a: seq<Todo>, b: seq<Todo>)
    ensures Lines(a + b) == Lines(a) + Lines(b)
  {
    assert forall k :: 0 <= k < |b| ==> (a + b)[|a| + k] == b[k];
  }

  /**
   * The fields are not quoted: a comma in a title gives its line at least
   * four comma-separated pieces, so the line does not read back.
   */
  lemma CommaInTitleBreaksLine(t: Todo)
    requires ',' in t.title
    ensures |Split(Line(t), ',')| >= 4
    ensures ParseLine(Line(t)) == None
  {
    LineCommaCount(t);
    SplitCount(Line(t), ',');
  }

  /** A line holds the two separating commas plus those of the title. */
  lemma LineCommaCount(t: Todo)
    ensures multiset(Line(t))[','] == multiset(t.title)[','] + 2
  {
    var id, flag := IntToString(t.id), BoolToString(t.completed);
    JoinThree(id, t.title, flag, ',');
    IntToStringHasNoSeparator(t.id);
    assert multiset(id)[','] == 0 && multiset(flag)[','] == 0;
    var head := id + [','];
    var mid := head + t.title;
    var tail := mid + [','];
    assert multiset(head)[','] == 1;
    assert multiset(mid)[','] == 1 + multiset(t.title)[','];
    assert multiset(tail)[','] == 2 + multiset(t.title)[','];
    assert multiset(tail + flag)[','] == 2 + multiset(t.title)[','];
  }

  /** One line that does not read back makes the whole list of lines fail. */
  lemma {:induction false} ParseLinesFails(lines: seq<string>, k: nat)
    requires k < |lines| && ParseLine(lines[k]) == None
    ensures ParseLines(lines) == None
  {
    if k > 0 {
      ParseLinesFails(lines[1..], k - 1);
    }
  }

  /**
   * When no title holds a newline but some title holds a comma, the export
   * does not read back: the unquoted format loses that todo.
   */
  lemma CommaInTitleBreaksRoundTrip(todos: seq<Todo>, k: nat)
    requires k < |todos| && ',' in todos[k].title
    requires forall j :: 0 <= j < |todos| ==> '\n' !in todos[j].title
    ensures ParseCsv(Csv(todos)) == None
  {
    CsvLines(todos);
    CommaInTitleBreaksLine(todos[k]);
    var rows := ([Header] + Lines(todos))[1..];
    assert rows == Lines(todos);
    ParseLinesFails(rows, k);
  }
}
