/**
 * The state of the `Landing` page component and its event handlers: the
 * modal's visibility, the draft of the "add todo" form, the page number, the
 * page size and the search term. Each React state hook is a field; each
 * setter call is an assignment to that field.
 */
module Landing {
  import opened Todos
  import opened Pagination
  import opened CsvExport
  import opened Wrappers

  /** A value held in the form draft: the text of a text input or the state of a checkbox. */
  datatype FieldValue = Text(text: string) | Flag(flag: bool)

  /** The part of a change event's target that the form-change handler reads. */
  datatype ChangeTarget = ChangeTarget(name: string, value: string, kind: string, checked: bool)

  /** The value a change writes: `checked` for a checkbox, `value` for any other input. */
  function NewValue(target: ChangeTarget): FieldValue {
    if target.kind == "checkbox" then Flag(target.checked) else Text(target.value)
  }

  /** The draft the page starts with and returns to after a successful submit. */
  const EmptyForm: map<string, FieldValue> := map["title" := Text(""), "completed" := Flag(false)]

  /**
   * The JSON body of the POST: the draft's `title` and `completed` entries;
   * an entry the draft lacks would be undefined and left out of the JSON.
   */
  function RequestBody(form: map<string, FieldValue>): map<string, FieldValue> {
    map k | k in form && (k == "title" || k == "completed") :: form[k]
  }

  /**
   * A draft with both entries sends exactly those two entries (the initial
   * draft sends itself), and any other entry of the draft never reaches the request.
   */
  lemma RequestBodyShape(form: map<string, FieldValue>, k: string, v: FieldValue)
    ensures "title" in form && "completed" in form ==>
      RequestBody(form) == map["title" := form["title"], "completed" := form["completed"]]
    ensures RequestBody(EmptyForm) == EmptyForm
    ensures k != "title" && k != "completed" ==> RequestBody(form[k := v]) == RequestBody(form)
  {
    assert RequestBody(EmptyForm).Keys == EmptyForm.Keys;
    if "title" in form && "completed" in form {
      assert RequestBody(form).Keys == {"title", "completed"};
    }
    if k != "title" && k != "completed" {
      assert RequestBody(form[k := v]).Keys == RequestBody(form).Keys;
    }
  }

  /** What the table is given: the rows of the current page and the number of matches. */
  datatype View = View(currentTodos: seq<Todo>, totalTodos: nat)

  /**
   * The filtered, paginated view: every row shown is a todo of the collection
   * that matches the search term, a page of at least one row per page shows at
   * most that many rows, and the total never exceeds the collection.
   */
  function ViewOf(todos: seq<Todo>, searchTerm: string, currentPage: int, todosPerPage: int): (v: View)
    ensures v.totalTodos <= |todos|
    ensures forall k :: 0 <= k < |v.currentTodos| ==>
      v.currentTodos[k] in todos && Matches(v.currentTodos[k], searchTerm)
    ensures currentPage >= 1 && todosPerPage >= 1 ==> |v.currentTodos| <= todosPerPage
  {
    var filtered := Filter(todos, searchTerm);
    var rows := PageRows(filtered, currentPage, todosPerPage);
    assert currentPage >= 1 && todosPerPage >= 1 ==> |rows| <= todosPerPage by {
      if currentPage >= 1 && todosPerPage >= 1 { PageWindow(filtered, currentPage, todosPerPage); }
    }
    View(rows, |filtered|)
  }

  /**
   * With an empty search box the total is the whole collection and page `p`
   * is the window `[(p-1)*n, min(p*n, total))` of the collection itself.
   */
  lemma ViewEmptySearch(todos: seq<Todo>, p: int, n: int)
    requires p >= 1 && n >= 1
    ensures ViewOf(todos, "", p, n).totalTodos == |todos|
    ensures (p - 1) * n < |todos| ==>
      ViewOf(todos, "", p, n).currentTodos == todos[(p - 1) * n..Min(p * n, |todos|)]
    ensures (p - 1) * n >= |todos| ==> ViewOf(todos, "", p, n).currentTodos == []
  {
    FilterEmptyTerm(todos);
    PageWindow(todos, p, n);
  }

  class LandingPage {
    /** The collection fetched before the first render; the page never changes it. */
    const todos: seq<Todo>
    var showModal: bool
    var formData: map<string, FieldValue>
    var currentPage: int
    var todosPerPage: int
    var searchTerm: string

    /** The draft always carries a title and a completed entry. */
    ghost predicate Valid()
      reads this
    {
      "title" in formData && "completed" in formData
    }

    /** The initial state of every hook. */
    constructor (todos: seq<Todo>)
      ensures Valid()
      ensures this.todos == todos
      ensures !showModal && formData == EmptyForm
      ensures currentPage == 1 && todosPerPage == 10 && searchTerm == ""
    {
      this.todos := todos;
      showModal := false;
      formData := EmptyForm;
      currentPage := 1;
      todosPerPage := 10;
      searchTerm := "";
    }

    /** Hides the modal; the draft is kept as it is. */
    method HandleCloseModal()
      requires Valid()
      modifies this`showModal
      ensures Valid()
      ensures !showModal && formData == old(formData)
    {
      showModal := false;
    }

    /** Shows the modal with the draft as it is. */
    method HandleShowModal()
      requires Valid()
      modifies this`showModal
      ensures Valid()
      ensures showModal && formData == old(formData)
    {
      showModal := true;
    }

    /** Writes the new value under the input's name; every other entry of the draft is kept. */
    method HandleFormChange(target: ChangeTarget)
      requires Valid()
      modifies this`formData
      ensures Valid()
      ensures formData == old(formData)[target.name := NewValue(target)]
      ensures formData.Keys == old(formData).Keys + {target.name}
      ensures forall k :: k in old(formData) && k != target.name ==> formData[k] == old(formData)[k]
    {
      formData := formData[target.name := NewValue(target)];
    }

    /**
     * Sends the draft and applies the continuation that the request's outcome
     * selects. Success hides the modal and resets the draft; failure changes
     * neither. The body always carries both the title and the completed entry.
     * The title input is `required`, so the browser submits only a non-empty title.
     */
    method HandleSubmitForm(succeeded: bool) returns (body: map<string, FieldValue>)
      requires Valid()
      requires formData["title"].Text? && formData["title"].text != ""
      modifies this`showModal, this`formData
      ensures Valid()
      ensures body == RequestBody(old(formData))
      ensures body.Keys == {"title", "completed"}
      ensures succeeded ==> !showModal && formData == EmptyForm
      ensures !succeeded ==> showModal == old(showModal) && formData == old(formData)
    {
      body := RequestBody(formData);
      if succeeded {
        HandleCloseModal();
        formData := EmptyForm;
      }
    }

    /** Moves to the page the table asks for, unchecked against the number of pages. */
    method HandlePageChange(page: int)
      requires Valid()
      modifies this`currentPage
      ensures Valid()
      ensures currentPage == page
    {
      currentPage := page;
    }

    /** Takes the page size and the page the table asks for, both unchecked. */
    method HandlePerPageChange(perPage: int, page: int)
      requires Valid()
      modifies this`todosPerPage, this`currentPage
      ensures Valid()
      ensures todosPerPage == perPage && currentPage == page
    {
      todosPerPage := perPage;
      currentPage := page;
    }

    /** Takes the text of the search box as the new search term. */
    method HandleSearchChange(value: string)
      requires Valid()
      modifies this`searchTerm
      ensures Valid()
      ensures searchTerm == value
    {
      searchTerm := value;
    }

    /**
     * The view the page renders from its current state: only matching todos
     * of the collection, never more matches than todos, and every todo
     * counted while the search box is empty.
     */
    function Rendered(): (v: View)
      reads this
      ensures v.totalTodos <= |todos|
      ensures forall k :: 0 <= k < |v.currentTodos| ==>
        v.currentTodos[k] in todos && Matches(v.currentTodos[k], searchTerm)
      ensures searchTerm == "" ==> v.totalTodos == |todos|
    {
      FilterEmptyTerm(todos);
      ViewOf(todos, searchTerm, currentPage, todosPerPage)
    }

    /**
     * The CSV download: it is built from the whole collection, whatever the
     * search term and page, and reads back into that collection when no title
     * holds a comma or a newline.
     */
    method HandleExportToExcel() returns (csv: string)
      requires |todos| > 0
      ensures csv == Csv(todos)
      ensures PlainTitles(todos) ==> ParseCsv(csv) == Some(todos)
    {
      csv := Csv(todos);
      if PlainTitles(todos) {
        CsvRoundTrip(todos);
      }
    }
  }

  /**
   * Opening the modal, typing a title and submitting sends that title with
   * `completed` false; on success the draft is cleared, on failure it stays.
   */
  method SubmitScenario(title: string, succeeded: bool) returns (body: map<string, FieldValue>, draft: map<string, FieldValue>)
    requires title != ""
    ensures body == map["title" := Text(title), "completed" := Flag(false)]
    ensures draft == if succeeded then EmptyForm else body
  {
    var page := new LandingPage([]);
    page.HandleShowModal();
    page.HandleFormChange(ChangeTarget("title", title, "text", false));
    body := page.HandleSubmitForm(succeeded);
    draft := page.formData;
  }

  /** Cancelling the modal after typing keeps the typed title in the draft. */
  method CancelScenario(title: string) returns (draft: map<string, FieldValue>, visible: bool)
    ensures !visible
    ensures draft == map["title" := Text(title), "completed" := Flag(false)]
  {
    var page := new LandingPage([]);
    page.HandleShowModal();
    page.HandleFormChange(ChangeTarget("title", title, "text", false));
    page.HandleCloseModal();
    draft, visible := page.formData, page.showModal;
  }
}
