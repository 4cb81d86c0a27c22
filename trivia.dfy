/**
 * The trivia quiz API (flaskr/__init__.py): its records, its error codes,
 * pagination, and every handler or part of a handler that only reads the
 * tables. Each table is the sequence of its rows in primary-key order; the
 * handlers that change a table are in module TriviaTables.
 *
 * A handler is a function from the request and the tables to a Reply: the
 * JSON payload on success, or the error code its errorhandler answers with.
 */
module Trivia {
  import opened Wrappers
  import opened PyOps
  import opened Keys

  /** QUESTIONS_PER_PAGE */
  const QuestionsPerPage: nat := 10

  /** A row of the question table. The POST body's values are stored as sent,
      so `answer`, `category` and `difficulty` may be NULL. */
  datatype Question = Question(
    id: int,
    question: string,
    answer: Option<string>,
    category: Option<int>,
    difficulty: Option<int>)

  /** A row of the category table; `typeName` is its `type` column. */
  datatype Category = Category(id: int, typeName: string)

  /** The primary keys. */
  function QuestionId(q: Question): int { q.id }
  function CategoryId(c: Category): int { c.id }

  /** The four errors the API answers with. */
  datatype Error = BadRequest | NotFound | Unprocessable | InternalError {
    function Status(): int {
      match this
      case BadRequest => 400
      case NotFound => 404
      case Unprocessable => 422
      case InternalError => 500
    }

    function Message(): string {
      match this
      case BadRequest => "bad request: possible duplicate or empty question"
      case NotFound => "resource not found"
      case Unprocessable => "unprocessable"
      case InternalError => "internal service error"
    }
  }

  /** `{"success": True, ...}` or `{"success": False, "error": e.Status(), "message": e.Message()}`. */
  datatype Reply<+T> = Success(payload: T) | Abort(error: Error)

  // ---------------------------------------------------------------------
  // paginate
  // ---------------------------------------------------------------------

  /** `items[start:start + 10]` with `start = (page - 1) * 10`, Python slice semantics. */
  function Paginate<T>(selection: seq<T>, page: int): (r: seq<T>)
    ensures |r| <= QuestionsPerPage
  {
    var start := (page - 1) * QuestionsPerPage;
    Slice(selection, start, start + QuestionsPerPage)
  }

  /** A page number from 1 on selects the rows (page-1)*10 up to page*10,
      clamped to the selection, and is empty exactly when it starts past the end. */
  lemma PageFromOne<T>(selection: seq<T>, page: int)
    requires page >= 1
    ensures var n, start := |selection|, (page - 1) * QuestionsPerPage;
      var lo := if start < n then start else n;
      var hi := if start + QuestionsPerPage < n then start + QuestionsPerPage else n;
      Paginate(selection, page) == selection[lo..hi]
    ensures Paginate(selection, page) == [] <==> (page - 1) * QuestionsPerPage >= |selection|
  {
    var start := (page - 1) * QuestionsPerPage;
    SliceNonNegative(selection, start, start + QuestionsPerPage);
  }

  /** Page 0 slices `[-10:0]`, which is always empty. */
  lemma PageZeroIsEmpty<T>(selection: seq<T>)
    ensures Paginate(selection, 0) == []
  {
  }

  /** A negative page wraps: page -k selects the k-th block of ten counted
      back from the one just before the last ten rows. */
  lemma NegativePageCountsFromEnd<T>(selection: seq<T>, page: int)
    requires page < 0
    ensures var n, start := |selection|, (page - 1) * QuestionsPerPage;
      var lo := if n + start < 0 then 0 else n + start;
      var hi := if n + start + QuestionsPerPage < 0 then 0 else n + start + QuestionsPerPage;
      Paginate(selection, page) == selection[lo..hi]
  {
  }

  // ---------------------------------------------------------------------
  // {cat.id: cat.type for cat in categories}
  // ---------------------------------------------------------------------

  function CategoryIds(cats: seq<Category>): set<int> {
    set c | c in cats :: c.id
  }

  /** The dict comprehension: a later row with the same id overwrites an earlier one. */
  function CategoryMap(cats: seq<Category>): (m: map<int, string>)
    ensures m.Keys == CategoryIds(cats)
    decreases |cats|
  {
    if cats == [] then map[]
    else
      var last := cats[|cats| - 1];
      var init := cats[..|cats| - 1];
      assert CategoryIds(cats) == CategoryIds(init) + {last.id} by {
        assert cats == init + [last];
      }
      CategoryMap(init)[last.id := last.typeName]
  }

  /** With unique ids, every category maps to its own type and the dict has one entry per row. */
  lemma {:induction false} CategoryMapOfUniqueIds(cats: seq<Category>)
    requires UniqueKeys(cats, CategoryId)
    ensures forall i :: 0 <= i < |cats| ==> CategoryMap(cats)[cats[i].id] == cats[i].typeName
    ensures |CategoryMap(cats)| == |cats|
    decreases |cats|
  {
    if cats != [] {
      var last := cats[|cats| - 1];
      var init := cats[..|cats| - 1];
      UniqueKeysOfInit(cats, CategoryId);
      CategoryMapOfUniqueIds(init);
      var before := CategoryMap(init);
      assert CategoryMap(cats) == before[last.id := last.typeName];
      assert last.id !in before.Keys by {
        forall c | c in init ensures c.id != last.id {
          assert CategoryId(c) != CategoryId(last);
        }
      }
      forall i | 0 <= i < |cats| ensures CategoryMap(cats)[cats[i].id] == cats[i].typeName {
        if i < |cats| - 1 {
          assert init[i] == cats[i];
        }
      }
    }
  }

  // ---------------------------------------------------------------------
  // GET /categories
  // ---------------------------------------------------------------------

  datatype CategoryListing = CategoryListing(categories: map<int, string>, totalCategories: nat)

  /** The abort(404) for an empty table is raised inside the bare `try`, whose
      `except` turns it into a 500. */
  function GetCategories(cats: seq<Category>): (r: Reply<CategoryListing>)
    ensures r.Abort? <==> cats == []
    ensures r.Abort? ==> r.error == InternalError
    ensures r.Success? ==> r.payload.categories.Keys == CategoryIds(cats)
    ensures r.Success? ==> r.payload.totalCategories == |cats|
  {
    if |cats| == 0 then Abort(InternalError)
    else Success(CategoryListing(CategoryMap(cats), |cats|))
  }

  /** On a table with unique ids the listing maps each id to its type and its
      total is the number of entries; an empty table answers 500, never 404. */
  lemma GetCategoriesListsEveryCategory(cats: seq<Category>)
    requires UniqueKeys(cats, CategoryId)
    ensures var r := GetCategories(cats);
      && (cats == [] ==> r == Abort(InternalError))
      && (cats != [] ==>
            && r.Success?
            && r.payload.totalCategories == |r.payload.categories|
            && (forall i :: 0 <= i < |cats| ==> r.payload.categories[cats[i].id] == cats[i].typeName))
  {
    CategoryMapOfUniqueIds(cats);
  }

  // ---------------------------------------------------------------------
  // GET /questions?page=N
  // ---------------------------------------------------------------------

  datatype QuestionPage = QuestionPage(
    questions: seq<Question>,
    page: int,
    totalQuestions: nat,
    currentCategory: Option<int>,
    categories: map<int, string>)

  /** The categories the selection refers to. */
  function UsedCategoryIds(questions: seq<Question>): set<int> {
    set q | q in questions && q.category.Some? :: q.category.value
  }

  /** The category filter of get_questions as a value, so that every use names the same test. */
  function UsedByTest(questions: seq<Question>): Category -> bool {
    (c: Category) => c.id in UsedCategoryIds(questions)
  }

  /** `questions` is the table in id order. An empty page is a 404. */
  function GetQuestions(questions: seq<Question>, categories: seq<Category>, page: int): (r: Reply<QuestionPage>)
    ensures r.Abort? ==> r.error == NotFound
    ensures r.Success? ==> |r.payload.questions| <= QuestionsPerPage
  {
    var current := Paginate(questions, page);
    if current == [] then Abort(NotFound)
    else
      var used := Filter(categories, UsedByTest(questions));
      Success(QuestionPage(current, page, |questions|, None, CategoryMap(used)))
  }

  /** For a page from 1 on: 404 exactly when the page starts past the end;
      otherwise the page is that slice, `page` is echoed, there is no current
      category, `total_questions` counts the whole table (not the page), and
      the category dict covers exactly the categories that some question
      refers to, each mapped to its type when ids are unique. */
  lemma GetQuestionsOutcome(questions: seq<Question>, categories: seq<Category>, page: int)
    requires page >= 1
    ensures var r, start := GetQuestions(questions, categories, page), (page - 1) * QuestionsPerPage;
      && (r.Abort? <==> start >= |questions|)
      && (r.Success? ==>
            && r.payload.questions == Paginate(questions, page)
            && r.payload.questions == questions[start..if start + QuestionsPerPage < |questions| then start + QuestionsPerPage else |questions|]
            && r.payload.page == page
            && r.payload.currentCategory == None
            && r.payload.totalQuestions == |questions|
            && r.payload.categories.Keys == CategoryIds(categories) * UsedCategoryIds(questions))
    ensures var r := GetQuestions(questions, categories, page);
      r.Success? && UniqueKeys(categories, CategoryId) ==>
        forall c :: c in categories && c.id in UsedCategoryIds(questions) ==> r.payload.categories[c.id] == c.typeName
  {
    PageFromOne(questions, page);
    var keep := UsedByTest(questions);
    var used := Filter(categories, keep);
    FilterComplete(categories, keep);
    assert CategoryIds(used) == CategoryIds(categories) * UsedCategoryIds(questions) by {
      forall id | id in CategoryIds(categories) * UsedCategoryIds(questions)
        ensures id in CategoryIds(used)
      {
        var c :| c in categories && c.id == id;
        var k :| 0 <= k < |categories| && categories[k] == c;
        assert keep(categories[k]);
      }
    }
    if UniqueKeys(categories, CategoryId) {
      UsedCategoriesMapToTheirTypes(questions, categories);
    }
  }

  /** With unique ids, the dict of the used categories maps each of them to its type. */
  lemma UsedCategoriesMapToTheirTypes(questions: seq<Question>, categories: seq<Category>)
    requires UniqueKeys(categories, CategoryId)
    ensures var m := CategoryMap(Filter(categories, UsedByTest(questions)));
      forall c :: c in categories && c.id in UsedCategoryIds(questions) ==> c.id in m && m[c.id] == c.typeName
  {
    var keep := UsedByTest(questions);
    var used := Filter(categories, keep);
    UniqueKeysOfFilter(categories, CategoryId, keep);
    CategoryMapOfUniqueIds(used);
    forall c | c in categories && c.id in UsedCategoryIds(questions)
      ensures c.id in CategoryMap(used) && CategoryMap(used)[c.id] == c.typeName
    {
      var k :| 0 <= k < |categories| && categories[k] == c;
      FilterKeeps(categories, keep, k);
      var m :| 0 <= m < |used| && used[m] == c;
    }
  }

  // ---------------------------------------------------------------------
  // GET /categories/<id>/questions
  // ---------------------------------------------------------------------

  datatype CategoryQuestions = CategoryQuestions(questions: seq<Question>, totalQuestions: nat, currentCategory: int)

  predicate InCategory(q: Question, categoryId: int) {
    q.category == Some(categoryId)
  }

  /** Every question of the category, in table order; none at all is a 404. */
  function GetQuestionsByCategory(questions: seq<Question>, categoryId: int): (r: Reply<CategoryQuestions>)
    ensures r.Abort? <==> forall i :: 0 <= i < |questions| ==> !InCategory(questions[i], categoryId)
    ensures r.Abort? ==> r.error == NotFound
    ensures r.Success? ==>
      && r.payload.totalQuestions == |r.payload.questions|
      && r.payload.currentCategory == categoryId
      && (forall i :: 0 <= i < |r.payload.questions| ==>
            r.payload.questions[i] in questions && InCategory(r.payload.questions[i], categoryId))
      && (forall i :: 0 <= i < |questions| && InCategory(questions[i], categoryId) ==>
            questions[i] in r.payload.questions)
      && IsSubsequence(r.payload.questions, questions)
  {
    var found := Filter(questions, (q: Question) => InCategory(q, categoryId));
    FilterComplete(questions, (q: Question) => InCategory(q, categoryId));
    FilterIsSubsequence(questions, (q: Question) => InCategory(q, categoryId));
    if |found| == 0 then
      Abort(NotFound)
    else
      assert InCategory(found[0], categoryId);
      Success(CategoryQuestions(found, |found|, categoryId))
  }

  // ---------------------------------------------------------------------
  // POST /quizzes
  // ---------------------------------------------------------------------

  /** `previous_questions` and `quiz_category["id"]`; None where the body lacks them. */
  datatype QuizRequest = QuizRequest(previousQuestions: Option<seq<int>>, quizCategory: Option<int>)

  /** Not served before, and in the chosen category unless that is 0 ("all"). */
  predicate IsEligible(q: Question, previous: seq<int>, categoryId: int) {
    q.id !in previous && (categoryId == 0 || InCategory(q, categoryId))
  }

  /** The eligibility test as a value, so that every use names the same test. */
  function EligibleTest(previous: seq<int>, categoryId: int): Question -> bool {
    (q: Question) => IsEligible(q, previous, categoryId)
  }

  function Eligible(questions: seq<Question>, previous: seq<int>, categoryId: int): seq<Question> {
    Filter(questions, EligibleTest(previous, categoryId))
  }

  /** `order_by(func.random()).first()`: `choice` stands for the random draw.
      A body without the list or the category raises inside the `try` and is a 500. */
  function GenerateQuiz(questions: seq<Question>, request: QuizRequest, choice: nat): (r: Reply<Option<Question>>)
    ensures r.Abort? <==> request.previousQuestions.None? || request.quizCategory.None?
    ensures r.Abort? ==> r.error == InternalError
    ensures r.Success? && r.payload.Some? ==>
      var q, previous, categoryId := r.payload.value, request.previousQuestions.value, request.quizCategory.value;
      && q in questions
      && q.id !in previous
      && (categoryId != 0 ==> q.category == Some(categoryId))
    ensures r.Success? ==>
      (r.payload.None? <==>
         forall i :: 0 <= i < |questions| ==>
           !IsEligible(questions[i], request.previousQuestions.value, request.quizCategory.value))
  {
    if request.previousQuestions.None? || request.quizCategory.None? then Abort(InternalError)
    else
      var previous, categoryId := request.previousQuestions.value, request.quizCategory.value;
      var pool := Eligible(questions, previous, categoryId);
      FilterComplete(questions, EligibleTest(previous, categoryId));
      if pool == [] then
        Success(None)
      else
        var q := pool[choice % |pool|];
        assert IsEligible(q, previous, categoryId);
        Success(Some(q))
  }

  lemma SmallRemainder(k: nat, n: nat)
    requires k < n
    ensures k % n == k
  {
  }

  /** A draw below the size of the pool serves the question at that position of the pool. */
  lemma DrawServesThatPosition(questions: seq<Question>, previous: seq<int>, categoryId: int, k: nat)
    requires k < |Eligible(questions, previous, categoryId)|
    ensures GenerateQuiz(questions, QuizRequest(Some(previous), Some(categoryId)), k)
      == Success(Some(Eligible(questions, previous, categoryId)[k]))
  {
    SmallRemainder(k, |Eligible(questions, previous, categoryId)|);
  }

  /** The draw may land on any eligible question. */
  lemma QuizCanServeAnyEligible(questions: seq<Question>, request: QuizRequest, q: Question)
    requires request.previousQuestions.Some? && request.quizCategory.Some?
    requires q in questions && IsEligible(q, request.previousQuestions.value, request.quizCategory.value)
    ensures exists choice: nat :: GenerateQuiz(questions, request, choice) == Success(Some(q))
  {
    var previous, categoryId := request.previousQuestions.value, request.quizCategory.value;
    var pool := Eligible(questions, previous, categoryId);
    var i :| 0 <= i < |questions| && questions[i] == q;
    FilterKeeps(questions, EligibleTest(previous, categoryId), i);
    var k :| 0 <= k < |pool| && pool[k] == q;
    DrawServesThatPosition(questions, previous, categoryId, k);
    assert request == QuizRequest(Some(previous), Some(categoryId));
  }

  // ---------------------------------------------------------------------
  // POST /questions: search or create
  // ---------------------------------------------------------------------

  /** The JSON body; None where a key is absent or null. */
  datatype QuestionBody = QuestionBody(
    question: Option<string>,
    answer: Option<string>,
    difficulty: Option<int>,
    category: Option<int>,
    searchTerm: Option<string>)

  /** Python truthiness of an optional string. */
  predicate Truthy(s: Option<string>) {
    s.Some? && s.value != ""
  }

  /** `[q.question for q in Question.query.all()]` */
  function QuestionTexts(questions: seq<Question>): (texts: seq<string>)
    ensures |texts| == |questions|
    ensures forall i :: 0 <= i < |questions| ==> texts[i] == questions[i].question
  {
    if questions == [] then [] else [questions[0].question] + QuestionTexts(questions[1..])
  }

  /** The guard before the `try`: duplicate or empty question, and no search term. */
  predicate IsBadQuestion(existing: seq<Question>, body: QuestionBody) {
    && (body.question == Some("") || body.answer == Some("")
        || (body.question.Some? && body.question.value in QuestionTexts(existing)))
    && body.searchTerm.None?
    && body.question.Some?
  }

  /** Which way a POST /questions goes. */
  datatype QuestionRoute = RejectBadRequest | RunSearch(term: string) | InsertQuestion(text: string) | RejectUnprocessable

  /** The final `abort(400)` sits inside the bare `try`, so it leaves as 422. */
  function RouteQuestionPost(existing: seq<Question>, body: QuestionBody): QuestionRoute {
    if IsBadQuestion(existing, body) then RejectBadRequest
    else if Truthy(body.searchTerm) then RunSearch(body.searchTerm.value)
    else if Truthy(body.question) then InsertQuestion(body.question.value)
    else RejectUnprocessable
  }

  predicate IsDuplicate(existing: seq<Question>, text: string) {
    exists i :: 0 <= i < |existing| && existing[i].question == text
  }

  lemma DuplicateIsInTexts(existing: seq<Question>, text: string)
    ensures IsDuplicate(existing, text) <==> text in QuestionTexts(existing)
  {
    var texts := QuestionTexts(existing);
    if text in texts {
      var i :| 0 <= i < |texts| && texts[i] == text;
      assert existing[i].question == text;
    }
  }

  /** 400 exactly when the search term is absent, the question key is
      present, and the question is empty, the answer is empty, or the
      question repeats an existing one. */
  lemma BadRequestExactly(existing: seq<Question>, body: QuestionBody)
    ensures RouteQuestionPost(existing, body) == RejectBadRequest <==>
      && body.searchTerm.None?
      && body.question.Some?
      && (body.question.value == "" || body.answer == Some("") || IsDuplicate(existing, body.question.value))
  {
    if body.question.Some? {
      DuplicateIsInTexts(existing, body.question.value);
    }
  }

  /** 422 exactly when neither the search term nor the question is a
      non-empty string, unless the 400 guard caught the body first
      (search term absent and question key present). */
  lemma UnprocessableExactly(existing: seq<Question>, body: QuestionBody)
    ensures RouteQuestionPost(existing, body) == RejectUnprocessable <==>
      !Truthy(body.searchTerm) && !Truthy(body.question) && (body.searchTerm.Some? || body.question.None?)
  {
  }

  /** A non-empty search term always searches: it can never meet the 400 guard. */
  lemma SearchExactly(existing: seq<Question>, body: QuestionBody)
    ensures RouteQuestionPost(existing, body).RunSearch? <==> Truthy(body.searchTerm)
    ensures RouteQuestionPost(existing, body).RunSearch? ==>
      RouteQuestionPost(existing, body).term == body.searchTerm.value
  {
  }

  /** A question is inserted when it is non-empty and there is no non-empty
      search term, and either the search term key is present (even as "",
      which skips the duplicate check) or the answer is not "" and the text is new. */
  lemma InsertExactly(existing: seq<Question>, body: QuestionBody)
    ensures RouteQuestionPost(existing, body).InsertQuestion? <==>
      && !Truthy(body.searchTerm)
      && Truthy(body.question)
      && (body.searchTerm.Some? || (body.answer != Some("") && !IsDuplicate(existing, body.question.value)))
    ensures RouteQuestionPost(existing, body).InsertQuestion? ==>
      RouteQuestionPost(existing, body).text == body.question.value
  {
    if body.question.Some? {
      DuplicateIsInTexts(existing, body.question.value);
    }
  }

  /** `Question.question.ilike('%term%')`, in id order. */
  function SearchQuestions(questions: seq<Question>, term: string): (found: seq<Question>)
    ensures forall i :: 0 <= i < |found| ==> found[i] in questions && ContainsIgnoringCase(found[i].question, term)
    ensures forall i :: 0 <= i < |questions| && ContainsIgnoringCase(questions[i].question, term) ==>
      questions[i] in found
    ensures IsSubsequence(found, questions)
  {
    FilterComplete(questions, (q: Question) => ContainsIgnoringCase(q.question, term));
    FilterIsSubsequence(questions, (q: Question) => ContainsIgnoringCase(q.question, term));
    Filter(questions, (q: Question) => ContainsIgnoringCase(q.question, term))
  }

  /** The payload of POST /questions. */
  datatype QuestionPost =
    | Searched(questions: seq<Question>, currentPage: int, totalQuestions: nat)
    | Created(created: int, questions: seq<Question>, currentPage: int, totalQuestions: nat)

  /** The search branch: a page of the matches, the count of all matches, and
      no 404 for an empty page. */
  function SearchReply(questions: seq<Question>, term: string, page: int): (r: QuestionPost)
    ensures r.Searched? && |r.questions| <= QuestionsPerPage
    ensures r.questions == Paginate(SearchQuestions(questions, term), page) && r.currentPage == page
    ensures r.totalQuestions == |SearchQuestions(questions, term)|
    ensures forall i :: 0 <= i < |r.questions| ==> ContainsIgnoringCase(r.questions[i].question, term)
  {
    var found := SearchQuestions(questions, term);
    var current := Paginate(found, page);
    assert forall i :: 0 <= i < |current| ==> current[i] in found by {
      if page >= 1 {
        PageFromOne(found, page);
      } else if page == 0 {
        PageZeroIsEmpty(found);
      } else {
        NegativePageCountsFromEnd(found, page);
      }
    }
    Searched(current, page, |found|)
  }

  // ---------------------------------------------------------------------
  // POST /categories
  // ---------------------------------------------------------------------

  function CategoryTypes(cats: seq<Category>): (types: seq<string>)
    ensures |types| == |cats|
    ensures forall i :: 0 <= i < |cats| ==> types[i] == cats[i].typeName
  {
    if cats == [] then [] else [cats[0].typeName] + CategoryTypes(cats[1..])
  }

  /** The 400 guard: no name, an empty name, or a name some category already has. */
  predicate IsBadCategoryName(existing: seq<Category>, name: Option<string>) {
    name == Some("") || name.None? || name.value in CategoryTypes(existing)
  }

  lemma BadCategoryNameExactly(existing: seq<Category>, name: Option<string>)
    ensures IsBadCategoryName(existing, name) <==>
      name.None? || name.value == "" || exists i :: 0 <= i < |existing| && existing[i].typeName == name.value
  {
    if name.Some? && name.value in CategoryTypes(existing) {
      var types := CategoryTypes(existing);
      var i :| 0 <= i < |types| && types[i] == name.value;
      assert existing[i].typeName == name.value;
    }
  }

  // ---------------------------------------------------------------------
  // Payloads of the handlers that change a table
  // ---------------------------------------------------------------------

  /** DELETE /questions/<id>; the count is reported under `total_books`. */
  datatype QuestionDeleted = QuestionDeleted(deleted: int, questions: seq<Question>, totalBooks: nat)

  datatype CategoryCreated = CategoryCreated(newCategoryId: int, categories: seq<Category>, totalCategories: nat)

  datatype CategoryDeleted = CategoryDeleted(deleted: int, categories: seq<Category>, totalCategories: nat)

}
