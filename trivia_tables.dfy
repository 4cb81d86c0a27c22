/**
 * The trivia handlers that change a table (flaskr/__init__.py): POST and
 * DELETE on questions and on categories. Each table is an object holding its
 * rows in primary-key order and the next value of its id sequence; every
 * mutation is atomic, and a database failure (the `insertOk` and `deleteOk`
 * parameters) leaves the rows as they were.
 */
module TriviaTables {
  import opened Wrappers
  import opened PyOps
  import opened Trivia
  import opened Keys

  class QuestionTable {
    var rows: seq<Question>
    var nextId: int

    /** Rows in id order, every id drawn from the sequence before `nextId`. */
    ghost predicate Valid()
      reads this
    {
      InKeyOrder(rows, QuestionId) && forall i :: 0 <= i < |rows| ==> rows[i].id < nextId
    }

    constructor (initial: seq<Question>, next: int)
      requires InKeyOrder(initial, QuestionId)
      requires forall i :: 0 <= i < |initial| ==> initial[i].id < next
      ensures Valid() && rows == initial && nextId == next
    {
      rows := initial;
      nextId := next;
    }

    /** POST /questions: search when the body carries a non-empty search
        term, otherwise insert the question, or refuse with 400 or 422. */
    method CreateQuestion(body: QuestionBody, page: int, insertOk: bool) returns (r: Reply<QuestionPost>)
      requires Valid()
      modifies this
      ensures Valid()
      ensures match RouteQuestionPost(old(rows), body)
        case RejectBadRequest => r == Abort(BadRequest) && rows == old(rows) && nextId == old(nextId)
        case RejectUnprocessable => r == Abort(Unprocessable) && rows == old(rows) && nextId == old(nextId)
        case RunSearch(term) =>
          r == Success(SearchReply(old(rows), term, page)) && rows == old(rows) && nextId == old(nextId)
        case InsertQuestion(text) =>
          if insertOk then
            && rows == old(rows) + [Question(old(nextId), text, body.answer, body.category, body.difficulty)]
            && nextId == old(nextId) + 1
            && r == Success(Created(old(nextId), Paginate(rows, page), page, |rows|))
          else
            r == Abort(Unprocessable) && rows == old(rows) && nextId == old(nextId)
    {
      match RouteQuestionPost(rows, body)
      case RejectBadRequest =>
        r := Abort(BadRequest);
      case RejectUnprocessable =>
        r := Abort(Unprocessable);
      case RunSearch(term) =>
        r := Success(SearchReply(rows, term, page));
      case InsertQuestion(text) =>
        if !insertOk {
          r := Abort(Unprocessable);
        } else {
          var created := Question(nextId, text, body.answer, body.category, body.difficulty);
          rows := rows + [created];
          nextId := nextId + 1;
          r := Success(Created(created.id, Paginate(rows, page), page, |rows|));
        }
    }

    /** DELETE /questions/<id>: 404 for an unknown id, otherwise only that
        row goes, `deleted` echoes the id and `total_books` is the new size. */
    method DeleteQuestion(id: int, page: int, deleteOk: bool) returns (r: Reply<QuestionDeleted>)
      requires Valid()
      modifies this
      ensures Valid() && nextId == old(nextId)
      ensures IndexOf(old(rows), QuestionId, id).None? ==> r == Abort(NotFound) && rows == old(rows)
      ensures IndexOf(old(rows), QuestionId, id).Some? && !deleteOk ==> r == Abort(InternalError) && rows == old(rows)
      ensures IndexOf(old(rows), QuestionId, id).Some? && deleteOk ==>
        var k := IndexOf(old(rows), QuestionId, id).value;
        && rows == old(rows)[..k] + old(rows)[k + 1..]
        && rows == Filter(old(rows), KeyIsNot(QuestionId, id))
        && |rows| == |old(rows)| - 1
        && (forall q :: q in rows <==> q in old(rows) && q.id != id)
        && r == Success(QuestionDeleted(id, Paginate(rows, page), |rows|))
    {
      match IndexOf(rows, QuestionId, id)
      case None =>
        r := Abort(NotFound);
      case Some(k) =>
        if !deleteOk {
          r := Abort(InternalError);
        } else {
          ghost var before := rows;
          rows := rows[..k] + rows[k + 1..];
          RemovedRowIsTheOnlyOneGone(before, QuestionId, k);
          r := Success(QuestionDeleted(id, Paginate(rows, page), |rows|));
        }
    }
  }

  class CategoryTable {
    var rows: seq<Category>
    var nextId: int

    ghost predicate Valid()
      reads this
    {
      InKeyOrder(rows, CategoryId) && forall i :: 0 <= i < |rows| ==> rows[i].id < nextId
    }

    constructor (initial: seq<Category>, next: int)
      requires InKeyOrder(initial, CategoryId)
      requires forall i :: 0 <= i < |initial| ==> initial[i].id < next
      ensures Valid() && rows == initial && nextId == next
    {
      rows := initial;
      nextId := next;
    }

    /** POST /categories: 400 for a missing, empty or existing name;
        otherwise exactly one new row with that type, and the count of all rows. */
    method CreateCategory(name: Option<string>, insertOk: bool) returns (r: Reply<CategoryCreated>)
      requires Valid()
      modifies this
      ensures Valid()
      ensures IsBadCategoryName(old(rows), name) ==>
        r == Abort(BadRequest) && rows == old(rows) && nextId == old(nextId)
      ensures !IsBadCategoryName(old(rows), name) && !insertOk ==>
        r == Abort(InternalError) && rows == old(rows) && nextId == old(nextId)
      ensures !IsBadCategoryName(old(rows), name) && insertOk ==>
        && rows == old(rows) + [Category(old(nextId), name.value)]
        && nextId == old(nextId) + 1
        && r == Success(CategoryCreated(old(nextId), rows, |rows|))
    {
      if IsBadCategoryName(rows, name) {
        r := Abort(BadRequest);
      } else if !insertOk {
        r := Abort(InternalError);
      } else {
        var created := Category(nextId, name.value);
        rows := rows + [created];
        nextId := nextId + 1;
        r := Success(CategoryCreated(created.id, rows, |rows|));
      }
    }

    /** DELETE /categories/<id>: 404 for an unknown id, otherwise only that
        row goes and `total_categories` is the new size. */
    method DeleteCategory(id: int, deleteOk: bool) returns (r: Reply<CategoryDeleted>)
      requires Valid()
      modifies this
      ensures Valid() && nextId == old(nextId)
      ensures IndexOf(old(rows), CategoryId, id).None? ==> r == Abort(NotFound) && rows == old(rows)
      ensures IndexOf(old(rows), CategoryId, id).Some? && !deleteOk ==> r == Abort(InternalError) && rows == old(rows)
      ensures IndexOf(old(rows), CategoryId, id).Some? && deleteOk ==>
        var k := IndexOf(old(rows), CategoryId, id).value;
        && rows == old(rows)[..k] + old(rows)[k + 1..]
        && rows == Filter(old(rows), KeyIsNot(CategoryId, id))
        && |rows| == |old(rows)| - 1
        && (forall c :: c in rows <==> c in old(rows) && c.id != id)
        && r == Success(CategoryDeleted(id, rows, |rows|))
    {
      match IndexOf(rows, CategoryId, id)
      case None =>
        r := Abort(NotFound);
      case Some(k) =>
        if !deleteOk {
          r := Abort(InternalError);
        } else {
          ghost var before := rows;
          rows := rows[..k] + rows[k + 1..];
          RemovedRowIsTheOnlyOneGone(before, CategoryId, k);
          r := Success(CategoryDeleted(id, rows, |rows|));
        }
    }
  }

}
