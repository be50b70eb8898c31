/** The question type handlers: create a question type, list them all and
    fetch one by id. */
module QuestionTypeController {
  import opened Values
  import opened Envelope
  import opened Tables
  import opened Records
  import opened Database
  import opened Catalog

  const ExistsMessage := "Question type already exists"
  const AddedMessage := "Question type added successfully"
  const ListedMessage := "Question types fetched successfully"
  const InvalidIdMessage := "Invalid question type ID"
  const NotFoundMessage := "Question type not found"
  const FetchedMessage := "Question type fetched successfully"

  /** `addQuestionType`: fails as `CheckNamed` says against the stored names
      and changes nothing, or stores exactly one new question type with the
      trimmed name and description and returns it with status 201. */
  method AddQuestionType(db: Store, body: NamedBody, newId: Id) returns (r: Reply<Doc<QuestionType>>)
    requires db.Valid() && newId !in db.questionTypes.docs && db.env.validId(newId)
    modifies db`questionTypes
    ensures db.Valid()
    ensures CheckNamed(body, old(db.questionTypes).Keys(QuestionTypeName), ExistsMessage).Err? ==>
              && r == Thrown(CheckNamed(body, old(db.questionTypes).Keys(QuestionTypeName), ExistsMessage).failure)
              && db.questionTypes == old(db.questionTypes)
    ensures CheckNamed(body, old(db.questionTypes).Keys(QuestionTypeName), ExistsMessage).Ok? ==>
              var v := CheckNamed(body, old(db.questionTypes).Keys(QuestionTypeName), ExistsMessage).value;
              && db.questionTypes == old(db.questionTypes).Insert(newId, QuestionType(v.0, v.1))
              && |db.questionTypes.docs| == |old(db.questionTypes.docs)| + 1
              && r == Send(201, 201, db.questionTypes.docs[newId], Some(AddedMessage))
  {
    var checked := CheckNamed(body, db.questionTypes.Keys(QuestionTypeName), ExistsMessage);
    if checked.Err? {
      return Thrown(checked.failure);
    }
    var t := QuestionType(checked.value.0, checked.value.1);
    db.InsertQuestionType(newId, t);
    r := Send(201, 201, db.questionTypes.docs[newId], Some(AddedMessage));
  }

  /** `getAllQuestionTypes`: every stored question type, each once, newest
      first. */
  function GetAllQuestionTypes(db: Store): (r: Reply<seq<Doc<QuestionType>>>)
    reads db
    requires db.Valid()
    ensures r.Sent? && r.status == 200 && r.body.statusCode == 200 && r.body.success
    ensures r.body.message == ListedMessage
    ensures forall d :: d in r.body.data ==> d.id in db.questionTypes.docs && db.questionTypes.docs[d.id] == d
    ensures forall id :: id in db.questionTypes.docs ==> db.questionTypes.docs[id] in r.body.data
    ensures Descending(r.body.data)
  {
    Send(200, 200, db.questionTypes.NewestFirst(_ => true), Some(ListedMessage))
  }

  /** `getQuestionTypeById`: 400 for a malformed id, 404 for an unknown one,
      otherwise the stored question type. */
  function GetQuestionTypeById(env: Env, t: Table<QuestionType>, id: string): (r: Reply<Doc<QuestionType>>)
    ensures !env.validId(id) ==> r == Thrown(Fail(400, InvalidIdMessage))
    ensures env.validId(id) && id !in t.docs ==> r == Thrown(Fail(404, NotFoundMessage))
    ensures r.Sent? <==> env.validId(id) && id in t.docs
    ensures r.Sent? ==> r == Send(200, 200, t.docs[id], Some(FetchedMessage))
  {
    FetchById(env, t, id, InvalidIdMessage, NotFoundMessage, FetchedMessage)
  }

  /** A question type just stored under a valid id is fetched back as
      stored, with the stamp the table handed out. */
  lemma AddedIsFetched(env: Env, t: Table<QuestionType>, id: Id, x: QuestionType)
    requires env.validId(id)
    ensures GetQuestionTypeById(env, t.Insert(id, x), id) == Send(200, 200, Doc(id, t.clock, x), Some(FetchedMessage))
  {
  }
}
