/** The question handlers: create, patch and delete questions. A question
    references a grade, a subject, a chapter and a question type by id, and
    its text is unique across all users. */
module QuestionController {
  import opened Values
  import opened Strings
  import opened Envelope
  import opened Tables
  import opened Records
  import opened Database

  /** The request body of a create or update; every field may be absent. */
  datatype QuestionBody = QuestionBody(
    question: Option<string>,
    answer: Option<string>,
    grade: Option<string>,
    subject: Option<string>,
    chapter: Option<string>,
    questionType: Option<string>,
    description: Option<string>)

  /** The `{ id }` a delete responds with. */
  datatype Deleted = Deleted(id: Id)

  const RequiredMessage := "Question, grade, subject, chapter, questionType, and description are required"
  const EmptyMessage := "Question and description cannot be empty"
  const InvalidGradeMessage := "Invalid grade ID"
  const InvalidSubjectMessage := "Invalid subject ID"
  const InvalidChapterMessage := "Invalid chapter ID"
  const InvalidQuestionTypeMessage := "Invalid question type ID"
  const GradeNotFoundMessage := "Grade not found"
  const SubjectNotFoundMessage := "Subject not found"
  const ChapterNotFoundMessage := "Chapter not found"
  const QuestionTypeNotFoundMessage := "Question type not found"
  const ExistsMessage := "Question already exists"
  const InvalidIdMessage := "Invalid question ID"
  const NotFoundMessage := "Question not found"
  const ForbiddenUpdateMessage := "Forbidden: You can only update your own questions"
  const ForbiddenDeleteMessage := "Forbidden: You can only delete your own questions"
  const EmptyQuestionMessage := "Question cannot be empty"
  const EmptyDescriptionMessage := "Description cannot be empty"
  const AddedMessage := "Question added successfully"
  const UpdatedMessage := "Question updated successfully"
  const DeletedMessage := "Question deleted successfully"

  /** Every field but the answer is present and non-empty. */
  predicate RequiredGiven(b: QuestionBody)
  {
    && Given(b.question) && Given(b.grade) && Given(b.subject) && Given(b.chapter)
    && Given(b.questionType) && Given(b.description)
  }

  /** The question a create stores for `owner`: text and description
      trimmed, a given answer trimmed, references as sent. */
  function NewQuestion(b: QuestionBody, owner: Id): Question
    requires RequiredGiven(b)
  {
    Question(Trim(b.question.value), TrimIfGiven(b.answer), b.grade.value, b.subject.value,
             b.chapter.value, b.questionType.value, Trim(b.description.value), owner)
  }

  /** The first steps of `addQuestion`, which look only at the body:
      required fields (400), blank text (400), then the four id syntax
      checks (400). A step after the first is only reached once the fields
      are known to be present, so it passes vacuously otherwise. */
  function ShapeChecks(env: Env, b: QuestionBody): seq<Check>
  {
    var req := RequiredGiven(b);
    [ Check(req, Fail(400, RequiredMessage)),
      Check(!req || !(Blank(b.question.value) || Blank(b.description.value)), Fail(400, EmptyMessage)),
      Check(!req || env.validId(b.grade.value), Fail(400, InvalidGradeMessage)),
      Check(!req || env.validId(b.subject.value), Fail(400, InvalidSubjectMessage)),
      Check(!req || env.validId(b.chapter.value), Fail(400, InvalidChapterMessage)),
      Check(!req || env.validId(b.questionType.value), Fail(400, InvalidQuestionTypeMessage)) ]
  }

  /** The remaining steps of `addQuestion`: the four references must exist
      (404), no question may have the trimmed text (409), and only then is
      the requester looked at (401). */
  function LookupChecks(db: Store, b: QuestionBody, requester: Option<Profile>): seq<Check>
    reads db
  {
    var req := RequiredGiven(b);
    [ Check(!req || b.grade.value in db.grades.docs, Fail(404, GradeNotFoundMessage)),
      Check(!req || b.subject.value in db.subjects.docs, Fail(404, SubjectNotFoundMessage)),
      Check(!req || b.chapter.value in db.chapters.docs, Fail(404, ChapterNotFoundMessage)),
      Check(!req || b.questionType.value in db.questionTypes.docs, Fail(404, QuestionTypeNotFoundMessage)),
      Check(!req || !db.questions.HasKey(QuestionText, Trim(b.question.value)), Fail(409, ExistsMessage)),
      Check(Authenticated(requester), Fail(401, NotAuthenticatedMessage)) ]
  }

  /** Every step of `addQuestion`, in the order it takes them. */
  function AddChecks(db: Store, b: QuestionBody, requester: Option<Profile>): seq<Check>
    reads db
  {
    ShapeChecks(db.env, b) + LookupChecks(db, b, requester)
  }

  /** The body checks of `addQuestion`, one early exit per step. */
  method ValidateShape(env: Env, body: QuestionBody) returns (f: Option<Failure>)
    ensures f == FirstFailure(ShapeChecks(env, body))
  {
    ghost var cs := ShapeChecks(env, body);
    if !RequiredGiven(body) {
      FirstFailureAt(cs, 0);
      return Some(Fail(400, RequiredMessage));
    }
    if Blank(body.question.value) || Blank(body.description.value) {
      FirstFailureAt(cs, 1);
      return Some(Fail(400, EmptyMessage));
    }
    if !env.validId(body.grade.value) {
      FirstFailureAt(cs, 2);
      return Some(Fail(400, InvalidGradeMessage));
    }
    if !env.validId(body.subject.value) {
      FirstFailureAt(cs, 3);
      return Some(Fail(400, InvalidSubjectMessage));
    }
    if !env.validId(body.chapter.value) {
      FirstFailureAt(cs, 4);
      return Some(Fail(400, InvalidChapterMessage));
    }
    if !env.validId(body.questionType.value) {
      FirstFailureAt(cs, 5);
      return Some(Fail(400, InvalidQuestionTypeMessage));
    }
    assert forall i :: 0 <= i < |cs| ==> cs[i].passes;
    return None;
  }

  /** The database checks of `addQuestion`, one early exit per step. */
  method ValidateLookups(db: Store, body: QuestionBody, requester: Option<Profile>) returns (f: Option<Failure>)
    requires RequiredGiven(body)
    ensures f == FirstFailure(LookupChecks(db, body, requester))
  {
    ghost var cs := LookupChecks(db, body, requester);
    if body.grade.value !in db.grades.docs {
      FirstFailureAt(cs, 0);
      return Some(Fail(404, GradeNotFoundMessage));
    }
    if body.subject.value !in db.subjects.docs {
      FirstFailureAt(cs, 1);
      return Some(Fail(404, SubjectNotFoundMessage));
    }
    if body.chapter.value !in db.chapters.docs {
      FirstFailureAt(cs, 2);
      return Some(Fail(404, ChapterNotFoundMessage));
    }
    if body.questionType.value !in db.questionTypes.docs {
      FirstFailureAt(cs, 3);
      return Some(Fail(404, QuestionTypeNotFoundMessage));
    }
    if db.questions.HasKey(QuestionText, Trim(body.question.value)) {
      FirstFailureAt(cs, 4);
      return Some(Fail(409, ExistsMessage));
    }
    if !Authenticated(requester) {
      FirstFailureAt(cs, 5);
      return Some(Fail(401, NotAuthenticatedMessage));
    }
    assert forall i :: 0 <= i < |cs| ==> cs[i].passes;
    return None;
  }

  /** Once every step of `addQuestion` passes, the request names an
      authenticated owner and four references that resolve, and no stored
      question has the trimmed text. */
  lemma AddChecksPass(db: Store, body: QuestionBody, requester: Option<Profile>)
    requires FirstFailure(AddChecks(db, body, requester)).None?
    ensures RequiredGiven(body) && Authenticated(requester)
    ensures body.grade.value in db.grades.docs && body.subject.value in db.subjects.docs
    ensures body.chapter.value in db.chapters.docs && body.questionType.value in db.questionTypes.docs
    ensures forall k :: k in db.questions.docs ==> db.questions.docs[k].record.question != Trim(body.question.value)
  {
    var shape, lookups := ShapeChecks(db.env, body), LookupChecks(db, body, requester);
    FirstFailureAppend(shape, lookups);
    assert shape[0].passes;
    assert lookups[0].passes && lookups[1].passes && lookups[2].passes && lookups[3].passes;
    assert lookups[4].passes && lookups[5].passes;
  }

  /** `addQuestion`: throws the failure of the first step of `AddChecks`
      that does not pass and changes nothing, or stores exactly the new
      question, owned by the requester (whose references resolve and whose
      text is new, by `AddChecksPass`). */
  method AddQuestion(db: Store, body: QuestionBody, requester: Option<Profile>, newId: Id)
    returns (r: Reply<Doc<Question>>)
    requires db.Valid() && newId !in db.questions.docs && db.env.validId(newId)
    modifies db`questions
    ensures db.Valid()
    ensures r.Thrown? <==> old(FirstFailure(AddChecks(db, body, requester))).Some?
    ensures r.Thrown? ==>
              && Some(r.failure) == old(FirstFailure(AddChecks(db, body, requester)))
              && db.questions == old(db.questions)
    ensures r.Sent? ==>
              && RequiredGiven(body) && Authenticated(requester)
              && db.questions == old(db.questions).Insert(newId, NewQuestion(body, requester.value.id))
              && r == Send(201, 201, db.questions.docs[newId], Some(AddedMessage))
  {
    FirstFailureAppend(ShapeChecks(db.env, body), LookupChecks(db, body, requester));
    var f := ValidateShape(db.env, body);
    if f.Some? {
      return Thrown(f.value);
    }
    f := ValidateLookups(db, body, requester);
    if f.Some? {
      return Thrown(f.value);
    }
    AddChecksPass(db, body, requester);
    db.InsertQuestion(newId, NewQuestion(body, requester.value.id));
    r := Send(201, 201, db.questions.docs[newId], Some(AddedMessage));
  }

  /** The steps the handlers on one question share, in their order: a
      malformed id (400), no requester (401), an unknown id (404), a
      requester who is neither the creator nor an admin (403). */
  function GuardChecks(db: Store, id: string, requester: Option<Profile>, forbidden: string): seq<Check>
    reads db
  {
    [ Check(db.env.validId(id), Fail(400, InvalidIdMessage)),
      Check(Authenticated(requester), Fail(401, NotAuthenticatedMessage)),
      Check(id in db.questions.docs, Fail(404, NotFoundMessage)),
      Check(!(Authenticated(requester) && id in db.questions.docs) ||
            MayModify(db.questions.docs[id].record.createdBy, requester.value), Fail(403, forbidden)) ]
  }

  /** The shared checks, one early exit per step. */
  method ValidateGuard(db: Store, id: string, requester: Option<Profile>, forbidden: string)
    returns (f: Option<Failure>)
    ensures f == FirstFailure(GuardChecks(db, id, requester, forbidden))
    ensures f.None? ==>
              && db.env.validId(id) && Authenticated(requester) && id in db.questions.docs
              && MayModify(db.questions.docs[id].record.createdBy, requester.value)
  {
    ghost var cs := GuardChecks(db, id, requester, forbidden);
    if !db.env.validId(id) {
      FirstFailureAt(cs, 0);
      return Some(Fail(400, InvalidIdMessage));
    }
    if !Authenticated(requester) {
      FirstFailureAt(cs, 1);
      return Some(Fail(401, NotAuthenticatedMessage));
    }
    if id !in db.questions.docs {
      FirstFailureAt(cs, 2);
      return Some(Fail(404, NotFoundMessage));
    }
    if !MayModify(db.questions.docs[id].record.createdBy, requester.value) {
      FirstFailureAt(cs, 3);
      return Some(Fail(403, forbidden));
    }
    assert forall i :: 0 <= i < |cs| ==> cs[i].passes;
    return None;
  }

  /** The update's text steps: a given text must be non-blank (400) and no
      OTHER question may have it trimmed (409). */
  function TextChecks(t: Table<Question>, id: string, b: QuestionBody): seq<Check>
  {
    [ Check(b.question.None? || !Blank(b.question.value), Fail(400, EmptyQuestionMessage)),
      Check(b.question.None? || !t.HasKeyElsewhere(QuestionText, Trim(b.question.value), id),
            Fail(409, ExistsMessage)) ]
  }

  /** The update's steps for one reference: a given id must be well formed
      (400) and name a stored document (404). */
  function RefChecks<R>(env: Env, t: Table<R>, ref: Option<string>, invalid: string, missing: string): seq<Check>
  {
    [ Check(ref.None? || env.validId(ref.value), Fail(400, invalid)),
      Check(ref.None? || ref.value in t.docs, Fail(404, missing)) ]
  }

  /** The update's last step: a given description must be non-blank (400). */
  function DescriptionChecks(b: QuestionBody): seq<Check>
  {
    [ Check(b.description.None? || !Blank(b.description.value), Fail(400, EmptyDescriptionMessage)) ]
  }

  /** The steps of `updateQuestion` after the shared ones, field by field in
      the order it takes them. The answer is never checked. */
  function PatchChecks(db: Store, id: string, b: QuestionBody): seq<Check>
    reads db
  {
    TextChecks(db.questions, id, b) + RefsChecks(db, b) + DescriptionChecks(b)
  }

  /** The update's reference steps: grade, subject, chapter, question type. */
  function RefsChecks(db: Store, b: QuestionBody): seq<Check>
    reads db
  {
    RefChecks(db.env, db.grades, b.grade, InvalidGradeMessage, GradeNotFoundMessage)
    + RefChecks(db.env, db.subjects, b.subject, InvalidSubjectMessage, SubjectNotFoundMessage)
    + RefChecks(db.env, db.chapters, b.chapter, InvalidChapterMessage, ChapterNotFoundMessage)
    + RefChecks(db.env, db.questionTypes, b.questionType, InvalidQuestionTypeMessage, QuestionTypeNotFoundMessage)
  }

  /** Every step of `updateQuestion`, in the order it takes them. */
  function UpdateChecks(db: Store, id: string, b: QuestionBody, requester: Option<Profile>): seq<Check>
    reads db
  {
    GuardChecks(db, id, requester, ForbiddenUpdateMessage) + PatchChecks(db, id, b)
  }

  /** The question a sparse update leaves: a given text and description
      trimmed, a given answer trimmed or cleared when blank, given
      references as sent, everything else (the creator included) as it was. */
  function Patched(q: Question, b: QuestionBody): Question
  {
    Question(
      if b.question.Some? then Trim(b.question.value) else q.question,
      if b.answer.Some? then TrimOrClear(b.answer.value) else q.answer,
      if b.grade.Some? then b.grade.value else q.grade,
      if b.subject.Some? then b.subject.value else q.subject,
      if b.chapter.Some? then b.chapter.value else q.chapter,
      if b.questionType.Some? then b.questionType.value else q.questionType,
      if b.description.Some? then Trim(b.description.value) else q.description,
      q.createdBy)
  }

  /** Sending the same update twice changes nothing the second time. */
  lemma {:induction false} PatchedIdempotent(q: Question, b: QuestionBody)
    ensures Patched(Patched(q, b), b) == Patched(q, b)
  {
    var p := Patched(q, b);
    var p2 := Patched(p, b);
    if b.question.Some? { TrimIdempotent(b.question.value); }
    if b.description.Some? { TrimIdempotent(b.description.value); }
    assert p2.question == p.question && p2.description == p.description;
    assert p2.answer == p.answer && p2.createdBy == p.createdBy;
    assert p2.grade == p.grade && p2.subject == p.subject;
    assert p2.chapter == p.chapter && p2.questionType == p.questionType;
  }

  /** An update whose text steps pass leaves question texts unique: a new
      text was checked against every other question, an unchanged one was
      unique already. */
  lemma TextStaysFree(t: Table<Question>, id: Id, b: QuestionBody)
    requires t.Unique(QuestionText) && id in t.docs
    requires FirstFailure(TextChecks(t, id, b)).None?
    ensures forall k :: k in t.docs && k != id ==>
              t.docs[k].record.question != Patched(t.docs[id].record, b).question
  {
    assert TextChecks(t, id, b)[1].passes;
    forall k | k in t.docs && k != id
      ensures t.docs[k].record.question != Patched(t.docs[id].record, b).question
    {
      if b.question.None? {
        assert QuestionText(t.docs[k].record) != QuestionText(t.docs[id].record);
      }
    }
  }

  /** Once every step of `PatchChecks` passes, each reference the update
      sets names a stored document and the text steps passed. */
  lemma PatchChecksPass(db: Store, id: string, b: QuestionBody)
    requires FirstFailure(PatchChecks(db, id, b)).None?
    ensures FirstFailure(TextChecks(db.questions, id, b)).None?
    ensures b.grade.Some? ==> b.grade.value in db.grades.docs
    ensures b.subject.Some? ==> b.subject.value in db.subjects.docs
    ensures b.chapter.Some? ==> b.chapter.value in db.chapters.docs
    ensures b.questionType.Some? ==> b.questionType.value in db.questionTypes.docs
  {
    var text, refs := TextChecks(db.questions, id, b), RefsChecks(db, b);
    FirstFailureAppend(text + refs, DescriptionChecks(b));
    FirstFailureAppend(text, refs);
    assert refs[1].passes && refs[3].passes && refs[5].passes && refs[7].passes;
  }

  /** The text steps, one early exit per step. */
  method ValidateText(t: Table<Question>, id: string, body: QuestionBody) returns (f: Option<Failure>)
    ensures f == FirstFailure(TextChecks(t, id, body))
  {
    ghost var cs := TextChecks(t, id, body);
    if body.question.Some? {
      if Blank(body.question.value) {
        FirstFailureAt(cs, 0);
        return Some(Fail(400, EmptyQuestionMessage));
      }
      if t.HasKeyElsewhere(QuestionText, Trim(body.question.value), id) {
        FirstFailureAt(cs, 1);
        return Some(Fail(409, ExistsMessage));
      }
    }
    assert forall i :: 0 <= i < |cs| ==> cs[i].passes;
    return None;
  }

  /** The steps for one reference, one early exit per step. */
  method ValidateRef<R>(env: Env, t: Table<R>, ref: Option<string>, invalid: string, missing: string)
    returns (f: Option<Failure>)
    ensures f == FirstFailure(RefChecks(env, t, ref, invalid, missing))
    ensures f.None? && ref.Some? ==> ref.value in t.docs
  {
    ghost var cs := RefChecks(env, t, ref, invalid, missing);
    if ref.Some? {
      if !env.validId(ref.value) {
        FirstFailureAt(cs, 0);
        return Some(Fail(400, invalid));
      }
      if ref.value !in t.docs {
        FirstFailureAt(cs, 1);
        return Some(Fail(404, missing));
      }
    }
    assert forall i :: 0 <= i < |cs| ==> cs[i].passes;
    return None;
  }

  /** The reference part of the update, field by field: stops at the
      first step of `RefsChecks` that does not pass, otherwise sets each
      given reference on `q`. */
  method PatchRefs(db: Store, body: QuestionBody, q: Question) returns (f: Option<Failure>, patched: Question)
    ensures f == FirstFailure(RefsChecks(db, body))
    ensures f.None? ==>
              patched == q.(grade := if body.grade.Some? then body.grade.value else q.grade,
                            subject := if body.subject.Some? then body.subject.value else q.subject,
                            chapter := if body.chapter.Some? then body.chapter.value else q.chapter,
                            questionType := if body.questionType.Some? then body.questionType.value
                                            else q.questionType)
  {
    ghost var grade := RefChecks(db.env, db.grades, body.grade, InvalidGradeMessage, GradeNotFoundMessage);
    ghost var subject := RefChecks(db.env, db.subjects, body.subject, InvalidSubjectMessage, SubjectNotFoundMessage);
    ghost var chapter := RefChecks(db.env, db.chapters, body.chapter, InvalidChapterMessage, ChapterNotFoundMessage);
    ghost var qtype := RefChecks(db.env, db.questionTypes, body.questionType,
                                 InvalidQuestionTypeMessage, QuestionTypeNotFoundMessage);
    FirstFailureAppend(grade + subject + chapter, qtype);
    FirstFailureAppend(grade + subject, chapter);
    FirstFailureAppend(grade, subject);
    patched := q;
    f := ValidateRef(db.env, db.grades, body.grade, InvalidGradeMessage, GradeNotFoundMessage);
    if f.Some? {
      return;
    }
    if body.grade.Some? {
      patched := patched.(grade := body.grade.value);
    }
    f := ValidateRef(db.env, db.subjects, body.subject, InvalidSubjectMessage, SubjectNotFoundMessage);
    if f.Some? {
      return;
    }
    if body.subject.Some? {
      patched := patched.(subject := body.subject.value);
    }
    f := ValidateRef(db.env, db.chapters, body.chapter, InvalidChapterMessage, ChapterNotFoundMessage);
    if f.Some? {
      return;
    }
    if body.chapter.Some? {
      patched := patched.(chapter := body.chapter.value);
    }
    f := ValidateRef(db.env, db.questionTypes, body.questionType,
                     InvalidQuestionTypeMessage, QuestionTypeNotFoundMessage);
    if f.Some? {
      return;
    }
    if body.questionType.Some? {
      patched := patched.(questionType := body.questionType.value);
    }
  }

  /** The body of `updateQuestion` after the shared checks: builds the
      update field by field, stopping at the first step of `PatchChecks`
      that does not pass; otherwise the result is the patched question. */
  method BuildPatch(db: Store, id: string, body: QuestionBody, existing: Question)
    returns (f: Option<Failure>, patched: Question)
    ensures f == FirstFailure(PatchChecks(db, id, body))
    ensures f.None? ==> patched == Patched(existing, body)
  {
    ghost var text, refs, description := TextChecks(db.questions, id, body), RefsChecks(db, body), DescriptionChecks(body);
    FirstFailureAppend(text + refs, description);
    FirstFailureAppend(text, refs);
    patched := existing;
    f := ValidateText(db.questions, id, body);
    if f.Some? {
      return;
    }
    if body.question.Some? {
      patched := patched.(question := Trim(body.question.value));
    }
    if body.answer.Some? {
      patched := patched.(answer := TrimOrClear(body.answer.value));
    }
    f, patched := PatchRefs(db, body, patched);
    if f.Some? {
      return;
    }
    if body.description.Some? {
      if Blank(body.description.value) {
        FirstFailureAt(description, 0);
        return Some(Fail(400, EmptyDescriptionMessage)), patched;
      }
      patched := patched.(description := Trim(body.description.value));
    }
    assert description[0].passes;
  }

  /** `updateQuestion`: throws the failure of the first step of
      `UpdateChecks` that does not pass and changes
      nothing, or replaces only that question's fields by the patched ones
      (whose references resolve and whose text stays unique, by
      `PatchChecksPass`). */
  method UpdateQuestion(db: Store, id: string, body: QuestionBody, requester: Option<Profile>)
    returns (r: Reply<Doc<Question>>)
    requires db.Valid()
    modifies db`questions
    ensures db.Valid()
    ensures r.Thrown? <==>
              old(FirstFailure(UpdateChecks(db, id, body, requester))).Some?
    ensures r.Thrown? ==>
              && Some(r.failure) ==
                 old(FirstFailure(UpdateChecks(db, id, body, requester)))
              && db.questions == old(db.questions)
    ensures r.Sent? ==>
              && id in old(db.questions.docs)
              && db.questions == old(db.questions).Replace(id, Patched(old(db.questions.docs[id].record), body))
              && r == Send(200, 200, db.questions.docs[id], Some(UpdatedMessage))
  {
    FirstFailureAppend(GuardChecks(db, id, requester, ForbiddenUpdateMessage), PatchChecks(db, id, body));
    assert UpdateChecks(db, id, body, requester) ==
           GuardChecks(db, id, requester, ForbiddenUpdateMessage) + PatchChecks(db, id, body);
    var f := ValidateGuard(db, id, requester, ForbiddenUpdateMessage);
    if f.Some? {
      return Thrown(f.value);
    }
    var existing := db.questions.docs[id].record;
    var patched;
    f, patched := BuildPatch(db, id, body, existing);
    if f.Some? {
      return Thrown(f.value);
    }
    PatchChecksPass(db, id, body);
    TextStaysFree(db.questions, id, body);
    db.ReplaceQuestion(id, patched);
    r := Send(200, 200, db.questions.docs[id], Some(UpdatedMessage));
  }

  /** `deleteQuestion`: throws the failure of the first shared step that
      does not pass and changes nothing, or removes that question alone and
      responds with its id. */
  method DeleteQuestion(db: Store, id: string, requester: Option<Profile>) returns (r: Reply<Deleted>)
    requires db.Valid()
    modifies db`questions
    ensures db.Valid()
    ensures r.Thrown? <==> old(FirstFailure(GuardChecks(db, id, requester, ForbiddenDeleteMessage))).Some?
    ensures r.Thrown? ==>
              && Some(r.failure) == old(FirstFailure(GuardChecks(db, id, requester, ForbiddenDeleteMessage)))
              && db.questions == old(db.questions)
    ensures r.Sent? ==>
              && r == Send(200, 200, Deleted(id), Some(DeletedMessage))
              && id in old(db.questions.docs) && id !in db.questions.docs
              && db.questions == old(db.questions).Remove(id)
              && (forall k :: k in old(db.questions.docs) && k != id ==>
                    k in db.questions.docs && db.questions.docs[k] == old(db.questions.docs[k]))
  {
    var f := ValidateGuard(db, id, requester, ForbiddenDeleteMessage);
    if f.Some? {
      return Thrown(f.value);
    }
    db.RemoveQuestion(id);
    r := Send(200, 200, Deleted(id), Some(DeletedMessage));
  }
}
