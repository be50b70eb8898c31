/** The chapter handlers: create, list, fetch, patch and delete chapters,
    each behind the owner-or-admin rule. */
module ChapterController {
  import opened Values
  import opened Strings
  import opened Envelope
  import opened Tables
  import opened Records
  import opened Database

  /** The request body of a create or update; every field may be absent. */
  datatype ChapterBody = ChapterBody(
    grade: Option<string>,
    subject: Option<string>,
    chapterName: Option<string>,
    bookName: Option<string>)

  /** The `{ id }` a delete responds with. */
  datatype Deleted = Deleted(id: Id)

  const RequiredMessage := "Grade, subject, and chapter name are required"
  const EmptyMessage := "Grade, subject, and chapter name cannot be empty"
  const ExistsMessage := "Chapter already exists for this grade and subject"
  const InvalidIdMessage := "Invalid chapter ID"
  const NotFoundMessage := "Chapter not found"
  const ForbiddenAccessMessage := "Forbidden: You can only access your own chapters"
  const ForbiddenUpdateMessage := "Forbidden: You can only update your own chapters"
  const ForbiddenDeleteMessage := "Forbidden: You can only delete your own chapters"
  const EmptyGradeMessage := "Grade cannot be empty"
  const EmptySubjectMessage := "Subject cannot be empty"
  const EmptyChapterNameMessage := "Chapter name cannot be empty"
  const FilterRequiredMessage := "Grade and subject are required"
  const FilterTypeMessage := "Grade and subject must be strings"
  const FilterEmptyMessage := "Grade and subject cannot be empty"
  const AddedMessage := "Chapter added successfully"
  const ListedMessage := "Chapters fetched successfully"
  const FetchedMessage := "Chapter fetched successfully"
  const UpdatedMessage := "Chapter updated successfully"
  const DeletedMessage := "Chapter deleted successfully"

  /** The three required fields of a create are present and non-empty. */
  predicate RequiredGiven(b: ChapterBody)
  {
    Given(b.grade) && Given(b.subject) && Given(b.chapterName)
  }

  predicate AnyBlank(b: ChapterBody)
    requires RequiredGiven(b)
  {
    Blank(b.grade.value) || Blank(b.subject.value) || Blank(b.chapterName.value)
  }

  /** The chapter a create stores for `owner`. */
  function NewChapter(b: ChapterBody, owner: Id): Chapter
    requires RequiredGiven(b)
  {
    Chapter(Trim(b.grade.value), Trim(b.subject.value), Trim(b.chapterName.value),
            TrimIfGiven(b.bookName), owner)
  }

  /** The checks of `addChapter`, in order: required fields (400), blank
      ones (400), the requester (401), then a conflict with one of the
      requester's own chapters on the trimmed (grade, subject, chapter name)
      (409); another user's identical chapter does not block it. Passing
      them yields the trimmed chapter owned by the requester. */
  function CheckAdd(t: Table<Chapter>, body: ChapterBody, requester: Option<Profile>): (r: Result<Chapter>)
    ensures !RequiredGiven(body) ==> r == Err(Fail(400, RequiredMessage))
    ensures RequiredGiven(body) && AnyBlank(body) ==> r == Err(Fail(400, EmptyMessage))
    ensures RequiredGiven(body) && !AnyBlank(body) && !Authenticated(requester) ==>
              r == Err(Fail(401, NotAuthenticatedMessage))
    ensures (RequiredGiven(body) && !AnyBlank(body) && Authenticated(requester) &&
             t.HasKey(ChapterKey, ChapterKey(NewChapter(body, requester.value.id)))) ==>
              r == Err(Fail(409, ExistsMessage))
    ensures r.Ok? <==>
              && RequiredGiven(body) && !AnyBlank(body) && Authenticated(requester)
              && !t.HasKey(ChapterKey, ChapterKey(NewChapter(body, requester.value.id)))
    ensures r.Ok? ==> r.value == NewChapter(body, requester.value.id)
    ensures r.Ok? ==> forall k :: k in t.docs ==> ChapterKey(t.docs[k].record) != ChapterKey(r.value)
  {
    if !RequiredGiven(body) then Err(Fail(400, RequiredMessage))
    else if AnyBlank(body) then Err(Fail(400, EmptyMessage))
    else if !Authenticated(requester) then Err(Fail(401, NotAuthenticatedMessage))
    else
      var c := NewChapter(body, requester.value.id);
      if t.HasKey(ChapterKey, ChapterKey(c)) then Err(Fail(409, ExistsMessage)) else Ok(c)
  }

  /** `addChapter`: fails as `CheckAdd` says and changes nothing, or stores
      exactly the one new chapter, newer than every other, and returns it
      with status 201. */
  method AddChapter(db: Store, body: ChapterBody, requester: Option<Profile>, newId: Id)
    returns (r: Reply<Doc<Chapter>>)
    requires db.Valid() && newId !in db.chapters.docs && db.env.validId(newId)
    modifies db`chapters
    ensures db.Valid()
    ensures CheckAdd(old(db.chapters), body, requester).Err? ==>
              && r == Thrown(CheckAdd(old(db.chapters), body, requester).failure)
              && db.chapters == old(db.chapters)
    ensures CheckAdd(old(db.chapters), body, requester).Ok? ==>
              var c := CheckAdd(old(db.chapters), body, requester).value;
              && db.chapters == old(db.chapters).Insert(newId, c)
              && |db.chapters.docs| == |old(db.chapters.docs)| + 1
              && (forall k :: k in old(db.chapters.docs) ==>
                    old(db.chapters.docs[k]).createdAt < db.chapters.docs[newId].createdAt)
              && r == Send(201, 201, db.chapters.docs[newId], Some(AddedMessage))
  {
    var checked := CheckAdd(db.chapters, body, requester);
    if checked.Err? {
      return Thrown(checked.failure);
    }
    db.InsertChapter(newId, checked.value);
    r := Send(201, 201, db.chapters.docs[newId], Some(AddedMessage));
  }

  /** Creates are scoped to their creator: once one user has stored a
      chapter, the same body from that user is a conflict, while from a
      different user it is accepted whenever it was acceptable before. */
  lemma {:induction false} CreateScopedToCreator(t: Table<Chapter>, body: ChapterBody, owner: Profile, other: Profile, newId: Id)
    requires CheckAdd(t, body, Some(owner)).Ok? && newId !in t.docs
    requires CheckAdd(t, body, Some(other)).Ok? && other.id != owner.id
    ensures var t' := t.Insert(newId, CheckAdd(t, body, Some(owner)).value);
            && CheckAdd(t', body, Some(owner)) == Err(Fail(409, ExistsMessage))
            && CheckAdd(t', body, Some(other)).Ok?
  {
    var c := CheckAdd(t, body, Some(owner)).value;
    var t' := t.Insert(newId, c);
    assert t'.docs[newId].record == c;
    assert t'.HasKey(ChapterKey, ChapterKey(NewChapter(body, owner.id)));
    forall k | k in t'.docs
      ensures ChapterKey(t'.docs[k].record) != ChapterKey(NewChapter(body, other.id))
    {
      if k == newId {
        assert t'.docs[k].record.createdBy == owner.id;
      } else {
        assert t'.docs[k] == t.docs[k];
      }
    }
  }

  /** Which chapters a requester may list: all of them for an admin, their
      own otherwise. */
  predicate Visible(c: Chapter, p: Profile)
  {
    IsAdmin(p) || c.createdBy == p.id
  }

  /** `getAllChapters`: every chapter the requester may see and nothing else,
      newest first; 401 without a requester. */
  function GetAllChapters(db: Store, requester: Option<Profile>): (r: Reply<seq<Doc<Chapter>>>)
    reads db
    requires db.Valid()
    ensures !Authenticated(requester) <==> r == Thrown(Fail(401, NotAuthenticatedMessage))
    ensures r.Sent? ==> r.status == 200 && r.body.statusCode == 200 && r.body.success
    ensures r.Sent? ==> Descending(r.body.data)
    ensures r.Sent? ==> forall d :: d in r.body.data ==>
              d.id in db.chapters.docs && db.chapters.docs[d.id] == d && Visible(d.record, requester.value)
    ensures r.Sent? ==> forall id :: id in db.chapters.docs && Visible(db.chapters.docs[id].record, requester.value) ==>
              db.chapters.docs[id] in r.body.data
  {
    if !Authenticated(requester) then Thrown(Fail(401, NotAuthenticatedMessage))
    else
      var p := requester.value;
      Send(200, 200, db.chapters.NewestFirst(c => Visible(c, p)), Some(ListedMessage))
  }

  /** `getChaptersByGradeAndSubject`: both query parameters must be present
      (400), single strings (400) and non-blank (400), and the requester
      known (401); then the visible chapters with exactly that trimmed grade
      and subject, newest first. */
  function GetChaptersByGradeAndSubject(db: Store, grade: Field, subject: Field, requester: Option<Profile>)
    : (r: Reply<seq<Doc<Chapter>>>)
    reads db
    requires db.Valid()
    ensures !FieldGiven(grade) || !FieldGiven(subject) ==> r == Thrown(Fail(400, FilterRequiredMessage))
    ensures FieldGiven(grade) && FieldGiven(subject) && !(grade.Text? && subject.Text?) ==>
              r == Thrown(Fail(400, FilterTypeMessage))
    ensures (FieldGiven(grade) && FieldGiven(subject) && grade.Text? && subject.Text? &&
             (Blank(grade.text) || Blank(subject.text))) ==> r == Thrown(Fail(400, FilterEmptyMessage))
    ensures (FieldGiven(grade) && FieldGiven(subject) && grade.Text? && subject.Text? &&
             !Blank(grade.text) && !Blank(subject.text) && !Authenticated(requester)) ==>
              r == Thrown(Fail(401, NotAuthenticatedMessage))
    ensures r.Sent? <==>
              && FieldGiven(grade) && FieldGiven(subject) && grade.Text? && subject.Text?
              && !Blank(grade.text) && !Blank(subject.text) && Authenticated(requester)
    ensures r.Sent? ==> r.status == 200 && r.body.success && Descending(r.body.data)
    ensures r.Sent? ==> forall d :: d in r.body.data ==>
              && d.id in db.chapters.docs && db.chapters.docs[d.id] == d
              && d.record.grade == Trim(grade.text) && d.record.subject == Trim(subject.text)
              && Visible(d.record, requester.value)
    ensures r.Sent? ==> forall id :: id in db.chapters.docs ==>
              var c := db.chapters.docs[id].record;
              c.grade == Trim(grade.text) && c.subject == Trim(subject.text) && Visible(c, requester.value) ==>
              db.chapters.docs[id] in r.body.data
  {
    if !FieldGiven(grade) || !FieldGiven(subject) then Thrown(Fail(400, FilterRequiredMessage))
    else if !grade.Text? || !subject.Text? then Thrown(Fail(400, FilterTypeMessage))
    else if Blank(grade.text) || Blank(subject.text) then Thrown(Fail(400, FilterEmptyMessage))
    else if !Authenticated(requester) then Thrown(Fail(401, NotAuthenticatedMessage))
    else
      var p, g, s := requester.value, Trim(grade.text), Trim(subject.text);
      var keep := (c: Chapter) => c.grade == g && c.subject == s && Visible(c, p);
      Send(200, 200, db.chapters.NewestFirst(keep), Some(ListedMessage))
  }

  /** The checks `getChapterById`, `updateChapter` and `deleteChapter` share,
      in their order: a malformed id, no requester, an unknown id, a
      requester who is neither the creator nor an admin. */
  function Guard(env: Env, t: Table<Chapter>, id: string, requester: Option<Profile>, forbidden: string)
    : (f: Option<Failure>)
    ensures !env.validId(id) ==> f == Some(Fail(400, InvalidIdMessage))
    ensures env.validId(id) && !Authenticated(requester) ==> f == Some(Fail(401, NotAuthenticatedMessage))
    ensures env.validId(id) && Authenticated(requester) && id !in t.docs ==> f == Some(Fail(404, NotFoundMessage))
    ensures (env.validId(id) && Authenticated(requester) && id in t.docs &&
             !MayModify(t.docs[id].record.createdBy, requester.value)) ==> f == Some(Fail(403, forbidden))
    ensures f.None? <==> Permitted(env, t, id, requester)
  {
    if !env.validId(id) then Some(Fail(400, InvalidIdMessage))
    else if !Authenticated(requester) then Some(Fail(401, NotAuthenticatedMessage))
    else if id !in t.docs then Some(Fail(404, NotFoundMessage))
    else if !MayModify(t.docs[id].record.createdBy, requester.value) then Some(Fail(403, forbidden))
    else None
  }

  /** The requester may act on chapter `id`. */
  predicate Permitted(env: Env, t: Table<Chapter>, id: string, requester: Option<Profile>)
  {
    env.validId(id) && Authenticated(requester) && id in t.docs &&
    MayModify(t.docs[id].record.createdBy, requester.value)
  }

  /** `getChapterById`: the stored chapter once every check passes. */
  function GetChapterById(db: Store, id: string, requester: Option<Profile>): (r: Reply<Doc<Chapter>>)
    reads db
    ensures r.Thrown? <==> !Permitted(db.env, db.chapters, id, requester)
    ensures r.Thrown? ==> r.failure == Guard(db.env, db.chapters, id, requester, ForbiddenAccessMessage).value
    ensures r.Sent? ==> r == Send(200, 200, db.chapters.docs[id], Some(FetchedMessage))
  {
    var f := Guard(db.env, db.chapters, id, requester, ForbiddenAccessMessage);
    if f.Some? then Thrown(f.value) else Send(200, 200, db.chapters.docs[id], Some(FetchedMessage))
  }

  /** None of the given grade, subject or chapter name is blank. */
  predicate PatchNonBlank(b: ChapterBody)
  {
    && (b.grade.Some? ==> !Blank(b.grade.value))
    && (b.subject.Some? ==> !Blank(b.subject.value))
    && (b.chapterName.Some? ==> !Blank(b.chapterName.value))
  }

  /** The failure for the first blank field an update gives, checked in the
      order grade, subject, chapter name. */
  function BlankFieldError(b: ChapterBody): (f: Option<Failure>)
    ensures f.None? <==> PatchNonBlank(b)
    ensures b.grade.Some? && Blank(b.grade.value) ==> f == Some(Fail(400, EmptyGradeMessage))
    ensures !(b.grade.Some? && Blank(b.grade.value)) && b.subject.Some? && Blank(b.subject.value) ==>
              f == Some(Fail(400, EmptySubjectMessage))
    ensures (!(b.grade.Some? && Blank(b.grade.value)) && !(b.subject.Some? && Blank(b.subject.value)) &&
             b.chapterName.Some? && Blank(b.chapterName.value)) ==> f == Some(Fail(400, EmptyChapterNameMessage))
  {
    if b.grade.Some? && Blank(b.grade.value) then Some(Fail(400, EmptyGradeMessage))
    else if b.subject.Some? && Blank(b.subject.value) then Some(Fail(400, EmptySubjectMessage))
    else if b.chapterName.Some? && Blank(b.chapterName.value) then Some(Fail(400, EmptyChapterNameMessage))
    else None
  }

  /** The update gives one of grade, subject or chapter name. */
  predicate TouchesKey(b: ChapterBody)
  {
    b.grade.Some? || b.subject.Some? || b.chapterName.Some?
  }

  /** The chapter a sparse update leaves: each given grade, subject and
      chapter name trimmed, a given book name trimmed or cleared when blank,
      everything else as it was. */
  function Patched(c: Chapter, b: ChapterBody): Chapter
  {
    Chapter(
      if b.grade.Some? then Trim(b.grade.value) else c.grade,
      if b.subject.Some? then Trim(b.subject.value) else c.subject,
      if b.chapterName.Some? then Trim(b.chapterName.value) else c.chapterName,
      if b.bookName.None? then c.bookName else TrimOrClear(b.bookName.value),
      c.createdBy)
  }

  /** The checks of `updateChapter`, in order: the shared ones (400, 401,
      404, 403), blank fields (400), then — only when grade, subject or
      chapter name is given — a conflict of the resulting (grade, subject,
      chapter name) with ANY other chapter, whoever created it (409). Passing
      them yields the patched chapter, still owned by its creator. */
  function CheckUpdate(env: Env, t: Table<Chapter>, id: string, body: ChapterBody, requester: Option<Profile>)
    : (r: Result<Chapter>)
    ensures !Permitted(env, t, id, requester) ==>
              r == Err(Guard(env, t, id, requester, ForbiddenUpdateMessage).value)
    ensures Permitted(env, t, id, requester) && !PatchNonBlank(body) ==> r == Err(BlankFieldError(body).value)
    ensures (Permitted(env, t, id, requester) && PatchNonBlank(body) && TouchesKey(body) &&
             t.HasKeyElsewhere(ChapterTuple, ChapterTuple(Patched(t.docs[id].record, body)), id)) ==>
              r == Err(Fail(409, ExistsMessage))
    ensures r.Ok? <==>
              && Permitted(env, t, id, requester) && PatchNonBlank(body)
              && !(TouchesKey(body) &&
                   t.HasKeyElsewhere(ChapterTuple, ChapterTuple(Patched(t.docs[id].record, body)), id))
    ensures r.Ok? ==> r.value == Patched(t.docs[id].record, body)
    ensures r.Ok? ==> r.value.createdBy == t.docs[id].record.createdBy
  {
    var g := Guard(env, t, id, requester, ForbiddenUpdateMessage);
    if g.Some? then Err(g.value)
    else if BlankFieldError(body).Some? then Err(BlankFieldError(body).value)
    else
      var c := Patched(t.docs[id].record, body);
      if TouchesKey(body) && t.HasKeyElsewhere(ChapterTuple, ChapterTuple(c), id) then Err(Fail(409, ExistsMessage))
      else Ok(c)
  }

  /** An update that passes its checks leaves the per-creator key unique: a
      changed tuple was checked against every other chapter, an unchanged
      one was unique already. */
  lemma UpdateKeepsKeyFree(env: Env, t: Table<Chapter>, id: string, body: ChapterBody, requester: Option<Profile>)
    requires t.Unique(ChapterKey)
    requires CheckUpdate(env, t, id, body, requester).Ok?
    ensures forall k :: k in t.docs && k != id ==>
              ChapterKey(t.docs[k].record) != ChapterKey(CheckUpdate(env, t, id, body, requester).value)
  {
    var c := CheckUpdate(env, t, id, body, requester).value;
    forall k | k in t.docs && k != id
      ensures ChapterKey(t.docs[k].record) != ChapterKey(c)
    {
      if !TouchesKey(body) {
        assert ChapterKey(c) == ChapterKey(t.docs[id].record);
      } else {
        assert ChapterTuple(t.docs[k].record) != ChapterTuple(c);
      }
    }
  }

  /** Sending the same update twice changes nothing the second time. */
  lemma {:induction false} PatchedIdempotent(c: Chapter, b: ChapterBody)
    ensures Patched(Patched(c, b), b) == Patched(c, b)
  {
    if b.grade.Some? { TrimIdempotent(b.grade.value); }
    if b.subject.Some? { TrimIdempotent(b.subject.value); }
    if b.chapterName.Some? { TrimIdempotent(b.chapterName.value); }
    if b.bookName.Some? { TrimIdempotent(b.bookName.value); }
  }

  /** The update `updateChapter` builds, field by field: stops at the first
      blank grade, subject or chapter name, otherwise yields the patched
      chapter. */
  method BuildPatch(existing: Chapter, body: ChapterBody) returns (f: Option<Failure>, patched: Chapter)
    ensures f == BlankFieldError(body)
    ensures f.None? ==> patched == Patched(existing, body)
  {
    patched := existing;
    if body.grade.Some? {
      if Blank(body.grade.value) {
        return Some(Fail(400, EmptyGradeMessage)), patched;
      }
      patched := patched.(grade := Trim(body.grade.value));
    }
    if body.subject.Some? {
      if Blank(body.subject.value) {
        return Some(Fail(400, EmptySubjectMessage)), patched;
      }
      patched := patched.(subject := Trim(body.subject.value));
    }
    if body.chapterName.Some? {
      if Blank(body.chapterName.value) {
        return Some(Fail(400, EmptyChapterNameMessage)), patched;
      }
      patched := patched.(chapterName := Trim(body.chapterName.value));
    }
    if body.bookName.Some? {
      patched := patched.(bookName := TrimOrClear(body.bookName.value));
    }
    f := None;
  }

  /** `updateChapter`: fails as
      `CheckUpdate` says and changes nothing, or replaces only that
      chapter's fields by the patched ones and returns the new document. */
  method UpdateChapter(db: Store, id: string, body: ChapterBody, requester: Option<Profile>)
    returns (r: Reply<Doc<Chapter>>)
    requires db.Valid()
    modifies db`chapters
    ensures db.Valid()
    ensures CheckUpdate(db.env, old(db.chapters), id, body, requester).Err? ==>
              && r == Thrown(CheckUpdate(db.env, old(db.chapters), id, body, requester).failure)
              && db.chapters == old(db.chapters)
    ensures CheckUpdate(db.env, old(db.chapters), id, body, requester).Ok? ==>
              && db.chapters == old(db.chapters).Replace(id, CheckUpdate(db.env, old(db.chapters), id, body, requester).value)
              && r == Send(200, 200, db.chapters.docs[id], Some(UpdatedMessage))
  {
    var f := Guard(db.env, db.chapters, id, requester, ForbiddenUpdateMessage);
    if f.Some? {
      return Thrown(f.value);
    }
    var existing := db.chapters.docs[id].record;
    var blank, patched := BuildPatch(existing, body);
    if blank.Some? {
      return Thrown(blank.value);
    }
    if TouchesKey(body) {
      if db.chapters.HasKeyElsewhere(ChapterTuple, ChapterTuple(patched), id) {
        return Thrown(Fail(409, ExistsMessage));
      }
    }
    UpdateKeepsKeyFree(db.env, db.chapters, id, body, requester);
    db.ReplaceChapter(id, patched);
    r := Send(200, 200, db.chapters.docs[id], Some(UpdatedMessage));
  }

  /** `deleteChapter`. After the shared checks (400, 401, 404, 403) the
      chapter is gone, every other chapter is as it was, and the response
      carries the deleted id. */
  method DeleteChapter(db: Store, id: string, requester: Option<Profile>) returns (r: Reply<Deleted>)
    requires db.Valid()
    modifies db`chapters
    ensures db.Valid()
    ensures !Permitted(db.env, old(db.chapters), id, requester) ==>
              r == Thrown(Guard(db.env, old(db.chapters), id, requester, ForbiddenDeleteMessage).value)
              && db.chapters == old(db.chapters)
    ensures Permitted(db.env, old(db.chapters), id, requester) ==>
              && r == Send(200, 200, Deleted(id), Some(DeletedMessage))
              && db.chapters == old(db.chapters).Remove(id)
              && id !in db.chapters.docs
              && (forall k :: k in old(db.chapters.docs) && k != id ==>
                    k in db.chapters.docs && db.chapters.docs[k] == old(db.chapters.docs[k]))
  {
    var f := Guard(db.env, db.chapters, id, requester, ForbiddenDeleteMessage);
    if f.Some? {
      return Thrown(f.value);
    }
    db.RemoveChapter(id);
    r := Send(200, 200, Deleted(id), Some(DeletedMessage));
  }
}
