/** The grade handlers: create a grade from a name and a list of subject
    ids, list the grades and fetch one by id. */
module GradeController {
  import opened Values
  import opened Strings
  import opened Envelope
  import opened Tables
  import opened Records
  import opened Database
  import opened Catalog

  /** The request body of a create: the grade name, and the subjects as
      whatever JSON value was sent. */
  datatype GradeBody = GradeBody(grade: Option<string>, subjects: Field)

  const RequiredMessage := "Grade and subjects are required"
  const NotArrayMessage := "Subjects must be an array"
  const NoSubjectsMessage := "At least one subject is required"
  const ExistsMessage := "Grade already exists"
  const InvalidSubjectPrefix := "Invalid subject ID: "
  const SubjectsMissingMessage := "One or more subjects not found"
  const AddedMessage := "Grade added successfully"
  const ListedMessage := "Grades fetched successfully"
  const InvalidIdMessage := "Invalid grade ID"
  const NotFoundMessage := "Grade not found"
  const FetchedMessage := "Grade fetched successfully"
  /** What the schema's `required` validator reports when the trimmed name
      it is asked to save is empty. */
  const NameRejectedMessage := "Grade validation failed: grade: Path `grade` is required."

  /** The trimmed grade name a create looks up and stores. */
  function Name(b: GradeBody): string
  {
    if b.grade.Some? then Trim(b.grade.value) else ""
  }

  /** The subject ids a create validates and stores, in the order sent. */
  function SubjectIds(b: GradeBody): seq<Id>
  {
    if b.subjects.List? then b.subjects.items else []
  }

  /** The checks of `addGrade` that look only at the body: both fields
      present and non-empty (400), the subjects an array (400) and not an
      empty one (400). */
  function ShapeChecks(b: GradeBody): seq<Check>
  {
    [ Check(Given(b.grade) && FieldGiven(b.subjects), Fail(400, RequiredMessage)),
      Check(b.subjects.List?, Fail(400, NotArrayMessage)),
      Check(!(b.subjects.List? && b.subjects.items == []), Fail(400, NoSubjectsMessage)) ]
  }

  /** The mapping over the subject list: one id syntax check per entry, in
      list order, each naming its own id when it fails. */
  function IdChecks(env: Env, ids: seq<Id>): (cs: seq<Check>)
    ensures |cs| == |ids|
    ensures forall i :: 0 <= i < |ids| ==>
              cs[i] == Check(env.validId(ids[i]), Fail(400, InvalidSubjectPrefix + ids[i]))
  {
    if ids == [] then []
    else [Check(env.validId(ids[0]), Fail(400, InvalidSubjectPrefix + ids[0]))] + IdChecks(env, ids[1..])
  }

  /** The distinct stored subjects a query for `ids` matches. */
  function Matched(t: Table<Subject>, ids: seq<Id>): set<Id>
  {
    set id | id in ids && id in t.docs
  }

  /** No id occurs twice. */
  predicate Distinct(ids: seq<Id>)
  {
    forall i, j :: 0 <= i < j < |ids| ==> ids[i] != ids[j]
  }

  /** The checks of `addGrade` against the database, in order: the trimmed
      name taken (409), then the id syntax checks, then fewer distinct
      matching subjects than listed ids (404), then the schema's rejection
      of an empty name when the grade is saved (500). */
  function StoreChecks(db: Store, b: GradeBody): seq<Check>
    reads db
  {
    [Check(!db.grades.HasKey(GradeName, Name(b)), Fail(409, ExistsMessage))]
    + IdChecks(db.env, SubjectIds(b))
    + [ Check(|Matched(db.subjects, SubjectIds(b))| == |SubjectIds(b)|, Fail(404, SubjectsMissingMessage)),
        Check(Name(b) != "", Internal(NameRejectedMessage, Captured)) ]
  }

  /** Every step of `addGrade`, in the order it takes them. */
  function AddChecks(db: Store, b: GradeBody): seq<Check>
    reads db
  {
    ShapeChecks(b) + StoreChecks(db, b)
  }

  /** There are at most as many distinct ids as entries, and exactly as
      many when no id repeats. */
  lemma {:induction false} DistinctCount(s: seq<Id>)
    ensures |set x | x in s| <= |s|
    ensures |set x | x in s| == |s| <==> Distinct(s)
  {
    if s != [] {
      var r, x := s[..|s| - 1], s[|s| - 1];
      DistinctCount(r);
      assert s == r + [x];
      assert (set y | y in s) == (set y | y in r) + {x};
      if x in r {
        var i :| 0 <= i < |r| && r[i] == x;
        assert s[i] == s[|s| - 1];
      } else {
        assert Distinct(s) <== Distinct(r) by {
          forall i, j | 0 <= i < j < |s| && Distinct(r) ensures s[i] != s[j] {
            if j < |s| - 1 { assert s[i] == r[i] && s[j] == r[j]; } else { assert s[i] in r; }
          }
        }
      }
    }
  }

  /** A proper subset is smaller. */
  lemma StrictSubsetSmaller(a: set<Id>, b: set<Id>, x: Id)
    requires a <= b && x in b && x !in a
    ensures |a| < |b|
  {
    assert a + (b - a) == b;
    assert a * (b - a) == {};
    assert x in b - a;
  }

  /** The count comparison of `addGrade` passes exactly when every listed
      id names a stored subject and no id is listed twice; a list that
      repeats a valid id therefore fails it. */
  lemma MatchedCount(t: Table<Subject>, ids: seq<Id>)
    ensures |Matched(t, ids)| == |ids| <==>
              (forall i :: 0 <= i < |ids| ==> ids[i] in t.docs) && Distinct(ids)
  {
    var all := set x | x in ids;
    DistinctCount(ids);
    if forall i :: 0 <= i < |ids| ==> ids[i] in t.docs {
      assert Matched(t, ids) == all;
    } else {
      var i :| 0 <= i < |ids| && ids[i] !in t.docs;
      StrictSubsetSmaller(Matched(t, ids), all, ids[i]);
    }
  }

  /** Once every step of `addGrade` passes, the body holds a non-empty,
      new, trimmed name and a non-empty list of distinct, well-formed ids
      of stored subjects. */
  lemma AddChecksPass(db: Store, b: GradeBody)
    requires FirstFailure(AddChecks(db, b)).None?
    ensures Given(b.grade) && b.subjects.List? && b.subjects.items != []
    ensures Name(b) != "" && forall k :: k in db.grades.docs ==> db.grades.docs[k].record.grade != Name(b)
    ensures forall i :: 0 <= i < |SubjectIds(b)| ==>
              db.env.validId(SubjectIds(b)[i]) && SubjectIds(b)[i] in db.subjects.docs
    ensures Distinct(SubjectIds(b))
  {
    var shape, store := ShapeChecks(b), StoreChecks(db, b);
    FirstFailureAppend(shape, store);
    assert shape[0].passes && shape[1].passes && shape[2].passes;
    var ids := SubjectIds(b);
    var n := |ids|;
    assert store[0].passes && store[n + 1].passes && store[n + 2].passes;
    forall i | 0 <= i < n ensures db.env.validId(ids[i]) {
      assert store[i + 1] == IdChecks(db.env, ids)[i];
    }
    MatchedCount(db.subjects, ids);
  }

  /** A name some stored grade already has is reported as 409 before any
      subject id is looked at, however malformed the ids. */
  lemma NameConflictFirst(db: Store, b: GradeBody)
    requires Given(b.grade) && b.subjects.List? && b.subjects.items != []
    requires db.grades.HasKey(GradeName, Name(b))
    ensures FirstFailure(AddChecks(db, b)) == Some(Fail(409, ExistsMessage))
  {
    var shape, store := ShapeChecks(b), StoreChecks(db, b);
    FirstFailureAppend(shape, store);
    assert FirstFailure(shape) == None by {
      assert shape[0].passes && shape[1].passes && shape[2].passes;
    }
    FirstFailureAt(store, 0);
  }

  /** The first malformed subject id in list order is the one reported. */
  lemma FirstInvalidIdReported(env: Env, ids: seq<Id>, k: nat)
    requires k < |ids| && !env.validId(ids[k])
    requires forall j :: 0 <= j < k ==> env.validId(ids[j])
    ensures FirstFailure(IdChecks(env, ids)) == Some(Fail(400, InvalidSubjectPrefix + ids[k]))
  {
    FirstFailureAt(IdChecks(env, ids), k);
  }

  /** A list of well-formed ids of stored subjects in which one id repeats
      is rejected with 404, as if a subject were missing. */
  lemma RepeatedSubjectRejected(db: Store, b: GradeBody, i: nat, j: nat)
    requires Given(b.grade) && b.subjects.List?
    requires !db.grades.HasKey(GradeName, Name(b))
    requires forall k :: 0 <= k < |b.subjects.items| ==>
               db.env.validId(b.subjects.items[k]) && b.subjects.items[k] in db.subjects.docs
    requires i < j < |b.subjects.items| && b.subjects.items[i] == b.subjects.items[j]
    ensures FirstFailure(AddChecks(db, b)) == Some(Fail(404, SubjectsMissingMessage))
  {
    var shape, store := ShapeChecks(b), StoreChecks(db, b);
    var ids := SubjectIds(b);
    var n := |ids|;
    FirstFailureAppend(shape, store);
    assert FirstFailure(shape) == None by {
      assert shape[0].passes && shape[1].passes && shape[2].passes;
    }
    MatchedCount(db.subjects, ids);
    assert !store[n + 1].passes;
    forall k | 0 <= k < n + 1 ensures store[k].passes {
      if k > 0 { assert store[k] == IdChecks(db.env, ids)[k - 1]; }
    }
    FirstFailureAt(store, n + 1);
  }

  /** The grade a create stores: the trimmed name and the ids as sent. */
  function NewGrade(b: GradeBody): Grade
  {
    Grade(Name(b), SubjectIds(b))
  }

  /** `addGrade`: throws the failure of the first step of `AddChecks` that
      does not pass and changes nothing, or stores exactly the new grade
      (whose name is new and whose subjects exist, by `AddChecksPass`) and
      returns it with status 201. */
  method AddGrade(db: Store, body: GradeBody, newId: Id) returns (r: Reply<Doc<Grade>>)
    requires db.Valid() && newId !in db.grades.docs && db.env.validId(newId)
    modifies db`grades
    ensures db.Valid()
    ensures r.Thrown? <==> old(FirstFailure(AddChecks(db, body))).Some?
    ensures r.Thrown? ==>
              && Some(r.failure) == old(FirstFailure(AddChecks(db, body)))
              && db.grades == old(db.grades)
    ensures r.Sent? ==>
              && db.grades == old(db.grades).Insert(newId, NewGrade(body))
              && |db.grades.docs| == |old(db.grades.docs)| + 1
              && r == Send(201, 201, db.grades.docs[newId], Some(AddedMessage))
  {
    var f := FirstFailure(AddChecks(db, body));
    if f.Some? {
      return Thrown(f.value);
    }
    AddChecksPass(db, body);
    db.InsertGrade(newId, NewGrade(body));
    r := Send(201, 201, db.grades.docs[newId], Some(AddedMessage));
  }

  /** `getAllGrades`: every stored grade, each once, newest first. */
  function GetAllGrades(db: Store): (r: Reply<seq<Doc<Grade>>>)
    reads db
    requires db.Valid()
    ensures r.Sent? && r.status == 200 && r.body.statusCode == 200 && r.body.success
    ensures r.body.message == ListedMessage
    ensures forall d :: d in r.body.data ==> d.id in db.grades.docs && db.grades.docs[d.id] == d
    ensures forall id :: id in db.grades.docs ==> db.grades.docs[id] in r.body.data
    ensures Descending(r.body.data)
  {
    Send(200, 200, db.grades.NewestFirst(_ => true), Some(ListedMessage))
  }

  /** `getGradeById`: 400 for a malformed id, 404 for an unknown one,
      otherwise the stored grade. */
  function GetGradeById(env: Env, t: Table<Grade>, id: string): (r: Reply<Doc<Grade>>)
    ensures !env.validId(id) ==> r == Thrown(Fail(400, InvalidIdMessage))
    ensures env.validId(id) && id !in t.docs ==> r == Thrown(Fail(404, NotFoundMessage))
    ensures r.Sent? <==> env.validId(id) && id in t.docs
    ensures r.Sent? ==> r == Send(200, 200, t.docs[id], Some(FetchedMessage))
  {
    FetchById(env, t, id, InvalidIdMessage, NotFoundMessage, FetchedMessage)
  }

  /** A grade just stored under a valid id is fetched back with its trimmed
      name and its subject ids in the order they were sent. */
  lemma AddedIsFetched(env: Env, t: Table<Grade>, id: Id, b: GradeBody)
    requires env.validId(id)
    ensures var r := GetGradeById(env, t.Insert(id, NewGrade(b)), id);
            r.Sent? && r.body.data.record.grade == Name(b) && r.body.data.record.subjects == SubjectIds(b)
  {
  }
}
