/** The subject handlers: create a subject and list them all. The schema
    declares no unique index on the name, so the create's own check is what
    keeps subject names unique. */
module SubjectController {
  import opened Values
  import opened Envelope
  import opened Tables
  import opened Records
  import opened Database
  import opened Catalog

  const ExistsMessage := "Subject already exists"
  const AddedMessage := "Subject added successfully"
  const ListedMessage := "Subjects fetched successfully"

  /** `addSubject`: fails as `CheckNamed` says against the stored names and
      changes nothing, or stores exactly one new subject with the trimmed
      name and description and returns it with status 201. */
  method AddSubject(db: Store, body: NamedBody, newId: Id) returns (r: Reply<Doc<Subject>>)
    requires db.Valid() && newId !in db.subjects.docs && db.env.validId(newId)
    modifies db`subjects
    ensures db.Valid()
    ensures CheckNamed(body, old(db.subjects).Keys(SubjectName), ExistsMessage).Err? ==>
              && r == Thrown(CheckNamed(body, old(db.subjects).Keys(SubjectName), ExistsMessage).failure)
              && db.subjects == old(db.subjects)
    ensures CheckNamed(body, old(db.subjects).Keys(SubjectName), ExistsMessage).Ok? ==>
              var v := CheckNamed(body, old(db.subjects).Keys(SubjectName), ExistsMessage).value;
              && db.subjects == old(db.subjects).Insert(newId, Subject(v.0, v.1))
              && |db.subjects.docs| == |old(db.subjects.docs)| + 1
              && r == Send(201, 201, db.subjects.docs[newId], Some(AddedMessage))
  {
    var checked := CheckNamed(body, db.subjects.Keys(SubjectName), ExistsMessage);
    if checked.Err? {
      return Thrown(checked.failure);
    }
    var s := Subject(checked.value.0, checked.value.1);
    db.InsertSubject(newId, s);
    r := Send(201, 201, db.subjects.docs[newId], Some(AddedMessage));
  }

  /** `getAllSubjects`: every stored subject, each once, newest first. */
  function GetAllSubjects(db: Store): (r: Reply<seq<Doc<Subject>>>)
    reads db
    requires db.Valid()
    ensures r.Sent? && r.status == 200 && r.body.statusCode == 200 && r.body.success
    ensures r.body.message == ListedMessage
    ensures forall d :: d in r.body.data ==> d.id in db.subjects.docs && db.subjects.docs[d.id] == d
    ensures forall id :: id in db.subjects.docs ==> db.subjects.docs[id] in r.body.data
    ensures Descending(r.body.data)
  {
    Send(200, 200, db.subjects.NewestFirst(_ => true), Some(ListedMessage))
  }
}
