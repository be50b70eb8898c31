/** What the taxonomy handlers have in common: `addSubject` and
    `addQuestionType` take a body with a name and a description and run the
    same three checks before the insert; `getGradeById` and
    `getQuestionTypeById` take the same two steps before answering. */
module Catalog {
  import opened Values
  import opened Strings
  import opened Envelope
  import opened Tables
  import opened Records

  /** The request body of either create; both fields may be absent. */
  datatype NamedBody = NamedBody(name: Option<string>, description: Option<string>)

  const RequiredMessage := "Name and description are required"
  const EmptyMessage := "Name and description cannot be empty"

  /** Both fields are present and non-empty. */
  predicate BothGiven(b: NamedBody)
  {
    Given(b.name) && Given(b.description)
  }

  /** The checks of either create, in order: both fields present and
      non-empty (400), neither blank after trimming (400), no stored record
      already named with the trimmed name (409, with the collection's own
      message). Passing them yields the trimmed name and description, and
      the name is then non-empty, trimmed and new to the collection. */
  function CheckNamed(b: NamedBody, taken: set<string>, existsMessage: string): (r: Result<(string, string)>)
    ensures !BothGiven(b) ==> r == Err(Fail(400, RequiredMessage))
    ensures BothGiven(b) && (Blank(b.name.value) || Blank(b.description.value)) ==> r == Err(Fail(400, EmptyMessage))
    ensures (BothGiven(b) && !Blank(b.name.value) && !Blank(b.description.value) &&
             Trim(b.name.value) in taken) ==> r == Err(Fail(409, existsMessage))
    ensures r.Ok? <==>
              BothGiven(b) && !Blank(b.name.value) && !Blank(b.description.value) && Trim(b.name.value) !in taken
    ensures r.Ok? ==> r.value == (Trim(b.name.value), Trim(b.description.value))
    ensures r.Ok? ==> r.value.0 != "" && r.value.1 != "" && r.value.0 !in taken
  {
    if !BothGiven(b) then Err(Fail(400, RequiredMessage))
    else if Blank(b.name.value) || Blank(b.description.value) then Err(Fail(400, EmptyMessage))
    else if Trim(b.name.value) in taken then Err(Fail(409, existsMessage))
    else Ok((Trim(b.name.value), Trim(b.description.value)))
  }

  /** What a create stores is already in the form the checks produce: the
      stored name and description are trimmed, and sending them back
      unchanged as a new body passes the same field checks and yields the
      same pair. */
  lemma StoredFieldsTrimmed(b: NamedBody, taken: set<string>, existsMessage: string)
    requires CheckNamed(b, taken, existsMessage).Ok?
    ensures var v := CheckNamed(b, taken, existsMessage).value;
            Trimmed(v.0) && Trimmed(v.1) &&
            CheckNamed(NamedBody(Some(v.0), Some(v.1)), taken, existsMessage) == Ok(v)
  {
    var name, description := b.name.value, b.description.value;
    TrimSpec(name);
    TrimSpec(description);
    TrimIdempotent(name);
    TrimIdempotent(description);
  }

  /** Sending the same create again, once the first has stored its name,
      yields 409. */
  lemma RepeatConflicts(b: NamedBody, taken: set<string>, existsMessage: string)
    requires CheckNamed(b, taken, existsMessage).Ok?
    ensures CheckNamed(b, taken + {CheckNamed(b, taken, existsMessage).value.0}, existsMessage)
              == Err(Fail(409, existsMessage))
  {
  }

  /** `findById(id)` behind an id syntax check: 400 with `invalid` for a
      malformed id, 404 with `missing` for an unknown one, otherwise 200
      with the stored document and `fetched`. */
  function FetchById<R>(env: Env, t: Table<R>, id: string, invalid: string, missing: string, fetched: string)
    : (r: Reply<Doc<R>>)
    ensures !env.validId(id) ==> r == Thrown(Fail(400, invalid))
    ensures env.validId(id) && id !in t.docs ==> r == Thrown(Fail(404, missing))
    ensures r.Sent? <==> env.validId(id) && id in t.docs
    ensures r.Sent? ==> r == Send(200, 200, t.docs[id], Some(fetched))
  {
    if !env.validId(id) then Thrown(Fail(400, invalid))
    else if id !in t.docs then Thrown(Fail(404, missing))
    else Send(200, 200, t.docs[id], Some(fetched))
  }
}
