/** The database as the handlers see it: one collection per model and the
    foreign functions the handlers call. */
module Database {
  import opened Values
  import opened Tables
  import opened Records

  class Store {
    const env: Env
    var chapters: Table<Chapter>
    var questions: Table<Question>
    var grades: Table<Grade>
    var subjects: Table<Subject>
    var questionTypes: Table<QuestionType>
    var users: Table<User>

    /** Every collection is well formed, holds only well-formed ids, and keeps
        the natural key its controller checks unique: chapters per
        (grade, subject, chapter name, creator), questions by text, grades,
        subjects and question types by name, users by email. */
    ghost predicate Valid()
      reads this
    {
      && ChaptersValid() && QuestionsValid() && GradesValid()
      && SubjectsValid() && QuestionTypesValid() && UsersValid()
    }

    ghost predicate ChaptersValid()
      reads this`chapters
    {
      chapters.Valid() && chapters.IdsSatisfy(env.validId) && chapters.Unique(ChapterKey)
    }

    ghost predicate QuestionsValid()
      reads this`questions
    {
      questions.Valid() && questions.IdsSatisfy(env.validId) && questions.Unique(QuestionText)
    }

    ghost predicate GradesValid()
      reads this`grades
    {
      grades.Valid() && grades.IdsSatisfy(env.validId) && grades.Unique(GradeName)
    }

    ghost predicate SubjectsValid()
      reads this`subjects
    {
      subjects.Valid() && subjects.IdsSatisfy(env.validId) && subjects.Unique(SubjectName)
    }

    ghost predicate QuestionTypesValid()
      reads this`questionTypes
    {
      questionTypes.Valid() && questionTypes.IdsSatisfy(env.validId)
      && questionTypes.Unique(QuestionTypeName)
    }

    ghost predicate UsersValid()
      reads this`users
    {
      users.Valid() && users.IdsSatisfy(env.validId) && users.Unique(UserEmail)
    }

    /** An empty database. */
    constructor (env: Env)
      ensures Valid() && this.env == env
      ensures chapters.docs == map[] && questions.docs == map[] && grades.docs == map[]
      ensures subjects.docs == map[] && questionTypes.docs == map[] && users.docs == map[]
    {
      this.env := env;
      chapters, questions, grades := Table(map[], [], 0), Table(map[], [], 0), Table(map[], [], 0);
      subjects, questionTypes, users := Table(map[], [], 0), Table(map[], [], 0), Table(map[], [], 0);
    }

    /** Stores a new chapter under a fresh id whose (grade, subject, chapter
        name, creator) no stored chapter has, stamped with the counter. */
    method InsertChapter(id: Id, c: Chapter)
      requires Valid() && id !in chapters.docs && env.validId(id)
      requires forall k :: k in chapters.docs ==> ChapterKey(chapters.docs[k].record) != ChapterKey(c)
      modifies this`chapters
      ensures Valid()
      ensures chapters == old(chapters).Insert(id, c)
    {
      chapters.InsertValid(id, c);
      chapters.InsertUnique(ChapterKey, id, c);
      chapters := chapters.Insert(id, c);
    }

    /** Overwrites a stored chapter's fields, keeping its key unique. */
    method ReplaceChapter(id: Id, c: Chapter)
      requires Valid() && id in chapters.docs
      requires forall k :: k in chapters.docs && k != id ==> ChapterKey(chapters.docs[k].record) != ChapterKey(c)
      modifies this`chapters
      ensures Valid()
      ensures chapters == old(chapters).Replace(id, c)
    {
      chapters.ReplaceValid(id, c);
      chapters.ReplaceUnique(ChapterKey, id, c);
      chapters := chapters.Replace(id, c);
    }

    /** Deletes a chapter. */
    method RemoveChapter(id: Id)
      requires Valid()
      modifies this`chapters
      ensures Valid()
      ensures chapters == old(chapters).Remove(id)
    {
      chapters.RemoveValid(id);
      chapters.RemoveUnique(ChapterKey, id);
      chapters := chapters.Remove(id);
    }

    /** Stores a new question under a fresh id whose key no stored question has,
        stamped with that collection's counter. */
    method InsertQuestion(id: Id, x: Question)
      requires Valid() && id !in questions.docs && env.validId(id)
      requires forall k :: k in questions.docs ==> QuestionText(questions.docs[k].record) != QuestionText(x)
      modifies this`questions
      ensures Valid()
      ensures questions == old(questions).Insert(id, x)
    {
      questions.InsertValid(id, x);
      questions.InsertUnique(QuestionText, id, x);
      questions := questions.Insert(id, x);
    }

    /** Overwrites a stored question's fields, keeping its key unique. */
    method ReplaceQuestion(id: Id, x: Question)
      requires Valid() && id in questions.docs
      requires forall k :: k in questions.docs && k != id ==> QuestionText(questions.docs[k].record) != QuestionText(x)
      modifies this`questions
      ensures Valid()
      ensures questions == old(questions).Replace(id, x)
    {
      questions.ReplaceValid(id, x);
      questions.ReplaceUnique(QuestionText, id, x);
      questions := questions.Replace(id, x);
    }

    /** Deletes a question. */
    method RemoveQuestion(id: Id)
      requires Valid()
      modifies this`questions
      ensures Valid()
      ensures questions == old(questions).Remove(id)
    {
      questions.RemoveValid(id);
      questions.RemoveUnique(QuestionText, id);
      questions := questions.Remove(id);
    }

    /** Stores a new grade under a fresh id whose key no stored grade has,
        stamped with that collection's counter. */
    method InsertGrade(id: Id, x: Grade)
      requires Valid() && id !in grades.docs && env.validId(id)
      requires forall k :: k in grades.docs ==> GradeName(grades.docs[k].record) != GradeName(x)
      modifies this`grades
      ensures Valid()
      ensures grades == old(grades).Insert(id, x)
    {
      grades.InsertValid(id, x);
      grades.InsertUnique(GradeName, id, x);
      grades := grades.Insert(id, x);
    }

    /** Stores a new subject under a fresh id whose key no stored subject has,
        stamped with that collection's counter. */
    method InsertSubject(id: Id, x: Subject)
      requires Valid() && id !in subjects.docs && env.validId(id)
      requires forall k :: k in subjects.docs ==> SubjectName(subjects.docs[k].record) != SubjectName(x)
      modifies this`subjects
      ensures Valid()
      ensures subjects == old(subjects).Insert(id, x)
    {
      subjects.InsertValid(id, x);
      subjects.InsertUnique(SubjectName, id, x);
      subjects := subjects.Insert(id, x);
    }

    /** Stores a new question type under a fresh id whose key no stored question type has,
        stamped with that collection's counter. */
    method InsertQuestionType(id: Id, x: QuestionType)
      requires Valid() && id !in questionTypes.docs && env.validId(id)
      requires forall k :: k in questionTypes.docs ==> QuestionTypeName(questionTypes.docs[k].record) != QuestionTypeName(x)
      modifies this`questionTypes
      ensures Valid()
      ensures questionTypes == old(questionTypes).Insert(id, x)
    {
      questionTypes.InsertValid(id, x);
      questionTypes.InsertUnique(QuestionTypeName, id, x);
      questionTypes := questionTypes.Insert(id, x);
    }

    /** Stores a new user under a fresh id whose key no stored user has,
        stamped with that collection's counter. */
    method InsertUser(id: Id, x: User)
      requires Valid() && id !in users.docs && env.validId(id)
      requires forall k :: k in users.docs ==> UserEmail(users.docs[k].record) != UserEmail(x)
      modifies this`users
      ensures Valid()
      ensures users == old(users).Insert(id, x)
    {
      users.InsertValid(id, x);
      users.InsertUnique(UserEmail, id, x);
      users := users.Insert(id, x);
    }

    /** Overwrites a stored user's fields, keeping its key unique. */
    method ReplaceUser(id: Id, x: User)
      requires Valid() && id in users.docs
      requires forall k :: k in users.docs && k != id ==> UserEmail(users.docs[k].record) != UserEmail(x)
      modifies this`users
      ensures Valid()
      ensures users == old(users).Replace(id, x)
    {
      users.ReplaceValid(id, x);
      users.ReplaceUnique(UserEmail, id, x);
      users := users.Replace(id, x);
    }

  }
}
