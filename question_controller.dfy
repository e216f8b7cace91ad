/** The question controller: an event's questions ranked by votes, and the
    create, update, delete and upvote handlers over the `questions` table.
    Error replies carry `{status: 'error', message}`; `Err` holds that
    `message`, and `Ok` the success `message` or the new id. */
module QuestionController {
  import opened Common
  import opened Database
  import opened Ordering
  import Profanity

  /** An element of `data` in `getQuestions`. */
  datatype QuestionView = QuestionView(
    id: int, content: string, eventId: int, userId: int,
    authorName: string, upvotes: int, createdAt: int)

  /** A question as `getQuestions` formats it, with its author's
      `first_name || ' ' || last_name`. */
  function QuestionViewOf(t: Tables, q: int): (r: QuestionView)
    requires Consistent(t) && q in t.questions
    ensures r.id == q && r.content == t.questions[q].text && r.eventId == t.questions[q].eventId
    ensures r.userId == t.questions[q].userId && r.upvotes == t.questions[q].upvotes
    ensures r.createdAt == t.questions[q].created
    ensures r.authorName == t.users[r.userId].firstName + " " + t.users[r.userId].lastName
  {
    var row := t.questions[q];
    var author := t.users[row.userId];
    QuestionView(q, row.text, row.eventId, row.userId, author.firstName + " " + author.lastName, row.upvotes, row.created)
  }

  /** `ORDER BY q.upvotes DESC, q.created_date DESC`. */
  function Ranked(): (QuestionView, QuestionView) -> bool
  {
    (a: QuestionView, b: QuestionView) => a.upvotes > b.upvotes || (a.upvotes == b.upvotes && a.createdAt >= b.createdAt)
  }

  lemma RankedIsPreorder()
    ensures Total(Ranked()) && Transitive(Ranked())
  {
  }

  /** Sorting by rank keeps the elements, orders them by votes and then by
      creation time, and adds no duplicate. */
  lemma SortRanked(vs: seq<QuestionView>)
    ensures forall v :: v in SortBy(vs, Ranked()) <==> v in vs
    ensures forall i, j :: 0 <= i < j < |vs| ==> Ranked()(SortBy(vs, Ranked())[i], SortBy(vs, Ranked())[j])
    ensures NoDuplicates(vs) ==> NoDuplicates(SortBy(vs, Ranked()))
  {
    RankedIsPreorder();
    SortBySorted(vs, Ranked());
    SortByKeepsElements(vs, Ranked());
    if NoDuplicates(vs) {
      SortByNoDuplicates(vs, Ranked());
    }
  }

  function QuestionViewsOf(t: Tables, ks: seq<int>): (r: seq<QuestionView>)
    requires Consistent(t)
    requires forall k :: k in ks ==> k in t.questions
    requires Increasing(ks)
    ensures forall v :: v in r <==> v.id in ks && v == QuestionViewOf(t, v.id)
    ensures NoDuplicates(r)
  {
    if ks == [] then []
    else
      var rest := QuestionViewsOf(t, ks[1..]);
      assert forall v :: v in rest ==> ks[0] < v.id;
      [QuestionViewOf(t, ks[0])] + rest
  }

  /** `getQuestions`: exactly the event's questions, each once, the most
      upvoted first and, among equally upvoted ones, the newest first. An
      unknown event has none. */
  function GetQuestions(t: Tables, e: int): (r: Reply<seq<QuestionView>>)
    requires Consistent(t)
    ensures r.Ok? && r.status == 200
    ensures forall v :: v in r.value <==> v.id in t.questions && t.questions[v.id].eventId == e && v == QuestionViewOf(t, v.id)
    ensures forall i, j :: 0 <= i < j < |r.value| ==>
      r.value[i].id != r.value[j].id &&
      (r.value[i].upvotes > r.value[j].upvotes ||
       (r.value[i].upvotes == r.value[j].upvotes && r.value[i].createdAt >= r.value[j].createdAt))
  {
    var ks := KeysUpTo(t.questions, t.lastQuestion);
    assert Increasing(ks);
    var vs := QuestionViewsOf(t, Where(ks, (k: int) => k in t.questions && t.questions[k].eventId == e));
    var r := SortBy(vs, Ranked());
    SortRanked(vs);
    assert forall i, j :: 0 <= i < j < |r| ==> r[i].id != r[j].id by {
      forall i, j | 0 <= i < j < |r| ensures r[i].id != r[j].id {
        assert r[i] in vs && r[j] in vs;
      }
    }
    Ok(200, r)
  }

  /** `createQuestion`: content and author are required and the content must be
      clean; the question is stored as sent with no upvotes. The store is
      untouched on every refusal. */
  method CreateQuestion(db: Database, e: int, content: Option<string>, userId: Option<int>, now: int)
    returns (r: Reply<int>)
    requires db.Valid()
    modifies db
    ensures db.Valid()
    ensures !Given(content) || !GivenId(userId) ==>
      r == Err(400, "Content and user_id are required") && db.t == old(db.t)
    ensures Given(content) && GivenId(userId) && Profanity.ContainsProfanity(content.value) ==>
      r == Err(400, "Question contains inappropriate language") && db.t == old(db.t)
    ensures (Given(content) && GivenId(userId) && !Profanity.ContainsProfanity(content.value) &&
             (e !in old(db.t.events) || userId.value !in old(db.t.users))) ==>
      r == Err(500, "Error creating question: " + ForeignKeyMessage) && db.t == old(db.t)
    ensures (Given(content) && GivenId(userId) && !Profanity.ContainsProfanity(content.value) &&
             e in old(db.t.events) && userId.value in old(db.t.users)) ==>
      var id := old(db.t.lastQuestion) + 1;
      r == Ok(201, id) && id !in old(db.t.questions) &&
      db.t == old(db.t).(questions := old(db.t.questions)[id := Question(content.value, e, userId.value, 0, now)], lastQuestion := id)
  {
    if !Given(content) || !GivenId(userId) {
      return Err(400, "Content and user_id are required");
    }
    if Profanity.ContainsProfanity(content.value) {
      return Err(400, "Question contains inappropriate language");
    }
    var outcome := db.InsertQuestion(content.value, e, userId.value, 0, now);
    if outcome.Failed? {
      return Err(500, "Error creating question: " + outcome.message);
    }
    r := Ok(201, outcome.n);
  }

  /** `updateQuestion`: only the text of the target question changes; an
      unknown id is 404, and an absent text is refused by the NOT NULL column. */
  method UpdateQuestion(db: Database, id: int, content: Option<string>) returns (r: Reply<string>)
    requires db.Valid()
    modifies db
    ensures db.Valid()
    ensures id !in old(db.t.questions) ==> r == Err(404, "Question not found") && db.t == old(db.t)
    ensures id in old(db.t.questions) && content.None? ==> r == Err(500, "Database error") && db.t == old(db.t)
    ensures id in old(db.t.questions) && content.Some? ==>
      r == Ok(200, "Question updated successfully") &&
      db.t == old(db.t).(questions := old(db.t.questions)[id := old(db.t.questions)[id].(text := content.value)])
  {
    var outcome := db.UpdateQuestionText(id, content);
    if outcome.Failed? {
      return Err(500, "Database error");
    }
    if outcome.n == 0 {
      return Err(404, "Question not found");
    }
    r := Ok(200, "Question updated successfully");
  }

  /** `deleteQuestion`: removes that question only; an unknown id is 404. */
  method DeleteQuestion(db: Database, id: int) returns (r: Reply<string>)
    requires db.Valid()
    modifies db
    ensures db.Valid()
    ensures id !in old(db.t.questions) ==> r == Err(404, "Question not found") && db.t == old(db.t)
    ensures id in old(db.t.questions) ==>
      r == Ok(200, "Question deleted successfully") && db.t == old(db.t).(questions := old(db.t.questions) - {id})
  {
    var changes := db.DeleteQuestionRow(id);
    if changes == 0 {
      return Err(404, "Question not found");
    }
    r := Ok(200, "Question deleted successfully");
  }

  /** `upvoteQuestion`: raises that question's count by exactly one and touches
      nothing else; an unknown id is 404. */
  method UpvoteQuestion(db: Database, id: int) returns (r: Reply<string>)
    requires db.Valid()
    modifies db
    ensures db.Valid()
    ensures id !in old(db.t.questions) ==> r == Err(404, "Question not found") && db.t == old(db.t)
    ensures id in old(db.t.questions) ==>
      r == Ok(200, "Question upvoted successfully") &&
      db.t == old(db.t).(questions := old(db.t.questions)[id := old(db.t.questions)[id].(upvotes := old(db.t.questions)[id].upvotes + 1)])
  {
    var changes := db.IncrementUpvotes(id);
    if changes == 0 {
      return Err(404, "Question not found");
    }
    r := Ok(200, "Question upvoted successfully");
  }
}
